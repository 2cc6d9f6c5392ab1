/**
 * The element loop of `render`: every path element is turned into builder
 * calls, filled with the non-zero rule and composited onto the shared raster
 * in a fixed colour; every other element is skipped with a warning.
 */
module Render {
  import opened Wrappers
  import opened Svg
  import opened Builder
  import opened PathTranslator

  /** The colour every path is filled with, `Rgba8::rgb(208, 255, 208)`. */
  const PathColour := Rgb(208, 255, 208)

  /** One `over` call: the coverage mask of `path` under `rule`, painted in `colour`. */
  datatype Layer = Layer(path: seq<Op>, rule: FillRule, colour: Rgb)

  /**
   * The pixel buffer, seen as the sequence of masks composited onto it, in
   * order, over the pixels it was created with.
   */
  class Raster {
    const width: nat
    const height: nat
    var layers: seq<Layer>

    constructor (width: nat, height: nat)
      ensures this.width == width && this.height == height
      ensures layers == []
    {
      this.width := width;
      this.height := height;
      layers := [];
    }

    /** Composites the mask of `path` under `rule` in `colour` on top of everything drawn so far. */
    method Over(path: seq<Op>, rule: FillRule, colour: Rgb)
      modifies this
      ensures layers == old(layers) + [Layer(path, rule, colour)]
    {
      layers := layers + [Layer(path, rule, colour)];
    }
  }

  /** The builder calls for a path element: none when it carries no path data. */
  function PathOps(d: Option<seq<Segment>>): seq<Op>
  {
    match d
    case None => []
    case Some(segs) => Run(segs).ops
  }

  /** What one element composites: one layer for a path, nothing otherwise. */
  function ElementLayers(e: Element): seq<Layer>
  {
    match e
    case Path(d) => [Layer(PathOps(d), NonZero, PathColour)]
    case Other(_) => []
  }

  /** A printed warning: an unknown segment inside a path, or an unknown element by name. */
  datatype Warning = PathUnknown | ElementUnknown(id: string)

  /** How many segments of a path element's `d` attribute have no arm. */
  function UnknownSegments(d: Option<seq<Segment>>): nat
  {
    match d
    case None => 0
    case Some(segs) => |segs| - |Known(segs)|
  }

  /** What one element warns about: each unknown segment of a path, or the element's name otherwise. */
  function ElementWarnings(e: Element): seq<Warning>
  {
    match e
    case Path(d) => seq(UnknownSegments(d), _ => PathUnknown)
    case Other(id) => [ElementUnknown(id)]
  }

  /** The layers composited for a run of elements, in document order. */
  function Layers(elems: seq<Element>): seq<Layer>
  {
    if elems == [] then []
    else Layers(elems[..|elems| - 1]) + ElementLayers(elems[|elems| - 1])
  }

  /** The warnings printed for a run of elements, in the order printed. */
  function Warnings(elems: seq<Element>): seq<Warning>
  {
    if elems == [] then []
    else Warnings(elems[..|elems| - 1]) + ElementWarnings(elems[|elems| - 1])
  }

  /** The total number of unknown segments over a run of `d` attributes. */
  function TotalUnknownSegments(ds: seq<Option<seq<Segment>>>): nat
  {
    if ds == [] then 0
    else TotalUnknownSegments(ds[..|ds| - 1]) + UnknownSegments(ds[|ds| - 1])
  }

  /** The `d` attributes of the path elements, in document order. */
  function PathData(elems: seq<Element>): seq<Option<seq<Segment>>>
  {
    if elems == [] then []
    else
      var last := elems[|elems| - 1];
      PathData(elems[..|elems| - 1]) + if last.Path? then [last.d] else []
  }

  /**
   * Renders the elements onto a fresh `width` by `height` raster, as the
   * loop in `render` does, and returns the warnings it prints, for
   * unknown segments and unknown elements alike, in the order printed.
   */
  method Render(elems: seq<Element>, width: nat, height: nat) returns (r: Raster, warnings: seq<Warning>)
    ensures fresh(r) && r.width == width && r.height == height
    ensures r.layers == Layers(elems)
    ensures warnings == Warnings(elems)
  {
    r := new Raster(width, height);
    warnings := [];
    var i := 0;
    while i < |elems|
      invariant 0 <= i <= |elems|
      invariant r.width == width && r.height == height
      invariant r.layers == Layers(elems[..i])
      invariant warnings == Warnings(elems[..i])
    {
      assert elems[..i + 1][..i] == elems[..i];
      match elems[i] {
        case Path(d) =>
          var ops: seq<Op> := [];
          if d.Some? {
            var oldX, oldY, skipped;
            ops, oldX, oldY, skipped := TranslateSegments(d.value);
            warnings := warnings + seq(skipped, _ => PathUnknown);
          }
          r.Over(ops, NonZero, PathColour);
        case Other(id) =>
          warnings := warnings + [ElementUnknown(id)];
      }
      i := i + 1;
    }
    assert elems[..i] == elems;
  }

  /**
   * One layer per path element, in document order, each filled with the
   * non-zero rule in the path colour, its path built from that element's own
   * `d` attribute starting at the origin.
   */
  lemma {:induction false} LayersFollowPaths(elems: seq<Element>)
    ensures |Layers(elems)| == |PathData(elems)|
    ensures forall k :: 0 <= k < |Layers(elems)| ==>
      Layers(elems)[k] == Layer(PathOps(PathData(elems)[k]), NonZero, PathColour)
  {
    if elems != [] {
      LayersFollowPaths(elems[..|elems| - 1]);
    }
  }

  /**
   * One warning per element that is not a path, plus one per unknown segment
   * inside the path elements.
   */
  lemma {:induction false} WarningCount(elems: seq<Element>)
    ensures |Warnings(elems)| + |PathData(elems)| == |elems| + TotalUnknownSegments(PathData(elems))
  {
    if elems != [] {
      var init, last := elems[..|elems| - 1], elems[|elems| - 1];
      WarningCount(init);
      if last.Path? {
        var ds := PathData(elems);
        assert ds == PathData(init) + [last.d];
        assert ds[..|ds| - 1] == PathData(init);
        assert TotalUnknownSegments(ds) == TotalUnknownSegments(PathData(init)) + UnknownSegments(last.d);
      } else {
        assert PathData(elems) == PathData(init);
      }
    }
  }

  /** Elements are rendered independently: a run's layers are those of its parts, in order. */
  lemma {:induction false} LayersAppend(a: seq<Element>, b: seq<Element>)
    ensures Layers(a + b) == Layers(a) + Layers(b)
    decreases |b|
  {
    if b == [] {
      assert a + b == a;
    } else {
      var init, last := b[..|b| - 1], b[|b| - 1];
      LayersAppend(a, init);
      assert (a + b)[..|a + b| - 1] == a + init;
      assert (a + b)[|a + b| - 1] == last;
      calc {
        Layers(a + b);
        Layers(a + init) + ElementLayers(last);
        Layers(a) + Layers(init) + ElementLayers(last);
        Layers(a) + (Layers(init) + ElementLayers(last));
      }
    }
  }

  /** Warnings, too, are those of the parts of a run, in order. */
  lemma {:induction false} WarningsAppend(a: seq<Element>, b: seq<Element>)
    ensures Warnings(a + b) == Warnings(a) + Warnings(b)
    decreases |b|
  {
    if b == [] {
      assert a + b == a;
    } else {
      var init, last := b[..|b| - 1], b[|b| - 1];
      WarningsAppend(a, init);
      assert (a + b)[..|a + b| - 1] == a + init;
      assert (a + b)[|a + b| - 1] == last;
      calc {
        Warnings(a + b);
        Warnings(a + init) + ElementWarnings(last);
        Warnings(a) + Warnings(init) + ElementWarnings(last);
        Warnings(a) + (Warnings(init) + ElementWarnings(last));
      }
    }
  }

  /** An element that is not a path only adds its warning: the elements around it render as without it. */
  lemma OtherElementSkipped(a: seq<Element>, id: string, b: seq<Element>)
    ensures Layers(a + [Other(id)] + b) == Layers(a + b)
    ensures Warnings(a + [Other(id)] + b) == Warnings(a) + [ElementUnknown(id)] + Warnings(b)
  {
    var skipped := [Other(id)];
    assert a + [Other(id)] + b == (a + skipped) + b;
    assert skipped[..0] == [];
    assert Layers(skipped) == [];
    assert Warnings(skipped) == [ElementUnknown(id)];
    LayersAppend(a + skipped, b);
    LayersAppend(a, skipped);
    LayersAppend(a, b);
    assert Layers(a + skipped) == Layers(a);
    WarningsAppend(a + skipped, b);
    WarningsAppend(a, skipped);
  }

  /** A path element without path data still triggers one fill, of an empty path. */
  lemma EmptyPathFilled(d: Option<seq<Segment>>)
    requires d.None? || d == Some([])
    ensures Layers([Path(d)]) == [Layer([], NonZero, PathColour)]
  {
    assert [Path(d)][..0] == [];
  }
}
