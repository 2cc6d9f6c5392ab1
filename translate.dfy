/**
 * The segment-to-builder loop of `render`: each segment of a path element
 * becomes a mode switch followed by one drawing call, while `(old_x, old_y)`
 * remembers raw operands so that horizontal and vertical lines can supply
 * the axis they lack. No coordinate is resolved here: relative operands go to
 * the builder's relative mode unchanged.
 */
module PathTranslator {
  import opened Wrappers
  import opened Svg
  import opened Builder

  /** The tracked `(old_x, old_y)`. */
  datatype Pos = Pos(x: Coord, y: Coord)

  /** Every path element starts tracking from here. */
  const Origin := Pos(0.0, 0.0)

  /** The builder calls made so far and the tracked position after them. */
  datatype Trace = Trace(ops: seq<Op>, pos: Pos)

  /** `absolute()` when the segment's flag is set, `relative()` otherwise. */
  function ModeOp(abs: bool): Op
  {
    if abs then Absolute else Relative
  }

  /** The one drawing call a recognised segment makes, given the tracked position. */
  function DrawOp(seg: Segment, tracked: Pos): Op
    requires seg.Recognised()
  {
    match seg
    case MoveTo(_, x, y) => Op.MoveTo(x, y)
    case LineTo(_, x, y) => Op.LineTo(x, y)
    case HorizontalLineTo(_, x) => Op.LineTo(x, tracked.y)
    case VerticalLineTo(_, y) => Op.LineTo(tracked.x, y)
    case Quadratic(_, x1, y1, x, y) => QuadTo(x1, y1, x, y)
    case CurveTo(_, x1, y1, x2, y2, x, y) => CubicTo(x1, y1, x2, y2, x, y)
    case ClosePath(_) => Close
  }

  /** The calls one segment makes: none for an unknown kind. */
  function SegmentOps(seg: Segment, tracked: Pos): seq<Op>
  {
    if seg.Recognised() then [ModeOp(seg.abs), DrawOp(seg, tracked)] else []
  }

  /** The tracked position after one segment. */
  function NextPos(seg: Segment, tracked: Pos): Pos
  {
    match seg
    case MoveTo(_, x, y) => Pos(x, y)
    case LineTo(_, x, y) => Pos(x, y)
    case HorizontalLineTo(_, x) => tracked.(x := x)
    case VerticalLineTo(_, y) => tracked.(y := y)
    case _ => tracked
  }

  /** The calls made for a whole path and the final tracked position, starting from the origin. */
  function Run(segs: seq<Segment>): Trace
  {
    if segs == [] then Trace([], Origin)
    else
      var prev := Run(segs[..|segs| - 1]);
      var seg := segs[|segs| - 1];
      Trace(prev.ops + SegmentOps(seg, prev.pos), NextPos(seg, prev.pos))
  }

  /** The segments the renderer has an arm for, in order. */
  function Known(segs: seq<Segment>): (r: seq<Segment>)
    ensures |r| <= |segs|
    ensures forall k :: 0 <= k < |r| ==> r[k].Recognised()
  {
    if segs == [] then []
    else
      var last := segs[|segs| - 1];
      Known(segs[..|segs| - 1]) + if last.Recognised() then [last] else []
  }

  /**
   * Walks the segments of one path element, as the loop in `render` does:
   * returns the builder calls, the final `(old_x, old_y)` and the number of
   * segments skipped with a warning.
   */
  method TranslateSegments(segs: seq<Segment>) returns (ops: seq<Op>, oldX: Coord, oldY: Coord, skipped: nat)
    ensures Trace(ops, Pos(oldX, oldY)) == Run(segs)
    ensures |ops| == 2 * |Known(segs)|
    ensures skipped + |Known(segs)| == |segs|
  {
    ops, oldX, oldY, skipped := [], 0.0, 0.0, 0;
    var i := 0;
    while i < |segs|
      invariant 0 <= i <= |segs|
      invariant Trace(ops, Pos(oldX, oldY)) == Run(segs[..i])
      invariant skipped + |Known(segs[..i])| == i
    {
      assert segs[..i + 1][..i] == segs[..i];
      match segs[i] {
        case MoveTo(abs, x, y) =>
          ops := ops + [ModeOp(abs), Op.MoveTo(x, y)];
          oldX, oldY := x, y;
        case LineTo(abs, x, y) =>
          ops := ops + [ModeOp(abs), Op.LineTo(x, y)];
          oldX, oldY := x, y;
        case HorizontalLineTo(abs, x) =>
          ops := ops + [ModeOp(abs), Op.LineTo(x, oldY)];
          oldX := x;
        case VerticalLineTo(abs, y) =>
          ops := ops + [ModeOp(abs), Op.LineTo(oldX, y)];
          oldY := y;
        case Quadratic(abs, x1, y1, x, y) =>
          ops := ops + [ModeOp(abs), QuadTo(x1, y1, x, y)];
        case CurveTo(abs, x1, y1, x2, y2, x, y) =>
          ops := ops + [ModeOp(abs), CubicTo(x1, y1, x2, y2, x, y)];
        case ClosePath(abs) =>
          ops := ops + [ModeOp(abs), Close];
        case Unknown =>
          skipped := skipped + 1;
      }
      i := i + 1;
    }
    assert segs[..i] == segs;
    RunLength(segs);
  }

  /** Two calls per recognised segment, none per unknown one. */
  lemma {:induction false} RunLength(segs: seq<Segment>)
    ensures |Run(segs).ops| == 2 * |Known(segs)|
  {
    if segs != [] {
      RunLength(segs[..|segs| - 1]);
    }
  }

  // Reading the calls back

  /** The segment a mode switch and a drawing call stand for, if the call is a drawing call. */
  function Undraw(abs: bool, op: Op): Option<Segment>
  {
    match op
    case MoveTo(x, y) => Some(Segment.MoveTo(abs, x, y))
    case LineTo(x, y) => Some(Segment.LineTo(abs, x, y))
    case QuadTo(x1, y1, x, y) => Some(Quadratic(abs, x1, y1, x, y))
    case CubicTo(x1, y1, x2, y2, x, y) => Some(CurveTo(abs, x1, y1, x2, y2, x, y))
    case Close => Some(ClosePath(abs))
    case _ => None
  }

  /**
   * Reads a call sequence back as segments: it must consist of pairs, each a
   * mode switch followed by a drawing call.
   */
  function Decode(ops: seq<Op>): (r: Option<seq<Segment>>)
    ensures r.Some? ==> |ops| == 2 * |r.value|
    ensures r.Some? ==> forall k :: 0 <= k < |r.value| ==> r.value[k].Recognised()
  {
    if ops == [] then Some([])
    else if |ops| < 2 || !ops[0].IsMode() then None
    else
      match (Undraw(ops[0].Absolute?, ops[1]), Decode(ops[2..]))
      case (Some(seg), Some(rest)) => Some([seg] + rest)
      case _ => None
  }

  /** The segment as the builder receives it: an axis line becomes a full line through the tracked position. */
  function Canon(seg: Segment, tracked: Pos): Segment
    requires seg.Recognised()
  {
    match seg
    case HorizontalLineTo(abs, x) => Segment.LineTo(abs, x, tracked.y)
    case VerticalLineTo(abs, y) => Segment.LineTo(abs, tracked.x, y)
    case _ => seg
  }

  /** Appending one segment's calls appends its canonical form to what they read back as. */
  lemma {:induction false} DecodeAppend(ops: seq<Op>, seg: Segment, tracked: Pos)
    requires Decode(ops).Some?
    requires seg.Recognised()
    ensures Decode(ops + SegmentOps(seg, tracked)) == Some(Decode(ops).value + [Canon(seg, tracked)])
    decreases |ops|
  {
    var tail := SegmentOps(seg, tracked);
    assert tail[0].Absolute? == seg.abs;
    assert Undraw(seg.abs, tail[1]) == Some(Canon(seg, tracked));
    if ops == [] {
      assert ops + tail == tail;
      assert Decode(tail[2..]) == Some([]);
      assert Decode(tail) == Some([Canon(seg, tracked)] + []);
      assert Decode(ops).value + [Canon(seg, tracked)] == [Canon(seg, tracked)] + [];
    } else {
      var rest := Decode(ops[2..]);
      assert rest.Some? && Undraw(ops[0].Absolute?, ops[1]).Some?;
      assert (ops + tail)[..2] == ops[..2];
      assert (ops + tail)[2..] == ops[2..] + tail;
      DecodeAppend(ops[2..], seg, tracked);
      var first := Undraw(ops[0].Absolute?, ops[1]).value;
      assert Decode(ops).value == [first] + rest.value;
      assert (ops + tail)[0] == ops[0] && (ops + tail)[1] == ops[1];
      assert Decode(ops + tail) == Some([first] + (rest.value + [Canon(seg, tracked)]));
      assert [first] + (rest.value + [Canon(seg, tracked)]) == ([first] + rest.value) + [Canon(seg, tracked)];
    }
  }

  /**
   * The calls for any path read back as one segment per recognised input
   * segment, in order, with the same absolute/relative flag; every kind but
   * the axis lines comes back exactly, operands in source order, and an axis
   * line comes back as a line.
   */
  lemma {:induction false} DecodeRun(segs: seq<Segment>)
    ensures Decode(Run(segs).ops).Some?
    ensures var back := Decode(Run(segs).ops).value;
      |back| == |Known(segs)| &&
      forall k :: 0 <= k < |back| ==>
        back[k].abs == Known(segs)[k].abs &&
        (Known(segs)[k].IsAxisLine() ==> back[k].LineTo?) &&
        (!Known(segs)[k].IsAxisLine() ==> back[k] == Known(segs)[k])
  {
    if segs != [] {
      var init := segs[..|segs| - 1];
      var seg := segs[|segs| - 1];
      var prev := Run(init);
      DecodeRun(init);
      assert Run(segs).ops == prev.ops + SegmentOps(seg, prev.pos);
      if seg.Recognised() {
        DecodeAppend(prev.ops, seg, prev.pos);
        var back := Decode(Run(segs).ops).value;
        assert back == Decode(prev.ops).value + [Canon(seg, prev.pos)];
        assert Known(segs) == Known(init) + [seg];
      } else {
        assert Run(segs).ops == prev.ops;
        assert Known(segs) == Known(init);
      }
    }
  }

  /** A path of moves, lines, curves and closes only reads back as exactly its recognised segments. */
  lemma RoundTrip(segs: seq<Segment>)
    requires forall k :: 0 <= k < |segs| ==> !segs[k].IsAxisLine()
    ensures Decode(Run(segs).ops) == Some(Known(segs))
  {
    KnownSubset(segs);
    DecodeRun(segs);
    var back := Decode(Run(segs).ops).value;
    assert back == Known(segs);
  }

  /** Every recognised segment is one of the input segments. */
  lemma {:induction false} KnownSubset(segs: seq<Segment>)
    ensures forall k :: 0 <= k < |Known(segs)| ==> Known(segs)[k] in segs
  {
    if segs != [] {
      var init := segs[..|segs| - 1];
      KnownSubset(init);
      forall k | 0 <= k < |Known(init)| ensures Known(init)[k] in segs {
        assert Known(init)[k] in init;
      }
    }
  }

  // The tracked position

  /**
   * `old_x` is the raw `x` operand of the last move, line or horizontal line,
   * whatever its absolute/relative flag, or 0 when there is none (`j == -1`).
   */
  lemma {:induction false} TrackedX(segs: seq<Segment>, j: int)
    requires -1 <= j < |segs|
    requires j >= 0 ==> segs[j].SetsX()
    requires forall k :: j < k < |segs| ==> !segs[k].SetsX()
    ensures Run(segs).pos.x == if j < 0 then 0.0 else segs[j].x
  {
    if segs != [] && j < |segs| - 1 {
      var init := segs[..|segs| - 1];
      assert !segs[|segs| - 1].SetsX();
      assert j >= 0 ==> init[j] == segs[j];
      TrackedX(init, j);
    }
  }

  /**
   * `old_y` is the raw `y` operand of the last move, line or vertical line,
   * whatever its absolute/relative flag, or 0 when there is none (`j == -1`).
   */
  lemma {:induction false} TrackedY(segs: seq<Segment>, j: int)
    requires -1 <= j < |segs|
    requires j >= 0 ==> segs[j].SetsY()
    requires forall k :: j < k < |segs| ==> !segs[k].SetsY()
    ensures Run(segs).pos.y == if j < 0 then 0.0 else segs[j].y
  {
    if segs != [] && j < |segs| - 1 {
      var init := segs[..|segs| - 1];
      assert !segs[|segs| - 1].SetsY();
      assert j >= 0 ==> init[j] == segs[j];
      TrackedY(init, j);
    }
  }

  /**
   * A horizontal line draws to its own `x` at the `y` of the last segment
   * that set `old_y` (0 if none), and then tracks that point.
   */
  lemma HorizontalLineUsesTrackedY(pre: seq<Segment>, abs: bool, x: Coord, j: int)
    requires -1 <= j < |pre|
    requires j >= 0 ==> pre[j].SetsY()
    requires forall k :: j < k < |pre| ==> !pre[k].SetsY()
    ensures var y := if j < 0 then 0.0 else pre[j].y;
      Run(pre + [HorizontalLineTo(abs, x)]) == Trace(Run(pre).ops + [ModeOp(abs), Op.LineTo(x, y)], Pos(x, y))
  {
    TrackedY(pre, j);
    assert (pre + [HorizontalLineTo(abs, x)])[..|pre|] == pre;
  }

  /**
   * A vertical line draws to its own `y` at the `x` of the last segment
   * that set `old_x` (0 if none), and then tracks that point.
   */
  lemma VerticalLineUsesTrackedX(pre: seq<Segment>, abs: bool, y: Coord, j: int)
    requires -1 <= j < |pre|
    requires j >= 0 ==> pre[j].SetsX()
    requires forall k :: j < k < |pre| ==> !pre[k].SetsX()
    ensures var x := if j < 0 then 0.0 else pre[j].x;
      Run(pre + [VerticalLineTo(abs, y)]) == Trace(Run(pre).ops + [ModeOp(abs), Op.LineTo(x, y)], Pos(x, y))
  {
    TrackedX(pre, j);
    assert (pre + [VerticalLineTo(abs, y)])[..|pre|] == pre;
  }

  /** Curves and closes leave the tracked position alone: a control point never becomes it. */
  lemma ControlPointsNotTracked(pre: seq<Segment>, seg: Segment)
    requires seg.Quadratic? || seg.CurveTo? || seg.ClosePath?
    ensures Run(pre + [seg]).pos == Run(pre).pos
    ensures |Run(pre + [seg]).ops| == |Run(pre).ops| + 2
  {
    assert (pre + [seg])[..|pre|] == pre;
  }

  /** An unknown segment anywhere in a path changes neither the calls nor the tracked position. */
  lemma {:induction false} UnknownSegmentIgnored(pre: seq<Segment>, post: seq<Segment>)
    ensures Run(pre + [Unknown] + post) == Run(pre + post)
    decreases |post|
  {
    if post == [] {
      assert pre + [Unknown] + post == pre + [Unknown];
      assert (pre + [Unknown])[..|pre|] == pre;
      assert pre + post == pre;
    } else {
      var init := post[..|post| - 1];
      UnknownSegmentIgnored(pre, init);
      assert (pre + [Unknown] + post)[..|pre + [Unknown] + post| - 1] == pre + [Unknown] + init;
      assert (pre + post)[..|pre + post| - 1] == pre + init;
    }
  }
}
