# foosvg path rendering, modelled in Dafny

foosvg renders an SVG document onto a pixel buffer. `render` (src/lib.rs)
asks usvg to simplify the document. It then walks the elements of the
result in document order. For each `path` element it builds a footile path
from the element's `d` attribute, fills it with the non-zero rule, and
composites the fill in the colour rgb(208, 255, 208) onto a shared raster.
It skips every other element with a warning.

This project models that element loop and the segment loop inside it:

- `svg.dfy` (module `Svg`): the normalised path segments (`MoveTo`,
  `LineTo`, `HorizontalLineTo`, `VerticalLineTo`, `Quadratic`, `CurveTo`,
  `ClosePath`, plus `Unknown` for every kind without an arm) and the
  elements (`Path` with an optional `d`, or `Other`).
- `builder.dfy` (module `Builder`): the `PathBuilder` calls the renderer
  makes (`absolute()`, `relative()`, `move_to`, `line_to`, `quad_to`,
  `cubic_to`, `close`), the fill rule and the colour.
- `translate.dfy` (module `PathTranslator`): the segment loop.
  - `TranslateSegments` is the loop as a method. It appends calls to a
    sequence and updates `old_x`/`old_y`.
  - `Run` is the function that specifies the loop.
  - `Decode` reads the calls back as segments. It is the partner of `Run`
    in a round-trip lemma.
  - The lemmas pin down which raw operand is tracked.
- `render.dfy` (module `Render`): the element loop. `Raster` is the shared
  raster, seen as the list of masks composited onto it. `Render` is the
  loop. The lemmas cover one fill per path element, independence of
  elements, and warnings for the other elements.

The code does not resolve coordinates. It passes every segment's raw
operands to footile, after switching footile to absolute or relative mode
according to the segment's flag. `old_x`/`old_y` store raw operands too,
even for relative segments. So a relative horizontal line is drawn with
the raw `y` of the last segment that set `old_y`, not with the resolved
current point. Nothing resolves relative operands against a current point,
nothing records a subpath start, and `ClosePath` leaves `old_x`/`old_y`
unchanged. The model keeps this behaviour.

## Model

| member | source | states |
|---|---|---|
| PathTranslator.TranslateSegments | src/lib.rs:24-99 | Starting from `old_x = old_y = 0`, the loop's calls and final `(old_x, old_y)` are exactly those of the specification `Run`. There are two calls per recognised segment. Each unknown segment is skipped and counted once. |
| PathTranslator.RunLength | src/lib.rs:33-97 | A path yields exactly twice as many builder calls as it has recognised segments. Unknown segments yield none. |
| PathTranslator.DecodeAppend | src/lib.rs:32-94 | A recognised segment's calls are a mode switch followed by one drawing call. That pair reads back as the segment, with an axis line completed from the tracked position. |
| PathTranslator.DecodeRun | src/lib.rs:33-94 | A path's calls always split into (mode switch, drawing call) pairs, one per recognised segment, in order. `absolute()` is chosen exactly when the segment's flag is set. Move, line, quadratic, cubic and close map to `move_to`, `line_to`, `quad_to`, `cubic_to` and `close` with the operands in source order. Horizontal and vertical lines become `line_to`. |
| PathTranslator.RoundTrip | src/lib.rs:33-94 | For a path without axis lines, reading the calls back gives exactly its recognised segments. |
| PathTranslator.TrackedX | src/lib.rs:25-60 | `old_x` is the raw `x` of the last move, line or horizontal line, whatever its absolute/relative flag. It is 0 if there is none. |
| PathTranslator.TrackedY | src/lib.rs:26-69 | `old_y` is the raw `y` of the last move, line or vertical line, whatever its absolute/relative flag. It is 0 if there is none. |
| PathTranslator.HorizontalLineUsesTrackedY | src/lib.rs:53-61 | A horizontal line emits its mode switch and then `line_to(x, y)`. Here `y` is the raw `y` of the last segment that set `old_y`, or 0. Only `old_x` changes. |
| PathTranslator.VerticalLineUsesTrackedX | src/lib.rs:62-70 | A vertical line emits its mode switch and then `line_to(x, y)`. Here `x` is the raw `x` of the last segment that set `old_x`, or 0. Only `old_y` changes. |
| PathTranslator.ControlPointsNotTracked | src/lib.rs:71-94 | Quadratic curves, cubic curves and closes emit two calls and leave `(old_x, old_y)` unchanged. A control point never becomes the tracked position. |
| PathTranslator.UnknownSegmentIgnored | src/lib.rs:95-97 | An unknown segment anywhere in a path changes neither the calls nor the tracked position of the segments after it. |
| Render.Raster.constructor | src/lib.rs:16-17 | A new raster has the requested size and nothing composited on it. |
| Render.Raster.Over | src/lib.rs:103 | Compositing puts one mask, with its fill rule and colour, on top of everything drawn before. |
| Render.Render | src/lib.rs:21-109 | After the element loop, the raster holds exactly the layers of `Layers(elems)`, in document order. The returned warnings are those of `Warnings(elems)`, in the order printed: one per unknown segment inside a path, one per element that is not a path. |
| Render.LayersFollowPaths | src/lib.rs:23-104 | There is one fill per path element, in document order. Each uses the non-zero rule and rgb(208, 255, 208). Its path is built from that element's own `d` attribute, starting from (0, 0). |
| Render.WarningCount | src/lib.rs:95-107 | The number of warnings is the number of elements that are not paths plus the number of unknown segments inside the path elements. |
| Render.LayersAppend | src/lib.rs:21-109 | The layers of a run of elements are the layers of its parts, concatenated in order. No state carries over from one element to the next. |
| Render.WarningsAppend | src/lib.rs:21-109 | The warnings of a run of elements are the warnings of its parts, concatenated in order. |
| Render.OtherElementSkipped | src/lib.rs:105-108 | An element that is not a path, placed anywhere, only adds its warning. The elements around it render exactly as they would without it. |
| Render.EmptyPathFilled | src/lib.rs:28-103 | A path element with no `d` attribute, or with no segments, still triggers one fill, of the empty path. |

## Left out

- Parsing and simplification of the SVG text by usvg and svgdom (`Tree::from_str`, `to_svgdom`, `Document::from_str`), and the panics of their `unwrap()` on bad input. These are foreign library calls. The model takes the simplified elements as input.
- The traversal `doc.root().descendants().svg()`. The model takes the elements as a sequence already in document order.
- footile's scan conversion (`Plotter::fill`) and the alpha compositing of `Raster::over`. These are pixel-level floating-point code in another library. A composited fill is recorded as a `Layer` of its path, fill rule and colour.
- The caller-supplied initial pixels of `Raster::with_pixels`. These are the background that the layers are composited over.
- The return of the final pixels (`r.into()`).
- The alpha channel of `Rgba8::rgb`, which is always opaque.
- The `f64` to `f32` narrowing of every operand. Coordinates are modelled as `real` and copied unchanged, so rounding is not modelled.
- The `println!` of every segment at src/lib.rs:31. This is debug output.
- The text of the warnings. An unknown-segment warning is recorded as `PathUnknown`, without the segment's debug text. An element warning is recorded by the element's name.
- The `it_works` placeholder test and the example driver `examples/foosvg512.rs`, which handle arguments, file reading and PNG encoding.
