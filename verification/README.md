# Pose overlay and wide-table export — a Dafny model

`run_pose.py` reads a video, asks a pose estimator for 33 body landmarks per
frame, draws the skeleton on the frame and writes one wide CSV row per
frame. Almost all of it is glue over OpenCV, MediaPipe, argparse and tqdm.
This project models the pure logic inside that glue and proves its
properties:

- **Skeleton draw selection** (`draw_pose`). Given the landmark list, the frame size and the
  visibility threshold, it works out which bones and which joints are drawn,
  in which order, and at which integer pixels. Bones come from the fixed
  20-pair topology `POSE_CONNECTIONS`. The model returns a draw list
  instead of calling the rasteriser. The selection and the drawing take
  the topology as a parameter; `Pipeline.Run` passes `POSE_CONNECTIONS`,
  as the script always does.
- **Wide-table layout.** The header is `frame_idx`, `time_sec`, `x_i`, `y_i`,
  `z_i`, `v_i` for i in 0..32. Each row is `[frame_idx, frame_idx/fps]`
  followed by the landmark tuples flattened in order. A frame without a
  detection gets 33 all-NaN tuples.
- **Defaults and the frame loop.** Output paths derive from the input stem
  when the option is empty. The capture's metadata falls back with
  Python's `x or default`. The frame counter starts at 0 and goes up by
  one per frame. The run stops on a missing input, a bad path or an
  unopenable capture.

Representation choices:

- A landmark is four `Option<real>` components. `None` stands for float NaN.
  The comparison `v >= vis_thr` is true only for `Some(v)` with
  `v >= vis_thr`, because every comparison with NaN is false. Equality
  with the threshold counts as drawn.
- Python `int()` on a float is `Numerals.Trunc`, which rounds toward zero.
  For negative products, such as landmarks left of the frame, this is not
  the floor.
- A path is pathlib's parsed form: an anchor and a list of components.

Modules: `Wrappers` (Option/Result), `Numerals` (truncation, decimal text),
`Landmarks`, `Skeleton` (`draw_pose`), `WideTable` (header and rows),
`Paths` (default outputs), `Pipeline` (`main`).

Three behaviours of `run_pose.py` are easy to misread:

- Pixel coordinates come from `int()`, which truncates toward zero rather
  than flooring.
- `int()` of NaN raises `ValueError`. So a landmark that passes the
  visibility test but has a NaN `x` or `y` makes `draw_pose` raise, and
  the run ends. That frame's CSV row has already been written, but its
  video frame has not. `Skeleton.DrawPose` and `Pipeline.Run` model this.
- Only the NaN fill is guaranteed a 134-cell row. A detected pose gives
  `2 + 4 * len(landmarks)` cells, which is 134 when the estimator returns
  33 landmarks and differs from the header's width otherwise.

## Model

| member | source | states |
|---|---|---|
| `Numerals.Trunc` | run_pose.py:24-25 | `int(r)` rounds toward zero: for r >= 0 the result is the largest integer not above r, for r < 0 the smallest integer not below r |
| `Numerals.TruncOdd` | run_pose.py:24-25 | truncation is symmetric about zero: `int(-r) == -int(r)` |
| `Numerals.TruncVersusFloor` | run_pose.py:24-25 | truncation equals flooring for non-negative and whole numbers, and is one above the floor for negative non-whole numbers |
| `Numerals.NatToString` | run_pose.py:73 | the decimal text used in `x_{i}` is made only of digits, is one digit long iff the number is below 10, and starts with `0` only for 0 itself (no leading zeros) |
| `Numerals.ParseNatToString` | run_pose.py:73 | reading the decimal text of `i` gives back `i` |
| `Numerals.NatToStringInjective` | run_pose.py:73 | different landmark numbers get different texts |
| `Landmarks.NanFill` | run_pose.py:100-102 | the no-detection fill has exactly 33 tuples, each `(nan, nan, nan, nan)` |
| `Landmarks.FrameLandmarks` | run_pose.py:96-102 | a detection is used as is, in model order; no detection gives 33 tuples whose four components are all NaN |
| `Landmarks.NanFillInvisible` | run_pose.py:100-102 | no landmark of the NaN fill passes the visibility test, whatever the threshold |
| `Skeleton.Indices` | run_pose.py:19-30 | the selected indices come out strictly increasing, and an index below the bound is selected iff it passes the test |
| `Skeleton.IndicesUnique` | run_pose.py:19-30 | any strictly increasing list holding exactly the passing indices is the selection, so the selection's contract determines it |
| `Skeleton.DrawnConnections` | run_pose.py:19-23 | for a given topology, bone j is drawn iff both endpoint indices are below the list length and both visibilities are >= the threshold, with equality counting; bones come out in topology order |
| `Skeleton.DrawnPoints` | run_pose.py:28-29 | landmark i gets a dot iff its visibility is >= the threshold, whatever the connections, in landmark order |
| `Skeleton.PixelOf` | run_pose.py:24-25 | the pixel exists iff x and y are not NaN; each coordinate is x*w (resp. y*h) truncated toward zero: the largest integer not above a non-negative product, the smallest integer not below a negative one |
| `Skeleton.DrawLines` | run_pose.py:19-26 | over a given topology, the bone loop yields one line per drawn bone, in order, between its endpoints' pixels; it raises iff some drawn bone has an endpoint with a NaN x or y |
| `Skeleton.DrawDots` | run_pose.py:28-30 | the dot loop yields one dot per visible landmark, in order, at its pixel; it raises iff some visible landmark has a NaN coordinate |
| `Skeleton.DrawPose` | run_pose.py:16-30 | `draw_pose` raises iff some visible landmark has a NaN x or y; otherwise it draws exactly the lines of the given topology and then the dots described above |
| `Skeleton.BoneRaisesOnlyIfVisibleNan` | run_pose.py:19-26 | if the bone loop raises, some landmark passing the visibility test has a NaN x or y, so the dot loop would have raised too |
| `Skeleton.ConnectionsWellFormed` | run_pose.py:9-14 | the topology has 20 pairs, and each pair joins two different indices below 33 |
| `Skeleton.FullListGuardNeverSkips` | run_pose.py:19-23 | with at least 33 landmarks the bounds guard never skips a bone: bone j is drawn iff both endpoints are visible |
| `Skeleton.NanFillDrawsNothing` | run_pose.py:19-30 | for the NaN fill and any topology, no bone and no dot is drawn and drawing cannot raise; the empty draw list is the exact result |
| `Skeleton.BoneEndpointsAreDots` | run_pose.py:19-30 | for any topology, both endpoints of every drawn bone also get a dot |
| `Skeleton.ThresholdMonotone` | run_pose.py:23-29 | for any topology, raising the threshold never adds a bone or a dot |
| `WideTable.ColumnName` | run_pose.py:73 | the name of component k of landmark i is the axis letter x, y, z or v, then `_`, then the decimal text of i as `NatToString` fixes it, so without leading zeros (`x_5`, never `x_05`) |
| `WideTable.ParseColumnName` | run_pose.py:73 | every landmark column name reads back as its (landmark, component) pair |
| `WideTable.ColumnNamesDiffer` | run_pose.py:73 | two different (landmark, component) pairs never get the same column name |
| `WideTable.Header` | run_pose.py:70-73 | the header for n landmarks has 2 + 4n names: `frame_idx` and `time_sec` first, and column j >= 2 is named after component (j-2) mod 4 of landmark (j-2) div 4 |
| `WideTable.HeaderLayout` | run_pose.py:70-73 | entry 2+4i+k is the name of component k of landmark i; the 33-landmark header has 134 entries |
| `WideTable.HeaderDistinct` | run_pose.py:70-73 | no two header columns share a name |
| `WideTable.Flatten` | run_pose.py:105-106 | the flattened tuples have 4 cells per landmark, and cell j is component j mod 4 of landmark j div 4 |
| `WideTable.UnflattenFlatten` | run_pose.py:105-106 | reading the flattened cells back in groups of four gives the landmark list, NaN components included |
| `WideTable.Row` | run_pose.py:95-107 | a row has 2 + 4 * len(landmarks) cells: the frame index, then frame_idx / fps, then cell 2+j holding component (j mod 4) of landmark (j div 4) |
| `WideTable.ParseRowRoundTrip` | run_pose.py:95-107 | reading a written row gives back the frame index, the timestamp and the landmark list |
| `WideTable.RowLayout` | run_pose.py:95-107 | cell 2+4i+k is component k of landmark i; a row for a frame without detection has exactly 134 cells, all NaN after the first two |
| `WideTable.RowMatchesHeader` | run_pose.py:70-107 | every row is exactly as wide as the header for the same number of landmarks |
| `Paths.LastIndexOf` | run_pose.py:46-47 | `rfind` returns the last position of the character, or none when it does not occur |
| `Paths.SuffixStart` | run_pose.py:46-47 | the suffix starts at the last dot of the name exactly when that dot neither opens nor ends the name; otherwise there is no suffix |
| `Paths.StemSuffixSplit` | run_pose.py:46-47 | stem followed by suffix is the name, and the suffix is empty or a dot followed by non-dot characters |
| `Paths.WithName` | run_pose.py:46-47 | `with_name` fails iff the path has no name or the new name is invalid; otherwise it keeps the anchor and the directory and replaces the last component |
| `Paths.ResolveOutput` | run_pose.py:46-47 | a non-empty option is used as given; an empty option gives `<dir>/<stem><tail>`, which fails only when the input has no name |
| `Paths.DerivedOutputsDistinct` | run_pose.py:46-47 | a derived output never names the input file, and the derived video and CSV paths differ |
| `Pipeline.FrameRate` | run_pose.py:55 | the frame rate is the reading unless the reading is 0, then 30.0; so it is never 0 and the timestamp division is defined |
| `Pipeline.FrameSize` | run_pose.py:56-57 | a zero reading gives the default size; otherwise the reading truncated toward zero: the largest integer not above a positive reading, the smallest integer not below a negative one, so a reading strictly between 0 and 1 gives 0 |
| `Pipeline.SizeFallbackPrecedesTruncation` | run_pose.py:56-57 | the fallback applies before truncation: every non-zero reading strictly between -1 and 1 gives size 0, not the default |
| `Pipeline.ProcessFrames` | run_pose.py:79-113 | row i is the row of frame i, with the counter starting at 0; output frame i carries frame i's skeleton for the topology given; on a raising frame, its row is written and its frame is not, and processing stops there |
| `Pipeline.Run` | run_pose.py:42-113 | in the model, missing input fails first, then an unresolvable output path, then an unopenable capture. A modelled run succeeds iff none of these happens and no frame's drawing raises. When the inputs and paths are fine and some frame's drawing raises, the run ends in a drawing failure at the first such frame. On success and on a drawing failure alike, the output paths, frame rate, frame size and 134-column header are the ones derived from the options and the metadata. On success there is one row and one output frame per input frame. On a drawing failure the rows and draw lists of the earlier frames are all produced, at the derived frame rate, and the failing frame has its row but no draw list |

## Left out

- Video capture, decoding, the writer, codec selection and frame reading are I/O through OpenCV. Frames arrive as a list of (width, height, detection) values, and "file exists" and "capture opened" are inputs.
- MediaPipe pose inference is an opaque external model. Its result is the `detection` input of each frame.
- Rasterisation, anti-aliasing, colours, line thickness, dot radius and colour conversion are foreign calls. The model produces only the draw list.
- Alpha dimming (run_pose.py:92-93) is NumPy pixel arithmetic with dtype casting.
- Failures of the file system are not modelled: `mkdir` of the output directories (run_pose.py:48-49) and `open(out_csv, "w")` (run_pose.py:75) can raise, and `Pipeline.Run` treats both as succeeding. On an exception the writers are never released (run_pose.py:117-119 are skipped), so the MP4 holding the frames before a drawing failure may not be finalised. The model only records which rows and draw lists were produced.
- CSV quoting, float-to-text formatting, argparse, tqdm and the two console messages are library plumbing and I/O. `CAP_PROP_FRAME_COUNT` only feeds the progress bar.
- Floating point: products, the division `frame_idx / fps` and truncation are exact over `real`. IEEE rounding, infinities (`int(inf)` raises `OverflowError`) and a NaN frame-rate reading or NaN threshold are not modelled. Only NaN landmark components are modelled, as `None`.
- Path parsing from text (separators, `.` components, drives) is not modelled. Paths are taken already parsed. The `stem`/`suffix` rule is pathlib's as of Python 3.13.
- Resource release (`pose.close()`, `cap.release()`, `vw.release()`, run_pose.py:117-119) is not modelled: the model has no handles. What a skipped release means for the MP4 is noted above.
