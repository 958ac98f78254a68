/** The frame pipeline of `main`: the input check, the output paths, the
    metadata fallbacks, the header, and the per-frame loop that writes one
    row and one annotated frame per input frame. Video decoding, the pose
    estimator and the writers are outside the model: the frames arrive as a
    list of (frame size, detection) pairs and the outputs are returned. */
module Pipeline {
  import opened Wrappers
  import opened Numerals
  import opened Landmarks
  import opened Skeleton
  import opened WideTable
  import opened Paths

  const DEFAULT_FPS: real := 30.0
  const DEFAULT_WIDTH: int := 640
  const DEFAULT_HEIGHT: int := 360

  /** `cap.get(CAP_PROP_FPS) or 30.0`: a zero reading falls back, so the
      timestamp division is always defined. */
  function FrameRate(meta: real): (fps: real)
    ensures fps != 0.0
    ensures meta != 0.0 ==> fps == meta
    ensures meta == 0.0 ==> fps == DEFAULT_FPS
  {
    if meta != 0.0 then meta else DEFAULT_FPS
  }

  /** `int(cap.get(...) or default)`: the fallback applies to the raw float,
      before truncation. */
  function FrameSize(meta: real, default: int): (n: int)
    ensures meta == 0.0 ==> n == default
    ensures 0.0 < meta ==> n as real <= meta < n as real + 1.0
    ensures meta < 0.0 ==> n as real - 1.0 < meta <= n as real
    ensures 0.0 < meta < 1.0 ==> n == 0
  {
    Trunc(if meta != 0.0 then meta else default as real)
  }

  /** Because the fallback precedes truncation, a non-zero reading strictly
      between -1 and 1 yields a zero size rather than the default. */
  lemma SizeFallbackPrecedesTruncation(meta: real, default: int)
    requires -1.0 < meta < 1.0 && meta != 0.0
    ensures FrameSize(meta, default) == 0
  {
  }

  /** Command-line options that the model uses. */
  datatype Options = Options(input: Path, outVideo: string, outCsv: string, visThr: real)

  /** Raw readings of the capture's frame rate, width and height. */
  datatype Metadata = Metadata(fps: real, width: real, height: real)

  /** One decoded frame: its pixel size and what the estimator found. */
  datatype FrameIn = FrameIn(width: nat, height: nat, detection: Option<seq<Landmark>>)

  /** Everything the run produces: the two output targets, the writer's
      settings, the CSV header and rows, and the draw list of each frame. */
  datatype Outputs = Outputs(
    video: OutPath, csv: OutPath,
    fps: real, width: int, height: int,
    header: seq<string>, rows: seq<seq<Cell>>, frames: seq<DrawList>)

  datatype RunError =
    | FileNotFound
    | BadPath(error: PathError)
    | CannotOpen
    | DrawFailed(frameIdx: nat, partial: Outputs)

  /** Row `i` is the row of input frame `i`: the frame counter starts at 0
      and goes up by one per frame. */
  ghost predicate RowsOf(rows: seq<seq<Cell>>, frames: seq<FrameIn>, fps: real) {
    && fps != 0.0
    && |rows| <= |frames|
    && forall i :: 0 <= i < |rows| ==> rows[i] == Row(i, fps, FrameLandmarks(frames[i].detection))
  }

  /** Output frame `i` carries the skeleton of input frame `i`. */
  ghost predicate DrawsOf(drawn: seq<DrawList>, conns: seq<(nat, nat)>, frames: seq<FrameIn>, thr: real) {
    && |drawn| <= |frames|
    && forall i :: 0 <= i < |drawn| ==>
         IsDrawOf(drawn[i], conns, FrameLandmarks(frames[i].detection), frames[i].width, frames[i].height, thr)
  }

  /** The first `nRows` CSV rows and the first `nFrames` annotated frames
      are the ones frame-by-frame processing produces. */
  ghost predicate Produced(out: Outputs, conns: seq<(nat, nat)>, frames: seq<FrameIn>, thr: real, nRows: nat, nFrames: nat) {
    && |out.rows| == nRows && |out.frames| == nFrames
    && RowsOf(out.rows, frames, out.fps)
    && DrawsOf(out.frames, conns, frames, thr)
  }

  /** Appending the row of the next frame keeps the rows in step. */
  lemma RowsOfStep(rows: seq<seq<Cell>>, frames: seq<FrameIn>, fps: real)
    requires RowsOf(rows, frames, fps) && |rows| < |frames|
    ensures RowsOf(rows + [Row(|rows|, fps, FrameLandmarks(frames[|rows|].detection))], frames, fps)
  {
  }

  /** Appending the drawing of the next frame keeps the drawings in step. */
  lemma DrawsOfStep(drawn: seq<DrawList>, conns: seq<(nat, nat)>, frames: seq<FrameIn>, thr: real, d: DrawList)
    requires DrawsOf(drawn, conns, frames, thr) && |drawn| < |frames|
    requires IsDrawOf(d, conns, FrameLandmarks(frames[|drawn|].detection), frames[|drawn|].width, frames[|drawn|].height, thr)
    ensures DrawsOf(drawn + [d], conns, frames, thr)
  {
    var next := drawn + [d];
    forall i | 0 <= i < |next|
      ensures IsDrawOf(next[i], conns, FrameLandmarks(frames[i].detection), frames[i].width, frames[i].height, thr)
    {
      if i < |drawn| {
        assert next[i] == drawn[i];
      }
    }
  }

  predicate PathsResolve(opts: Options)
    requires WellFormed(opts.input)
  {
    ResolveOutput(opts.outVideo, opts.input, VIDEO_TAIL).Success?
    && ResolveOutput(opts.outCsv, opts.input, CSV_TAIL).Success?
  }

  /** The output targets, the writer's settings and the header are the ones
      `main` derives from the options and the capture's metadata. */
  ghost predicate Configured(out: Outputs, opts: Options, meta: Metadata)
    requires WellFormed(opts.input)
  {
    && PathsResolve(opts)
    && out.video == ResolveOutput(opts.outVideo, opts.input, VIDEO_TAIL).value
    && out.csv == ResolveOutput(opts.outCsv, opts.input, CSV_TAIL).value
    && out.fps == FrameRate(meta.fps)
    && out.width == FrameSize(meta.width, DEFAULT_WIDTH)
    && out.height == FrameSize(meta.height, DEFAULT_HEIGHT)
    && out.header == Header(NUM_LANDMARKS)
  }

  /** A frame whose landmarks make `draw_pose` raise. */
  predicate DrawRaises(f: FrameIn, thr: real) {
    HasUnplottableVisible(FrameLandmarks(f.detection), thr)
  }

  /** The frame loop: write the row, then draw and write the frame. A frame
      whose drawing raises ends the run after its row is written. */
  method ProcessFrames(conns: seq<(nat, nat)>, frames: seq<FrameIn>, fps: real, thr: real)
    returns (rows: seq<seq<Cell>>, drawn: seq<DrawList>, failed: bool)
    requires fps != 0.0
    ensures RowsOf(rows, frames, fps) && DrawsOf(drawn, conns, frames, thr)
    ensures forall i :: 0 <= i < |drawn| ==> !DrawRaises(frames[i], thr)
    ensures !failed ==> |rows| == |drawn| == |frames|
    ensures failed ==> |rows| == |drawn| + 1 && DrawRaises(frames[|drawn|], thr)
  {
    rows, drawn, failed := [], [], false;
    var frameIdx := 0;
    while frameIdx < |frames|
      invariant 0 <= frameIdx <= |frames|
      invariant |rows| == |drawn| == frameIdx
      invariant RowsOf(rows, frames, fps) && DrawsOf(drawn, conns, frames, thr)
      invariant forall i :: 0 <= i < frameIdx ==> !DrawRaises(frames[i], thr)
    {
      var frame := frames[frameIdx];
      var lms := FrameLandmarks(frame.detection);
      RowsOfStep(rows, frames, fps);
      rows := rows + [Row(frameIdx, fps, lms)];
      var d := DrawPose(conns, lms, frame.width, frame.height, thr);
      if d.Failure? {
        return rows, drawn, true;
      }
      DrawsOfStep(drawn, conns, frames, thr, d.value);
      drawn := drawn + [d.value];
      frameIdx := frameIdx + 1;
    }
  }

  /** The body of `main` after argument parsing. */
  method Run(opts: Options, inputExists: bool, captureOpened: bool, meta: Metadata, frames: seq<FrameIn>)
    returns (r: Result<Outputs, RunError>)
    requires WellFormed(opts.input)
    ensures !inputExists <==> r == Failure(FileNotFound)
    ensures inputExists && !PathsResolve(opts) ==> r.Failure? && r.error.BadPath?
    ensures inputExists && PathsResolve(opts) && !captureOpened ==> r == Failure(CannotOpen)
    ensures r.Success? <==>
      inputExists && PathsResolve(opts) && captureOpened && forall i :: 0 <= i < |frames| ==> !DrawRaises(frames[i], opts.visThr)
    ensures (inputExists && PathsResolve(opts) && captureOpened
             && exists i :: 0 <= i < |frames| && DrawRaises(frames[i], opts.visThr))
      ==> r.Failure? && r.error.DrawFailed?
    ensures r.Success? ==>
      && Configured(r.value, opts, meta)
      && Produced(r.value, POSE_CONNECTIONS, frames, opts.visThr, |frames|, |frames|)
    ensures r.Failure? && r.error.DrawFailed? ==>
      var i := r.error.frameIdx;
      && i < |frames| && DrawRaises(frames[i], opts.visThr)
      && (forall i' :: 0 <= i' < i ==> !DrawRaises(frames[i'], opts.visThr))
      && Configured(r.error.partial, opts, meta)
      && Produced(r.error.partial, POSE_CONNECTIONS, frames, opts.visThr, i + 1, i)
  {
    if !inputExists {
      return Failure(FileNotFound);
    }
    var video := ResolveOutput(opts.outVideo, opts.input, VIDEO_TAIL);
    if video.Failure? {
      return Failure(BadPath(video.error));
    }
    var csv := ResolveOutput(opts.outCsv, opts.input, CSV_TAIL);
    if csv.Failure? {
      return Failure(BadPath(csv.error));
    }
    if !captureOpened {
      return Failure(CannotOpen);
    }
    var fps := FrameRate(meta.fps);
    var rows, drawn, failed := ProcessFrames(POSE_CONNECTIONS, frames, fps, opts.visThr);
    var out := Outputs(video.value, csv.value, fps,
      FrameSize(meta.width, DEFAULT_WIDTH), FrameSize(meta.height, DEFAULT_HEIGHT),
      Header(NUM_LANDMARKS), rows, drawn);
    if failed {
      return Failure(DrawFailed(|drawn|, out));
    }
    r := Success(out);
  }
}
