/** One frame's pose landmarks as the script handles them: a list of
    (x, y, z, visibility) tuples whose components may be NaN. */
module Landmarks {
  import opened Wrappers

  /** Number of landmarks of the pose model; also the width of the NaN fill. */
  const NUM_LANDMARKS: nat := 33

  /** One landmark tuple. `None` in a component stands for float NaN. */
  datatype Landmark = Landmark(x: Option<real>, y: Option<real>, z: Option<real>, v: Option<real>)

  /** Component `k` of the tuple, in the order x, y, z, visibility. */
  function Component(lm: Landmark, k: nat): Option<real>
    requires k < 4
  {
    if k == 0 then lm.x else if k == 1 then lm.y else if k == 2 then lm.z else lm.v
  }

  /** Python's `v >= vis_thr` for a float `v` that may be NaN: any
      comparison with NaN is false, equality with the threshold is true. */
  predicate Visible(v: Option<real>, thr: real) {
    v.Some? && v.value >= thr
  }

  /** The tuple `(nan, nan, nan, nan)`. */
  const NAN_LANDMARK: Landmark := Landmark(None, None, None, None)

  /** The replacement list used when no pose is detected. */
  function NanFill(): (lms: seq<Landmark>)
    ensures |lms| == NUM_LANDMARKS
    ensures forall i :: 0 <= i < |lms| ==> lms[i] == NAN_LANDMARK
  {
    seq(NUM_LANDMARKS, _ => NAN_LANDMARK)
  }

  /** The landmark list of one frame: the detected tuples in model order,
      or the NaN fill when the estimator found no pose. */
  function FrameLandmarks(detection: Option<seq<Landmark>>): (lms: seq<Landmark>)
    ensures detection.Some? ==> lms == detection.value
    ensures detection.None? ==> |lms| == NUM_LANDMARKS
    ensures detection.None? ==> forall i, k :: 0 <= i < |lms| && 0 <= k < 4 ==> Component(lms[i], k).None?
  {
    match detection
    case Some(found) => found
    case None => NanFill()
  }

  /** No component of the NaN fill is visible, whatever the threshold. */
  lemma NanFillInvisible(thr: real)
    ensures forall i :: 0 <= i < |NanFill()| ==> !Visible(NanFill()[i].v, thr)
  {
  }
}
