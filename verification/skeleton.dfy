/** The selection logic of `draw_pose`: which bones and which joints are
    drawn, and at which integer pixels. Instead of rasterising, the model
    returns the draw list (lines first, then dots, in drawing order). */
module Skeleton {
  import opened Wrappers
  import opened Numerals
  import opened Landmarks

  /** The fixed bone topology: 20 pairs of landmark indices. */
  const POSE_CONNECTIONS: seq<(nat, nat)> := [
    (11, 12), (11, 13), (13, 15), (12, 14), (14, 16),
    (11, 23), (12, 24), (23, 24),
    (23, 25), (25, 27), (27, 31), (24, 26), (26, 28), (28, 32),
    (15, 17), (17, 19), (19, 21), (16, 18), (18, 20), (20, 22)
  ]

  datatype Pixel = Pixel(px: int, py: int)
  datatype Line = Line(from: Pixel, to: Pixel)
  datatype DrawList = DrawList(lines: seq<Line>, dots: seq<Pixel>)

  /** `int(x*w), int(y*h)` fails with ValueError when x or y is NaN. */
  datatype DrawError = NanCoordinate

  /** The indices below `n` satisfying `p`, in increasing order. */
  function Indices(p: nat -> bool, n: nat): (r: seq<nat>)
    ensures forall k :: 0 <= k < |r| ==> r[k] < n && p(r[k])
    ensures forall k, l :: 0 <= k < l < |r| ==> r[k] < r[l]
    ensures forall i {:trigger i in r} :: 0 <= i < n && p(i) ==> i in r
    decreases n
  {
    if n == 0 then []
    else Indices(p, n - 1) + (if p(n - 1) then [n - 1] else [])
  }

  /** The bounds guard and the visibility test of one bone. */
  predicate SegmentDrawn(lms: seq<Landmark>, c: (nat, nat), thr: real) {
    c.0 < |lms| && c.1 < |lms| && Visible(lms[c.0].v, thr) && Visible(lms[c.1].v, thr)
  }

  function ConnectionTest(conns: seq<(nat, nat)>, lms: seq<Landmark>, thr: real): nat -> bool {
    (j: nat) => if j < |conns| then SegmentDrawn(lms, conns[j], thr) else false
  }

  function PointTest(lms: seq<Landmark>, thr: real): nat -> bool {
    (i: nat) => if i < |lms| then Visible(lms[i].v, thr) else false
  }

  /** Positions in the topology `conns` of the bones drawn, in topology
      order. `draw_pose` uses POSE_CONNECTIONS; the selection is stated for
      any topology. */
  function DrawnConnections(conns: seq<(nat, nat)>, lms: seq<Landmark>, thr: real): (r: seq<nat>)
    ensures forall k :: 0 <= k < |r| ==> r[k] < |conns| && SegmentDrawn(lms, conns[r[k]], thr)
    ensures forall k, l :: 0 <= k < l < |r| ==> r[k] < r[l]
    ensures forall j :: 0 <= j < |conns| && SegmentDrawn(lms, conns[j], thr) ==> j in r
  {
    Indices(ConnectionTest(conns, lms, thr), |conns|)
  }

  /** Indices of the landmarks drawn as dots, in landmark order. */
  function DrawnPoints(lms: seq<Landmark>, thr: real): (r: seq<nat>)
    ensures forall k :: 0 <= k < |r| ==> r[k] < |lms| && Visible(lms[r[k]].v, thr)
    ensures forall k, l :: 0 <= k < l < |r| ==> r[k] < r[l]
    ensures forall i :: 0 <= i < |lms| && Visible(lms[i].v, thr) ==> i in r
  {
    Indices(PointTest(lms, thr), |lms|)
  }

  predicate Plottable(lm: Landmark) {
    lm.x.Some? && lm.y.Some?
  }

  /** `(int(x*w), int(y*h))`, or nothing when x or y is NaN. */
  function PixelOf(lm: Landmark, w: nat, h: nat): (p: Option<Pixel>)
    ensures p.Some? <==> Plottable(lm)
    ensures p.Some? ==> p.value.px == Trunc(lm.x.value * w as real) && p.value.py == Trunc(lm.y.value * h as real)
  {
    if Plottable(lm) then Some(Pixel(Trunc(lm.x.value * w as real), Trunc(lm.y.value * h as real))) else None
  }

  /** Some landmark passes the visibility test but has a NaN x or y, so the
      pixel conversion raises. */
  predicate HasUnplottableVisible(lms: seq<Landmark>, thr: real) {
    exists i :: 0 <= i < |lms| && Visible(lms[i].v, thr) && !Plottable(lms[i])
  }

  /** Some drawn bone has an endpoint with a NaN x or y, so the bone loop
      raises. */
  predicate BoneRaises(conns: seq<(nat, nat)>, lms: seq<Landmark>, thr: real) {
    exists j :: 0 <= j < |conns| && SegmentDrawn(lms, conns[j], thr)
      && (!Plottable(lms[conns[j].0]) || !Plottable(lms[conns[j].1]))
  }

  /** Line `l` joins the pixels of the endpoints of bone number `j`. */
  ghost predicate LineAt(l: Line, conns: seq<(nat, nat)>, lms: seq<Landmark>, j: nat, w: nat, h: nat) {
    && j < |conns|
    && conns[j].0 < |lms| && conns[j].1 < |lms|
    && PixelOf(lms[conns[j].0], w, h) == Some(l.from)
    && PixelOf(lms[conns[j].1], w, h) == Some(l.to)
  }

  /** One line per drawn bone, in topology order. */
  ghost predicate LinesOf(lines: seq<Line>, conns: seq<(nat, nat)>, lms: seq<Landmark>, w: nat, h: nat, thr: real) {
    var sc := DrawnConnections(conns, lms, thr);
    |lines| == |sc| && forall k :: 0 <= k < |sc| ==> LineAt(lines[k], conns, lms, sc[k], w, h)
  }

  /** Dot `p` sits at the pixel of landmark `i`. */
  ghost predicate DotAt(p: Pixel, lms: seq<Landmark>, i: nat, w: nat, h: nat) {
    i < |lms| && PixelOf(lms[i], w, h) == Some(p)
  }

  /** One dot per visible landmark, in landmark order. */
  ghost predicate DotsOf(dots: seq<Pixel>, lms: seq<Landmark>, w: nat, h: nat, thr: real) {
    var sp := DrawnPoints(lms, thr);
    |dots| == |sp| && forall k :: 0 <= k < |sp| ==> DotAt(dots[k], lms, sp[k], w, h)
  }

  /** `d` is exactly what `draw_pose` draws for these landmarks with the
      topology `conns`. */
  ghost predicate IsDrawOf(d: DrawList, conns: seq<(nat, nat)>, lms: seq<Landmark>, w: nat, h: nat, thr: real) {
    LinesOf(d.lines, conns, lms, w, h, thr) && DotsOf(d.dots, lms, w, h, thr)
  }

  /** The bone loop of `draw_pose`, over the topology `conns`. */
  method DrawLines(conns: seq<(nat, nat)>, lms: seq<Landmark>, w: nat, h: nat, thr: real)
    returns (r: Result<seq<Line>, DrawError>)
    ensures r.Failure? <==> BoneRaises(conns, lms, thr)
    ensures r.Success? ==> LinesOf(r.value, conns, lms, w, h, thr)
  {
    var lines: seq<Line> := [];
    var j := 0;
    while j < |conns|
      invariant 0 <= j <= |conns|
      invariant LinesUpTo(lines, conns, lms, j, w, h, thr)
    {
      var c := conns[j];
      if c.0 < |lms| && c.1 < |lms| && Visible(lms[c.0].v, thr) && Visible(lms[c.1].v, thr) {
        var pa := PixelOf(lms[c.0], w, h);
        var pb := PixelOf(lms[c.1], w, h);
        if pa.None? || pb.None? {
          assert SegmentDrawn(lms, c, thr);
          return Failure(NanCoordinate);
        }
        LinesStep(lines, conns, lms, j, w, h, thr, [Line(pa.value, pb.value)]);
        lines := lines + [Line(pa.value, pb.value)];
      } else {
        LinesStep(lines, conns, lms, j, w, h, thr, []);
      }
      j := j + 1;
    }
    LinesCoverDrawnBones(lines, conns, lms, w, h, thr);
    r := Success(lines);
  }

  /** The lines of the bones below `j` that are drawn. */
  ghost predicate LinesUpTo(lines: seq<Line>, conns: seq<(nat, nat)>, lms: seq<Landmark>, j: nat, w: nat, h: nat, thr: real) {
    var sc := Indices(ConnectionTest(conns, lms, thr), j);
    |lines| == |sc| && forall k :: 0 <= k < |sc| ==> LineAt(lines[k], conns, lms, sc[k], w, h)
  }

  /** One iteration of the bone loop: bone `j` adds its line iff it is
      drawn. */
  lemma LinesStep(lines: seq<Line>, conns: seq<(nat, nat)>, lms: seq<Landmark>, j: nat, w: nat, h: nat, thr: real, next: seq<Line>)
    requires j < |conns| && LinesUpTo(lines, conns, lms, j, w, h, thr)
    requires SegmentDrawn(lms, conns[j], thr) ==> |next| == 1 && LineAt(next[0], conns, lms, j, w, h)
    requires !SegmentDrawn(lms, conns[j], thr) ==> next == []
    ensures LinesUpTo(lines + next, conns, lms, j + 1, w, h, thr)
  {
    var pc := ConnectionTest(conns, lms, thr);
    var sc, sc' := Indices(pc, j), Indices(pc, j + 1);
    IndicesStep(pc, j + 1, sc);
    assert pc(j) == SegmentDrawn(lms, conns[j], thr);
    forall k | 0 <= k < |sc'|
      ensures LineAt((lines + next)[k], conns, lms, sc'[k], w, h)
    {
      if k < |sc| {
        assert sc'[k] == sc[k] && (lines + next)[k] == lines[k];
      } else {
        assert sc'[k] == j && (lines + next)[k] == next[0];
      }
    }
  }

  /** A complete line list has a line at every drawn bone, so no drawn
      bone has a NaN endpoint. */
  lemma LinesCoverDrawnBones(lines: seq<Line>, conns: seq<(nat, nat)>, lms: seq<Landmark>, w: nat, h: nat, thr: real)
    requires LinesOf(lines, conns, lms, w, h, thr)
    ensures !BoneRaises(conns, lms, thr)
  {
    var sc := DrawnConnections(conns, lms, thr);
    forall j | 0 <= j < |conns| && SegmentDrawn(lms, conns[j], thr)
      ensures Plottable(lms[conns[j].0]) && Plottable(lms[conns[j].1])
    {
      assert j in sc;
      var k :| 0 <= k < |sc| && sc[k] == j;
      assert LineAt(lines[k], conns, lms, sc[k], w, h);
    }
  }

  /** The dot loop of `draw_pose`. */
  method DrawDots(lms: seq<Landmark>, w: nat, h: nat, thr: real) returns (r: Result<seq<Pixel>, DrawError>)
    ensures r.Failure? <==> HasUnplottableVisible(lms, thr)
    ensures r.Success? ==> DotsOf(r.value, lms, w, h, thr)
  {
    var dots: seq<Pixel> := [];
    var i := 0;
    while i < |lms|
      invariant 0 <= i <= |lms|
      invariant DotsUpTo(dots, lms, i, w, h, thr)
    {
      if Visible(lms[i].v, thr) {
        var p := PixelOf(lms[i], w, h);
        if p.None? {
          assert Visible(lms[i].v, thr) && !Plottable(lms[i]);
          return Failure(NanCoordinate);
        }
        DotsStep(dots, lms, i, w, h, thr, [p.value]);
        dots := dots + [p.value];
      } else {
        DotsStep(dots, lms, i, w, h, thr, []);
      }
      i := i + 1;
    }
    DotsCoverVisible(dots, lms, w, h, thr);
    r := Success(dots);
  }

  /** The dots of the landmarks below `i` that pass the visibility test. */
  ghost predicate DotsUpTo(dots: seq<Pixel>, lms: seq<Landmark>, i: nat, w: nat, h: nat, thr: real) {
    var sp := Indices(PointTest(lms, thr), i);
    |dots| == |sp| && forall k :: 0 <= k < |sp| ==> DotAt(dots[k], lms, sp[k], w, h)
  }

  /** One iteration of the dot loop: landmark `i` adds its pixel iff it is
      visible. */
  lemma DotsStep(dots: seq<Pixel>, lms: seq<Landmark>, i: nat, w: nat, h: nat, thr: real, next: seq<Pixel>)
    requires i < |lms| && DotsUpTo(dots, lms, i, w, h, thr)
    requires Visible(lms[i].v, thr) ==> |next| == 1 && PixelOf(lms[i], w, h) == Some(next[0])
    requires !Visible(lms[i].v, thr) ==> next == []
    ensures DotsUpTo(dots + next, lms, i + 1, w, h, thr)
  {
    var pp := PointTest(lms, thr);
    var sp, sp' := Indices(pp, i), Indices(pp, i + 1);
    IndicesStep(pp, i + 1, sp);
    assert pp(i) == Visible(lms[i].v, thr);
    forall k | 0 <= k < |sp'|
      ensures DotAt((dots + next)[k], lms, sp'[k], w, h)
    {
      if k < |sp| {
        assert sp'[k] == sp[k] && (dots + next)[k] == dots[k];
      } else {
        assert sp'[k] == i && (dots + next)[k] == next[0];
      }
    }
  }

  /** A complete dot list has a dot at every visible landmark, so no
      visible landmark has a NaN coordinate. */
  lemma DotsCoverVisible(dots: seq<Pixel>, lms: seq<Landmark>, w: nat, h: nat, thr: real)
    requires DotsOf(dots, lms, w, h, thr)
    ensures !HasUnplottableVisible(lms, thr)
  {
    var sp := DrawnPoints(lms, thr);
    forall i | 0 <= i < |lms| && Visible(lms[i].v, thr)
      ensures Plottable(lms[i])
    {
      assert i in sp;
      var k :| 0 <= k < |sp| && sp[k] == i;
      assert DotAt(dots[k], lms, sp[k], w, h);
    }
  }

  /** A bone that raises has a visible endpoint with a NaN coordinate. */
  lemma BoneRaisesOnlyIfVisibleNan(conns: seq<(nat, nat)>, lms: seq<Landmark>, thr: real)
    ensures BoneRaises(conns, lms, thr) ==> HasUnplottableVisible(lms, thr)
  {
    if BoneRaises(conns, lms, thr) {
      var j :| 0 <= j < |conns| && SegmentDrawn(lms, conns[j], thr)
        && (!Plottable(lms[conns[j].0]) || !Plottable(lms[conns[j].1]));
      var c := conns[j];
      assert Visible(lms[c.0].v, thr) && Visible(lms[c.1].v, thr);
    }
  }

  /** `draw_pose`: bones first, then dots, recording what would be drawn.
      The topology is a parameter; the program always draws with
      POSE_CONNECTIONS. Fails exactly when a visible landmark has a NaN
      coordinate. */
  method DrawPose(conns: seq<(nat, nat)>, lms: seq<Landmark>, w: nat, h: nat, thr: real)
    returns (r: Result<DrawList, DrawError>)
    ensures r.Failure? <==> HasUnplottableVisible(lms, thr)
    ensures r.Success? ==> IsDrawOf(r.value, conns, lms, w, h, thr)
  {
    var lines := DrawLines(conns, lms, w, h, thr);
    if lines.Failure? {
      BoneRaisesOnlyIfVisibleNan(conns, lms, thr);
      return Failure(lines.error);
    }
    var dots := DrawDots(lms, w, h, thr);
    if dots.Failure? {
      return Failure(dots.error);
    }
    r := Success(DrawList(lines.value, dots.value));
  }

  /** The topology has 20 bones, and each joins two different landmarks of
      the 33-landmark model. */
  lemma ConnectionsWellFormed()
    ensures |POSE_CONNECTIONS| == 20
    ensures forall j :: 0 <= j < |POSE_CONNECTIONS| ==>
      POSE_CONNECTIONS[j].0 < NUM_LANDMARKS && POSE_CONNECTIONS[j].1 < NUM_LANDMARKS
      && POSE_CONNECTIONS[j].0 != POSE_CONNECTIONS[j].1
  {
  }

  /** With a full landmark list the bounds guard never skips a bone: a bone
      is drawn iff both of its endpoints are visible. */
  lemma FullListGuardNeverSkips(lms: seq<Landmark>, thr: real)
    requires |lms| >= NUM_LANDMARKS
    ensures forall j :: 0 <= j < |POSE_CONNECTIONS| ==>
      (j in DrawnConnections(POSE_CONNECTIONS, lms, thr) <==>
        Visible(lms[POSE_CONNECTIONS[j].0].v, thr) && Visible(lms[POSE_CONNECTIONS[j].1].v, thr))
  {
    ConnectionsWellFormed();
  }

  /** The NaN fill draws nothing and cannot fail, whatever the topology. */
  lemma NanFillDrawsNothing(conns: seq<(nat, nat)>, w: nat, h: nat, thr: real)
    ensures DrawnConnections(conns, NanFill(), thr) == []
    ensures DrawnPoints(NanFill(), thr) == []
    ensures !HasUnplottableVisible(NanFill(), thr)
    ensures LinesOf([], conns, NanFill(), w, h, thr) && DotsOf([], NanFill(), w, h, thr)
  {
    var lms := NanFill();
    NanFillInvisible(thr);
    IndicesUnique(ConnectionTest(conns, lms, thr), |conns|, []);
    IndicesUnique(PointTest(lms, thr), |lms|, []);
  }

  /** Both endpoints of every drawn bone are also drawn as dots. */
  lemma BoneEndpointsAreDots(conns: seq<(nat, nat)>, lms: seq<Landmark>, thr: real)
    ensures forall k :: 0 <= k < |DrawnConnections(conns, lms, thr)| ==>
      conns[DrawnConnections(conns, lms, thr)[k]].0 in DrawnPoints(lms, thr)
      && conns[DrawnConnections(conns, lms, thr)[k]].1 in DrawnPoints(lms, thr)
  {
  }

  /** Raising the threshold never adds a bone or a dot. */
  lemma ThresholdMonotone(conns: seq<(nat, nat)>, lms: seq<Landmark>, lo: real, hi: real)
    requires lo <= hi
    ensures forall j :: j in DrawnConnections(conns, lms, hi) ==> j in DrawnConnections(conns, lms, lo)
    ensures forall i :: i in DrawnPoints(lms, hi) ==> i in DrawnPoints(lms, lo)
  {
  }

  /** Proof device for `EnumeratesNothing`: it puts the term `s[0]` in
      scope, so the bound on every element forces `s` to be empty. The same
      fact asserted inside a branch where `s` is non-empty sits in a context
      that is already contradictory, which the verifier reports. */
  lemma HeadIsMember(s: seq<nat>)
    ensures |s| == 0 || s[0] in s
  {
  }

  /** Nothing lies below 0, so an enumeration up to 0 is empty. */
  lemma EnumeratesNothing(p: nat -> bool, s: seq<nat>)
    requires Enumerates(p, 0, s)
    ensures s == []
  {
    HeadIsMember(s);
  }

  /** In an increasing list whose elements are all below `n`, the value
      `n - 1` can only be the last element. */
  lemma TopIsLast(s: seq<nat>, n: nat, m: nat)
    requires forall k :: 0 <= k < |s| ==> s[k] < n
    requires forall k, l :: 0 <= k < l < |s| ==> s[k] < s[l]
    requires m < |s| && s[m] + 1 == n
    ensures m == |s| - 1
  {
    assert s[|s| - 1] < n;
  }

  /** `s` lists, in increasing order, exactly the indices below `n` that
      satisfy `p`. */
  ghost predicate Enumerates(p: nat -> bool, n: nat, s: seq<nat>) {
    && (forall k :: 0 <= k < |s| ==> s[k] < n && p(s[k]))
    && (forall k, l :: 0 <= k < l < |s| ==> s[k] < s[l])
    && (forall i {:trigger i in s} :: 0 <= i < n && p(i) ==> i in s)
  }

  /** When `n - 1` passes, an enumeration up to `n` ends with it. */
  lemma TopAtEnd(p: nat -> bool, n: nat, s: seq<nat>)
    requires 0 < n && p(n - 1) && Enumerates(p, n, s)
    ensures 0 < |s| && s[|s| - 1] == n - 1
  {
    assert n - 1 in s;
    var m :| 0 <= m < |s| && s[m] == n - 1;
    TopIsLast(s, n, m);
  }

  lemma DropTop(p: nat -> bool, n: nat, s: seq<nat>)
    requires 0 < n && p(n - 1) && Enumerates(p, n, s)
    ensures 0 < |s| && s == s[..|s| - 1] + [n - 1]
    ensures Enumerates(p, n - 1, s[..|s| - 1])
  {
    TopAtEnd(p, n, s);
    var t := s[..|s| - 1];
    assert s == t + [n - 1];
    forall k | 0 <= k < |t|
      ensures t[k] < n - 1 && p(t[k])
    {
      assert t[k] == s[k] && s[k] < s[|s| - 1];
    }
    forall k, l | 0 <= k < l < |t|
      ensures t[k] < t[l]
    {
      assert t[k] == s[k] && t[l] == s[l];
    }
    forall i | 0 <= i < n - 1 && p(i)
      ensures i in t
    {
      assert i in s;
      var q :| 0 <= q < |s| && s[q] == i;
      assert q != |s| - 1;
      assert t[q] == i;
    }
  }

  lemma SkipTop(p: nat -> bool, n: nat, s: seq<nat>)
    requires 0 < n && !p(n - 1) && Enumerates(p, n, s)
    ensures Enumerates(p, n - 1, s)
  {
    forall k | 0 <= k < |s|
      ensures s[k] < n - 1
    {
      assert s[k] != n - 1;
    }
  }

  /** One step of `Indices`: the bound `n - 1` is appended iff it passes. */
  lemma IndicesStep(p: nat -> bool, n: nat, t: seq<nat>)
    requires 0 < n && t == Indices(p, n - 1)
    ensures Indices(p, n) == t + (if p(n - 1) then [n - 1] else [])
  {
  }

  /** The contract of `Indices` determines its result: any increasing list
      holding exactly the indices below `n` that satisfy `p` is that result. */
  lemma {:induction false} IndicesUnique(p: nat -> bool, n: nat, s: seq<nat>)
    requires Enumerates(p, n, s)
    ensures s == Indices(p, n)
    decreases n
  {
    if n == 0 {
      EnumeratesNothing(p, s);
    } else if p(n - 1) {
      DropTop(p, n, s);
      var t := s[..|s| - 1];
      IndicesUnique(p, n - 1, t);
      IndicesStep(p, n, t);
      assert s == t + [n - 1];
    } else {
      SkipTop(p, n, s);
      IndicesUnique(p, n - 1, s);
      IndicesStep(p, n, s);
    }
  }
}
