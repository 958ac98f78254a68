/** The wide CSV layout: one header row, then one row per frame holding the
    frame index, the timestamp and the flattened landmark tuples. */
module WideTable {
  import opened Wrappers
  import opened Numerals
  import opened Landmarks

  /** Axis letters of the four components, in tuple order. */
  const AXES: string := "xyzv"

  /** Name of component `k` of landmark `i`: `x_i`, `y_i`, `z_i` or `v_i`. */
  function ColumnName(i: nat, k: nat): (name: string)
    requires k < 4
    ensures 3 <= |name| && name[0] == AXES[k] && name[1] == '_'
    ensures name[2..] == NatToString(i)
  {
    [AXES[k]] + "_" + NatToString(i)
  }

  function AxisIndex(c: char): (k: Option<nat>)
    ensures k.Some? <==> c in AXES
    ensures k.Some? ==> k.value < 4 && AXES[k.value] == c
  {
    if c == 'x' then Some(0) else if c == 'y' then Some(1)
    else if c == 'z' then Some(2) else if c == 'v' then Some(3) else None
  }

  /** Reads a landmark column name back into (landmark, component). */
  function ParseColumn(name: string): Option<(nat, nat)> {
    if |name| < 3 || name[1] != '_' then None
    else
      match (AxisIndex(name[0]), ParseNat(name[2..]))
      case (Some(k), Some(i)) => Some((i, k))
      case _ => None
  }

  /** Every landmark column name identifies its column. */
  lemma ParseColumnName(i: nat, k: nat)
    requires k < 4
    ensures ParseColumn(ColumnName(i, k)) == Some((i, k))
  {
    var name := ColumnName(i, k);
    assert name == [AXES[k]] + "_" + NatToString(i);
    assert name[2..] == NatToString(i);
    ParseNatToString(i);
  }

  /** Position `4*i + k` lies in group `i` at offset `k`. */
  lemma GroupOf(j: int, i: int, k: int)
    requires 0 <= k < 4 && j == 4 * i + k
    ensures j / 4 == i && j % 4 == k
  {
  }

  /** The header for `n` landmarks, built the way the script builds it:
      the two leading names, then four names per landmark in order. */
  function Header(n: nat): (h: seq<string>)
    ensures |h| == 2 + 4 * n
    ensures h[0] == "frame_idx" && h[1] == "time_sec"
    ensures forall j :: 2 <= j < |h| ==> h[j] == ColumnName((j - 2) / 4, (j - 2) % 4)
    decreases n
  {
    if n == 0 then ["frame_idx", "time_sec"]
    else
      var prev := Header(n - 1);
      var i := n - 1;
      ExtendHeader(prev, i);
      var h := prev + [ColumnName(i, 0), ColumnName(i, 1), ColumnName(i, 2), ColumnName(i, 3)];
      h
  }

  /** Appending the four names of landmark `i` to the header for `i`
      landmarks keeps every column named after its position. */
  lemma ExtendHeader(prev: seq<string>, i: nat)
    requires |prev| == 2 + 4 * i
    requires forall j :: 2 <= j < |prev| ==> prev[j] == ColumnName((j - 2) / 4, (j - 2) % 4)
    ensures var h := prev + [ColumnName(i, 0), ColumnName(i, 1), ColumnName(i, 2), ColumnName(i, 3)];
      forall j :: 2 <= j < |h| ==> h[j] == ColumnName((j - 2) / 4, (j - 2) % 4)
  {
    var h := prev + [ColumnName(i, 0), ColumnName(i, 1), ColumnName(i, 2), ColumnName(i, 3)];
    forall j | 2 <= j < |h|
      ensures h[j] == ColumnName((j - 2) / 4, (j - 2) % 4)
    {
      if j < |prev| {
        assert h[j] == prev[j];
      } else {
        GroupOf(j - 2, i, j - |prev|);
      }
    }
  }

  /** Column `2 + 4*i + k` of the header is named after component `k` of
      landmark `i`; the 33-landmark header has 134 columns. */
  lemma HeaderLayout(n: nat)
    ensures |Header(n)| == 2 + 4 * n
    ensures n == NUM_LANDMARKS ==> |Header(n)| == 134
    ensures forall i, k :: 0 <= i < n && 0 <= k < 4 ==> Header(n)[2 + 4 * i + k] == ColumnName(i, k)
  {
    forall i, k | 0 <= i < n && 0 <= k < 4
      ensures Header(n)[2 + 4 * i + k] == ColumnName(i, k)
    {
      HeaderEntry(n, i, k);
    }
  }

  /** Entry `2 + 4*i + k` of the header, read off its contract. */
  lemma HeaderEntry(n: nat, i: nat, k: nat)
    requires i < n && k < 4
    ensures Header(n)[2 + 4 * i + k] == ColumnName(i, k)
  {
    var h, j := Header(n), 2 + 4 * i + k;
    GroupOf(j - 2, i, k);
    assert h[j] == ColumnName((j - 2) / 4, (j - 2) % 4);
  }

  /** No two header columns share a name. */
  lemma HeaderDistinct(n: nat)
    ensures forall j1, j2 :: 0 <= j1 < j2 < |Header(n)| ==> Header(n)[j1] != Header(n)[j2]
  {
    forall j1, j2 | 0 <= j1 < j2 < |Header(n)|
      ensures Header(n)[j1] != Header(n)[j2]
    {
      HeaderEntriesDiffer(n, j1, j2);
    }
  }

  /** Two header positions hold different names. */
  lemma HeaderEntriesDiffer(n: nat, j1: nat, j2: nat)
    requires j1 < j2 < |Header(n)|
    ensures Header(n)[j1] != Header(n)[j2]
  {
    if j2 < 2 {
      FixedColumns(n);
    } else if j1 < 2 {
      FixedVersusLandmark(n, j1, j2);
    } else {
      LandmarkColumnsDiffer(n, j1, j2);
    }
  }

  /** The two leading names differ, and neither has `_` as its second
      character. */
  lemma FixedColumns(n: nat)
    ensures Header(n)[0] != Header(n)[1]
    ensures Header(n)[0][1] != '_' && Header(n)[1][1] != '_'
  {
    var h := Header(n);
    assert h[0] == "frame_idx" && h[1] == "time_sec";
    assert h[0][0] != h[1][0];
  }

  /** A leading name never equals a landmark column name. */
  lemma FixedVersusLandmark(n: nat, j1: nat, j2: nat)
    requires j1 < 2 <= j2 < |Header(n)|
    ensures Header(n)[j1] != Header(n)[j2]
  {
    FixedColumns(n);
    LandmarkColumnUnderscore(n, j2);
    assert Header(n)[j1][1] != '_';
  }

  /** Every landmark column name has `_` as its second character. */
  lemma LandmarkColumnUnderscore(n: nat, j: nat)
    requires 2 <= j < |Header(n)|
    ensures Header(n)[j][1] == '_'
  {
    assert Header(n)[j] == ColumnName((j - 2) / 4, (j - 2) % 4);
  }

  /** Two landmark columns hold different names. */
  lemma LandmarkColumnsDiffer(n: nat, j1: nat, j2: nat)
    requires 2 <= j1 < j2 < |Header(n)|
    ensures Header(n)[j1] != Header(n)[j2]
  {
    var h := Header(n);
    assert h[j1] == ColumnName((j1 - 2) / 4, (j1 - 2) % 4);
    assert h[j2] == ColumnName((j2 - 2) / 4, (j2 - 2) % 4);
    GroupsDiffer(j1 - 2, j2 - 2);
    ColumnNamesDiffer((j1 - 2) / 4, (j1 - 2) % 4, (j2 - 2) / 4, (j2 - 2) % 4);
  }

  /** Different positions lie in different groups or at different offsets. */
  lemma GroupsDiffer(p1: nat, p2: nat)
    requires p1 < p2
    ensures (p1 / 4, p1 % 4) != (p2 / 4, p2 % 4)
  {
  }

  /** Different (landmark, component) pairs get different column names. */
  lemma ColumnNamesDiffer(i1: nat, k1: nat, i2: nat, k2: nat)
    requires k1 < 4 && k2 < 4 && (i1, k1) != (i2, k2)
    ensures ColumnName(i1, k1) != ColumnName(i2, k2)
  {
    ParseColumnName(i1, k1);
    ParseColumnName(i2, k2);
  }

  /** One CSV cell: the integer frame index, or a float that may be NaN. */
  datatype Cell = IntCell(n: int) | FloatCell(f: Option<real>)

  function TupleCells(lm: Landmark): seq<Cell> {
    [FloatCell(lm.x), FloatCell(lm.y), FloatCell(lm.z), FloatCell(lm.v)]
  }

  /** The landmark tuples written out flat, four cells each, in order. */
  function Flatten(lms: seq<Landmark>): (cells: seq<Cell>)
    ensures |cells| == 4 * |lms|
    ensures forall j :: 0 <= j < |cells| ==> cells[j] == FloatCell(Component(lms[j / 4], j % 4))
    decreases |lms|
  {
    if |lms| == 0 then []
    else
      var rest := Flatten(lms[1..]);
      var cells := TupleCells(lms[0]) + rest;
      assert forall j :: 0 <= j < |cells| ==> cells[j] == FloatCell(Component(lms[j / 4], j % 4)) by {
        forall j | 0 <= j < |cells|
          ensures cells[j] == FloatCell(Component(lms[j / 4], j % 4))
        {
          if j < 4 {
            GroupOf(j, 0, j);
          } else {
            var i, k := (j - 4) / 4, (j - 4) % 4;
            GroupOf(j - 4, i, k);
            GroupOf(j, i + 1, k);
            assert cells[j] == rest[j - 4] && lms[1..][i] == lms[i + 1];
          }
        }
      }
      cells
  }

  /** Reads flat cells back into landmark tuples; fails unless the cells
      come in groups of four floats. */
  function Unflatten(cells: seq<Cell>): Option<seq<Landmark>>
    decreases |cells|
  {
    if |cells| == 0 then Some([])
    else if |cells| < 4 then None
    else if !(cells[0].FloatCell? && cells[1].FloatCell? && cells[2].FloatCell? && cells[3].FloatCell?) then None
    else
      match Unflatten(cells[4..])
      case None => None
      case Some(rest) => Some([Landmark(cells[0].f, cells[1].f, cells[2].f, cells[3].f)] + rest)
  }

  lemma {:induction false} UnflattenFlatten(lms: seq<Landmark>)
    ensures Unflatten(Flatten(lms)) == Some(lms)
    decreases |lms|
  {
    if |lms| > 0 {
      var cells := Flatten(lms);
      assert cells == TupleCells(lms[0]) + Flatten(lms[1..]);
      assert cells[4..] == Flatten(lms[1..]);
      UnflattenFlatten(lms[1..]);
      assert Landmark(cells[0].f, cells[1].f, cells[2].f, cells[3].f) == lms[0];
      assert lms == [lms[0]] + lms[1..];
    }
  }

  /** The row written for one frame: `[frame_idx, frame_idx / fps]`
      followed by the flattened landmark tuples. */
  function Row(frameIdx: nat, fps: real, lms: seq<Landmark>): (row: seq<Cell>)
    requires fps != 0.0
    ensures |row| == 2 + 4 * |lms|
    ensures row[0] == IntCell(frameIdx) && row[1] == FloatCell(Some(frameIdx as real / fps))
    ensures forall j :: 2 <= j < |row| ==> row[j] == FloatCell(Component(lms[(j - 2) / 4], (j - 2) % 4))
  {
    [IntCell(frameIdx), FloatCell(Some(frameIdx as real / fps))] + Flatten(lms)
  }

  /** A frame record as read back from a row. */
  datatype Record = Record(frameIdx: nat, time: real, lms: seq<Landmark>)

  /** Reads a row back; fails on anything `Row` cannot produce. */
  function ParseRow(row: seq<Cell>): Option<Record> {
    if |row| < 2 then None
    else
      match (row[0], row[1], Unflatten(row[2..]))
      case (IntCell(i), FloatCell(Some(t)), Some(lms)) =>
        if i >= 0 then Some(Record(i, t, lms)) else None
      case _ => None
  }

  /** Reading a written row gives back the frame index, the timestamp and
      the landmark tuples, NaN components included. */
  lemma ParseRowRoundTrip(frameIdx: nat, fps: real, lms: seq<Landmark>)
    requires fps != 0.0
    ensures ParseRow(Row(frameIdx, fps, lms)) == Some(Record(frameIdx, frameIdx as real / fps, lms))
  {
    var row := Row(frameIdx, fps, lms);
    assert row[2..] == Flatten(lms);
    UnflattenFlatten(lms);
  }

  /** Cell `2 + 4*i + k` of a row is component `k` of landmark `i`; a row
      without detection is 134 cells wide and all NaN after the first two. */
  lemma RowLayout(frameIdx: nat, fps: real, lms: seq<Landmark>)
    requires fps != 0.0
    ensures forall i, k :: 0 <= i < |lms| && 0 <= k < 4 ==>
      Row(frameIdx, fps, lms)[2 + 4 * i + k] == FloatCell(Component(lms[i], k))
    ensures |Row(frameIdx, fps, FrameLandmarks(None))| == 134
    ensures forall j :: 2 <= j < 134 ==> Row(frameIdx, fps, FrameLandmarks(None))[j] == FloatCell(None)
  {
    forall i, k | 0 <= i < |lms| && 0 <= k < 4
      ensures Row(frameIdx, fps, lms)[2 + 4 * i + k] == FloatCell(Component(lms[i], k))
    {
      var j := 2 + 4 * i + k;
      GroupOf(j - 2, i, k);
      assert Row(frameIdx, fps, lms)[j] == FloatCell(Component(lms[(j - 2) / 4], (j - 2) % 4));
    }
  }

  /** Every row is as wide as the header for the same number of landmarks. */
  lemma RowMatchesHeader(frameIdx: nat, fps: real, lms: seq<Landmark>)
    requires fps != 0.0
    ensures |Row(frameIdx, fps, lms)| == |Header(|lms|)|
  {
  }
}
