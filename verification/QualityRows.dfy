/** Run-length encoded sample quality. A row gives one set of flags to a stretch
    of samples; combining flags bitwise is union of flag sets. */
module QualityRows {

  datatype Flag = TimeUncertain | TimeUnsynced | BoundaryUncertain | SensorLossAdjacent
                | SensorRecovery | ConfigChanged | CalibrationUnknown | MeasurementInvalid

  datatype Row = Row(start: int, count: int, flags: set<Flag>) {
    predicate Holds(i: int) { start <= i < start + count }
    function Stop(): int { start + count }
  }

  predicate Within(start: int, count: int, i: int) { start <= i < start + count }

  /** The rows follow one another without gap or overlap from lo to hi. */
  ghost predicate Tiles(rows: seq<Row>, lo: int, hi: int) {
    && (forall k :: 0 <= k < |rows| ==> rows[k].count > 0)
    && (forall k :: 0 < k < |rows| ==> rows[k].start == rows[k - 1].Stop())
    && (if rows == [] then lo == hi else rows[0].start == lo && rows[|rows| - 1].Stop() == hi)
  }

  /** No two neighbours could have been one row. */
  ghost predicate Canonical(rows: seq<Row>) {
    forall k :: 0 < k < |rows| ==> rows[k].flags != rows[k - 1].flags
  }

  /** The meaning of the rows: the flags of sample i. */
  function FlagsAt(rows: seq<Row>, i: int): set<Flag> {
    if rows == [] then {}
    else if rows[|rows| - 1].Holds(i) then rows[|rows| - 1].flags
    else FlagsAt(rows[..|rows| - 1], i)
  }

  lemma InitTiles(rows: seq<Row>, lo: int, hi: int)
    requires Tiles(rows, lo, hi) && rows != []
    ensures Tiles(rows[..|rows| - 1], lo, rows[|rows| - 1].start)
  {
    var init := rows[..|rows| - 1];
    forall k | 0 < k < |init|
      ensures init[k].start == init[k - 1].Stop()
    {
      assert init[k] == rows[k] && init[k - 1] == rows[k - 1];
    }
  }

  lemma {:induction false} RowFlags(rows: seq<Row>, lo: int, hi: int, k: nat, i: int)
    requires Tiles(rows, lo, hi) && k < |rows| && rows[k].Holds(i)
    ensures FlagsAt(rows, i) == rows[k].flags
    decreases |rows|
  {
    var n := |rows| - 1;
    if k < n {
      StartsAscend(rows, lo, hi, k, n);
      var init := rows[..n];
      InitTiles(rows, lo, hi);
      RowFlags(init, lo, rows[n].start, k, i);
    }
  }

  lemma {:induction false} StartsAscend(rows: seq<Row>, lo: int, hi: int, j: nat, k: nat)
    requires Tiles(rows, lo, hi) && j < k < |rows|
    ensures rows[j].Stop() <= rows[k].start
    decreases k
  {
    if j < k - 1 {
      StartsAscend(rows, lo, hi, j, k - 1);
    }
  }

  lemma AppendRow(rows: seq<Row>, lo: int, mid: int, row: Row)
    requires Tiles(rows, lo, mid) && row.start == mid && row.count > 0
    ensures Tiles(rows + [row], lo, row.Stop())
    ensures forall i :: FlagsAt(rows + [row], i) == if row.Holds(i) then row.flags else FlagsAt(rows, i)
  {
    var all := rows + [row];
    assert all[..|rows|] == rows;
    forall i
      ensures FlagsAt(all, i) == if row.Holds(i) then row.flags else FlagsAt(rows, i)
    {}
  }

  // ----- appending with merging -----

  function AddQuality(rows: seq<Row>, row: Row): seq<Row> {
    var n := |rows| - 1;
    if n >= 0 && rows[n].flags == row.flags && rows[n].Stop() == row.start
    then rows[..n] + [Row(rows[n].start, rows[n].count + row.count, rows[n].flags)]
    else rows + [row]
  }

  lemma GrowLast(rows: seq<Row>, lo: int, mid: int, count: int)
    requires Tiles(rows, lo, mid) && rows != [] && count > 0
    ensures var last := rows[|rows| - 1];
            var grown := rows[..|rows| - 1] + [Row(last.start, last.count + count, last.flags)];
            && Tiles(grown, lo, mid + count)
            && forall i :: FlagsAt(grown, i) == if Within(mid, count, i) then last.flags else FlagsAt(rows, i)
  {
    var init, last := rows[..|rows| - 1], rows[|rows| - 1];
    InitTiles(rows, lo, mid);
    AppendRow(init, lo, last.start, Row(last.start, last.count + count, last.flags));
    forall i
      ensures FlagsAt(rows, i) == if last.Holds(i) then last.flags else FlagsAt(init, i)
    {}
  }

  lemma AddQualityTiles(rows: seq<Row>, lo: int, mid: int, row: Row)
    requires Tiles(rows, lo, mid)
    requires row.start == mid && row.count > 0
    ensures Tiles(AddQuality(rows, row), lo, row.Stop())
    ensures forall i :: FlagsAt(AddQuality(rows, row), i) == if row.Holds(i) then row.flags else FlagsAt(rows, i)
  {
    if rows != [] && rows[|rows| - 1].flags == row.flags {
      GrowLast(rows, lo, mid, row.count);
    } else {
      AppendRow(rows, lo, mid, row);
    }
  }

  lemma AddQualityCanonical(rows: seq<Row>, lo: int, mid: int, row: Row)
    requires Tiles(rows, lo, mid) && row.start == mid && Canonical(rows)
    ensures Canonical(AddQuality(rows, row))
  {
    var out := AddQuality(rows, row);
    forall k | 0 < k < |out|
      ensures out[k].flags != out[k - 1].flags
    {
      if k < |rows| {
        assert out[k].flags == rows[k].flags && out[k - 1].flags == rows[k - 1].flags;
      }
    }
  }

  // ----- overlaying a flag -----

  function Overlaid(flags: set<Flag>, start: int, count: int, flag: set<Flag>, i: int): set<Flag> {
    if Within(start, count, i) then flags + flag else flags
  }

  /** `out` says of every sample what `rows` says, with the flag added on the
      interval, and is the shortest list to do so. */
  ghost predicate IsOverlay(rows: seq<Row>, lo: int, hi: int, start: int, count: int, flag: set<Flag>, out: seq<Row>) {
    && Tiles(out, lo, hi) && Canonical(out)
    && forall i :: lo <= i < hi ==> FlagsAt(out, i) == Overlaid(FlagsAt(rows, i), start, count, flag, i)
  }

  /** The pieces into which one row is cut at the ends of the interval. */
  function Pieces(row: Row, start: int, count: int, flag: set<Flag>): seq<Row> {
    var from := if start > row.start then start else row.start;
    var upto := if start + count < row.Stop() then start + count else row.Stop();
    if from >= upto then [row]
    else
      (if row.start < from then [Row(row.start, from - row.start, row.flags)] else [])
      + [Row(from, upto - from, row.flags + flag)]
      + (if upto < row.Stop() then [Row(upto, row.Stop() - upto, row.flags)] else [])
  }

  lemma PiecesTile(row: Row, start: int, count: int, flag: set<Flag>)
    requires row.count > 0 && count > 0
    ensures Tiles(Pieces(row, start, count, flag), row.start, row.Stop())
    ensures forall k, i :: 0 <= k < |Pieces(row, start, count, flag)| && Pieces(row, start, count, flag)[k].Holds(i) ==>
              Pieces(row, start, count, flag)[k].flags == Overlaid(row.flags, start, count, flag, i)
  {}

  /** First pass: cut the rows at the ends of the interval. Second pass: merge. */
  method Overlay(rows: seq<Row>, ghost lo: int, ghost hi: int, start: int, count: int, flag: set<Flag>)
    returns (out: seq<Row>)
    requires Tiles(rows, lo, hi) && Canonical(rows)
    ensures IsOverlay(rows, lo, hi, start, count, flag, out)
  {
    if count <= 0 {
      return rows;
    }
    var result: seq<Row> := [];
    ghost var mid := lo;
    for j := 0 to |rows|
      invariant mid == if j == 0 then lo else rows[j - 1].Stop()
      invariant Tiles(result, lo, mid)
      invariant forall i :: lo <= i < mid ==> FlagsAt(result, i) == Overlaid(FlagsAt(rows, i), start, count, flag, i)
    {
      var pieces := Pieces(rows[j], start, count, flag);
      PiecesTile(rows[j], start, count, flag);
      for k := 0 to |pieces|
        invariant rows[j].start == (if j == 0 then lo else rows[j - 1].Stop())
        invariant mid == if k == 0 then rows[j].start else pieces[k - 1].Stop()
        invariant Tiles(result, lo, mid)
        invariant forall i :: lo <= i < mid ==> FlagsAt(result, i) == Overlaid(FlagsAt(rows, i), start, count, flag, i)
      {
        AppendRow(result, lo, mid, pieces[k]);
        PieceWithin(rows[j], start, count, flag, k);
        forall i | pieces[k].Holds(i)
          ensures pieces[k].flags == Overlaid(FlagsAt(rows, i), start, count, flag, i)
        {
          RowFlags(rows, lo, hi, j, i);
        }
        result := result + [pieces[k]];
        mid := pieces[k].Stop();
      }
    }
    out := Merge(result, lo, mid);
  }

  lemma PieceWithin(row: Row, start: int, count: int, flag: set<Flag>, k: nat)
    requires row.count > 0 && k < |Pieces(row, start, count, flag)|
    ensures row.start <= Pieces(row, start, count, flag)[k].start
            && Pieces(row, start, count, flag)[k].Stop() <= row.Stop()
  {}

  method Merge(result: seq<Row>, ghost lo: int, ghost hi: int) returns (merged: seq<Row>)
    requires Tiles(result, lo, hi)
    ensures Tiles(merged, lo, hi) && Canonical(merged)
    ensures forall i :: lo <= i < hi ==> FlagsAt(merged, i) == FlagsAt(result, i)
  {
    merged := [];
    ghost var mid := lo;
    for j := 0 to |result|
      invariant mid == if j == 0 then lo else result[j - 1].Stop()
      invariant Tiles(merged, lo, mid) && Canonical(merged)
      invariant forall i :: lo <= i < mid ==> FlagsAt(merged, i) == FlagsAt(result, i)
    {
      AddQualityTiles(merged, lo, mid, result[j]);
      AddQualityCanonical(merged, lo, mid, result[j]);
      forall i | result[j].Holds(i)
        ensures FlagsAt(result, i) == result[j].flags
      {
        RowFlags(result, lo, hi, j, i);
      }
      merged := AddQuality(merged, result[j]);
      mid := result[j].Stop();
    }
  }

  // ----- one list per meaning -----

  lemma FirstRowsEqual(a: seq<Row>, b: seq<Row>, lo: int, hi: int, n: nat)
    requires Tiles(a, lo, hi) && Tiles(b, lo, hi) && Canonical(a)
    requires forall i :: lo <= i < hi ==> FlagsAt(a, i) == FlagsAt(b, i)
    requires n < |a| && n < |b| && a[n].start == b[n].start
    ensures a[n].flags == b[n].flags
    ensures a[n].Stop() >= b[n].Stop()
  {
    var i := a[n].start;
    if n > 0 { StartsAscend(a, lo, hi, 0, n); }
    if n + 1 < |a| { StartsAscend(a, lo, hi, n, |a| - 1); }
    if n + 1 < |b| { StartsAscend(b, lo, hi, n, |b| - 1); }
    RowFlags(a, lo, hi, n, i);
    RowFlags(b, lo, hi, n, i);
    if a[n].Stop() < b[n].Stop() {
      var j := a[n].Stop();
      assert n + 1 < |a| && a[n + 1].Holds(j) && b[n].Holds(j);
      RowFlags(a, lo, hi, n + 1, j);
      RowFlags(b, lo, hi, n, j);
    }
  }

  lemma {:induction false} CanonicalPrefix(a: seq<Row>, b: seq<Row>, lo: int, hi: int, n: nat)
    requires Tiles(a, lo, hi) && Tiles(b, lo, hi) && Canonical(a) && Canonical(b)
    requires forall i :: lo <= i < hi ==> FlagsAt(a, i) == FlagsAt(b, i)
    requires n <= |a| && n <= |b|
    ensures forall k :: 0 <= k < n ==> a[k] == b[k]
  {
    if n > 0 {
      CanonicalPrefix(a, b, lo, hi, n - 1);
      assert n > 1 ==> a[n - 2] == b[n - 2];
      FirstRowsEqual(a, b, lo, hi, n - 1);
      FirstRowsEqual(b, a, lo, hi, n - 1);
    }
  }

  /** Two canonical lists with the same meaning are the same list. */
  lemma CanonicalUnique(a: seq<Row>, b: seq<Row>, lo: int, hi: int)
    requires Tiles(a, lo, hi) && Tiles(b, lo, hi) && Canonical(a) && Canonical(b)
    requires forall i :: lo <= i < hi ==> FlagsAt(a, i) == FlagsAt(b, i)
    ensures a == b
  {
    var n := if |a| < |b| then |a| else |b|;
    CanonicalPrefix(a, b, lo, hi, n);
    NoLonger(a, b, lo, hi, n);
    NoLonger(b, a, lo, hi, n);
  }

  lemma NoLonger(a: seq<Row>, b: seq<Row>, lo: int, hi: int, n: nat)
    requires Tiles(a, lo, hi) && Tiles(b, lo, hi)
    requires |a| == n <= |b| || |b| == n <= |a|
    requires forall k :: 0 <= k < n ==> a[k] == b[k]
    ensures |b| <= |a|
  {
    if n < |b| - 1 {
      StartsAscend(b, lo, hi, n, |b| - 1);
    }
  }

  /** Overlays may be applied in any order: the row lists come out equal. */
  lemma OverlaysCommute(rows: seq<Row>, lo: int, hi: int, s: int, c: int, f: set<Flag>, s': int, c': int, f': set<Flag>,
                        x: seq<Row>, xy: seq<Row>, y: seq<Row>, yx: seq<Row>)
    requires IsOverlay(rows, lo, hi, s, c, f, x) && IsOverlay(x, lo, hi, s', c', f', xy)
    requires IsOverlay(rows, lo, hi, s', c', f', y) && IsOverlay(y, lo, hi, s, c, f, yx)
    ensures xy == yx
  {
    forall i | lo <= i < hi
      ensures FlagsAt(xy, i) == FlagsAt(yx, i)
    {
      assert FlagsAt(xy, i) == Overlaid(Overlaid(FlagsAt(rows, i), s, c, f, i), s', c', f', i);
      assert FlagsAt(yx, i) == Overlaid(Overlaid(FlagsAt(rows, i), s', c', f', i), s, c, f, i);
    }
    CanonicalUnique(xy, yx, lo, hi);
  }

  /** Overlaying the same event twice changes nothing. */
  lemma OverlayIdempotent(rows: seq<Row>, lo: int, hi: int, s: int, c: int, f: set<Flag>, x: seq<Row>, xx: seq<Row>)
    requires IsOverlay(rows, lo, hi, s, c, f, x) && IsOverlay(x, lo, hi, s, c, f, xx)
    ensures xx == x
  {
    forall i | lo <= i < hi
      ensures FlagsAt(xx, i) == FlagsAt(x, i)
    {
      assert FlagsAt(xx, i) == Overlaid(Overlaid(FlagsAt(rows, i), s, c, f, i), s, c, f, i);
    }
    CanonicalUnique(xx, x, lo, hi);
  }
}
