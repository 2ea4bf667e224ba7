/** Simplification of the timing control points of one clock run: points are
    dropped only where the straight line between their kept neighbours stays
    within the configured residual. */
module ControlPoints {

  datatype ControlPoint = ControlPoint(offset: int, deviceTimeUs: int, utcNs: int, uncertaintyNs: int, timingFlags: int)

  function Abs(x: int): int { if x < 0 then -x else x }

  /** The line from a to b, rounded down, at a sample offset. */
  function Interpolate(a: ControlPoint, b: ControlPoint, offset: int): int
    requires a.offset < b.offset
  {
    a.utcNs + ((b.utcNs - a.utcNs) * (offset - a.offset)) / (b.offset - a.offset)
  }

  function Error(c: seq<ControlPoint>, left: nat, right: nat, i: nat): (e: int)
    requires left < |c| && right < |c| && i < |c|
    requires c[left].offset < c[right].offset
    ensures e >= 0
  {
    Abs(c[i].utcNs - Interpolate(c[left], c[right], c[i].offset))
  }

  /** Nothing between left and right strays from the line by more than the
      tolerance. A pair that does not advance in offset is never examined. */
  ghost predicate Straight(c: seq<ControlPoint>, left: nat, right: nat, tolerance: int)
    requires left < right < |c|
  {
    c[left].offset < c[right].offset ==>
      forall i :: left < i < right ==> Error(c, left, right, i) <= tolerance
  }

  method WorstPoint(c: seq<ControlPoint>, left: nat, right: nat) returns (worstIndex: int, worstError: int)
    requires left < right < |c|
    requires c[left].offset < c[right].offset
    ensures forall i :: left < i < right ==> Error(c, left, right, i) <= worstError
    ensures worstError >= 0 ==> left < worstIndex < right && Error(c, left, right, worstIndex) == worstError
  {
    worstIndex, worstError := -1, -1;
    for index := left + 1 to right
      invariant forall i :: left < i < index ==> Error(c, left, right, i) <= worstError
      invariant worstError >= 0 ==> left < worstIndex < index && Error(c, left, right, worstIndex) == worstError
    {
      var error := Error(c, left, right, index);
      if error > worstError {
        worstError, worstIndex := error, index;
      }
    }
  }

  // ----- the pairs still to examine -----

  datatype Pair = Pair(left: nat, right: nat)

  ghost predicate Adjacent(keep: set<nat>, p: Pair) {
    && p.left in keep && p.right in keep && p.left < p.right
    && forall k :: k in keep ==> k <= p.left || p.right <= k
  }

  ghost function Work(stack: seq<Pair>): (w: int)
  {
    if stack == [] then 0
    else Work(stack[..|stack| - 1]) + 2 * (stack[|stack| - 1].right - stack[|stack| - 1].left) - 1
  }

  lemma {:induction false} WorkPositive(keep: set<nat>, stack: seq<Pair>)
    requires forall i :: 0 <= i < |stack| ==> Adjacent(keep, stack[i])
    ensures Work(stack) >= 0
  {
    if stack != [] {
      assert Adjacent(keep, stack[|stack| - 1]);
      WorkPositive(keep, stack[..|stack| - 1]);
    }
  }

  lemma WorkPush(stack: seq<Pair>, p: Pair)
    ensures Work(stack + [p]) == Work(stack) + 2 * (p.right - p.left) - 1
  {
    assert (stack + [p])[..|stack|] == stack;
  }

  /** The stack holds each adjacent kept pair at most once, and every adjacent
      kept pair that it does not hold is straight. */
  ghost predicate Pending(c: seq<ControlPoint>, tolerance: int, keep: set<nat>, stack: seq<Pair>) {
    && |c| >= 2 && 0 in keep && |c| - 1 in keep
    && (forall k :: k in keep ==> k < |c|)
    && (forall i :: 0 <= i < |stack| ==> Adjacent(keep, stack[i]))
    && (forall i, j :: 0 <= i < j < |stack| ==> stack[i] != stack[j])
    && (forall p :: Adjacent(keep, p) ==> p in stack || Straight(c, p.left, p.right, tolerance))
  }

  lemma Settle(c: seq<ControlPoint>, tolerance: int, keep: set<nat>, rest: seq<Pair>, p: Pair)
    requires Pending(c, tolerance, keep, rest + [p])
    requires Adjacent(keep, p) && Straight(c, p.left, p.right, tolerance)
    ensures Pending(c, tolerance, keep, rest) && 0 <= Work(rest) < Work(rest + [p])
  {
    var stack := rest + [p];
    WorkPush(rest, p);
    forall i | 0 <= i < |rest|
      ensures Adjacent(keep, rest[i])
    {
      assert stack[i] == rest[i];
    }
    forall i, j | 0 <= i < j < |rest|
      ensures rest[i] != rest[j]
    {
      assert stack[i] == rest[i] && stack[j] == rest[j];
    }
    WorkPositive(keep, rest);
  }

  lemma Split(c: seq<ControlPoint>, tolerance: int, keep: set<nat>, rest: seq<Pair>, p: Pair, w: nat)
    requires Pending(c, tolerance, keep, rest + [p])
    requires p.left < w < p.right
    ensures Pending(c, tolerance, keep + {w}, rest + [Pair(p.left, w)] + [Pair(w, p.right)])
  {
    var stack, keep' := rest + [p], keep + {w};
    assert stack[|rest|] == p;
    assert Adjacent(keep, p);
    var stack' := rest + [Pair(p.left, w)] + [Pair(w, p.right)];
    forall i | 0 <= i < |rest|
      ensures Adjacent(keep', rest[i]) && rest[i].left != w && rest[i].right != w
    {
      assert stack[i] == rest[i] && stack[i] != stack[|rest|];
      assert Adjacent(keep, rest[i]);
    }
    forall i, j | 0 <= i < j < |stack'|
      ensures stack'[i] != stack'[j]
    {
      if j < |rest| {
        assert stack[i] != stack[j];
      }
    }
    forall q | Adjacent(keep', q)
      ensures q in stack' || Straight(c, q.left, q.right, tolerance)
    {
      if q.left == w {
        assert stack'[|rest| + 1] == q;
      } else if q.right == w {
        assert stack'[|rest|] == q;
      } else {
        assert Adjacent(keep, q) && q != p;
        if q in stack {
          var i :| 0 <= i < |stack| && stack[i] == q;
          assert stack'[i] == q;
        }
      }
    }
  }

  // ----- the result -----

  /** `idx` picks the kept points: in order, both ends, and straight between. */
  ghost predicate Simplification(c: seq<ControlPoint>, tolerance: int, idx: seq<nat>, kept: seq<ControlPoint>) {
    && |idx| == |kept|
    && (forall j :: 0 <= j < |idx| ==> idx[j] < |c| && kept[j] == c[idx[j]])
    && (forall j, k :: 0 <= j < k < |idx| ==> idx[j] < idx[k])
    && (|c| > 0 ==> |idx| > 0 && idx[0] == 0 && idx[|idx| - 1] == |c| - 1)
    && (forall j :: 0 <= j < |idx| - 1 ==> Straight(c, idx[j], idx[j + 1], tolerance))
  }

  /** Between left and right, no point is farther from the line than k, and k is
      too far. */
  ghost predicate Strays(c: seq<ControlPoint>, tolerance: int, left: nat, right: nat, k: nat) {
    && left < k < right < |c| && c[left].offset < c[right].offset
    && Error(c, left, right, k) > tolerance
    && forall i :: left < i < right ==> Error(c, left, right, i) <= Error(c, left, right, k)
  }

  /** Every inner index is there because its point strays from a line between two
      others that are there. */
  ghost predicate Needed(c: seq<ControlPoint>, tolerance: int, keep: set<nat>) {
    forall k :: k in keep && 0 < k < |c| - 1 ==> exists l, r :: l in keep && r in keep && Strays(c, tolerance, l, r, k)
  }

  lemma NeededMore(c: seq<ControlPoint>, tolerance: int, keep: set<nat>, l: nat, r: nat, w: nat)
    requires Needed(c, tolerance, keep) && l in keep && r in keep && Strays(c, tolerance, l, r, w)
    ensures Needed(c, tolerance, keep + {w})
  {
    forall k | k in keep + {w} && 0 < k < |c| - 1
      ensures exists l, r :: l in keep + {w} && r in keep + {w} && Strays(c, tolerance, l, r, k)
    {
      if k != w {
        var l', r' :| l' in keep && r' in keep && Strays(c, tolerance, l', r', k);
        assert l' in keep + {w} && r' in keep + {w};
      } else {
        assert l in keep + {w} && r in keep + {w};
      }
    }
  }

  lemma PendingInitially(c: seq<ControlPoint>, tolerance: int)
    requires |c| >= 2
    ensures Pending(c, tolerance, {0, |c| - 1}, [Pair(0, |c| - 1)])
  {
    var keep: set<nat> := {0, |c| - 1};
    forall p | Adjacent(keep, p)
      ensures p in [Pair(0, |c| - 1)]
    {}
  }

  /** Where to split a pair, or -1 if it is to be left as it is. */
  method Examine(c: seq<ControlPoint>, tolerance: int, p: Pair) returns (w: int)
    requires tolerance >= 0
    requires p.left < p.right < |c|
    ensures w == -1 || p.left < w < p.right
    ensures w == -1 ==> Straight(c, p.left, p.right, tolerance)
    ensures w != -1 ==> Strays(c, tolerance, p.left, p.right, w)
  {
    if c[p.right].offset - c[p.left].offset <= 0 {
      return -1;
    }
    var worstIndex, worstError := WorstPoint(c, p.left, p.right);
    w := if worstError > tolerance then worstIndex else -1;
  }

  lemma TopPair(c: seq<ControlPoint>, tolerance: int, keep: set<nat>, stack: seq<Pair>)
    requires stack != [] && Pending(c, tolerance, keep, stack)
    ensures var n := |stack| - 1;
            stack == stack[..n] + [stack[n]] && Adjacent(keep, stack[n]) && stack[n].left < stack[n].right < |c|
  {
  }

  /** One pair off the stack: left as it is, or split at its worst point. */
  method Refine(c: seq<ControlPoint>, tolerance: int, keep: set<nat>, stack: seq<Pair>)
    returns (keep': set<nat>, stack': seq<Pair>)
    requires tolerance >= 0 && stack != [] && Pending(c, tolerance, keep, stack) && Needed(c, tolerance, keep)
    ensures Pending(c, tolerance, keep', stack') && Needed(c, tolerance, keep')
    ensures 0 <= Work(stack') < Work(stack)
  {
    var p, rest := stack[|stack| - 1], stack[..|stack| - 1];
    TopPair(c, tolerance, keep, stack);
    var w := Examine(c, tolerance, p);
    Refined(c, tolerance, keep, rest, p, w);
    if w == -1 {
      keep', stack' := keep, rest;
    } else {
      keep', stack' := keep + {w}, rest + [Pair(p.left, w)] + [Pair(w, p.right)];
    }
  }

  lemma Refined(c: seq<ControlPoint>, tolerance: int, keep: set<nat>, rest: seq<Pair>, p: Pair, w: int)
    requires Pending(c, tolerance, keep, rest + [p]) && Needed(c, tolerance, keep) && Adjacent(keep, p)
    requires w == -1 ==> Straight(c, p.left, p.right, tolerance)
    requires w != -1 ==> w >= 0 && Strays(c, tolerance, p.left, p.right, w)
    ensures w == -1 ==> Pending(c, tolerance, keep, rest) && 0 <= Work(rest) < Work(rest + [p])
    ensures w != -1 ==>
              var stack' := rest + [Pair(p.left, w)] + [Pair(w, p.right)];
              Pending(c, tolerance, keep + {w}, stack') && Needed(c, tolerance, keep + {w})
                && 0 <= Work(stack') < Work(rest + [p])
  {
    if w == -1 {
      Settle(c, tolerance, keep, rest, p);
    } else {
      SplitNeeded(c, tolerance, keep, rest, p, w);
    }
  }

  lemma SplitNeeded(c: seq<ControlPoint>, tolerance: int, keep: set<nat>, rest: seq<Pair>, p: Pair, w: nat)
    requires Pending(c, tolerance, keep, rest + [p]) && Needed(c, tolerance, keep) && Adjacent(keep, p)
    requires Strays(c, tolerance, p.left, p.right, w)
    ensures var stack' := rest + [Pair(p.left, w)] + [Pair(w, p.right)];
            Pending(c, tolerance, keep + {w}, stack') && Needed(c, tolerance, keep + {w})
              && 0 <= Work(stack') < Work(rest + [p])
  {
    var low, high := Pair(p.left, w), Pair(w, p.right);
    Split(c, tolerance, keep, rest, p, w);
    NeededMore(c, tolerance, keep, p.left, p.right, w);
    WorkPush(rest, p);
    WorkPush(rest, low);
    WorkPush(rest + [low], high);
    WorkPositive(keep + {w}, rest + [low] + [high]);
  }

  /** The indices to keep: pairs are refined until none is left to examine. */
  method Select(c: seq<ControlPoint>, tolerance: int) returns (keep: set<nat>)
    requires tolerance >= 0 && |c| >= 2
    ensures Pending(c, tolerance, keep, []) && Needed(c, tolerance, keep)
  {
    keep := {0, |c| - 1};
    var stack := [Pair(0, |c| - 1)];
    PendingInitially(c, tolerance);
    while stack != []
      invariant Pending(c, tolerance, keep, stack) && Needed(c, tolerance, keep)
      decreases Work(stack)
    {
      keep, stack := Refine(c, tolerance, keep, stack);
    }
  }

  method Simplify(c: seq<ControlPoint>, tolerance: int) returns (kept: seq<ControlPoint>, ghost idx: seq<nat>)
    requires tolerance >= 0
    ensures |kept| <= |c| && (|c| <= 2 ==> kept == c)
    ensures |c| > 0 ==> kept != [] && kept[0] == c[0] && kept[|kept| - 1] == c[|c| - 1]
    ensures Simplification(c, tolerance, idx, kept)
    ensures Needed(c, tolerance, set k | k in idx)
  {
    if |c| <= 2 {
      kept, idx := c, seq(|c|, i => i);
      return;
    }
    var keep := Select(c, tolerance);
    kept, idx := Collect(c, keep);
    Collected(c, tolerance, keep, idx, kept);
    PicksAll(c, keep, idx, kept);
  }

  /** The kept points in order. */
  method Collect(c: seq<ControlPoint>, keep: set<nat>) returns (kept: seq<ControlPoint>, ghost idx: seq<nat>)
    requires forall k :: k in keep ==> k < |c|
    ensures Picks(c, keep, idx, kept)
  {
    kept, idx := [], [];
    for i := 0 to |c|
      invariant |kept| == |idx| && forall j :: 0 <= j < |idx| ==> idx[j] < i && kept[j] == c[idx[j]]
      invariant forall j, k :: 0 <= j < k < |idx| ==> idx[j] < idx[k]
      invariant forall k :: k in idx <==> k in keep && k < i
    {
      if i in keep {
        kept, idx := kept + [c[i]], idx + [i];
      }
    }
  }

  ghost predicate Picks(c: seq<ControlPoint>, keep: set<nat>, idx: seq<nat>, kept: seq<ControlPoint>) {
    && |kept| == |idx| && (forall j :: 0 <= j < |idx| ==> idx[j] < |c| && kept[j] == c[idx[j]])
    && (forall j, k :: 0 <= j < k < |idx| ==> idx[j] < idx[k])
    && (forall k :: k in idx <==> k in keep)
  }

  lemma Consecutive(c: seq<ControlPoint>, keep: set<nat>, idx: seq<nat>, kept: seq<ControlPoint>, j: nat)
    requires Picks(c, keep, idx, kept) && j + 1 < |idx|
    ensures Adjacent(keep, Pair(idx[j], idx[j + 1]))
  {
    assert idx[j] in idx && idx[j + 1] in idx;
    forall k | k in keep
      ensures k <= idx[j] || idx[j + 1] <= k
    {
      assert k in idx;
      var m :| 0 <= m < |idx| && idx[m] == k;
    }
  }

  lemma {:induction false} NoMore(idx: seq<nat>, n: nat)
    requires (forall j :: 0 <= j < |idx| ==> idx[j] < n) && forall j, k :: 0 <= j < k < |idx| ==> idx[j] < idx[k]
    ensures |idx| <= n
  {
    if idx != [] {
      NoMore(idx[..|idx| - 1], idx[|idx| - 1]);
    }
  }

  lemma Collected(c: seq<ControlPoint>, tolerance: int, keep: set<nat>, idx: seq<nat>, kept: seq<ControlPoint>)
    requires Pending(c, tolerance, keep, []) && Picks(c, keep, idx, kept)
    ensures Simplification(c, tolerance, idx, kept)
  {
    forall j | 0 <= j < |idx| - 1
      ensures Straight(c, idx[j], idx[j + 1], tolerance)
    {
      Consecutive(c, keep, idx, kept, j);
    }
    assert 0 in idx && |c| - 1 in idx;
  }

  lemma PicksAll(c: seq<ControlPoint>, keep: set<nat>, idx: seq<nat>, kept: seq<ControlPoint>)
    requires Picks(c, keep, idx, kept)
    ensures (set k | k in idx) == keep && |kept| <= |c|
  {
    NoMore(idx, |c|);
  }

  // ----- what the reader of an Archive gets -----

  lemma MulAtLeast(d: int, s: int)
    requires s > 0
    ensures d >= 1 ==> d * s >= s
  {}

  lemma MulDiv(x: int, s: int)
    requires s > 0
    ensures (x * s) / s == x
  {
    var q := (x * s) / s;
    assert q * s <= x * s < q * s + s;
    assert 0 <= (x - q) * s < s;
    MulAtLeast(x - q, s);
  }

  lemma InterpolateEnds(a: ControlPoint, b: ControlPoint)
    requires a.offset < b.offset
    ensures Interpolate(a, b, a.offset) == a.utcNs
    ensures Interpolate(a, b, b.offset) == b.utcNs
  {
    MulDiv(b.utcNs - a.utcNs, b.offset - a.offset);
  }

  /** Interpolation is the exact line from a to b, rounded down. */
  lemma InterpolateRoundsDown(a: ControlPoint, b: ControlPoint, offset: int)
    requires a.offset < b.offset
    ensures var width, exact := b.offset - a.offset,
              a.utcNs * (b.offset - a.offset) + (b.utcNs - a.utcNs) * (offset - a.offset);
            Interpolate(a, b, offset) * width <= exact < Interpolate(a, b, offset) * width + width
  {
    var width, rise := b.offset - a.offset, (b.utcNs - a.utcNs) * (offset - a.offset);
    assert Interpolate(a, b, offset) == a.utcNs + rise / width;
    assert rise / width * width <= rise < rise / width * width + width;
    assert (a.utcNs + rise / width) * width == a.utcNs * width + rise / width * width;
  }

  lemma {:induction false} Bracket(idx: seq<nat>, i: nat) returns (j: nat)
    requires |idx| >= 2 && idx[0] <= i <= idx[|idx| - 1]
    ensures j + 1 < |idx| && idx[j] <= i <= idx[j + 1]
  {
    if i <= idx[1] {
      j := 0;
    } else {
      j := Bracket(idx[1..], i);
      j := j + 1;
    }
  }

  /** Point p is within the tolerance of the line between kept points j and
      j + 1, which enclose it. */
  ghost predicate Reconstructs(kept: seq<ControlPoint>, j: int, p: ControlPoint, tolerance: int) {
    && 0 <= j < |kept| - 1
    && kept[j].offset < kept[j + 1].offset
    && kept[j].offset <= p.offset <= kept[j + 1].offset
    && Abs(p.utcNs - Interpolate(kept[j], kept[j + 1], p.offset)) <= tolerance
  }

  /** For strictly increasing offsets every original point, kept or dropped, is
      reconstructed within the tolerance by two consecutive kept points. */
  lemma TimingReconstructed(c: seq<ControlPoint>, tolerance: int, idx: seq<nat>, kept: seq<ControlPoint>, i: nat)
    requires tolerance >= 0
    requires Simplification(c, tolerance, idx, kept)
    requires forall i, j :: 0 <= i < j < |c| ==> c[i].offset < c[j].offset
    requires |c| >= 2 && i < |c|
    ensures exists j :: Reconstructs(kept, j, c[i], tolerance)
  {
    assert idx[0] != idx[|idx| - 1];
    var j := Bracket(idx, i);
    assert idx[j] < idx[j + 1];
    assert c[idx[j]].offset < c[idx[j + 1]].offset;
    InterpolateEnds(kept[j], kept[j + 1]);
    assert Straight(c, idx[j], idx[j + 1], tolerance);
    if idx[j] < i < idx[j + 1] {
      assert Error(c, idx[j], idx[j + 1], i) <= tolerance;
    }
    assert Reconstructs(kept, j, c[i], tolerance);
  }
}
