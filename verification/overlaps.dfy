/**
  Interval clipping (`find_overlaps`): intersect one segment `[start, end)`
  with a sorted list of disjoint keep-intervals.
*/
module Overlaps {
  import opened Types

  /** Every keep-interval has `a <= b` (the first assertion of `find_overlaps`). */
  ghost predicate WellFormed(ivs: seq<Interval>)
  {
    forall k :: 0 <= k < |ivs| ==> ivs[k].0 <= ivs[k].1
  }

  /** Consecutive keep-intervals do not overlap (the second assertion). */
  ghost predicate ConsecutiveOrdered(ivs: seq<Interval>)
  {
    forall k :: 0 < k < |ivs| ==> ivs[k - 1].1 <= ivs[k].0
  }

  ghost predicate SortedDisjoint(ivs: seq<Interval>)
  {
    WellFormed(ivs) && ConsecutiveOrdered(ivs)
  }

  /** Any two pieces, not only neighbours, are ordered and do not overlap. */
  ghost predicate PairwiseOrdered(ivs: seq<Interval>)
  {
    forall a, b :: 0 <= a < b < |ivs| ==> ivs[a].1 <= ivs[b].0
  }

  /** `x` lies in one of the half-open intervals. */
  ghost predicate InUnion(x: Position, ivs: seq<Interval>)
  {
    exists j :: 0 <= j < |ivs| && ivs[j].0 <= x < ivs[j].1
  }

  /** The interval `iv` lies inside one of the intervals `ivs`. */
  ghost predicate InsideOne(iv: Interval, ivs: seq<Interval>)
  {
    exists j :: 0 <= j < |ivs| && ivs[j].0 <= iv.0 && iv.1 <= ivs[j].1
  }

  /** The keep-interval is not skipped: neither `n <= start` nor `end <= m`. */
  predicate Overlapping(start: Position, end: Position, iv: Interval)
  {
    !(iv.1 <= start || end <= iv.0)
  }

  /** The keep-interval clipped to the segment's own bounds. */
  function Clip(start: Position, end: Position, iv: Interval): Interval
  {
    (if iv.0 < start then start else iv.0, if iv.1 < end then iv.1 else end)
  }

  /** The pieces `find_overlaps` leaves in its output buffer, one per
      overlapping keep-interval, in the order of the keep-intervals. */
  function Overlaps(start: Position, end: Position, ivs: seq<Interval>): seq<Interval>
    decreases |ivs|
  {
    if ivs == [] then []
    else
      var last := ivs[|ivs| - 1];
      Overlaps(start, end, ivs[..|ivs| - 1]) + (if Overlapping(start, end, last) then [Clip(start, end, last)] else [])
  }

  /** The two assertions imply that all pairs of keep-intervals are ordered. */
  lemma {:induction false} SortedIsPairwise(ivs: seq<Interval>, a: int, b: int)
    requires SortedDisjoint(ivs)
    requires 0 <= a < b < |ivs|
    ensures ivs[a].1 <= ivs[b].0
    decreases b - a
  {
    if a + 1 < b {
      SortedIsPairwise(ivs, a, b - 1);
      assert ivs[b - 1].0 <= ivs[b - 1].1;
    }
  }

  lemma SortedPairwiseOrdered(ivs: seq<Interval>)
    requires SortedDisjoint(ivs)
    ensures PairwiseOrdered(ivs)
  {
    forall a, b | 0 <= a < b < |ivs| ensures ivs[a].1 <= ivs[b].0 {
      SortedIsPairwise(ivs, a, b);
    }
  }

  /** Each piece lies inside the segment and inside one keep-interval, and there
      are never more pieces than keep-intervals. */
  lemma {:induction false} OverlapsInside(start: Position, end: Position, ivs: seq<Interval>)
    ensures |Overlaps(start, end, ivs)| <= |ivs|
    ensures forall k :: 0 <= k < |Overlaps(start, end, ivs)| ==>
              var piece := Overlaps(start, end, ivs)[k];
              start <= piece.0 && piece.1 <= end && InsideOne(piece, ivs)
    decreases |ivs|
  {
    if ivs != [] {
      var pre, last := ivs[..|ivs| - 1], ivs[|ivs| - 1];
      OverlapsInside(start, end, pre);
      var out := Overlaps(start, end, ivs);
      forall k | 0 <= k < |out|
        ensures start <= out[k].0 && out[k].1 <= end && InsideOne(out[k], ivs)
      {
        if k < |Overlaps(start, end, pre)| {
          assert out[k] == Overlaps(start, end, pre)[k];
          var j :| 0 <= j < |pre| && pre[j].0 <= out[k].0 && out[k].1 <= pre[j].1;
          assert ivs[j] == pre[j];
        } else {
          assert out[k] == Clip(start, end, last);
          assert ivs[|ivs| - 1] == last;
        }
      }
    }
  }

  /** On a segment with `start <= end`, no piece is inverted. */
  lemma {:induction false} OverlapsNotInverted(start: Position, end: Position, ivs: seq<Interval>)
    requires WellFormed(ivs)
    requires start <= end
    ensures forall k :: 0 <= k < |Overlaps(start, end, ivs)| ==>
              Overlaps(start, end, ivs)[k].0 <= Overlaps(start, end, ivs)[k].1
    decreases |ivs|
  {
    if ivs != [] {
      var pre := ivs[..|ivs| - 1];
      assert WellFormed(pre) by {
        forall k | 0 <= k < |pre| ensures pre[k].0 <= pre[k].1 { assert pre[k] == ivs[k]; }
      }
      OverlapsNotInverted(start, end, pre);
    }
  }

  /** The pieces come out ordered and pairwise disjoint. */
  lemma {:induction false} OverlapsOrdered(start: Position, end: Position, ivs: seq<Interval>)
    requires SortedDisjoint(ivs)
    ensures PairwiseOrdered(Overlaps(start, end, ivs))
    decreases |ivs|
  {
    if ivs != [] {
      var pre, last := ivs[..|ivs| - 1], ivs[|ivs| - 1];
      assert SortedDisjoint(pre) by {
        forall k | 0 <= k < |pre| ensures pre[k] == ivs[k] {}
      }
      OverlapsOrdered(start, end, pre);
      OverlapsInside(start, end, pre);
      var head := Overlaps(start, end, pre);
      var out := Overlaps(start, end, ivs);
      forall a, b | 0 <= a < b < |out| ensures out[a].1 <= out[b].0 {
        if b < |head| {
          assert out[a] == head[a] && out[b] == head[b];
        } else {
          assert out[b] == Clip(start, end, last) && out[a] == head[a];
          var j :| 0 <= j < |pre| && pre[j].0 <= head[a].0 && head[a].1 <= pre[j].1;
          assert pre[j] == ivs[j];
          SortedIsPairwise(ivs, j, |ivs| - 1);
        }
      }
    }
  }

  lemma InUnionAppend(x: Position, a: seq<Interval>, b: seq<Interval>)
    ensures InUnion(x, a + b) <==> InUnion(x, a) || InUnion(x, b)
  {
    if InUnion(x, a + b) {
      var j :| 0 <= j < |a + b| && (a + b)[j].0 <= x < (a + b)[j].1;
      if j >= |a| { assert b[j - |a|] == (a + b)[j]; }
    }
    if InUnion(x, a) {
      var j :| 0 <= j < |a| && a[j].0 <= x < a[j].1;
      assert (a + b)[j] == a[j];
    }
    if InUnion(x, b) {
      var j :| 0 <= j < |b| && b[j].0 <= x < b[j].1;
      assert (a + b)[|a| + j] == b[j];
    }
  }

  /** The pieces cover exactly the points of the segment that some keep-interval covers. */
  lemma {:induction false} OverlapsCover(start: Position, end: Position, ivs: seq<Interval>, x: Position)
    ensures InUnion(x, Overlaps(start, end, ivs)) <==> start <= x < end && InUnion(x, ivs)
    decreases |ivs|
  {
    if ivs == [] {
    } else {
      var pre, last := ivs[..|ivs| - 1], ivs[|ivs| - 1];
      OverlapsCover(start, end, pre, x);
      var tail := if Overlapping(start, end, last) then [Clip(start, end, last)] else [];
      InUnionAppend(x, Overlaps(start, end, pre), tail);
      assert ivs == pre + [last];
      InUnionAppend(x, pre, [last]);
      assert InUnion(x, [last]) <==> last.0 <= x < last.1 by {
        if last.0 <= x < last.1 { assert [last][0] == last; }
      }
      if Overlapping(start, end, last) {
        assert InUnion(x, tail) <==> Clip(start, end, last).0 <= x < Clip(start, end, last).1 by {
          if Clip(start, end, last).0 <= x < Clip(start, end, last).1 { assert tail[0] == Clip(start, end, last); }
        }
      }
    }
  }

  /** A piece is exactly the clip of an overlapping keep-interval, and every
      overlapping keep-interval contributes its clip. */
  lemma {:induction false} OverlapsMembers(start: Position, end: Position, ivs: seq<Interval>, piece: Interval)
    ensures piece in Overlaps(start, end, ivs) <==>
              exists j :: 0 <= j < |ivs| && Overlapping(start, end, ivs[j]) && piece == Clip(start, end, ivs[j])
    decreases |ivs|
  {
    if ivs != [] {
      var pre, last := ivs[..|ivs| - 1], ivs[|ivs| - 1];
      OverlapsMembers(start, end, pre, piece);
      if exists j :: 0 <= j < |ivs| && Overlapping(start, end, ivs[j]) && piece == Clip(start, end, ivs[j]) {
        var j :| 0 <= j < |ivs| && Overlapping(start, end, ivs[j]) && piece == Clip(start, end, ivs[j]);
        if j < |pre| { assert pre[j] == ivs[j]; }
      }
      if piece in Overlaps(start, end, pre) {
        var j :| 0 <= j < |pre| && Overlapping(start, end, pre[j]) && piece == Clip(start, end, pre[j]);
        assert pre[j] == ivs[j];
      }
    }
  }

  /** `find_overlaps`: clears the output buffer, then pushes the clip of every
      keep-interval the segment overlaps. */
  method FindOverlaps(start: Position, end: Position, intervals: seq<Interval>) returns (out: seq<Interval>)
    requires SortedDisjoint(intervals)
    ensures out == Overlaps(start, end, intervals)
    ensures |out| <= |intervals|
    ensures forall k :: 0 <= k < |out| ==> start <= out[k].0 && out[k].1 <= end && InsideOne(out[k], intervals)
    ensures start <= end ==> forall k :: 0 <= k < |out| ==> out[k].0 <= out[k].1
    ensures PairwiseOrdered(out)
    ensures forall x :: InUnion(x, out) <==> start <= x < end && InUnion(x, intervals)
  {
    out := [];
    for i := 0 to |intervals|
      invariant out == Overlaps(start, end, intervals[..i])
    {
      var (m, n) := intervals[i];
      assert intervals[..i + 1][..i] == intervals[..i];
      if n <= start || end <= m {
        continue;
      }
      var newStart := if m < start then start else m;
      var newEnd := if n < end then n else end;
      out := out + [(newStart, newEnd)];
    }
    assert intervals[..|intervals|] == intervals;
    OverlapsInside(start, end, intervals);
    if start <= end {
      OverlapsNotInverted(start, end, intervals);
    }
    OverlapsOrdered(start, end, intervals);
    forall x ensures InUnion(x, out) <==> start <= x < end && InUnion(x, intervals) {
      OverlapsCover(start, end, intervals, x);
    }
  }
}
