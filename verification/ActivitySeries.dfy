/**
 The desktop's multi-resolution activity series: each level keeps, of every sixteen points of the
 level below, the ends and the extremes; drawing picks the finest level that fits. Coordinates are
 reals, so there are no infinities or NaN.
 */
module ActivitySeries {
  import opened Common

  const CHUNK: nat := 16
  const COARSEST: nat := 256

  datatype Point = Point(x: real, y: real)

  // ---- what one chunk keeps ----

  ghost predicate IsLowest(chunk: seq<Point>, k: nat) {
    k < |chunk| && forall j | 0 <= j < |chunk| :: chunk[k].y <= chunk[j].y
  }

  ghost predicate IsHighest(chunk: seq<Point>, k: nat) {
    k < |chunk| && forall j | 0 <= j < |chunk| :: chunk[j].y <= chunk[k].y
  }

  /** The first lowest point. */
  function Lowest(chunk: seq<Point>): (k: nat)
    requires chunk != []
    ensures IsLowest(chunk, k) && forall j | 0 <= j < k :: chunk[j].y > chunk[k].y
  {
    if |chunk| == 1 then 0
    else
      var k := Lowest(chunk[..|chunk| - 1]);
      if chunk[|chunk| - 1].y < chunk[k].y then |chunk| - 1 else k
  }

  /** The last highest point. */
  function Highest(chunk: seq<Point>): (k: nat)
    requires chunk != []
    ensures IsHighest(chunk, k) && forall j | k < j < |chunk| :: chunk[j].y < chunk[k].y
  {
    if |chunk| == 1 then 0
    else
      var k := Highest(chunk[..|chunk| - 1]);
      if chunk[|chunk| - 1].y >= chunk[k].y then |chunk| - 1 else k
  }

  predicate Increasing(s: seq<nat>) { forall i, j | 0 <= i < j < |s| :: s[i] < s[j] }

  predicate NonDecreasing(s: seq<nat>) { forall i, j | 0 <= i < j < |s| :: s[i] <= s[j] }

  function Dedup(s: seq<nat>): (r: seq<nat>)
    requires NonDecreasing(s)
    ensures Increasing(r) && |r| <= |s| && (forall k :: k in r <==> k in s)
    ensures s != [] ==> r != [] && r[|r| - 1] == s[|s| - 1]
  {
    if s == [] then []
    else
      var before := Dedup(s[..|s| - 1]);
      assert forall k :: k in s <==> k in s[..|s| - 1] || k == s[|s| - 1];
      if before != [] && before[|before| - 1] == s[|s| - 1] then before else before + [s[|s| - 1]]
  }

  /** The positions kept of a chunk: its ends and its extremes, in order, each once. */
  function Picks(chunk: seq<Point>): (r: seq<nat>)
    requires chunk != []
    ensures Increasing(r) && 0 < |r| <= 4 && (forall k | k in r :: k < |chunk|)
    ensures 0 in r && |chunk| - 1 in r && Lowest(chunk) in r && Highest(chunk) in r
  {
    var lo, hi := Lowest(chunk), Highest(chunk);
    var sorted: seq<nat> := [0, Min(lo, hi), Max(lo, hi), |chunk| - 1];
    assert sorted[0] in sorted && sorted[1] in sorted && sorted[2] in sorted && sorted[3] in sorted;
    Dedup(sorted)
  }

  function Select(level: seq<Point>, idx: seq<nat>): (r: seq<Point>)
    requires forall i | 0 <= i < |idx| :: idx[i] < |level|
    ensures |r| == |idx| && forall i | 0 <= i < |idx| :: r[i] == level[idx[i]]
  {
    seq(|idx|, (i: nat) requires i < |idx| && idx[i] < |level| => level[idx[i]])
  }

  lemma PicksWithin(chunk: seq<Point>, i: nat)
    requires chunk != [] && i < |Picks(chunk)|
    ensures Picks(chunk)[i] < |chunk|
  {
    assert Picks(chunk)[i] in Picks(chunk);
  }

  function Kept(chunk: seq<Point>): (r: seq<Point>)
    requires chunk != []
    ensures |r| <= 4
  {
    assert forall i | 0 <= i < |Picks(chunk)| :: Picks(chunk)[i] < |chunk| by {
      forall i | 0 <= i < |Picks(chunk)| ensures Picks(chunk)[i] < |chunk| { PicksWithin(chunk, i); }
    }
    Select(chunk, Picks(chunk))
  }

  // ---- one level from the level below ----

  function ChunkOf(level: seq<Point>): (chunk: seq<Point>)
    ensures chunk <= level && |chunk| <= CHUNK
    ensures level != [] ==> chunk != []
  {
    level[..Min(CHUNK, |level|)]
  }

  function Coarse(level: seq<Point>): (r: seq<Point>)
    ensures level == [] ==> r == []
    ensures 4 * |r| <= |level| + CHUNK - 1
    decreases |level|
  {
    if level == [] then [] else Kept(ChunkOf(level)) + Coarse(level[|ChunkOf(level)|..])
  }

  // ---- what every level keeps ----

  ghost predicate Selects(idx: seq<nat>, s: seq<Point>, t: seq<Point>) {
    && |idx| == |s| && Increasing(idx)
    && forall i | 0 <= i < |s| :: idx[i] < |t| && s[i] == t[idx[i]]
  }

  /** An ordered subsequence. */
  ghost predicate IsSubsequence(s: seq<Point>, t: seq<Point>) {
    exists idx: seq<nat> :: Selects(idx, s, t)
  }

  /** Some point is at least as low, and some at least as high, as the point. */
  ghost predicate Bounds(s: seq<Point>, p: Point) {
    && (exists q :: q in s && q.y <= p.y)
    && (exists q :: q in s && q.y >= p.y)
  }

  ghost predicate KeepsExtremes(s: seq<Point>, t: seq<Point>) {
    forall p | p in t :: Bounds(s, p)
  }

  ghost predicate KeepsEnds(s: seq<Point>, t: seq<Point>) {
    (t == [] <==> s == []) && (t != [] ==> s[0] == t[0] && s[|s| - 1] == t[|t| - 1])
  }

  /** A faithful reduction: original points in order, with the first, the last, the lowest and the
      highest. */
  ghost predicate Reduces(s: seq<Point>, t: seq<Point>) {
    IsSubsequence(s, t) && KeepsEnds(s, t) && KeepsExtremes(s, t)
  }

  function Identity(n: nat): (idx: seq<nat>)
    ensures |idx| == n && forall i | 0 <= i < n :: idx[i] == i
  {
    seq(n, (i: nat) => i)
  }

  lemma ReducesSelf(s: seq<Point>)
    ensures Reduces(s, s)
  {
    assert Selects(Identity(|s|), s, s);
    forall p | p in s ensures Bounds(s, p) {
    }
  }

  function Compose(outer: seq<nat>, inner: seq<nat>): (idx: seq<nat>)
    requires forall i | 0 <= i < |outer| :: outer[i] < |inner|
    ensures |idx| == |outer| && forall i | 0 <= i < |outer| :: idx[i] == inner[outer[i]]
  {
    seq(|outer|, (i: nat) requires i < |outer| && outer[i] < |inner| => inner[outer[i]])
  }

  lemma SubsequenceTrans(s: seq<Point>, t: seq<Point>, u: seq<Point>)
    requires IsSubsequence(s, t) && IsSubsequence(t, u)
    ensures IsSubsequence(s, u)
  {
    var outer: seq<nat> :| Selects(outer, s, t);
    var inner: seq<nat> :| Selects(inner, t, u);
    assert Selects(Compose(outer, inner), s, u);
  }

  lemma ExtremesTrans(s: seq<Point>, t: seq<Point>, u: seq<Point>)
    requires KeepsExtremes(s, t) && KeepsExtremes(t, u)
    ensures KeepsExtremes(s, u)
  {
    forall p | p in u ensures Bounds(s, p) {
      assert Bounds(t, p);
      var lo :| lo in t && lo.y <= p.y;
      var hi :| hi in t && hi.y >= p.y;
      assert Bounds(s, lo) && Bounds(s, hi);
    }
  }

  lemma ReducesTrans(s: seq<Point>, t: seq<Point>, u: seq<Point>)
    requires Reduces(s, t) && Reduces(t, u)
    ensures Reduces(s, u)
  {
    SubsequenceTrans(s, t, u);
    ExtremesTrans(s, t, u);
  }

  lemma PickKept(chunk: seq<Point>, k: nat)
    requires chunk != [] && k in Picks(chunk) && k < |chunk|
    ensures chunk[k] in Kept(chunk)
  {
    var i :| 0 <= i < |Picks(chunk)| && Picks(chunk)[i] == k;
    assert Kept(chunk)[i] == chunk[k];
  }

  lemma KeptEnds(chunk: seq<Point>)
    requires chunk != []
    ensures KeepsEnds(Kept(chunk), chunk)
  {
    var picks := Picks(chunk);
    IncreasingEnds(picks, |chunk|);
  }

  lemma IncreasingEnds(idx: seq<nat>, n: nat)
    requires Increasing(idx) && n > 0 && (forall k | k in idx :: k < n) && 0 in idx && n - 1 in idx
    ensures idx[0] == 0 && idx[|idx| - 1] == n - 1
  {
    assert idx[|idx| - 1] in idx;
  }

  lemma KeptReduces(chunk: seq<Point>)
    requires chunk != []
    ensures Reduces(Kept(chunk), chunk)
  {
    assert IsSubsequence(Kept(chunk), chunk) by {
      forall i | 0 <= i < |Picks(chunk)| ensures Picks(chunk)[i] < |chunk| { PicksWithin(chunk, i); }
      assert Selects(Picks(chunk), Kept(chunk), chunk);
    }
    KeptEnds(chunk);
    PickKept(chunk, Lowest(chunk));
    PickKept(chunk, Highest(chunk));
    forall p | p in chunk ensures Bounds(Kept(chunk), p) {
      var j :| 0 <= j < |chunk| && chunk[j] == p;
      assert chunk[Lowest(chunk)].y <= p.y <= chunk[Highest(chunk)].y;
    }
  }

  function Shifted(s: seq<nat>, offset: nat): (r: seq<nat>)
    ensures |r| == |s| && forall i | 0 <= i < |s| :: r[i] == s[i] + offset
  {
    seq(|s|, (i: nat) requires i < |s| => s[i] + offset)
  }

  lemma SubsequenceJoin(a: seq<Point>, t: seq<Point>, b: seq<Point>, u: seq<Point>)
    requires IsSubsequence(a, t) && IsSubsequence(b, u)
    ensures IsSubsequence(a + b, t + u)
  {
    var left: seq<nat> :| Selects(left, a, t);
    var right: seq<nat> :| Selects(right, b, u);
    var both := left + Shifted(right, |t|);
    assert Selects(both, a + b, t + u);
  }

  lemma ExtremesJoin(a: seq<Point>, t: seq<Point>, b: seq<Point>, u: seq<Point>)
    requires KeepsExtremes(a, t) && KeepsExtremes(b, u)
    ensures KeepsExtremes(a + b, t + u)
  {
    forall p | p in t + u ensures Bounds(a + b, p) {
      var part := if p in t then a else b;
      assert Bounds(part, p);
      var lo :| lo in part && lo.y <= p.y;
      var hi :| hi in part && hi.y >= p.y;
      assert lo in a + b && hi in a + b;
    }
  }

  /** One coarser level is a faithful reduction. */
  lemma {:induction false} CoarseReduces(level: seq<Point>)
    ensures Reduces(Coarse(level), level)
    decreases |level|
  {
    if level == [] {
      ReducesSelf(level);
    } else {
      var chunk := ChunkOf(level);
      var rest := level[|chunk|..];
      assert chunk + rest == level;
      KeptReduces(chunk);
      CoarseReduces(rest);
      ReducesJoin(Kept(chunk), chunk, Coarse(rest), rest);
    }
  }

  lemma ReducesJoin(a: seq<Point>, t: seq<Point>, b: seq<Point>, u: seq<Point>)
    requires Reduces(a, t) && Reduces(b, u)
    ensures Reduces(a + b, t + u)
  {
    SubsequenceJoin(a, t, b, u);
    ExtremesJoin(a, t, b, u);
    EndsJoin(a, t, b, u);
  }

  lemma EndsJoin(a: seq<Point>, t: seq<Point>, b: seq<Point>, u: seq<Point>)
    requires KeepsEnds(a, t) && KeepsEnds(b, u)
    ensures KeepsEnds(a + b, t + u)
  {
  }

  // ---- the pyramid ----

  ghost predicate Coarser(below: seq<Point>, level: seq<Point>) {
    |below| > COARSEST && level == Coarse(below)
  }

  ghost predicate IsTower(levels: seq<seq<Point>>, points: seq<Point>) {
    && levels != [] && levels[0] == points
    && forall k | 0 <= k < |levels| - 1 :: Coarser(levels[k], levels[k + 1])
  }

  /** Level upon coarser level, down to the first that is small enough. */
  ghost predicate IsPyramid(levels: seq<seq<Point>>, points: seq<Point>) {
    IsTower(levels, points) && |levels[|levels| - 1]| <= COARSEST
  }

  lemma PushLevel(levels: seq<seq<Point>>, points: seq<Point>, level: seq<Point>)
    requires IsTower(levels, points) && Coarser(levels[|levels| - 1], level)
    ensures IsTower(levels + [level], points)
  {
    var all := levels + [level];
    forall k | 0 <= k < |all| - 1 ensures Coarser(all[k], all[k + 1]) {
      if k < |levels| - 1 { assert Coarser(levels[k], levels[k + 1]); }
    }
  }

  /** How many points the levels from `k` on hold together. */
  function SizeFrom(levels: seq<seq<Point>>, k: nat): nat
    decreases |levels| - k
  {
    if k >= |levels| then 0 else |levels[k]| + SizeFrom(levels, k + 1)
  }

  /** The whole pyramid takes less than twice the space of the points. */
  lemma {:induction false} PyramidSmall(levels: seq<seq<Point>>, points: seq<Point>, k: nat)
    requires IsPyramid(levels, points) && k < |levels|
    ensures SizeFrom(levels, k) <= 2 * |levels[k]|
    ensures levels[k] != [] ==> SizeFrom(levels, k) < 2 * |levels[k]|
    decreases |levels| - k
  {
    if k + 1 < |levels| {
      PyramidSmall(levels, points, k + 1);
      assert Coarser(levels[k], levels[k + 1]);
    }
  }

  /** Every level is a faithful reduction of the original points. */
  lemma {:induction false} PyramidReduces(levels: seq<seq<Point>>, points: seq<Point>, k: nat)
    requires IsPyramid(levels, points) && k < |levels|
    ensures Reduces(levels[k], points)
  {
    ReducesSelf(points);
    if k > 0 {
      PyramidReduces(levels, points, k - 1);
      assert Coarser(levels[k - 1], levels[k - 1 + 1]);
      CoarseReduces(levels[k - 1]);
      ReducesTrans(levels[k], levels[k - 1], points);
    }
  }

  method Build(points: seq<Point>) returns (levels: seq<seq<Point>>)
    ensures IsPyramid(levels, points)
  {
    levels := [points];
    while |levels[|levels| - 1]| > COARSEST
      invariant IsTower(levels, points)
      decreases |levels[|levels| - 1]|
    {
      var coarse := Coarse(levels[|levels| - 1]);
      PushLevel(levels, points, coarse);
      levels := levels + [coarse];
    }
  }

  // ---- the visible part ----

  ghost predicate SortedX(level: seq<Point>) {
    forall i, j | 0 <= i < j < |level| :: level[i].x <= level[j].x
  }

  lemma SubsequenceSorted(s: seq<Point>, t: seq<Point>)
    requires IsSubsequence(s, t) && SortedX(t)
    ensures SortedX(s)
  {
    var idx: seq<nat> :| Selects(idx, s, t);
    forall i, j | 0 <= i < j < |s| ensures s[i].x <= s[j].x {
      assert idx[i] < idx[j];
    }
  }

  predicate LeftOf(p: Point, edge: real, inclusive: bool) {
    p.x < edge || (inclusive && p.x == edge)
  }

  /** How many points lie left of an edge: where the sorted level is partitioned. */
  function CountLeft(level: seq<Point>, edge: real, inclusive: bool): (n: nat)
    ensures n <= |level|
  {
    if level == [] then 0
    else CountLeft(level[..|level| - 1], edge, inclusive) +
         if LeftOf(level[|level| - 1], edge, inclusive) then 1 else 0
  }

  lemma {:induction false} Partitioned(level: seq<Point>, edge: real, inclusive: bool, i: nat)
    requires SortedX(level) && i < |level|
    ensures i < CountLeft(level, edge, inclusive) <==> LeftOf(level[i], edge, inclusive)
  {
    var n := |level| - 1;
    if i < n {
      Partitioned(level[..n], edge, inclusive, i);
    } else if n > 0 {
      Partitioned(level[..n], edge, inclusive, n - 1);
      if LeftOf(level[n], edge, inclusive) { AllLeft(level[..n], edge, inclusive); }
    }
  }

  lemma {:induction false} AllLeft(level: seq<Point>, edge: real, inclusive: bool)
    requires forall i | 0 <= i < |level| :: LeftOf(level[i], edge, inclusive)
    ensures CountLeft(level, edge, inclusive) == |level|
  {
    if level != [] { AllLeft(level[..|level| - 1], edge, inclusive); }
  }

  function WindowEnd(level: seq<Point>, x1: real): (hi: nat)
    ensures hi <= |level|
  {
    Min(CountLeft(level, x1, true) + 1, |level|)
  }

  function WindowStart(level: seq<Point>, x0: real, x1: real): (lo: nat)
    ensures lo <= WindowEnd(level, x1)
  {
    var left: int := CountLeft(level, x0, false);
    Min(Max(left - 1, 0), WindowEnd(level, x1))
  }

  function Window(level: seq<Point>, x0: real, x1: real): seq<Point> {
    level[WindowStart(level, x0, x1)..WindowEnd(level, x1)]
  }

  /** The window holds every point between the edges, and at most one neighbour on each side. */
  lemma WindowShows(level: seq<Point>, x0: real, x1: real, i: nat)
    requires SortedX(level) && i < |level|
    ensures x0 <= level[i].x <= x1 ==> WindowStart(level, x0, x1) <= i < WindowEnd(level, x1)
    ensures WindowStart(level, x0, x1) <= i < WindowEnd(level, x1) && level[i].x < x0 ==>
      i == WindowStart(level, x0, x1)
    ensures WindowStart(level, x0, x1) <= i < WindowEnd(level, x1) && level[i].x > x1 ==>
      i == WindowEnd(level, x1) - 1
  {
    Partitioned(level, x0, false, i);
    Partitioned(level, x1, true, i);
  }

  /** The same at any level of the pyramid of a sorted series. */
  lemma PyramidShows(levels: seq<seq<Point>>, points: seq<Point>, k: nat, x0: real, x1: real, i: nat)
    requires IsPyramid(levels, points) && SortedX(points) && k < |levels| && i < |levels[k]|
    ensures var lo, hi := WindowStart(levels[k], x0, x1), WindowEnd(levels[k], x1);
      && (x0 <= levels[k][i].x <= x1 ==> lo <= i < hi)
      && (lo <= i < hi && levels[k][i].x < x0 ==> i == lo)
      && (lo <= i < hi && levels[k][i].x > x1 ==> i == hi - 1)
  {
    PyramidReduces(levels, points, k);
    SubsequenceSorted(levels[k], points);
    WindowShows(levels[k], x0, x1, i);
  }

  function Budget(columns: u64): u64 { Min(Max(columns, 1) * 4, U64_MAX) }

  /** The finest level whose window fits the budget, or else the coarsest. */
  ghost predicate Chosen(levels: seq<seq<Point>>, k: nat, x0: real, x1: real, budget: u64) {
    && k < |levels|
    && (|Window(levels[k], x0, x1)| <= budget || k == |levels| - 1)
    && forall j | 0 <= j < k :: |Window(levels[j], x0, x1)| > budget
  }

  method Visible(levels: seq<seq<Point>>, x0: real, x1: real, columns: u64) returns (r: seq<Point>)
    ensures levels == [] ==> r == []
    ensures levels != [] ==>
      exists k: nat :: Chosen(levels, k, x0, x1, Budget(columns)) && r == Window(levels[k], x0, x1)
  {
    var budget := Budget(columns);
    for i := 0 to |levels|
      invariant forall j | 0 <= j < i :: |Window(levels[j], x0, x1)| > budget
      invariant i == |levels| ==> levels == []
    {
      var shown := Window(levels[i], x0, x1);
      if |shown| <= budget || i + 1 == |levels| {
        assert Chosen(levels, i, x0, x1, budget);
        return shown;
      }
    }
    return [];
  }
}
