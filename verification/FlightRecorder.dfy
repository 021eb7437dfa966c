/**
 The agent's in-memory flight recorder: the newest records within a byte cap and a time window.
 The encoded size of a record is part of it here.
 */
module FlightRecorder {
  import opened Common

  datatype Record = Record(ts: u64, size: nat, tag: nat)

  datatype Limits = Limits(maxBytes: nat, window: u64)

  datatype State = State(records: seq<Record>, evicted: nat)

  function Size(s: seq<Record>): nat {
    if s == [] then 0 else s[0].size + Size(s[1..])
  }

  /** Drops records from the front while there are too many bytes or the front is too old. */
  function Trimmed(s: seq<Record>, max: nat, minimum: u64): (r: seq<Record>)
    ensures |r| <= |s|
  {
    if s != [] && (Size(s) > max || s[0].ts < minimum) then Trimmed(s[1..], max, minimum) else s
  }

  function Step(s: State, r: Record, limits: Limits): State {
    if r.size > limits.maxBytes then s.(evicted := s.evicted + 1)
    else
      var pushed := s.records + [r];
      var kept := Trimmed(pushed, limits.maxBytes, SatSub(r.ts, limits.window));
      State(kept, s.evicted + (|pushed| - |kept|))
  }

  function After(rs: seq<Record>, limits: Limits): State {
    if rs == [] then State([], 0) else Step(After(rs[..|rs| - 1], limits), rs[|rs| - 1], limits)
  }

  /** The records small enough to be kept at all. */
  function Accepted(rs: seq<Record>, limits: Limits): seq<Record> {
    if rs == [] then []
    else Accepted(rs[..|rs| - 1], limits) + if rs[|rs| - 1].size <= limits.maxBytes then [rs[|rs| - 1]] else []
  }

  ghost predicate IsSuffix(s: seq<Record>, t: seq<Record>) {
    |s| <= |t| && s == t[|t| - |s|..]
  }

  /** Trimming leaves the first suffix that starts inside the window and fits the cap. */
  lemma TrimmedShape(s: seq<Record>, max: nat, minimum: u64)
    ensures IsSuffix(Trimmed(s, max, minimum), s)
    ensures Size(Trimmed(s, max, minimum)) <= max
    ensures var k := |s| - |Trimmed(s, max, minimum)|;
      && (k < |s| ==> s[k].ts >= minimum)
      && (k > 0 ==> Size(s[k - 1..]) > max || s[k - 1].ts < minimum)
  {
    TrimmedSuffix(s, max, minimum);
    TrimmedEdges(s, max, minimum);
  }

  lemma {:induction false} TrimmedSuffix(s: seq<Record>, max: nat, minimum: u64)
    ensures IsSuffix(Trimmed(s, max, minimum), s) && Size(Trimmed(s, max, minimum)) <= max
  {
    if s != [] && (Size(s) > max || s[0].ts < minimum) {
      TrimmedSuffix(s[1..], max, minimum);
      SuffixTail(Trimmed(s[1..], max, minimum), s);
    }
  }

  lemma SuffixTail(t: seq<Record>, s: seq<Record>)
    requires s != [] && IsSuffix(t, s[1..])
    ensures IsSuffix(t, s)
  {
  }

  lemma {:induction false} TrimmedEdges(s: seq<Record>, max: nat, minimum: u64)
    ensures |Trimmed(s, max, minimum)| <= |s|
    ensures var k := |s| - |Trimmed(s, max, minimum)|;
      && (k < |s| ==> s[k].ts >= minimum)
      && (k > 0 ==> Size(s[k - 1..]) > max || s[k - 1].ts < minimum)
  {
    if s != [] && (Size(s) > max || s[0].ts < minimum) {
      var k := |s[1..]| - |Trimmed(s[1..], max, minimum)|;
      TrimmedEdges(s[1..], max, minimum);
      if k > 0 { assert s[1..][k - 1..] == s[k..]; } else { assert s[0..] == s; }
    }
  }

  lemma {:induction false} SizeAppend(s: seq<Record>, r: Record)
    ensures Size(s + [r]) == Size(s) + r.size
  {
    if s == [] {
      assert [] + [r] == [r];
      assert [r][1..] == [];
    } else {
      assert (s + [r])[1..] == s[1..] + [r];
      SizeAppend(s[1..], r);
    }
  }

  lemma {:induction false} SizeSuffix(s: seq<Record>, k: nat)
    requires k <= |s|
    ensures Size(s[k..]) <= Size(s)
    ensures k < |s| ==> s[k].size <= Size(s)
  {
    if k > 0 {
      SizeSuffix(s[1..], k - 1);
      assert s[1..][k - 1..] == s[k..];
    }
  }

  /** The record just pushed survives: alone it is inside its own window and under the cap. */
  lemma {:induction false} NewestKept(s: seq<Record>, max: nat, minimum: u64)
    requires s != [] && s[|s| - 1].size <= max && s[|s| - 1].ts >= minimum
    ensures Trimmed(s, max, minimum) != []
  {
    if |s| == 1 {
      assert s[1..] == [];
      assert Size(s) == s[0].size + Size([]);
      assert Trimmed(s, max, minimum) == s;
    } else {
      assert s[1..][|s| - 2] == s[|s| - 1];
      NewestKept(s[1..], max, minimum);
    }
  }

  /** A suffix of the accepted records, within the cap, with the newest of them; and every record
      retained or counted as evicted. */
  ghost predicate Holds(s: State, all: seq<Record>, observed: nat, limits: Limits) {
    && IsSuffix(s.records, all)
    && Size(s.records) <= limits.maxBytes
    && (all != [] ==> s.records != [])
    && |s.records| + s.evicted == observed
  }

  lemma StepHolds(s: State, all: seq<Record>, observed: nat, r: Record, limits: Limits)
    requires Holds(s, all, observed, limits)
    ensures Holds(Step(s, r, limits), if r.size <= limits.maxBytes then all + [r] else all, observed + 1, limits)
  {
    if r.size <= limits.maxBytes { PushKeeps(s.records, all, r, limits); }
  }

  /** That holds whatever the timestamps. */
  lemma {:induction false} AlwaysHolds(rs: seq<Record>, limits: Limits)
    ensures Holds(After(rs, limits), Accepted(rs, limits), |rs|, limits)
  {
    if rs != [] {
      var before, r := rs[..|rs| - 1], rs[|rs| - 1];
      AlwaysHolds(before, limits);
      StepHolds(After(before, limits), Accepted(before, limits), |before|, r, limits);
      assert Accepted(before, limits) + [] == Accepted(before, limits);
    }
  }

  lemma PushKeeps(kept: seq<Record>, all: seq<Record>, r: Record, limits: Limits)
    requires IsSuffix(kept, all) && r.size <= limits.maxBytes
    ensures var t := Trimmed(kept + [r], limits.maxBytes, SatSub(r.ts, limits.window));
      IsSuffix(t, all + [r]) && t != [] && Size(t) <= limits.maxBytes
  {
    var pushed := kept + [r];
    TrimmedShape(pushed, limits.maxBytes, SatSub(r.ts, limits.window));
    NewestKept(pushed, limits.maxBytes, SatSub(r.ts, limits.window));
    SuffixPush(kept, all, r);
    SuffixTrans(Trimmed(pushed, limits.maxBytes, SatSub(r.ts, limits.window)), pushed, all + [r]);
  }

  lemma SuffixPush(s: seq<Record>, t: seq<Record>, r: Record)
    requires IsSuffix(s, t)
    ensures IsSuffix(s + [r], t + [r])
  {
  }

  lemma SuffixTrans(s: seq<Record>, t: seq<Record>, u: seq<Record>)
    requires IsSuffix(s, t) && IsSuffix(t, u)
    ensures IsSuffix(s, u)
  {
  }

  // ---- with timestamps in order ----

  predicate InWindow(s: seq<Record>, now: u64, window: u64) {
    forall k | 0 <= k < |s| :: s[k].ts >= SatSub(now, window)
  }

  /** Under the cap, and no record older than the window behind the newest. */
  predicate Fits(s: seq<Record>, limits: Limits) {
    Size(s) <= limits.maxBytes && (s != [] ==> InWindow(s, s[|s| - 1].ts, limits.window))
  }

  ghost predicate LongestFit(s: seq<Record>, all: seq<Record>, limits: Limits) {
    && IsSuffix(s, all)
    && Fits(s, limits)
    && NoneFit(all, |all| - |s|, limits)
  }

  /** None of the suffixes that start before `n` fits. */
  ghost predicate NoneFit(all: seq<Record>, n: nat, limits: Limits)
    requires n <= |all|
  {
    forall k | 0 <= k < n :: !Fits(all[k..], limits)
  }

  ghost predicate Ordered(rs: seq<Record>) {
    forall i, j | 0 <= i <= j < |rs| :: rs[i].ts <= rs[j].ts
  }

  lemma {:induction false} AcceptedOrdered(rs: seq<Record>, limits: Limits)
    requires Ordered(rs)
    ensures Ordered(Accepted(rs, limits))
    ensures forall r | r in Accepted(rs, limits) :: r in rs
  {
    if rs != [] {
      var n := |rs| - 1;
      AcceptedOrdered(rs[..n], limits);
      forall r | r in Accepted(rs[..n], limits) ensures r.ts <= rs[n].ts {
        assert r in rs[..n];
      }
    }
  }

  /** A suffix that did not fit does not fit with a later record behind it. */
  lemma StillUnfit(s: seq<Record>, r: Record, limits: Limits)
    requires s != [] && s[|s| - 1].ts <= r.ts && !Fits(s, limits)
    ensures !Fits(s + [r], limits)
  {
    SizeAppend(s, r);
    if Size(s) <= limits.maxBytes {
      var k :| 0 <= k < |s| && s[k].ts < SatSub(s[|s| - 1].ts, limits.window);
      assert (s + [r])[k].ts < SatSub(r.ts, limits.window);
    }
  }

  predicate Follows(all: seq<Record>, r: Record) { all != [] ==> all[|all| - 1].ts <= r.ts }

  lemma OldUnfit(all: seq<Record>, n: nat, r: Record, limits: Limits)
    requires n <= |all| && NoneFit(all, n, limits) && Follows(all, r)
    ensures NoneFit(all + [r], n, limits)
  {
    forall j | 0 <= j < n ensures !Fits((all + [r])[j..], limits) {
      assert (all + [r])[j..] == all[j..] + [r];
      StillUnfit(all[j..], r, limits);
    }
  }

  lemma NewUnfit(pushed: seq<Record>, limits: Limits, k: nat)
    requires pushed != []
    requires k == |pushed| - |Trimmed(pushed, limits.maxBytes, SatSub(pushed[|pushed| - 1].ts, limits.window))|
    ensures NoneFit(pushed, k, limits)
  {
    TrimmedShape(pushed, limits.maxBytes, SatSub(pushed[|pushed| - 1].ts, limits.window));
    forall j | 0 <= j < k ensures !Fits(pushed[j..], limits) {
      DroppedUnfit(pushed, j, k, limits);
    }
  }

  lemma JoinUnfit(all: seq<Record>, s: seq<Record>, k: nat, limits: Limits)
    requires IsSuffix(s, all) && k <= |s|
    requires NoneFit(all, |all| - |s|, limits) && NoneFit(s, k, limits)
    ensures NoneFit(all, |all| - |s| + k, limits)
  {
    forall j | |all| - |s| <= j < |all| - |s| + k ensures !Fits(all[j..], limits) {
      SuffixAt(s, all, j - (|all| - |s|));
    }
  }

  lemma SuffixAt(s: seq<Record>, t: seq<Record>, j: nat)
    requires IsSuffix(s, t) && j <= |s|
    ensures s[j..] == t[|t| - |s| + j..]
  {
  }

  lemma SuffixOrdered(s: seq<Record>, t: seq<Record>)
    requires IsSuffix(s, t) && Ordered(t)
    ensures Ordered(s)
  {
  }

  lemma FrontFits(t: seq<Record>, limits: Limits)
    requires t != [] && Ordered(t) && Size(t) <= limits.maxBytes
    requires t[0].ts >= SatSub(t[|t| - 1].ts, limits.window)
    ensures Fits(t, limits)
  {
  }

  lemma PushFits(kept: seq<Record>, all: seq<Record>, r: Record, limits: Limits)
    requires IsSuffix(kept, all) && Ordered(all + [r]) && r.size <= limits.maxBytes
    ensures Fits(Trimmed(kept + [r], limits.maxBytes, SatSub(r.ts, limits.window)), limits)
  {
    var t := Trimmed(kept + [r], limits.maxBytes, SatSub(r.ts, limits.window));
    PushKeeps(kept, all, r, limits);
    TrimmedEnds(kept + [r], limits.maxBytes, SatSub(r.ts, limits.window));
    assert Ordered(t) by { SuffixOrdered(t, all + [r]); }
    FrontFits(t, limits);
  }

  lemma TrimmedEnds(s: seq<Record>, max: nat, minimum: u64)
    ensures var t := Trimmed(s, max, minimum);
      t != [] ==> s != [] && t[|t| - 1] == s[|s| - 1] && t[0].ts >= minimum
  {
    TrimmedShape(s, max, minimum);
  }

  lemma PushUnfit(kept: seq<Record>, all: seq<Record>, r: Record, limits: Limits, t: seq<Record>)
    requires IsSuffix(kept, all) && NoneFit(all, |all| - |kept|, limits) && Follows(all, r)
    requires t == Trimmed(kept + [r], limits.maxBytes, SatSub(r.ts, limits.window)) && |t| <= |kept| + 1
    ensures NoneFit(all + [r], |all| + 1 - |t|, limits)
  {
    SuffixPush(kept, all, r);
    OldUnfit(all, |all| - |kept|, r, limits);
    NewUnfit(kept + [r], limits, |kept| + 1 - |t|);
    JoinUnfit(all + [r], kept + [r], |kept| + 1 - |t|, limits);
  }

  lemma OrderedFollows(all: seq<Record>, r: Record)
    requires Ordered(all + [r])
    ensures Follows(all, r)
  {
    assert all != [] ==> (all + [r])[|all| - 1].ts <= (all + [r])[|all|].ts;
  }

  lemma PushLongest(kept: seq<Record>, all: seq<Record>, r: Record, limits: Limits)
    requires LongestFit(kept, all, limits) && Ordered(all + [r])
    requires r.size <= limits.maxBytes
    ensures LongestFit(Trimmed(kept + [r], limits.maxBytes, SatSub(r.ts, limits.window)), all + [r], limits)
  {
    var t := Trimmed(kept + [r], limits.maxBytes, SatSub(r.ts, limits.window));
    PushKeeps(kept, all, r, limits);
    PushFits(kept, all, r, limits);
    OrderedFollows(all, r);
    TrimmedShape(kept + [r], limits.maxBytes, SatSub(r.ts, limits.window));
    PushUnfit(kept, all, r, limits, t);
  }

  /** What trimming drops did not fit, nor anything longer. */
  lemma DroppedUnfit(pushed: seq<Record>, j: nat, k: nat, limits: Limits)
    requires j < k <= |pushed|
    requires var last := pushed[|pushed| - 1];
      Size(pushed[k - 1..]) > limits.maxBytes || pushed[k - 1].ts < SatSub(last.ts, limits.window)
    ensures !Fits(pushed[j..], limits)
  {
    var s := pushed[j..];
    assert s[k - 1 - j..] == pushed[k - 1..];
    SizeSuffix(s, k - 1 - j);
    assert s[k - 1 - j] == pushed[k - 1] && s[|s| - 1] == pushed[|pushed| - 1];
  }

  /** With nondecreasing timestamps the recorder holds exactly the longest suffix of the accepted
      records that fits the cap and the window. */
  lemma {:induction false} HoldsLongest(rs: seq<Record>, limits: Limits)
    requires Ordered(rs)
    ensures LongestFit(After(rs, limits).records, Accepted(rs, limits), limits)
  {
    if rs != [] {
      var before, r := rs[..|rs| - 1], rs[|rs| - 1];
      HoldsLongest(before, limits);
      if r.size <= limits.maxBytes {
        AcceptedOrdered(rs, limits);
        assert Accepted(rs, limits) == Accepted(before, limits) + [r];
        PushLongest(After(before, limits).records, Accepted(before, limits), r, limits);
      } else {
        assert Accepted(rs, limits) == Accepted(before, limits);
      }
    }
  }

  // ---- with timestamps running backwards ----

  ghost predicate Descending(rs: seq<Record>) {
    forall i, j | 0 <= i <= j < |rs| :: rs[i].ts >= rs[j].ts
  }

  lemma {:induction false} AcceptedDescending(rs: seq<Record>, limits: Limits)
    requires Descending(rs)
    ensures Descending(Accepted(rs, limits))
    ensures forall r | r in Accepted(rs, limits) :: r in rs
  {
    if rs != [] {
      var n := |rs| - 1;
      AcceptedDescending(rs[..n], limits);
      forall r | r in Accepted(rs[..n], limits) ensures r.ts >= rs[n].ts {
        assert r in rs[..n];
      }
    }
  }

  /** Then only the cap matters. */
  lemma DescendingFits(s: seq<Record>, limits: Limits)
    requires Descending(s)
    ensures Fits(s, limits) <==> Size(s) <= limits.maxBytes
  {
  }

  lemma SuffixDescending(s: seq<Record>, k: nat)
    requires Descending(s) && k <= |s|
    ensures Descending(s[k..])
  {
  }

  /** What the front of a descending list does not lose to the window it loses to the cap. */
  lemma {:induction false} TrimmedBySize(s: seq<Record>, max: nat, minimum: u64)
    requires forall k | 0 <= k < |s| :: s[k].ts >= minimum
    ensures var k := |s| - |Trimmed(s, max, minimum)|; 0 <= k && (k > 0 ==> Size(s[k - 1..]) > max)
  {
    TrimmedShape(s, max, minimum);
  }

  lemma BackUnfit(pushed: seq<Record>, limits: Limits, k: nat)
    requires pushed != [] && Descending(pushed)
    requires k == |pushed| - |Trimmed(pushed, limits.maxBytes, SatSub(pushed[|pushed| - 1].ts, limits.window))|
    ensures NoneFit(pushed, k, limits)
  {
    TrimmedBySize(pushed, limits.maxBytes, SatSub(pushed[|pushed| - 1].ts, limits.window));
    forall j | 0 <= j < k ensures !Fits(pushed[j..], limits) {
      DroppedUnfit(pushed, j, k, limits);
    }
  }

  /** A suffix over the cap stays over it. */
  lemma StillOver(all: seq<Record>, n: nat, r: Record, limits: Limits)
    requires n <= |all| && Descending(all + [r]) && NoneFit(all, n, limits)
    ensures NoneFit(all + [r], n, limits)
  {
    assert Descending(all) by { assert all == (all + [r])[..|all|]; }
    forall j | 0 <= j < n ensures !Fits((all + [r])[j..], limits) {
      assert (all + [r])[j..] == all[j..] + [r];
      SuffixDescending(all, j);
      DescendingFits(all[j..], limits);
      SizeAppend(all[j..], r);
    }
  }

  lemma PushBack(kept: seq<Record>, all: seq<Record>, r: Record, limits: Limits)
    requires LongestFit(kept, all, limits) && Descending(all + [r]) && r.size <= limits.maxBytes
    ensures LongestFit(Trimmed(kept + [r], limits.maxBytes, SatSub(r.ts, limits.window)), all + [r], limits)
  {
    var t := Trimmed(kept + [r], limits.maxBytes, SatSub(r.ts, limits.window));
    PushKeeps(kept, all, r, limits);
    SuffixBack(t, all + [r], limits);
    TrimmedSuffix(kept + [r], limits.maxBytes, SatSub(r.ts, limits.window));
    PushBackUnfit(kept, all, r, limits, t);
  }

  lemma SuffixBack(t: seq<Record>, all: seq<Record>, limits: Limits)
    requires IsSuffix(t, all) && Descending(all) && Size(t) <= limits.maxBytes
    ensures Fits(t, limits)
  {
    SuffixDescending(all, |all| - |t|);
    DescendingFits(t, limits);
  }

  lemma PushBackUnfit(kept: seq<Record>, all: seq<Record>, r: Record, limits: Limits, t: seq<Record>)
    requires IsSuffix(kept, all) && NoneFit(all, |all| - |kept|, limits) && Descending(all + [r])
    requires t == Trimmed(kept + [r], limits.maxBytes, SatSub(r.ts, limits.window)) && |t| <= |kept| + 1
    ensures NoneFit(all + [r], |all| + 1 - |t|, limits)
  {
    SuffixPush(kept, all, r);
    StillOver(all, |all| - |kept|, r, limits);
    assert Descending(kept + [r]) by { SuffixDescending(all + [r], |all| - |kept|); }
    BackUnfit(kept + [r], limits, |kept| + 1 - |t|);
    JoinUnfit(all + [r], kept + [r], |kept| + 1 - |t|, limits);
  }

  lemma {:induction false} BackwardsLongest(rs: seq<Record>, limits: Limits)
    requires Descending(rs)
    ensures LongestFit(After(rs, limits).records, Accepted(rs, limits), limits)
  {
    if rs != [] {
      var before, r := rs[..|rs| - 1], rs[|rs| - 1];
      BackwardsLongest(before, limits);
      if r.size <= limits.maxBytes {
        AcceptedDescending(rs, limits);
        assert Accepted(rs, limits) == Accepted(before, limits) + [r];
        PushBack(After(before, limits).records, Accepted(before, limits), r, limits);
      } else {
        assert Accepted(rs, limits) == Accepted(before, limits);
      }
    }
  }

  // ---- exactly when the window is exact ----

  ghost predicate ExactAt(rs: seq<Record>, n: nat, limits: Limits)
    requires n <= |rs|
  {
    LongestFit(After(rs[..n], limits).records, Accepted(rs[..n], limits), limits)
  }

  /** The timestamps rose up to `n` and fall there. */
  ghost predicate PeaksAt(rs: seq<Record>, n: nat) {
    0 < n < |rs| && Ordered(rs[..n]) && rs[0].ts < rs[n - 1].ts && rs[n].ts < rs[n - 1].ts
  }

  /** The timestamps fell up to `n` and rise there. */
  ghost predicate DipsAt(rs: seq<Record>, n: nat) {
    0 < n < |rs| && Descending(rs[..n]) && rs[0].ts > rs[n - 1].ts && rs[n].ts > rs[n - 1].ts
  }

  ghost predicate TurnsAt(rs: seq<Record>, n: nat) { PeaksAt(rs, n) || DipsAt(rs, n) }

  lemma OrderedPush(rs: seq<Record>)
    requires rs != [] && Ordered(rs[..|rs| - 1]) && (|rs| > 1 ==> rs[|rs| - 2].ts <= rs[|rs| - 1].ts)
    ensures Ordered(rs)
  {
    var n := |rs| - 1;
    forall i | 0 <= i < n ensures rs[i].ts <= rs[n].ts {
      assert rs[..n][i].ts <= rs[..n][n - 1].ts;
    }
    assert forall i, j | 0 <= i <= j < n :: rs[..n][i].ts <= rs[..n][j].ts;
  }

  lemma DescendingPush(rs: seq<Record>)
    requires rs != [] && Descending(rs[..|rs| - 1]) && (|rs| > 1 ==> rs[|rs| - 2].ts >= rs[|rs| - 1].ts)
    ensures Descending(rs)
  {
    var n := |rs| - 1;
    forall i | 0 <= i < n ensures rs[i].ts >= rs[n].ts {
      assert rs[..n][i].ts >= rs[..n][n - 1].ts;
    }
    assert forall i, j | 0 <= i <= j < n :: rs[..n][i].ts >= rs[..n][j].ts;
  }

  lemma Flat(rs: seq<Record>)
    requires rs != [] && rs[0].ts == rs[|rs| - 1].ts
    ensures Ordered(rs) <==> Descending(rs)
  {
    var n := |rs| - 1;
    if Ordered(rs) {
      forall i | 0 <= i <= n ensures rs[i].ts == rs[0].ts { assert rs[0].ts <= rs[i].ts <= rs[n].ts; }
    }
    if Descending(rs) {
      forall i | 0 <= i <= n ensures rs[i].ts == rs[0].ts { assert rs[0].ts >= rs[i].ts >= rs[n].ts; }
    }
  }

  /** Timestamps that run neither way turn around for a first time. */
  lemma {:induction false} Turn(rs: seq<Record>)
    requires !Ordered(rs) && !Descending(rs)
    ensures exists n: nat :: TurnsAt(rs, n)
  {
    var n := |rs| - 1;
    var before := rs[..n];
    if !Ordered(before) && !Descending(before) {
      Turn(before);
      var k: nat :| TurnsAt(before, k);
      assert before[..k] == rs[..k];
      assert TurnsAt(rs, k);
    } else {
      FirstTurn(rs);
      assert TurnsAt(rs, n);
    }
  }

  lemma FirstTurn(rs: seq<Record>)
    requires rs != [] && !Ordered(rs) && !Descending(rs)
    requires Ordered(rs[..|rs| - 1]) || Descending(rs[..|rs| - 1])
    ensures TurnsAt(rs, |rs| - 1)
  {
    var n := |rs| - 1;
    var before := rs[..n];
    if n > 0 {
      if before[0].ts == before[n - 1].ts { Flat(before); }
      if Ordered(before) {
        assert before[0].ts <= before[n - 1].ts;
        if rs[n - 1].ts <= rs[n].ts { OrderedPush(rs); }
      }
      if Descending(before) {
        assert before[0].ts >= before[n - 1].ts;
        if rs[n - 1].ts >= rs[n].ts { DescendingPush(rs); }
      }
    }
  }

  lemma {:induction false} SizeCovers(rs: seq<Record>, n: nat, limits: Limits)
    requires n <= |rs| && limits.maxBytes == Size(rs)
    ensures Accepted(rs[..n], limits) == rs[..n] && Size(rs[..n]) <= limits.maxBytes
    decreases n
  {
    if n == 0 {
      assert rs[..0] == [];
    } else {
      SizeCovers(rs, n - 1, limits);
      assert rs[..n][..n - 1] == rs[..n - 1] && rs[..n] == rs[..n - 1] + [rs[n - 1]];
      SizeSuffix(rs, n - 1);
      SizePrefix(rs, n);
    }
  }

  lemma {:induction false} SizePrefix(rs: seq<Record>, n: nat)
    requires n <= |rs|
    ensures Size(rs[..n]) <= Size(rs)
  {
    if n > 0 {
      assert rs[..n][1..] == rs[1..][..n - 1];
      SizePrefix(rs[1..], n - 1);
    }
  }

  /** While time runs back nothing leaves through the window. */
  lemma {:induction false} AllKept(rs: seq<Record>, n: nat, limits: Limits)
    requires n <= |rs| && limits.maxBytes == Size(rs) && Descending(rs[..n])
    ensures After(rs[..n], limits).records == rs[..n]
    decreases n
  {
    if n > 0 {
      assert rs[..n][..n - 1] == rs[..n - 1] && rs[..n] == rs[..n - 1] + [rs[n - 1]];
      assert Descending(rs[..n - 1]);
      AllKept(rs, n - 1, limits);
      SizeSuffix(rs, n - 1);
      SizePrefix(rs, n);
      assert rs[..n][0].ts >= rs[..n][n - 1].ts;
    }
  }

  /** After a dip a window of all but one tick of the rise keeps the lowest record, too old, behind
      the first. */
  lemma DipInexact(rs: seq<Record>, n: nat)
    requires DipsAt(rs, n)
    ensures !ExactAt(rs, n + 1, Limits(Size(rs), rs[n].ts - rs[n - 1].ts - 1))
  {
    var limits := Limits(Size(rs), rs[n].ts - rs[n - 1].ts - 1);
    var all := rs[..n + 1];
    assert all[..n] == rs[..n] && all == rs[..n] + [rs[n]];
    AllKept(rs, n, limits);
    SizeSuffix(rs, n);
    SizePrefix(rs, n + 1);
    assert SatSub(rs[n].ts, limits.window) == rs[n - 1].ts + 1;
    assert After(all, limits).records == all;
    assert all[n - 1].ts < SatSub(all[n].ts, limits.window);
  }

  /** Before a peak a window of all but one tick of the rise drops the first record, which fits
      again after the fall. */
  lemma PeakInexact(rs: seq<Record>, n: nat)
    requires PeaksAt(rs, n)
    ensures !ExactAt(rs, n + 1, Limits(Size(rs), rs[n - 1].ts - rs[0].ts - 1))
  {
    var limits := Limits(Size(rs), rs[n - 1].ts - rs[0].ts - 1);
    FirstDropped(rs, n, limits);
    var all := rs[..n + 1];
    SizeCovers(rs, n + 1, limits);
    assert Fits(all, limits) by {
      forall k | 0 <= k < |all| ensures all[k].ts >= SatSub(all[n].ts, limits.window) {
        if k < n { assert rs[..n][0].ts <= rs[..n][k].ts; }
      }
    }
    assert all[0..] == all;
  }

  lemma FirstDropped(rs: seq<Record>, n: nat, limits: Limits)
    requires PeaksAt(rs, n) && limits == Limits(Size(rs), rs[n - 1].ts - rs[0].ts - 1)
    ensures |After(rs[..n + 1], limits).records| <= n
  {
    var front := rs[..n];
    var kept := After(front, limits).records;
    assert |kept| < n by {
      HoldsLongest(front, limits);
      SizeCovers(rs, n, limits);
      StartsOld(kept, front, limits);
    }
    AfterPush(rs, n, limits);
  }

  lemma StartsOld(kept: seq<Record>, front: seq<Record>, limits: Limits)
    requires front != [] && front[0].ts < SatSub(front[|front| - 1].ts, limits.window)
    requires LongestFit(kept, front, limits)
    ensures |kept| < |front|
  {
    assert |kept| == |front| ==> kept == front;
  }

  lemma AfterPush(rs: seq<Record>, n: nat, limits: Limits)
    requires n < |rs|
    ensures |After(rs[..n + 1], limits).records| <= |After(rs[..n], limits).records| + 1
  {
    assert rs[..n + 1][..n] == rs[..n];
    TrimmedShape(After(rs[..n], limits).records + [rs[n]], limits.maxBytes, SatSub(rs[n].ts, limits.window));
  }

  /** A record 55 ticks older than the newest, kept by a window of 54. */
  lemma StaleKept()
    ensures !ExactAt([Record(100, 1, 0), Record(50, 1, 1), Record(105, 1, 2)], 3, Limits(3, 54))
  {
    var rs := [Record(100, 1, 0), Record(50, 1, 1), Record(105, 1, 2)];
    assert rs[1..][1..] == [rs[2]] && [rs[2]][1..] == [];
    assert Size(rs) == 3;
    assert Descending(rs[..2]);
    DipInexact(rs, 2);
  }

  /** The recorder holds exactly the longest fitting suffix after every record, whatever its limits,
      if and only if the timestamps never decrease or never increase. */
  lemma WindowExactIff(rs: seq<Record>)
    ensures (forall n: nat, limits | n <= |rs| :: ExactAt(rs, n, limits)) <==> Ordered(rs) || Descending(rs)
  {
    if Ordered(rs) {
      forall n: nat, limits | n <= |rs| ensures ExactAt(rs, n, limits) { HoldsLongest(rs[..n], limits); }
    } else if Descending(rs) {
      forall n: nat, limits | n <= |rs| ensures ExactAt(rs, n, limits) { BackwardsLongest(rs[..n], limits); }
    } else {
      Turn(rs);
      var n: nat :| TurnsAt(rs, n);
      if PeaksAt(rs, n) { PeakInexact(rs, n); } else { DipInexact(rs, n); }
    }
  }

  class Recorder {
    const limits: Limits
    var bytes: nat
    var evicted: nat
    var records: seq<Record>

    /** The byte count is exact. */
    ghost predicate Valid()
      reads this
    {
      bytes == Size(records)
    }

    ghost function Model(): State
      reads this
    {
      State(records, evicted)
    }

    constructor (maxBytes: nat, window: u64)
      ensures Valid() && limits == Limits(maxBytes, window) && Model() == After([], limits)
    {
      limits := Limits(maxBytes, window);
      bytes, evicted, records := 0, 0, [];
    }

    method Observe(r: Record)
      requires Valid()
      modifies this
      ensures Valid() && Model() == Step(old(Model()), r, limits)
    {
      if r.size > limits.maxBytes {
        evicted := evicted + 1;
        return;
      }
      SizeAppend(records, r);
      bytes := bytes + r.size;
      records := records + [r];
      var minimum := SatSub(r.ts, limits.window);
      ghost var pushed := records;
      while bytes > limits.maxBytes || (records != [] && records[0].ts < minimum)
        invariant Valid()
        invariant Trimmed(records, limits.maxBytes, minimum) == Trimmed(pushed, limits.maxBytes, minimum)
        invariant |records| <= |pushed| && evicted == old(evicted) + (|pushed| - |records|)
        decreases |records|
      {
        if records == [] { break; }
        bytes := Max(bytes - records[0].size, 0);
        records := records[1..];
        evicted := evicted + 1;
      }
    }
  }
}
