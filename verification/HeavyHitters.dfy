/**
 The bounded table of keys by cumulative latency. When the table is full a new key replaces one
 with the smallest cumulative latency if it brings more; which of several smallest is replaced
 depends on the hash map's iteration order and is left open.
 */
module HeavyHitters {
  import opened Common

  datatype Confidence = Exact | Probable | ProbableAsync | ContextOnly

  datatype Entry = Entry(count: u64, bytes: u64, cumulative: u64, max: u64, confidence: Option<Confidence>)

  datatype Observation = Observation(key: string, bytes: u64, latency: u64, confidence: Option<Confidence>)

  datatype Table = Table(capacity: nat, entries: map<string, Entry>, evicted: u64, total: u64)

  const FRESH: Entry := Entry(0, 0, 0, 0, None)

  function Credited(e: Entry, o: Observation): Entry {
    Entry(SatAdd(e.count, 1), SatAdd(e.bytes, o.bytes), SatAdd(e.cumulative, o.latency),
          Max(e.max, o.latency), if o.confidence.Some? then o.confidence else e.confidence)
  }

  function Credit(entries: map<string, Entry>, o: Observation): map<string, Entry> {
    entries[o.key := Credited(if o.key in entries then entries[o.key] else FRESH, o)]
  }

  /** A key that `min_by_key` may return. */
  predicate Smallest(entries: map<string, Entry>, k: string) {
    k in entries && forall j :: j in entries ==> entries[k].cumulative <= entries[j].cumulative
  }

  predicate Full(t: Table) { |t.entries| == t.capacity }

  /** The new key gets no place. */
  ghost predicate Refused(t: Table, o: Observation) {
    forall k :: Smallest(t.entries, k) ==> o.latency <= t.entries[k].cumulative
  }

  /** One observation; nondeterministic only in the choice of the replaced key. */
  ghost predicate Observes(s: Table, o: Observation, t: Table) {
    && t.capacity == s.capacity && t.total == SatAdd(s.total, o.latency)
    && if o.key in s.entries || !Full(s)
       then t.entries == Credit(s.entries, o) && t.evicted == s.evicted
       else t.evicted == SatAdd(s.evicted, 1) &&
            if Refused(s, o) then t.entries == s.entries
            else exists k :: Smallest(s.entries, k) && o.latency > s.entries[k].cumulative &&
                             t.entries == Credit(s.entries - {k}, o)
  }

  function Empty(capacity: nat): Table { Table(capacity, map[], 0, 0) }

  ghost predicate IsRun(run: seq<Table>, os: seq<Observation>, capacity: nat) {
    && |run| == |os| + 1 && run[0] == Empty(capacity)
    && forall i :: 0 <= i < |os| ==> Observes(run[i], os[i], run[i + 1])
  }

  class BoundedTop {
    const capacity: nat
    var entries: map<string, Entry>
    var evictedKeys: u64
    var totalMetric: u64

    ghost function Model(): Table
      reads this
    {
      Table(capacity, entries, evictedKeys, totalMetric)
    }

    constructor (capacity: nat)
      ensures Model() == Empty(capacity)
    {
      this.capacity := capacity;
      entries, evictedKeys, totalMetric := map[], 0, 0;
    }

    method Observe(o: Observation)
      modifies this
      ensures Observes(old(Model()), o, Model())
    {
      totalMetric := SatAdd(totalMetric, o.latency);
      ghost var before := entries;
      if o.key !in entries && |entries| == capacity {
        if entries == map[] {
          evictedKeys := SatAdd(evictedKeys, 1);
          return;
        }
        SmallestExists(entries);
        var candidate :| Smallest(entries, candidate);
        evictedKeys := SatAdd(evictedKeys, 1);
        if o.latency <= entries[candidate].cumulative {
          SmallestAgree(entries, candidate, o.latency);
          return;
        }
        entries := entries - {candidate};
        assert Smallest(before, candidate) && !Refused(old(Model()), o);
      }
      var entry := if o.key in entries then entries[o.key] else FRESH;
      entries := entries[o.key := Credited(entry, o)];
    }
  }

  lemma {:induction false} SmallestExists(entries: map<string, Entry>)
    requires entries != map[]
    ensures exists k :: Smallest(entries, k)
    decreases |entries|
  {
    var a :| a in entries;
    var rest := entries - {a};
    if rest == map[] {
      assert forall j :: j in entries ==> j == a || j in rest;
      assert Smallest(entries, a);
    } else {
      SmallestExists(rest);
      var b :| Smallest(rest, b);
      var k := if entries[a].cumulative <= entries[b].cumulative then a else b;
      assert forall j :: j in entries ==> j == a || j in rest;
      assert Smallest(entries, k);
    }
  }

  lemma SmallestAgree(entries: map<string, Entry>, k: string, latency: u64)
    requires Smallest(entries, k)
    ensures latency <= entries[k].cumulative <==>
      forall j :: Smallest(entries, j) ==> latency <= entries[j].cumulative
  {
  }

  // ---- the floor of a full table never sinks ----

  ghost predicate Floor(t: Table, m: int) {
    forall k :: k in t.entries ==> m <= t.entries[k].cumulative
  }

  lemma CreditKeys(entries: map<string, Entry>, o: Observation)
    ensures Credit(entries, o).Keys == entries.Keys + {o.key}
    ensures |Credit(entries, o)| == |entries| + if o.key in entries then 0 else 1
  {
    assert |Credit(entries, o)| == |Credit(entries, o).Keys| && |entries| == |entries.Keys|;
    if o.key in entries { assert entries.Keys + {o.key} == entries.Keys; }
  }

  lemma DropSize(entries: map<string, Entry>, k: string)
    requires k in entries
    ensures |entries - {k}| == |entries| - 1
  {
    var rest := entries - {k};
    assert rest.Keys == entries.Keys - {k};
    assert |rest| == |rest.Keys| && |entries| == |entries.Keys|;
  }

  lemma SizeStep(s: Table, o: Observation, t: Table)
    requires Observes(s, o, t) && |s.entries| <= s.capacity
    ensures |s.entries| <= |t.entries| <= t.capacity
  {
    if o.key in s.entries || !Full(s) {
      CreditKeys(s.entries, o);
    } else if !Refused(s, o) {
      var k :| Smallest(s.entries, k) && o.latency > s.entries[k].cumulative && t.entries == Credit(s.entries - {k}, o);
      DropSize(s.entries, k);
      CreditKeys(s.entries - {k}, o);
    }
  }

  /** Once full, every lower bound on the retained cumulative latencies stays one. */
  lemma FloorStep(s: Table, o: Observation, t: Table, m: int)
    requires Observes(s, o, t) && Full(s) && Floor(s, m)
    ensures Full(t) && Floor(t, m)
  {
    SizeStep(s, o, t);
  }

  lemma {:induction false} SizeRun(run: seq<Table>, os: seq<Observation>, capacity: nat, j: nat)
    requires IsRun(run, os, capacity) && j < |run|
    ensures run[j].capacity == capacity && |run[j].entries| <= capacity
  {
    if j > 0 {
      SizeRun(run, os, capacity, j - 1);
      SizeStep(run[j - 1], os[j - 1], run[j]);
    }
  }

  lemma {:induction false} FloorRun(run: seq<Table>, os: seq<Observation>, capacity: nat, i: nat, j: nat, m: int)
    requires IsRun(run, os, capacity) && i <= j < |run| && Full(run[i]) && Floor(run[i], m)
    ensures Full(run[j]) && Floor(run[j], m)
    decreases j - i
  {
    if i < j {
      FloorRun(run, os, capacity, i, j - 1, m);
      FloorStep(run[j - 1], os[j - 1], run[j], m);
    }
  }

  // ---- the heavy-hitter guarantee ----

  ghost predicate Holds(t: Table, key: string, latency: int) {
    key in t.entries && t.entries[key].cumulative >= latency && t.entries[key].max >= latency
  }

  /** Observation `os[i]` beats the final table: it is not full, or some entry is smaller. */
  ghost predicate Beats(t: Table, latency: int) {
    !Full(t) || exists k :: k in t.entries && t.entries[k].cumulative < latency
  }

  /** A table that precedes one that `latency` beats is itself beaten. */
  lemma BeatsEarlier(run: seq<Table>, os: seq<Observation>, capacity: nat, i: nat, j: nat, latency: int)
    requires IsRun(run, os, capacity) && i <= j < |run| && Beats(run[j], latency)
    ensures Beats(run[i], latency)
  {
    if Full(run[i]) && forall k :: k in run[i].entries ==> latency <= run[i].entries[k].cumulative {
      assert Floor(run[i], latency);
      FloorRun(run, os, capacity, i, j, latency);
    }
  }

  lemma BeatenAdmits(s: Table, o: Observation, t: Table)
    requires Observes(s, o, t) && Beats(s, o.latency)
    ensures Holds(t, o.key, o.latency)
  {
    if o.key !in s.entries && Full(s) {
      var k :| k in s.entries && s.entries[k].cumulative < o.latency;
      SmallestExists(s.entries);
      var v :| Smallest(s.entries, v);
      assert s.entries[v].cumulative <= s.entries[k].cumulative;
      assert !Refused(s, o);
    }
  }

  lemma HeldStays(s: Table, o: Observation, t: Table, key: string, latency: int)
    requires Observes(s, o, t) && Holds(s, key, latency) && Beats(s, latency) && latency <= U64_MAX
    ensures Holds(t, key, latency)
  {
    if o.key !in s.entries && Full(s) && !Refused(s, o) {
      var k :| Smallest(s.entries, k) && o.latency > s.entries[k].cumulative && t.entries == Credit(s.entries - {k}, o);
      var j :| j in s.entries && s.entries[j].cumulative < latency;
      assert s.entries[k].cumulative <= s.entries[j].cumulative;
    }
  }

  lemma RunStep(run: seq<Table>, os: seq<Observation>, capacity: nat, j: nat)
    requires IsRun(run, os, capacity) && 0 < j < |run|
    ensures Observes(run[j - 1], os[j - 1], run[j])
  {
    assert Observes(run[j - 1], os[j - 1], run[j - 1 + 1]);
  }

  lemma {:induction false} HeldRun(run: seq<Table>, os: seq<Observation>, capacity: nat, i: nat, j: nat)
    requires IsRun(run, os, capacity) && i < j < |run| && Beats(run[j], os[i].latency)
    ensures Holds(run[j], os[i].key, os[i].latency)
    decreases j
  {
    var o := os[i];
    BeatsEarlier(run, os, capacity, j - 1, j, o.latency);
    RunStep(run, os, capacity, j);
    if j == i + 1 {
      BeatenAdmits(run[j - 1], o, run[j]);
    } else {
      HeldRun(run, os, capacity, i, j - 1);
      HeldStays(run[j - 1], os[j - 1], run[j], o.key, o.latency);
    }
  }

  /** Any key with a single observation above the final floor (or any observed key, if the table
      never filled) is in the final table with at least that maximum and cumulative latency. */
  lemma HeavyHittersKept(run: seq<Table>, os: seq<Observation>, capacity: nat, i: nat)
    requires IsRun(run, os, capacity) && i < |os| && Beats(run[|os|], os[i].latency)
    ensures Holds(run[|os|], os[i].key, os[i].latency)
  {
    HeldRun(run, os, capacity, i, |os|);
  }

  // ---- conservation ----

  /** Sum of the retained cumulative latencies. */
  ghost function Retained(entries: map<string, Entry>): int
    decreases |entries|
  {
    if entries == map[] then 0
    else
      var k :| k in entries;
      entries[k].cumulative + Retained(entries - {k})
  }

  lemma {:induction false} RetainedSplit(entries: map<string, Entry>, k: string)
    requires k in entries
    ensures Retained(entries) == entries[k].cumulative + Retained(entries - {k})
    decreases |entries|
  {
    var a :| a in entries && Retained(entries) == entries[a].cumulative + Retained(entries - {a});
    if a != k {
      RetainedSplit(entries - {a}, k);
      RetainedSplit(entries - {k}, a);
      assert entries - {a} - {k} == entries - {k} - {a};
    }
  }

  lemma CreditRetains(entries: map<string, Entry>, o: Observation)
    ensures Retained(Credit(entries, o)) <= Retained(entries) + o.latency
  {
    var after := Credit(entries, o);
    RetainedSplit(after, o.key);
    assert after - {o.key} == entries - {o.key};
    if o.key in entries { RetainedSplit(entries, o.key); } else { assert entries - {o.key} == entries; }
  }

  function Latency(os: seq<Observation>): nat {
    if os == [] then 0 else Latency(os[..|os| - 1]) + os[|os| - 1].latency
  }

  /** What is retained never exceeds what was observed, and the total is exact up to saturation. */
  lemma {:induction false} RetainedBounded(run: seq<Table>, os: seq<Observation>, capacity: nat, j: nat)
    requires IsRun(run, os, capacity) && j < |run|
    ensures Retained(run[j].entries) <= Latency(os[..j])
    ensures run[j].total == Min(Latency(os[..j]), U64_MAX)
  {
    if j > 0 {
      RetainedBounded(run, os, capacity, j - 1);
      var s, o, t := run[j - 1], os[j - 1], run[j];
      assert os[..j][..j - 1] == os[..j - 1];
      CreditRetains(s.entries, o);
      if o.key !in s.entries && Full(s) && !Refused(s, o) {
        var k :| Smallest(s.entries, k) && o.latency > s.entries[k].cumulative &&
                 t.entries == Credit(s.entries - {k}, o);
        RetainedSplit(s.entries, k);
        CreditRetains(s.entries - {k}, o);
      }
    }
  }

  // ---- exactness without evictions ----

  /** The reference totals of one key. */
  datatype Tally = Tally(count: nat, bytes: nat, latency: nat, max: nat, confidence: Option<Confidence>)

  function TallyOf(os: seq<Observation>, key: string): Tally {
    if os == [] then Tally(0, 0, 0, 0, None)
    else
      var t, o := TallyOf(os[..|os| - 1], key), os[|os| - 1];
      if o.key != key then t else Tallied(t, o)
  }

  ghost predicate Shows(e: Entry, t: Tally) {
    && e.count == Min(t.count, U64_MAX) && e.bytes == Min(t.bytes, U64_MAX)
    && e.cumulative == Min(t.latency, U64_MAX) && e.max == t.max && e.confidence == t.confidence
  }

  lemma {:induction false} EvictionsGrow(run: seq<Table>, os: seq<Observation>, capacity: nat, i: nat, j: nat)
    requires IsRun(run, os, capacity) && i <= j < |run|
    ensures run[i].evicted <= run[j].evicted
    decreases j - i
  {
    if i < j { EvictionsGrow(run, os, capacity, i, j - 1); }
  }

  /** As long as nothing was evicted the table holds exactly the observed keys with exact totals. */
  ghost predicate Exactly(t: Table, key: string, tally: Tally) {
    && (key in t.entries <==> tally.count > 0)
    && (key in t.entries ==> Shows(t.entries[key], tally))
    && (key !in t.entries ==> tally == Tally(0, 0, 0, 0, None))
  }

  function Tallied(t: Tally, o: Observation): Tally {
    Tally(t.count + 1, t.bytes + o.bytes, t.latency + o.latency, Max(t.max, o.latency),
          if o.confidence.Some? then o.confidence else t.confidence)
  }

  lemma CreditShows(e: Entry, t: Tally, o: Observation)
    requires Shows(e, t)
    ensures Shows(Credited(e, o), Tallied(t, o))
  {
  }

  lemma ExactStep(s: Table, o: Observation, t: Table, key: string, tally: Tally)
    requires Observes(s, o, t) && t.evicted == 0 && Exactly(s, key, tally)
    ensures Exactly(t, key, if o.key == key then Tallied(tally, o) else tally)
  {
    assert t.entries == Credit(s.entries, o);
    CreditShows(if key in s.entries then s.entries[key] else FRESH, tally, o);
  }

  lemma {:induction false} ExactWithoutEvictions(
    run: seq<Table>, os: seq<Observation>, capacity: nat, j: nat, key: string)
    requires IsRun(run, os, capacity) && j < |run| && run[j].evicted == 0
    ensures Exactly(run[j], key, TallyOf(os[..j], key))
  {
    if j > 0 {
      EvictionsGrow(run, os, capacity, j - 1, j);
      ExactWithoutEvictions(run, os, capacity, j - 1, key);
      assert os[..j][..j - 1] == os[..j - 1];
      RunStep(run, os, capacity, j);
      ExactStep(run[j - 1], os[j - 1], run[j], key, TallyOf(os[..j - 1], key));
    }
  }
}
