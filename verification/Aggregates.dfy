/**
 The per-CPU counters and log2 histograms the probes keep for one filter generation, and the agent's
 merge of them into a snapshot. The reference is the list of notes taken since the last reset.
 Counters are unbounded here.
 */
module Aggregates {
  import opened Common

  const BUCKETS: nat := 32

  // ---- buckets ----

  function Pow2(n: nat): nat { if n == 0 then 1 else 2 * Pow2(n - 1) }

  function BitLength(v: nat): nat { if v == 0 then 0 else 1 + BitLength(v / 2) }

  function LeadingZeros(v: u64): int { 64 - BitLength(v) }

  function HistogramIndex(v: u64): nat {
    var index := if v == 0 then 0 else Max(63 - LeadingZeros(v), 0);
    if index >= BUCKETS then BUCKETS - 1 else index
  }

  /** The inclusive upper ends of all buckets but the last, as the agent publishes them. */
  function Boundaries(): (s: seq<nat>)
    ensures |s| == BUCKETS - 1 && forall i | 0 <= i < |s| :: s[i] == Boundary(i)
  {
    seq(BUCKETS - 1, (i: nat) => Boundary(i))
  }

  function Boundary(i: nat): nat { Max(Pow2(i + 1) - 1, 0) }

  function CountBelow(bounds: seq<nat>, v: nat): nat {
    if bounds == [] then 0
    else CountBelow(bounds[..|bounds| - 1], v) + if bounds[|bounds| - 1] < v then 1 else 0
  }

  lemma {:induction false} PowMonotone(a: nat, b: nat)
    requires a <= b
    ensures 0 < Pow2(a) <= Pow2(b)
    decreases b
  {
    if b > 0 {
      if a == b { PowMonotone(a - 1, b - 1); } else { PowMonotone(a, b - 1); }
    }
  }

  lemma {:induction false} BitLengthMeans(v: nat, n: nat)
    ensures BitLength(v) <= n <==> v < Pow2(n)
    decreases v
  {
    if v == 0 {
      PowMonotone(0, n);
    } else if n > 0 {
      BitLengthMeans(v / 2, n - 1);
    }
  }

  lemma IndexMeans(v: u64, i: nat)
    requires i < BUCKETS - 1
    ensures i < HistogramIndex(v) <==> BitLength(v) > i + 1
  {
  }

  /** A value lies above a boundary exactly when its bucket does. */
  lemma AboveBoundary(v: u64, i: nat)
    requires i < BUCKETS - 1
    ensures Boundary(i) < v <==> i < HistogramIndex(v)
  {
    PowMonotone(0, i + 1);
    BitLengthMeans(v, i + 1);
    IndexMeans(v, i);
  }

  lemma {:induction false} CountSteps(bounds: seq<nat>, v: nat, k: nat)
    requires forall i | 0 <= i < |bounds| :: bounds[i] < v <==> i < k
    ensures CountBelow(bounds, v) == Min(k, |bounds|)
  {
    if bounds != [] { CountSteps(bounds[..|bounds| - 1], v, k); }
  }

  /** The kernel's bucket is the number of published boundaries below the value. */
  lemma BucketsAgree(v: u64)
    ensures HistogramIndex(v) == CountBelow(Boundaries(), v)
  {
    forall i | 0 <= i < BUCKETS - 1 ensures Boundary(i) < v <==> i < HistogramIndex(v) {
      AboveBoundary(v, i);
    }
    CountSteps(Boundaries(), v, HistogramIndex(v));
  }

  // ---- counters ----

  datatype Note =
    | Completed(ts: u64, bytes: u32, failed: bool, total: u64, queue: u64, device: u64)
    | Detail(sampled: bool, forced: bool)
    | Fast
    | Passed
    | Suppressed
    | RingFailure
    | MapFailure
    | Expired
    | KeyReused

  datatype Counters = Counters(
    observed: nat, bytes: nat, failed: nat, passed: nat, suppressed: nat, detail: nat, fast: nat,
    sampled: nat, forced: nat, ringFailures: nat, mapFailures: nat, expired: nat, reused: nat)

  type Buckets = s: seq<nat> | |s| == BUCKETS witness seq(BUCKETS, (i: nat) => 0)

  datatype Histograms = Histograms(total: Buckets, queue: Buckets, device: Buckets, size: Buckets)

  datatype Aggregate = Aggregate(generation: u64, first: u64, last: u64, counters: Counters, histograms: Histograms)

  const NO_COUNTS: Counters := Counters(0, 0, 0, 0, 0, 0, 0, 0, 0, 0, 0, 0, 0)

  function Empty(): (s: Buckets)
    ensures forall k | 0 <= k < BUCKETS :: s[k] == 0
  {
    seq(BUCKETS, (i: nat) => 0)
  }

  function Zero(generation: u64): Aggregate {
    Aggregate(generation, 0, 0, NO_COUNTS, Histograms(Empty(), Empty(), Empty(), Empty()))
  }

  function One(b: bool): nat { if b then 1 else 0 }

  function Bump(s: Buckets, v: u64): Buckets {
    s[HistogramIndex(v) := s[HistogramIndex(v)] + 1]
  }

  function Counted(c: Counters, note: Note): Counters {
    match note
    case Completed(_, bytes, failed, _, _, _) =>
      c.(observed := c.observed + 1, bytes := c.bytes + bytes, failed := c.failed + One(failed))
    case Detail(sampled, forced) =>
      c.(detail := c.detail + 1, sampled := c.sampled + One(sampled), forced := c.forced + One(forced))
    case Fast => c.(fast := c.fast + 1)
    case Passed => c.(passed := c.passed + 1)
    case Suppressed => c.(suppressed := c.suppressed + 1)
    case RingFailure => c.(ringFailures := c.ringFailures + 1)
    case MapFailure => c.(mapFailures := c.mapFailures + 1)
    case Expired => c.(expired := c.expired + 1)
    case KeyReused => c.(reused := c.reused + 1)
  }

  function Bucketed(h: Histograms, note: Note): Histograms {
    if !note.Completed? then h
    else Histograms(Bump(h.total, note.total), Bump(h.queue, note.queue), Bump(h.device, note.device),
                    Bump(h.size, note.bytes))
  }

  function Noted(a: Aggregate, note: Note): Aggregate {
    a.(first := if note.Completed? && a.first == 0 then note.ts else a.first,
       last := if note.Completed? then note.ts else a.last,
       counters := Counted(a.counters, note),
       histograms := Bucketed(a.histograms, note))
  }

  /** Every update first discards what another generation left. */
  function Record(a: Aggregate, generation: u64, note: Note): Aggregate {
    Noted(if a.generation != generation then Zero(generation) else a, note)
  }

  // ---- what the numbers mean ----

  function FirstTs(notes: seq<Note>): u64 {
    if notes == [] then 0
    else
      var note, before := notes[|notes| - 1], FirstTs(notes[..|notes| - 1]);
      if note.Completed? && before == 0 then note.ts else before
  }

  function LastTs(notes: seq<Note>): u64 {
    if notes == [] then 0
    else if notes[|notes| - 1].Completed? then notes[|notes| - 1].ts
    else LastTs(notes[..|notes| - 1])
  }

  function CountersOf(notes: seq<Note>): Counters {
    if notes == [] then NO_COUNTS else Counted(CountersOf(notes[..|notes| - 1]), notes[|notes| - 1])
  }

  function HistogramsOf(notes: seq<Note>): Histograms {
    if notes == [] then Histograms(Empty(), Empty(), Empty(), Empty())
    else Bucketed(HistogramsOf(notes[..|notes| - 1]), notes[|notes| - 1])
  }

  function Summary(generation: u64, notes: seq<Note>): Aggregate {
    Aggregate(generation, FirstTs(notes), LastTs(notes), CountersOf(notes), HistogramsOf(notes))
  }

  datatype Metric = Total | Queue | Device | Size

  function Value(note: Note, metric: Metric): u64
    requires note.Completed?
  {
    match metric
    case Total => note.total
    case Queue => note.queue
    case Device => note.device
    case Size => note.bytes
  }

  function HistogramOf(h: Histograms, metric: Metric): Buckets {
    match metric
    case Total => h.total
    case Queue => h.queue
    case Device => h.device
    case Size => h.size
  }

  /** How many of the noted completions fall in a bucket. */
  function InBucket(notes: seq<Note>, metric: Metric, k: nat): nat {
    if notes == [] then 0
    else
      var note := notes[|notes| - 1];
      InBucket(notes[..|notes| - 1], metric, k) +
      One(note.Completed? && HistogramIndex(Value(note, metric)) == k)
  }

  /** Each bucket counts the completions whose value lies between its boundaries. */
  lemma {:induction false} BucketMeans(notes: seq<Note>, metric: Metric, k: nat)
    requires k < BUCKETS
    ensures HistogramOf(HistogramsOf(notes), metric)[k] == InBucket(notes, metric, k)
  {
    if notes != [] { BucketMeans(notes[..|notes| - 1], metric, k); }
  }

  function Sum(s: seq<nat>): nat {
    if s == [] then 0 else Sum(s[..|s| - 1]) + s[|s| - 1]
  }

  lemma {:induction false} SumUpdate(s: seq<nat>, k: nat)
    requires k < |s|
    ensures Sum(s[k := s[k] + 1]) == Sum(s) + 1
  {
    var t := s[k := s[k] + 1];
    var n := |s| - 1;
    if k == n {
      assert t[..n] == s[..n];
    } else {
      assert t[..n] == s[..n][k := s[k] + 1];
      SumUpdate(s[..n], k);
    }
  }

  lemma {:induction false} SumZero(s: seq<nat>)
    requires forall k | 0 <= k < |s| :: s[k] == 0
    ensures Sum(s) == 0
  {
    if s != [] { SumZero(s[..|s| - 1]); }
  }

  /** Each histogram holds every observed completion once. */
  ghost predicate Whole(a: Aggregate) {
    forall metric: Metric :: Sum(HistogramOf(a.histograms, metric)) == a.counters.observed
  }

  /** Whole, and each completion was either detailed or suppressed as fast. */
  ghost predicate Balanced(a: Aggregate) {
    && Whole(a)
    && a.counters.observed == a.counters.detail + a.counters.fast
    && a.counters.forced <= a.counters.failed <= a.counters.observed
    && a.counters.sampled <= a.counters.detail
  }

  lemma ZeroBalanced(generation: u64)
    ensures Balanced(Zero(generation))
  {
    SumZero(Empty());
  }

  lemma BumpSum(h: Histograms, note: Note, metric: Metric)
    ensures Sum(HistogramOf(Bucketed(h, note), metric)) ==
      Sum(HistogramOf(h, metric)) + One(note.Completed?)
  {
    if note.Completed? {
      var s, v := HistogramOf(h, metric), Value(note, metric);
      assert HistogramOf(Bucketed(h, note), metric) == Bump(s, v);
      SumUpdate(s, HistogramIndex(v));
    }
  }

  lemma NotedWhole(a: Aggregate, note: Note)
    requires Whole(a)
    ensures Whole(Noted(a, note))
  {
    forall metric: Metric
      ensures Sum(HistogramOf(Noted(a, note).histograms, metric)) == Noted(a, note).counters.observed
    {
      BumpSum(a.histograms, note, metric);
    }
    BumpSum(a.histograms, note, Total);
  }

  /** A completion together with its verdict keeps the balance; a forced detail needs a failure. */
  lemma CompletionBalanced(a: Aggregate, generation: u64, note: Note, verdict: Note)
    requires Balanced(a) && note.Completed? && (verdict.Fast? || verdict.Detail?)
    requires verdict.Detail? && verdict.forced ==> note.failed
    ensures Balanced(Record(Record(a, generation, note), generation, verdict))
  {
    ZeroBalanced(generation);
    var b := if a.generation != generation then Zero(generation) else a;
    NotedWhole(b, note);
    NotedWhole(Noted(b, note), verdict);
  }

  lemma OtherBalanced(a: Aggregate, generation: u64, note: Note)
    requires Balanced(a) && !note.Completed? && !note.Detail? && !note.Fast?
    ensures Balanced(Record(a, generation, note))
  {
    ZeroBalanced(generation);
    NotedWhole(if a.generation != generation then Zero(generation) else a, note);
  }

  // ---- the merge over CPUs ----

  function PlusCounters(a: Counters, b: Counters): Counters {
    Counters(a.observed + b.observed, a.bytes + b.bytes, a.failed + b.failed, a.passed + b.passed,
             a.suppressed + b.suppressed, a.detail + b.detail, a.fast + b.fast, a.sampled + b.sampled,
             a.forced + b.forced, a.ringFailures + b.ringFailures, a.mapFailures + b.mapFailures,
             a.expired + b.expired, a.reused + b.reused)
  }

  function PlusBuckets(a: Buckets, b: Buckets): (s: Buckets)
    ensures forall k | 0 <= k < BUCKETS :: s[k] == a[k] + b[k]
  {
    seq(BUCKETS, (k: nat) requires k < BUCKETS => a[k] + b[k])
  }

  function PlusHistograms(a: Histograms, b: Histograms): Histograms {
    Histograms(PlusBuckets(a.total, b.total), PlusBuckets(a.queue, b.queue),
               PlusBuckets(a.device, b.device), PlusBuckets(a.size, b.size))
  }

  function FirstOf(a: u64, b: u64): u64 {
    if b == 0 then a else if a == 0 then b else Min(a, b)
  }

  function Plus(a: Aggregate, b: Aggregate): Aggregate {
    Aggregate(a.generation, FirstOf(a.first, b.first), Max(a.last, b.last),
              PlusCounters(a.counters, b.counters), PlusHistograms(a.histograms, b.histograms))
  }

  /** The snapshot: the sum over the CPUs whose counters are of the generation. */
  function Merged(values: seq<Aggregate>, generation: u64): (r: Aggregate)
    ensures r.generation == generation
  {
    if values == [] then Zero(generation)
    else
      var n := |values| - 1;
      var before := Merged(values[..n], generation);
      if values[n].generation == generation then Plus(before, values[n]) else before
  }

  lemma {:induction false} SumPlus(a: seq<nat>, b: seq<nat>, c: seq<nat>)
    requires |a| == |b| == |c| && forall k | 0 <= k < |a| :: c[k] == a[k] + b[k]
    ensures Sum(c) == Sum(a) + Sum(b)
  {
    if a != [] {
      var n := |a| - 1;
      SumPlus(a[..n], b[..n], c[..n]);
    }
  }

  lemma PlusBalanced(a: Aggregate, b: Aggregate)
    requires Balanced(a) && Balanced(b)
    ensures Balanced(Plus(a, b))
  {
    forall metric: Metric
      ensures Sum(HistogramOf(Plus(a, b).histograms, metric)) == Plus(a, b).counters.observed
    {
      SumPlus(HistogramOf(a.histograms, metric), HistogramOf(b.histograms, metric),
              HistogramOf(Plus(a, b).histograms, metric));
    }
  }

  /** Merging per-CPU counters keeps the balance. */
  lemma {:induction false} MergedBalanced(values: seq<Aggregate>, generation: u64)
    requires forall v | v in values :: Balanced(v)
    ensures Balanced(Merged(values, generation))
  {
    if values == [] {
      ZeroBalanced(generation);
    } else {
      var n := |values| - 1;
      MergedBalanced(values[..n], generation);
      if values[n].generation == generation { PlusBalanced(Merged(values[..n], generation), values[n]); }
    }
  }

  /** One CPU's log, as the notes taken since its counters were last reset. */
  datatype Log = Log(generation: u64, notes: seq<Note>)

  function SummaryOf(log: Log): Aggregate { Summary(log.generation, log.notes) }

  function Logged(log: Log, generation: u64, note: Note): Log {
    if log.generation != generation then Log(generation, [note]) else log.(notes := log.notes + [note])
  }

  /** Resetting on a change of generation keeps exactly the notes of the current generation. */
  lemma RecordMeans(log: Log, generation: u64, note: Note)
    ensures Record(SummaryOf(log), generation, note) == SummaryOf(Logged(log, generation, note))
  {
    if log.generation == generation {
      SummaryStep(generation, log.notes, note);
    } else {
      SummaryStep(generation, [], note);
      SummaryEmpty(generation);
      assert [] + [note] == [note];
    }
  }

  lemma SummaryEmpty(generation: u64)
    ensures Summary(generation, []) == Zero(generation)
  {
  }

  lemma SummaryStep(generation: u64, notes: seq<Note>, note: Note)
    ensures Summary(generation, notes + [note]) == Noted(Summary(generation, notes), note)
  {
    assert (notes + [note])[..|notes|] == notes;
  }

  function AllNotes(logs: seq<Log>, generation: u64): seq<Note> {
    if logs == [] then []
    else
      var n := |logs| - 1;
      AllNotes(logs[..n], generation) + if logs[n].generation == generation then logs[n].notes else []
  }

  function Summaries(logs: seq<Log>): (values: seq<Aggregate>)
    ensures |values| == |logs|
    ensures forall i | 0 <= i < |logs| :: values[i] == SummaryOf(logs[i])
  {
    seq(|logs|, (i: nat) requires i < |logs| => SummaryOf(logs[i]))
  }

  lemma {:induction false} CountersConcat(a: seq<Note>, b: seq<Note>)
    ensures CountersOf(a + b) == PlusCounters(CountersOf(a), CountersOf(b))
  {
    if b == [] {
      assert a + b == a;
    } else {
      var n := |b| - 1;
      CountersConcat(a, b[..n]);
      CountersStep(b[..n], b[n]);
      CountersStep(a + b[..n], b[n]);
      assert b[..n] + [b[n]] == b && a + b[..n] + [b[n]] == a + b;
      CountedPlus(CountersOf(a), CountersOf(b[..n]), b[n]);
    }
  }

  lemma CountersStep(notes: seq<Note>, note: Note)
    ensures CountersOf(notes + [note]) == Counted(CountersOf(notes), note)
  {
    assert (notes + [note])[..|notes|] == notes;
  }

  lemma CountedPlus(a: Counters, b: Counters, note: Note)
    ensures Counted(PlusCounters(a, b), note) == PlusCounters(a, Counted(b, note))
  {
  }

  lemma {:induction false} BucketConcat(a: seq<Note>, b: seq<Note>, metric: Metric, k: nat)
    ensures InBucket(a + b, metric, k) == InBucket(a, metric, k) + InBucket(b, metric, k)
  {
    if b == [] {
      assert a + b == a;
    } else {
      assert (a + b)[..|a + b| - 1] == a + b[..|b| - 1];
      BucketConcat(a, b[..|b| - 1], metric, k);
    }
  }

  lemma MergedStep(logs: seq<Log>, generation: u64)
    requires logs != []
    ensures
      var n := |logs| - 1;
      var before := Merged(Summaries(logs[..n]), generation);
      Merged(Summaries(logs), generation) ==
      if logs[n].generation == generation then Plus(before, SummaryOf(logs[n])) else before
  {
    assert Summaries(logs)[..|logs| - 1] == Summaries(logs[..|logs| - 1]);
  }

  /** The merged counters are those of all notes of the generation, wherever they were taken. */
  lemma {:induction false} MergedCounters(logs: seq<Log>, generation: u64)
    ensures Merged(Summaries(logs), generation).counters == CountersOf(AllNotes(logs, generation))
  {
    if logs != [] {
      var n := |logs| - 1;
      MergedCounters(logs[..n], generation);
      MergedStep(logs, generation);
      if logs[n].generation == generation {
        CountersConcat(AllNotes(logs[..n], generation), logs[n].notes);
      } else {
        assert AllNotes(logs, generation) == AllNotes(logs[..n], generation);
      }
    }
  }

  lemma PlusAt(a: Histograms, b: Histograms, metric: Metric, k: nat)
    requires k < BUCKETS
    ensures HistogramOf(PlusHistograms(a, b), metric)[k] == HistogramOf(a, metric)[k] + HistogramOf(b, metric)[k]
  {
  }

  /** So are the merged histograms, bucket by bucket. */
  lemma {:induction false} MergedBuckets(logs: seq<Log>, generation: u64, metric: Metric, k: nat)
    requires k < BUCKETS
    ensures HistogramOf(Merged(Summaries(logs), generation).histograms, metric)[k] ==
      InBucket(AllNotes(logs, generation), metric, k)
  {
    if logs != [] {
      var n := |logs| - 1;
      MergedBuckets(logs[..n], generation, metric, k);
      MergedStep(logs, generation);
      if logs[n].generation == generation {
        BucketConcat(AllNotes(logs[..n], generation), logs[n].notes, metric, k);
        BucketMeans(logs[n].notes, metric, k);
        PlusAt(Merged(Summaries(logs[..n]), generation).histograms, HistogramsOf(logs[n].notes), metric, k);
      } else {
        assert AllNotes(logs, generation) == AllNotes(logs[..n], generation);
      }
    }
  }

  // ---- a run of notes over all CPUs ----

  /** The notes one probe takes: on its CPU, under the generation it read. */
  datatype Entry = Entry(cpu: nat, generation: u64, notes: seq<Note>)

  function RecordAll(a: Aggregate, generation: u64, notes: seq<Note>): Aggregate {
    if notes == [] then a
    else Record(RecordAll(a, generation, notes[..|notes| - 1]), generation, notes[|notes| - 1])
  }

  function StartCpus(n: nat): (cpus: seq<Aggregate>)
    ensures |cpus| == n && forall i | 0 <= i < n :: cpus[i] == Zero(0)
  {
    seq(n, (i: nat) => Zero(0))
  }

  function Apply(cpus: seq<Aggregate>, e: Entry): (r: seq<Aggregate>)
    ensures |r| == |cpus|
  {
    if e.cpu < |cpus| then cpus[e.cpu := RecordAll(cpus[e.cpu], e.generation, e.notes)] else cpus
  }

  function CpusAfter(n: nat, es: seq<Entry>): (cpus: seq<Aggregate>)
    ensures |cpus| == n
  {
    if es == [] then StartCpus(n) else Apply(CpusAfter(n, es[..|es| - 1]), es[|es| - 1])
  }

  /** The CPU of entry `i` took no note of another generation since. */
  ghost predicate Live(es: seq<Entry>, i: nat)
    requires i < |es|
  {
    forall k | i < k < |es| :: es[k].cpu == es[i].cpu && es[k].notes != [] ==> es[k].generation == es[i].generation
  }

  /** The notes of the first `k` entries that were taken on the CPU and are still live. */
  ghost function LiveNotes(es: seq<Entry>, k: nat, cpu: nat): seq<Note>
    requires k <= |es|
  {
    if k == 0 then []
    else LiveNotes(es, k - 1, cpu) + if es[k - 1].cpu == cpu && Live(es, k - 1) then es[k - 1].notes else []
  }

  /** The generation of the CPU's last note; zero before the first. */
  ghost function LastGeneration(es: seq<Entry>, cpu: nat): u64 {
    if es == [] then 0
    else
      var e := es[|es| - 1];
      if e.cpu == cpu && e.notes != [] then e.generation else LastGeneration(es[..|es| - 1], cpu)
  }

  ghost function LogOf(es: seq<Entry>, cpu: nat): Log {
    Log(LastGeneration(es, cpu), LiveNotes(es, |es|, cpu))
  }

  /** A live note is of the generation of its CPU's last note. */
  lemma {:induction false} LiveGeneration(es: seq<Entry>, i: nat)
    requires i < |es| && es[i].notes != []
    ensures Live(es, i) ==> es[i].generation == LastGeneration(es, es[i].cpu)
  {
    var n := |es| - 1;
    if i < n && !(es[n].cpu == es[i].cpu && es[n].notes != []) {
      LiveGeneration(es[..n], i);
      assert Live(es, i) ==> Live(es[..n], i);
    }
  }

  /** Further notes keep what they do not reset. */
  lemma LiveExtends(es: seq<Entry>, e: Entry, i: nat)
    requires i < |es|
    ensures Live(es + [e], i) <==>
      Live(es, i) && (e.cpu == es[i].cpu && e.notes != [] ==> e.generation == es[i].generation)
  {
    var all := es + [e];
    if Live(all, i) {
      forall k | i < k < |es|
        ensures es[k].cpu == es[i].cpu && es[k].notes != [] ==> es[k].generation == es[i].generation
      {
        assert all[k] == es[k];
      }
      assert all[|es|] == e;
    }
  }

  /** Without a change of generation all live notes stay live. */
  lemma {:induction false} NotesStay(es: seq<Entry>, e: Entry, k: nat, cpu: nat)
    requires k <= |es|
    requires e.cpu == cpu && e.notes != [] ==> e.generation == LastGeneration(es, cpu)
    ensures LiveNotes(es + [e], k, cpu) == LiveNotes(es, k, cpu)
  {
    if k > 0 {
      NotesStay(es, e, k - 1, cpu);
      LiveExtends(es, e, k - 1);
      if es[k - 1].notes != [] { LiveGeneration(es, k - 1); }
    }
  }

  /** With one none does. */
  lemma Discards(es: seq<Entry>, e: Entry, i: nat)
    requires i < |es| && es[i].notes != []
    requires e.cpu == es[i].cpu && e.notes != [] && e.generation != LastGeneration(es, e.cpu)
    ensures !Live(es + [e], i)
  {
    LiveExtends(es, e, i);
    LiveGeneration(es, i);
  }

  /** With one none does. */
  lemma {:induction false} NotesGo(es: seq<Entry>, e: Entry, k: nat, cpu: nat)
    requires k <= |es|
    requires e.cpu == cpu && e.notes != [] && e.generation != LastGeneration(es, cpu)
    ensures LiveNotes(es + [e], k, cpu) == []
  {
    if k > 0 {
      NotesGo(es, e, k - 1, cpu);
      if es[k - 1].cpu == cpu && es[k - 1].notes != [] { Discards(es, e, k - 1); }
    }
  }

  lemma LogStep(es: seq<Entry>, e: Entry, cpu: nat)
    ensures LogOf(es + [e], cpu) ==
      if e.cpu == cpu then LoggedAll(LogOf(es, cpu), e.generation, e.notes) else LogOf(es, cpu)
  {
    var all := es + [e];
    assert all[..|es|] == es && all[|es|] == e;
    assert Live(all, |es|);
    if e.cpu == cpu && e.notes != [] && e.generation != LastGeneration(es, cpu) {
      NotesGo(es, e, |es|, cpu);
    } else {
      NotesStay(es, e, |es|, cpu);
    }
  }

  function LoggedAll(log: Log, generation: u64, notes: seq<Note>): Log {
    if notes == [] then log
    else if log.generation == generation then log.(notes := log.notes + notes)
    else Log(generation, notes)
  }

  lemma LoggedLast(log: Log, generation: u64, notes: seq<Note>)
    requires notes != []
    ensures LoggedAll(log, generation, notes) ==
      Logged(LoggedAll(log, generation, notes[..|notes| - 1]), generation, notes[|notes| - 1])
  {
    assert notes == notes[..|notes| - 1] + [notes[|notes| - 1]];
  }

  lemma {:induction false} RecordAllMeans(log: Log, generation: u64, notes: seq<Note>)
    ensures RecordAll(SummaryOf(log), generation, notes) == SummaryOf(LoggedAll(log, generation, notes))
  {
    if notes != [] {
      var before, note := notes[..|notes| - 1], notes[|notes| - 1];
      RecordAllMeans(log, generation, before);
      LoggedLast(log, generation, notes);
      var mid := LoggedAll(log, generation, before);
      RecordMeans(mid, generation, note);
    }
  }

  lemma StartIsLog(n: nat, cpu: nat)
    requires cpu < n
    ensures CpusAfter(n, [])[cpu] == SummaryOf(LogOf([], cpu))
  {
    SummaryEmpty(0);
  }

  lemma CpusStep(n: nat, es: seq<Entry>, e: Entry, cpu: nat)
    requires cpu < n
    ensures CpusAfter(n, es + [e])[cpu] ==
      if e.cpu == cpu then RecordAll(CpusAfter(n, es)[cpu], e.generation, e.notes) else CpusAfter(n, es)[cpu]
  {
    assert (es + [e])[..|es|] == es;
  }

  /** After every run of notes, a CPU's counters are the summary of its live notes: those taken
      since it last took one of another generation. */
  lemma {:induction false} CpuIsLog(n: nat, es: seq<Entry>, cpu: nat)
    requires cpu < n
    ensures CpusAfter(n, es)[cpu] == SummaryOf(LogOf(es, cpu))
  {
    if es == [] {
      StartIsLog(n, cpu);
    } else {
      var before, e := es[..|es| - 1], es[|es| - 1];
      CpuIsLog(n, before, cpu);
      assert before + [e] == es;
      LogStep(before, e, cpu);
      CpusStep(n, before, e, cpu);
      RecordAllMeans(LogOf(before, cpu), e.generation, e.notes);
    }
  }

  ghost function LogsOf(n: nat, es: seq<Entry>): (logs: seq<Log>)
    ensures |logs| == n && forall c | 0 <= c < n :: logs[c] == LogOf(es, c)
  {
    seq(n, (c: nat) => LogOf(es, c))
  }

  lemma CpusAreLogs(n: nat, es: seq<Entry>)
    ensures CpusAfter(n, es) == Summaries(LogsOf(n, es))
  {
    forall c | 0 <= c < n ensures CpusAfter(n, es)[c] == Summaries(LogsOf(n, es))[c] { CpuIsLog(n, es, c); }
  }

  /** The snapshot after every run counts exactly the live notes of its generation on all CPUs ... */
  lemma SnapshotCounters(n: nat, es: seq<Entry>, generation: u64)
    ensures Merged(CpusAfter(n, es), generation).counters == CountersOf(AllNotes(LogsOf(n, es), generation))
  {
    CpusAreLogs(n, es);
    MergedCounters(LogsOf(n, es), generation);
  }

  /** ... and so does every bucket of its histograms. */
  lemma SnapshotBuckets(n: nat, es: seq<Entry>, generation: u64, metric: Metric, k: nat)
    requires k < BUCKETS
    ensures HistogramOf(Merged(CpusAfter(n, es), generation).histograms, metric)[k] ==
      InBucket(AllNotes(LogsOf(n, es), generation), metric, k)
  {
    CpusAreLogs(n, es);
    MergedBuckets(LogsOf(n, es), generation, metric, k);
  }

  function RingFailures(notes: seq<Note>): nat { CountersOf(notes).ringFailures }

  /** What each entry adds to the ring failures of a CPU. */
  ghost function LiveFailures(es: seq<Entry>, cpu: nat): (r: seq<nat>)
    ensures |r| == |es|
    ensures forall i | 0 <= i < |es| ::
      r[i] == if es[i].cpu == cpu && Live(es, i) then RingFailures(es[i].notes) else 0
  {
    seq(|es|, (i: nat) requires i < |es| =>
      if es[i].cpu == cpu && Live(es, i) then RingFailures(es[i].notes) else 0)
  }

  lemma FailuresConcat(a: seq<Note>, b: seq<Note>)
    ensures RingFailures(a + b) == RingFailures(a) + RingFailures(b)
  {
    CountersConcat(a, b);
  }

  lemma SumLast(s: seq<nat>, k: nat)
    requires 0 < k <= |s|
    ensures Sum(s[..k]) == Sum(s[..k - 1]) + s[k - 1]
  {
    assert s[..k][..k - 1] == s[..k - 1];
  }

  lemma FailuresAdd(es: seq<Entry>, k: nat, cpu: nat)
    requires 0 < k <= |es|
    ensures RingFailures(LiveNotes(es, k, cpu)) ==
      RingFailures(LiveNotes(es, k - 1, cpu)) + LiveFailures(es, cpu)[k - 1]
  {
    FailuresConcat(LiveNotes(es, k - 1, cpu),
                   if es[k - 1].cpu == cpu && Live(es, k - 1) then es[k - 1].notes else []);
  }

  lemma {:induction false} FailuresInNotes(es: seq<Entry>, k: nat, cpu: nat)
    requires k <= |es|
    ensures RingFailures(LiveNotes(es, k, cpu)) == Sum(LiveFailures(es, cpu)[..k])
  {
    if k > 0 {
      FailuresInNotes(es, k - 1, cpu);
      FailuresAdd(es, k, cpu);
      SumLast(LiveFailures(es, cpu), k);
    }
  }

  /** A CPU's failure counter holds exactly the failures noted there since it last took a note of
      another generation. */
  lemma FailuresLive(n: nat, es: seq<Entry>, cpu: nat)
    requires cpu < n
    ensures CpusAfter(n, es)[cpu].counters.ringFailures == Sum(LiveFailures(es, cpu))
  {
    CpuIsLog(n, es, cpu);
    FailuresInNotes(es, |es|, cpu);
    assert LiveFailures(es, cpu)[..|es|] == LiveFailures(es, cpu);
  }

  // ---- before a generation's first note ----

  /** No CPU has counted anything under the generation. */
  ghost predicate Uncounted(cpus: seq<Aggregate>, generation: u64) {
    forall a | a in cpus :: a.generation == generation ==> a.counters == NO_COUNTS
  }

  lemma {:induction false} UncountedMerged(values: seq<Aggregate>, generation: u64)
    requires Uncounted(values, generation)
    ensures Merged(values, generation).counters == NO_COUNTS
  {
    if values != [] {
      var n := |values| - 1;
      UncountedMerged(values[..n], generation);
      assert values[n] in values;
    }
  }

  lemma RecordAllGeneration(a: Aggregate, generation: u64, notes: seq<Note>)
    ensures RecordAll(a, generation, notes).generation == if notes == [] then a.generation else generation
  {
  }

  lemma ApplyUncounted(cpus: seq<Aggregate>, e: Entry, generation: u64)
    requires Uncounted(cpus, generation) && e.generation != generation
    ensures Uncounted(Apply(cpus, e), generation)
  {
    if e.cpu < |cpus| {
      assert cpus[e.cpu] in cpus;
      RecordAllGeneration(cpus[e.cpu], e.generation, e.notes);
      SetUncounted(cpus, e.cpu, RecordAll(cpus[e.cpu], e.generation, e.notes), generation);
    }
  }

  lemma SetUncounted(cpus: seq<Aggregate>, c: nat, a: Aggregate, generation: u64)
    requires Uncounted(cpus, generation) && c < |cpus|
    requires a == cpus[c] || a.generation != generation
    ensures Uncounted(cpus[c := a], generation)
  {
    forall b | b in cpus[c := a]
      ensures b.generation == generation ==> b.counters == NO_COUNTS
    {
      assert b == a || b in cpus;
    }
  }

  lemma StartUncounted(values: seq<Aggregate>, g: u64, generation: u64)
    requires forall a | a in values :: a == Zero(g)
    ensures Uncounted(values, generation)
  {
  }

  lemma CpusPush(n: nat, es: seq<Entry>, e: Entry)
    ensures CpusAfter(n, es + [e]) == Apply(CpusAfter(n, es), e)
  {
    assert (es + [e])[..|es|] == es;
  }

  // ---- the agent's loops ----

  method AddBuckets(a: Buckets, b: Buckets) returns (s: Buckets)
    ensures s == PlusBuckets(a, b)
  {
    s := a;
    for index := 0 to BUCKETS
      invariant forall k | 0 <= k < index :: s[k] == a[k] + b[k]
      invariant forall k | index <= k < BUCKETS :: s[k] == a[k]
    {
      s := s[index := s[index] + b[index]];
    }
  }

  method ReadSnapshot(values: seq<Aggregate>, generation: u64) returns (merged: Aggregate)
    ensures merged == Merged(values, generation)
  {
    merged := Zero(generation);
    for i := 0 to |values|
      invariant merged == Merged(values[..i], generation)
    {
      assert values[..i + 1][..i] == values[..i];
      var value := values[i];
      if value.generation == generation {
        merged := AddCpu(merged, value);
      }
    }
    assert values[..|values|] == values;
  }

  method AddCpu(merged: Aggregate, value: Aggregate) returns (r: Aggregate)
    ensures r == Plus(merged, value)
  {
    var first := merged.first;
    if value.first != 0 {
      first := if first == 0 then value.first else Min(first, value.first);
    }
    var total := AddBuckets(merged.histograms.total, value.histograms.total);
    var queue := AddBuckets(merged.histograms.queue, value.histograms.queue);
    var device := AddBuckets(merged.histograms.device, value.histograms.device);
    var size := AddBuckets(merged.histograms.size, value.histograms.size);
    r := Aggregate(merged.generation, first, Max(merged.last, value.last),
                   PlusCounters(merged.counters, value.counters), Histograms(total, queue, device, size));
  }
}
