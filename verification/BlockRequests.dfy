/**
 The insert/issue/complete protocol of block requests over the shared map of pending requests and
 the per-CPU counters. Each probe is one atomic step; the filter's verdict, map insertion and ring
 space are inputs of the step.
 */
module BlockRequests {
  import opened Common
  import opened Aggregates

  /** The three block probes, and any other probe whose report the ring refused: it takes a note on
      the same counters. */
  datatype Kind = Insert | Issue | Complete | Foreign

  datatype Mode = Basic | Balance | Deep | RawAll | OtherMode

  datatype Config = Config(
    generation: u64, mode: Mode, totalNs: u64, queueNs: u64, deviceNs: u64, permyriad: u16, includeErrors: bool)

  datatype Task = Task(pid: u32, tid: u32, uid: u32, comm: seq<u8>)

  datatype Io = Io(device: u32, sector: u64, sectors: u32, bytes: u32, operation: u8)

  /** A request in flight; a time of zero is one that was not seen. */
  datatype Start = Start(insertTs: u64, issueTs: u64, io: Io, who: Task, cpu: nat, exact: bool)

  /** `accepted` is the filter's verdict, `stored` whether the map took the record, and `room` how
      many ring reservations succeed. */
  datatype Event = Event(
    kind: Kind, request: u64, io: Io, exact: bool, status: int, task: Task, ts: u64, cpu: nat,
    config: Config, accepted: bool, stored: bool, room: nat)

  datatype Sent = Sent(
    kind: Kind, ts: u64, request: u64, io: Io, who: Task, cpu: nat, exact: bool, status: int, startTs: u64)

  type Starts = map<u64, Start>

  datatype State = State(starts: Starts, cpus: seq<Aggregate>)

  // ---- one probe ----

  /** Who the event is charged to: a request queued by one task and dispatched by another stays
      with the first, if requests are told apart exactly. */
  function Who(starts: Starts, e: Event): Task {
    if e.exact && e.kind.Issue? && e.request in starts && starts[e.request].issueTs == 0
    then starts[e.request].who
    else e.task
  }

  function StartOf(starts: Starts, e: Event): Start {
    if e.kind.Issue?
    then Start(if e.request in starts then starts[e.request].insertTs else 0, e.ts, e.io, Who(starts, e),
               e.cpu, e.exact)
    else Start(e.ts, 0, e.io, e.task, e.cpu, e.exact)
  }

  function StartsAfter(starts: Starts, e: Event): Starts {
    match e.kind
    case Insert => if e.accepted && e.stored then starts[e.request := StartOf(starts, e)] else starts
    case Issue =>
      if !e.accepted then starts - {e.request}
      else if e.stored then starts[e.request := StartOf(starts, e)]
      else starts
    case Complete => starts - {e.request}
    case Foreign => starts
  }

  /** A completion that is counted: its issue is known and not in the future. */
  predicate Counts(starts: Starts, e: Event) {
    e.kind.Complete? && e.request in starts && starts[e.request].issueTs != 0 && starts[e.request].issueTs <= e.ts
  }

  function DeviceLatency(start: Start, ts: u64): u64 { SatSub(ts, start.issueTs) }

  function QueueLatency(start: Start, ts: u64): u64 {
    if start.insertTs == 0 then 0 else SatSub(start.issueTs, start.insertTs)
  }

  function TotalLatency(start: Start, ts: u64): u64 {
    if start.insertTs == 0 then DeviceLatency(start, ts) else SatSub(ts, start.insertTs)
  }

  function CompletedNote(start: Start, e: Event): Note {
    Completed(e.ts, start.io.bytes, e.status != 0, TotalLatency(start, e.ts), QueueLatency(start, e.ts),
              DeviceLatency(start, e.ts))
  }

  predicate IsSampled(e: Event) { e.config.permyriad != 0 && e.request % 10_000 < e.config.permyriad }

  predicate IsSlow(start: Start, e: Event) {
    || TotalLatency(start, e.ts) >= e.config.totalNs
    || (QueueLatency(start, e.ts) != 0 && QueueLatency(start, e.ts) >= e.config.queueNs)
    || DeviceLatency(start, e.ts) >= e.config.deviceNs
  }

  predicate IsForced(e: Event) { e.config.includeErrors && e.status != 0 }

  predicate IsDetailed(start: Start, e: Event) {
    match e.config.mode
    case Balance => IsSlow(start, e) || IsSampled(e) || IsForced(e)
    case Deep => true
    case RawAll => true
    case _ => false
  }

  function Verdict(start: Start, e: Event): Note {
    if IsDetailed(start, e) then Detail(IsSampled(e), IsForced(e)) else Fast
  }

  predicate Verbose(config: Config) { config.mode.Deep? || config.mode.RawAll? }

  /** The event as it is reported when it happens. */
  function OwnEvent(starts: Starts, e: Event): Sent {
    Sent(e.kind, e.ts, e.request, e.io, Who(starts, e), e.cpu, e.exact, e.status, 0)
  }

  /** An earlier event of a request, reported from its record. */
  function FromStart(start: Start, request: u64, kind: Kind): Sent {
    Sent(kind, if kind.Insert? then start.insertTs else start.issueTs, request, start.io, start.who, start.cpu,
         start.exact, 0, 0)
  }

  /** A detailed completion; in balanced mode, after the earlier events of its request. */
  function CompletionReports(start: Start, e: Event): seq<Sent> {
    if !IsDetailed(start, e) then []
    else
      var own := OwnEvent(map[], e).(startTs :=
        if !e.config.mode.Deep? then 0 else if start.insertTs == 0 then start.issueTs else start.insertTs);
      if e.config.mode.Balance?
      then (if start.insertTs != 0 then [FromStart(start, e.request, Insert)] else []) +
           [FromStart(start, e.request, Issue), own]
      else [own]
  }

  /** What the probe tries to put in the ring, in order. */
  function Reports(starts: Starts, e: Event): seq<Sent> {
    match e.kind
    case Insert => if e.accepted && Verbose(e.config) then [OwnEvent(starts, e)] else []
    case Issue => if e.accepted && e.stored && Verbose(e.config) then [OwnEvent(starts, e)] else []
    case Complete =>
      if Counts(starts, e) then CompletionReports(starts[e.request], e) else []
    case Foreign => []
  }

  /** What gets in: everything up to the first failed reservation. */
  function Delivered(starts: Starts, e: Event): seq<Sent> {
    Reports(starts, e)[..Min(e.room, |Reports(starts, e)|)]
  }

  function RingNotes(starts: Starts, e: Event): seq<Note> {
    if e.room < |Reports(starts, e)| then [RingFailure] else []
  }

  function ProtocolNotes(starts: Starts, e: Event): seq<Note> {
    match e.kind
    case Insert => if !e.accepted then [Suppressed] else if !e.stored then [MapFailure] else []
    case Issue =>
      if !e.accepted then [Suppressed]
      else
        (if e.request in starts && starts[e.request].issueTs != 0 then [KeyReused] else []) +
        (if e.stored then [Passed] else [MapFailure])
    case Complete =>
      if !Counts(starts, e) then [Expired]
      else [CompletedNote(starts[e.request], e), Verdict(starts[e.request], e)]
    case Foreign => [RingFailure]
  }

  function NotesOf(starts: Starts, e: Event): seq<Note> {
    ProtocolNotes(starts, e) + RingNotes(starts, e)
  }

  function EntryOf(starts: Starts, e: Event): Entry {
    Entry(e.cpu, e.config.generation, NotesOf(starts, e))
  }

  function Step(s: State, e: Event): State {
    State(StartsAfter(s.starts, e), Apply(s.cpus, EntryOf(s.starts, e)))
  }

  function Initial(cpus: nat): State { State(map[], StartCpus(cpus)) }

  function After(cpus: nat, es: seq<Event>): State {
    if es == [] then Initial(cpus) else Step(After(cpus, es[..|es| - 1]), es[|es| - 1])
  }

  /** The requests in flight before event `i`; they do not depend on the number of CPUs. */
  function StartsAt(es: seq<Event>, i: nat): Starts
    requires i <= |es|
  {
    if i == 0 then map[] else StartsAfter(StartsAt(es, i - 1), es[i - 1])
  }

  lemma {:induction false} StartsAgree(cpus: nat, es: seq<Event>, i: nat)
    requires i <= |es|
    ensures After(cpus, es[..i]).starts == StartsAt(es, i)
  {
    if i > 0 {
      StartsAgree(cpus, es, i - 1);
      assert es[..i][..i - 1] == es[..i - 1];
    }
  }

  // ---- which event a record comes from ----

  predicate Stores(e: Event, request: u64) {
    e.request == request && (e.kind.Insert? || e.kind.Issue?) && e.accepted && e.stored
  }

  predicate Touches(e: Event, request: u64) {
    Stores(e, request) || (e.request == request && (e.kind.Complete? || (e.kind.Issue? && !e.accepted)))
  }

  /** Event `j` wrote the record of its request that event `i` finds. */
  ghost predicate Holds(es: seq<Event>, j: nat, i: nat, request: u64) {
    && j < i <= |es|
    && Stores(es[j], request)
    && forall m | j < m < i :: !Touches(es[m], request)
  }

  ghost predicate HeldBy(es: seq<Event>, j: nat, i: nat, request: u64, start: Start) {
    Holds(es, j, i, request) && start == StartOf(StartsAt(es, j), es[j])
  }

  /** The map holds exactly the records written and not touched since. */
  lemma {:induction false} RecordMeans(es: seq<Event>, i: nat, request: u64)
    requires i <= |es|
    ensures request in StartsAt(es, i) ==>
      exists j: nat :: HeldBy(es, j, i, request, StartsAt(es, i)[request])
    ensures forall j: nat | Holds(es, j, i, request) ::
      request in StartsAt(es, i) && HeldBy(es, j, i, request, StartsAt(es, i)[request])
  {
    if i > 0 {
      var e := es[i - 1];
      RecordMeans(es, i - 1, request);
      if Stores(e, request) {
        assert HeldBy(es, i - 1, i, request, StartsAt(es, i)[request]);
        assert forall j: nat | Holds(es, j, i, request) :: j == i - 1;
      } else if !Touches(e, request) {
        KeepsRecord(es, i, request);
        if request in StartsAt(es, i) {
          var j: nat :| HeldBy(es, j, i - 1, request, StartsAt(es, i - 1)[request]);
          assert HeldBy(es, j, i, request, StartsAt(es, i)[request]);
        }
      }
    }
  }

  lemma KeepsRecord(es: seq<Event>, i: nat, request: u64)
    requires 0 < i <= |es| && !Touches(es[i - 1], request)
    ensures request in StartsAt(es, i) <==> request in StartsAt(es, i - 1)
    ensures request in StartsAt(es, i) ==> StartsAt(es, i)[request] == StartsAt(es, i - 1)[request]
    ensures forall j: nat :: Holds(es, j, i, request) <==> Holds(es, j, i - 1, request)
    ensures forall j: nat, start :: HeldBy(es, j, i, request, start) <==> HeldBy(es, j, i - 1, request, start)
  {
    forall j: nat ensures Holds(es, j, i, request) <==> Holds(es, j, i - 1, request) {
    }
  }

  ghost predicate CountedFrom(es: seq<Event>, j: nat, i: nat, note: Note) {
    && i < |es|
    && Holds(es, j, i, es[i].request)
    && es[j].kind.Issue?
    && note.Completed?
    && note.bytes == es[j].io.bytes
    && note.failed == (es[i].status != 0)
    && es[j].ts <= es[i].ts && note.device == es[i].ts - es[j].ts
  }

  /** Every counted completion consumes an issue the filter passed and the map stored, and measures
      from it. */
  lemma CountedHasIssue(es: seq<Event>, i: nat)
    requires i < |es| && Counts(StartsAt(es, i), es[i])
    ensures exists j: nat ::
      CountedFrom(es, j, i, CompletedNote(StartsAt(es, i)[es[i].request], es[i]))
  {
    var start := StartsAt(es, i)[es[i].request];
    RecordMeans(es, i, es[i].request);
    var j: nat :| HeldBy(es, j, i, es[i].request, start);
    assert CountedFrom(es, j, i, CompletedNote(start, es[i]));
  }

  /** No issue is counted twice. */
  lemma CountedOnce(es: seq<Event>, j: nat, first: nat, second: nat, n1: Note, n2: Note)
    requires first < second < |es| && es[first].kind.Complete?
    requires CountedFrom(es, j, first, n1)
    ensures !CountedFrom(es, j, second, n2)
  {
  }

  // ---- identity ----

  /** With exact correlation an issue is charged to whoever queued the request, whichever task
      dispatches it; and to the dispatching task if the queueing was not seen. */
  lemma QueuedIdentity(es: seq<Event>, j: nat, i: nat)
    requires i < |es| && es[i].kind.Issue? && es[i].exact && Holds(es, j, i, es[i].request)
    ensures es[j].kind.Insert? ==> Who(StartsAt(es, i), es[i]) == es[j].task
    ensures es[j].kind.Issue? && es[j].ts != 0 ==> Who(StartsAt(es, i), es[i]) == es[i].task
  {
    RecordMeans(es, i, es[i].request);
  }

  /** In balanced mode the issue is reported late, from the record; it is the report that would
      have been made at the time, but for its status. */
  lemma LateReportIsExact(es: seq<Event>, j: nat, i: nat)
    requires i < |es| && Holds(es, j, i, es[i].request) && es[j].kind.Issue?
    requires Counts(StartsAt(es, i), es[i]) && es[i].config.mode.Balance?
    requires IsDetailed(StartsAt(es, i)[es[i].request], es[i])
    ensures var reports := Reports(StartsAt(es, i), es[i]);
      |reports| >= 2 && reports[|reports| - 2] == OwnEvent(StartsAt(es, j), es[j]).(status := 0)
  {
    RecordMeans(es, i, es[i].request);
  }

  // ---- latencies ----

  /** Exactly when the whole is the sum of its parts. */
  lemma LatencySplitIff(start: Start, ts: u64)
    requires start.issueTs <= ts
    ensures TotalLatency(start, ts) == QueueLatency(start, ts) + DeviceLatency(start, ts) <==>
      start.insertTs == 0 || start.insertTs <= start.issueTs || start.issueTs == ts
  {
  }

  /** A run in which it is not: the insert is stamped 20, the issue 10 on another CPU, the
      completion 30. The total is 10 and the device latency 20. */
  lemma LatencyDoesNotSplit(e: Event)
    requires e.accepted && e.stored
    ensures var es := [e.(kind := Insert, ts := 20), e.(kind := Issue, ts := 10), e.(kind := Complete, ts := 30)];
      && Counts(StartsAt(es, 2), es[2])
      && var note := CompletedNote(StartsAt(es, 2)[e.request], es[2]);
      note.total == 10 && note.queue == 0 && note.device == 20
  {
    var es := [e.(kind := Insert, ts := 20), e.(kind := Issue, ts := 10), e.(kind := Complete, ts := 30)];
    assert StartsAt(es, 1) == StartsAfter(map[], es[0]);
    assert StartsAt(es, 2) == StartsAfter(StartsAt(es, 1), es[1]);
  }

  ghost predicate Clocked(es: seq<Event>) {
    forall i, j | 0 <= i <= j < |es| :: 0 < es[i].ts <= es[j].ts
  }

  lemma {:induction false} TimesOrdered(es: seq<Event>, i: nat, request: u64)
    requires Clocked(es) && i <= |es| && request in StartsAt(es, i)
    ensures i > 0
    ensures var start := StartsAt(es, i)[request];
      && start.insertTs <= es[i - 1].ts && start.issueTs <= es[i - 1].ts
      && (start.issueTs != 0 ==> start.insertTs <= start.issueTs)
  {
    assert i > 0;
    if request in StartsAt(es, i - 1) {
      TimesOrdered(es, i - 1, request);
    }
  }

  /** With a clock that never goes back, total latency is queue plus device in every note. */
  lemma LatencySplits(es: seq<Event>, i: nat)
    requires Clocked(es) && i < |es| && Counts(StartsAt(es, i), es[i])
    ensures var note := CompletedNote(StartsAt(es, i)[es[i].request], es[i]);
      note.total == note.queue + note.device
  {
    TimesOrdered(es, i, es[i].request);
    LatencySplitIff(StartsAt(es, i)[es[i].request], es[i].ts);
  }

  // ---- counters ----

  ghost predicate AllBalanced(cpus: seq<Aggregate>) {
    forall a | a in cpus :: Balanced(a)
  }

  lemma RecordTwo(a: Aggregate, generation: u64, n1: Note, n2: Note)
    ensures RecordAll(a, generation, [n1, n2]) == Record(Record(a, generation, n1), generation, n2)
    ensures RecordAll(a, generation, [n1]) == Record(a, generation, n1)
  {
    assert [n1, n2][..1] == [n1];
    assert [n1][..0] == [];
    assert RecordAll(a, generation, []) == a;
  }

  lemma {:induction false} RecordAllPlus(a: Aggregate, generation: u64, xs: seq<Note>, ys: seq<Note>)
    ensures RecordAll(a, generation, xs + ys) == RecordAll(RecordAll(a, generation, xs), generation, ys)
  {
    if ys == [] {
      assert xs + ys == xs;
    } else {
      assert (xs + ys)[..|xs + ys| - 1] == xs + ys[..|ys| - 1];
      RecordAllPlus(a, generation, xs, ys[..|ys| - 1]);
    }
  }

  predicate Incidental(note: Note) { !note.Completed? && !note.Detail? && !note.Fast? }

  lemma {:induction false} IncidentalBalanced(a: Aggregate, generation: u64, notes: seq<Note>)
    requires Balanced(a) && forall note | note in notes :: Incidental(note)
    ensures Balanced(RecordAll(a, generation, notes))
  {
    if notes != [] {
      assert notes[|notes| - 1] in notes && Incidental(notes[|notes| - 1]);
      IncidentalBalanced(a, generation, notes[..|notes| - 1]);
      OtherBalanced(RecordAll(a, generation, notes[..|notes| - 1]), generation, notes[|notes| - 1]);
    }
  }

  lemma ProtocolBalanced(a: Aggregate, starts: Starts, e: Event)
    requires Balanced(a)
    ensures Balanced(RecordAll(a, e.config.generation, ProtocolNotes(starts, e)))
  {
    var g := e.config.generation;
    if Counts(starts, e) {
      var note, verdict := CompletedNote(starts[e.request], e), Verdict(starts[e.request], e);
      CompletionBalanced(a, g, note, verdict);
      RecordTwo(a, g, note, verdict);
    } else {
      NoCompletion(starts, e);
      IncidentalBalanced(a, g, ProtocolNotes(starts, e));
    }
  }

  lemma NoCompletion(starts: Starts, e: Event)
    requires !Counts(starts, e)
    ensures forall note | note in ProtocolNotes(starts, e) :: Incidental(note)
  {
  }

  lemma ProbeBalanced(a: Aggregate, starts: Starts, e: Event)
    requires Balanced(a)
    ensures Balanced(RecordAll(a, e.config.generation, NotesOf(starts, e)))
  {
    var g := e.config.generation;
    var b := RecordAll(a, g, ProtocolNotes(starts, e));
    ProtocolBalanced(a, starts, e);
    RecordAllPlus(a, g, ProtocolNotes(starts, e), RingNotes(starts, e));
    IncidentalBalanced(b, g, RingNotes(starts, e));
  }

  lemma UpdateBalanced(cpus: seq<Aggregate>, c: nat, a: Aggregate)
    requires c < |cpus| && AllBalanced(cpus) && Balanced(a)
    ensures AllBalanced(cpus[c := a])
  {
    forall b | b in cpus[c := a] ensures Balanced(b) {
      assert b == a || b in cpus;
    }
  }

  lemma StepBalanced(s: State, e: Event)
    requires AllBalanced(s.cpus)
    ensures AllBalanced(Step(s, e).cpus)
  {
    if e.cpu < |s.cpus| {
      assert s.cpus[e.cpu] in s.cpus;
      ProbeBalanced(s.cpus[e.cpu], s.starts, e);
      UpdateBalanced(s.cpus, e.cpu, RecordAll(s.cpus[e.cpu], e.config.generation, NotesOf(s.starts, e)));
    }
  }

  /** After every run and on every CPU, whatever generations came and went: observed completions
      are the detailed plus the suppressed ones and the sum of each histogram. */
  lemma {:induction false} CountersBalanced(cpus: nat, es: seq<Event>)
    ensures AllBalanced(After(cpus, es).cpus)
  {
    if es == [] {
      InitialBalanced(cpus);
    } else {
      CountersBalanced(cpus, es[..|es| - 1]);
      var s := After(cpus, es[..|es| - 1]);
      StepBalanced(s, es[|es| - 1]);
    }
  }

  lemma ZerosBalanced(cpus: seq<Aggregate>, generation: u64)
    requires forall a | a in cpus :: a == Zero(generation)
    ensures AllBalanced(cpus)
  {
    ZeroBalanced(generation);
  }

  lemma InitialBalanced(cpus: nat)
    ensures AllBalanced(Initial(cpus).cpus)
  {
    ZerosBalanced(Initial(cpus).cpus, 0);
  }

  /** And so does the snapshot the agent publishes. */
  lemma SnapshotBalanced(cpus: nat, es: seq<Event>, generation: u64)
    ensures AllBalanced(After(cpus, es).cpus)
    ensures Balanced(Merged(After(cpus, es).cpus, generation))
  {
    CountersBalanced(cpus, es);
    MergedBalanced(After(cpus, es).cpus, generation);
  }

  // ---- every accepted issue is accounted for ----

  function Issued(starts: Starts): set<u64> {
    set request | request in starts && starts[request].issueTs != 0
  }

  /** Accepted issues that will never be observed: overwritten, removed, gone back in time, or
      stamped with the time zero that means not issued. */
  function LostBy(starts: Starts, e: Event): nat {
    One(e.request in Issued(starts) && (Touches(e, e.request) && !Counts(starts, e))) +
    One(e.kind.Issue? && Stores(e, e.request) && e.ts == 0)
  }

  function Losses(es: seq<Event>): (r: seq<nat>)
    ensures |r| == |es| && forall i | 0 <= i < |es| :: r[i] == LostBy(StartsAt(es, i), es[i])
  {
    seq(|es|, (i: nat) requires i < |es| => LostBy(StartsAt(es, i), es[i]))
  }

  function Total(s: seq<nat>, m: nat, n: nat): nat
    requires m <= n <= |s|
  {
    if n == m then 0 else Total(s, m, n - 1) + s[n - 1]
  }

  /** The issues lost by events `m` to `n`. */
  function LostIn(es: seq<Event>, m: nat, n: nat): nat
    requires m <= n <= |es|
  {
    Total(Losses(es), m, n)
  }

  /** From event `m` on, and not before, the generation is the one given. */
  ghost predicate ActiveFrom(es: seq<Event>, m: nat, generation: u64) {
    && m <= |es|
    && (forall i | 0 <= i < m :: es[i].config.generation != generation)
    && (forall i | m <= i < |es| :: es[i].config.generation == generation)
  }

  function Snapshot(values: seq<Aggregate>, generation: u64): Counters {
    Merged(values, generation).counters
  }

  lemma SnapshotStep(values: seq<Aggregate>, generation: u64)
    requires values != []
    ensures
      var n := |values| - 1;
      Snapshot(values, generation) ==
      PlusCounters(Snapshot(values[..n], generation),
                   if values[n].generation == generation then values[n].counters else NO_COUNTS)
  {
  }

  /** A note taken on one CPU is a note in the merged counters, whether or not that CPU had to
      reset its own first. */
  lemma {:induction false} MergedUpdate(values: seq<Aggregate>, generation: u64, c: nat, note: Note)
    requires c < |values|
    ensures Snapshot(values[c := Record(values[c], generation, note)], generation) ==
      Counted(Snapshot(values, generation), note)
  {
    var a := Record(values[c], generation, note);
    var updated := values[c := a];
    var n := |values| - 1;
    SnapshotStep(values, generation);
    SnapshotStep(updated, generation);
    if c == n {
      assert updated[..n] == values[..n];
      CountedPlus(Snapshot(values[..n], generation),
                  if values[n].generation == generation then values[n].counters else NO_COUNTS, note);
    } else {
      assert updated[..n] == values[..n][c := a];
      MergedUpdate(values[..n], generation, c, note);
      PlusCommutes(Snapshot(values[..n], generation),
                   if values[n].generation == generation then values[n].counters else NO_COUNTS, note);
    }
  }

  lemma PlusCommutes(a: Counters, b: Counters, note: Note)
    ensures PlusCounters(Counted(a, note), b) == Counted(PlusCounters(a, b), note)
  {
  }

  function CountedAll(c: Counters, notes: seq<Note>): Counters {
    if notes == [] then c else Counted(CountedAll(c, notes[..|notes| - 1]), notes[|notes| - 1])
  }

  lemma {:induction false} MergedUpdateAll(values: seq<Aggregate>, generation: u64, c: nat, notes: seq<Note>)
    requires c < |values|
    ensures Snapshot(values[c := RecordAll(values[c], generation, notes)], generation) ==
      CountedAll(Snapshot(values, generation), notes)
  {
    if notes == [] {
      assert values[c := values[c]] == values;
    } else {
      var n := |notes| - 1;
      var before := values[c := RecordAll(values[c], generation, notes[..n])];
      MergedUpdateAll(values, generation, c, notes[..n]);
      MergedUpdate(before, generation, c, notes[n]);
      assert before[c := Record(before[c], generation, notes[n])] ==
             values[c := RecordAll(values[c], generation, notes)];
    }
  }

  predicate Passes(e: Event) { e.kind.Issue? && Stores(e, e.request) }

  lemma CountedTwo(c: Counters, n1: Note, n2: Note)
    ensures CountedAll(c, [n1, n2]) == Counted(Counted(c, n1), n2)
    ensures CountedAll(c, [n1]) == Counted(c, n1)
  {
    assert [n1, n2][..1] == [n1];
    assert [n1][..0] == [];
    assert CountedAll(c, []) == c;
  }

  lemma {:induction false} CountedAllPlus(c: Counters, xs: seq<Note>, ys: seq<Note>)
    ensures CountedAll(c, xs + ys) == CountedAll(CountedAll(c, xs), ys)
  {
    if ys == [] {
      assert xs + ys == xs;
    } else {
      assert (xs + ys)[..|xs + ys| - 1] == xs + ys[..|ys| - 1];
      CountedAllPlus(c, xs, ys[..|ys| - 1]);
    }
  }

  predicate SameTotals(c: Counters, d: Counters, passed: nat, observed: nat) {
    d.passed == c.passed + passed && d.observed == c.observed + observed
  }

  lemma ProtocolTotals(c: Counters, starts: Starts, e: Event)
    ensures SameTotals(c, CountedAll(c, ProtocolNotes(starts, e)), One(Passes(e)), One(Counts(starts, e)))
  {
    var notes := ProtocolNotes(starts, e);
    if |notes| == 2 {
      TwoTotals(c, notes[0], notes[1]);
      assert notes == [notes[0], notes[1]];
    } else if |notes| == 1 {
      TwoTotals(c, notes[0], notes[0]);
      assert notes == [notes[0]];
    }
  }

  lemma TwoTotals(c: Counters, n1: Note, n2: Note)
    ensures SameTotals(c, CountedAll(c, [n1]), One(n1.Passed?), One(n1.Completed?))
    ensures SameTotals(c, CountedAll(c, [n1, n2]), One(n1.Passed?) + One(n2.Passed?),
                       One(n1.Completed?) + One(n2.Completed?))
  {
    CountedTwo(c, n1, n2);
  }

  lemma NoteTotals(c: Counters, starts: Starts, e: Event)
    ensures SameTotals(c, CountedAll(c, NotesOf(starts, e)), One(Passes(e)), One(Counts(starts, e)))
  {
    ProtocolTotals(c, starts, e);
    var d := CountedAll(c, ProtocolNotes(starts, e));
    CountedAllPlus(c, ProtocolNotes(starts, e), RingNotes(starts, e));
    CountedTwo(d, RingFailure, RingFailure);
  }

  lemma IssuedSize(starts: Starts, e: Event)
    ensures |Issued(StartsAfter(starts, e))| ==
      |Issued(starts)| - One(e.request in Issued(starts) && Touches(e, e.request)) + One(Passes(e) && e.ts != 0)
  {
    IssuedAfter(starts, e);
  }

  lemma IssuedAfter(starts: Starts, e: Event)
    ensures Issued(StartsAfter(starts, e)) ==
      if Passes(e) && e.ts != 0 then Issued(starts) - {e.request} + {e.request}
      else if Touches(e, e.request) then Issued(starts) - {e.request}
      else Issued(starts)
  {
  }

  /** Issues passed under the generation, less the completions observed and the requests in flight. */
  ghost function Net(s: State, generation: u64): int {
    Snapshot(s.cpus, generation).passed - Snapshot(s.cpus, generation).observed - |Issued(s.starts)|
  }

  /** One probe moves each issue at most once between passed, in flight, observed and lost. */
  lemma NetStep(s: State, e: Event)
    requires e.cpu < |s.cpus|
    ensures Net(Step(s, e), e.config.generation) == Net(s, e.config.generation) + LostBy(s.starts, e)
  {
    MergedUpdateAll(s.cpus, e.config.generation, e.cpu, NotesOf(s.starts, e));
    NoteTotals(Snapshot(s.cpus, e.config.generation), s.starts, e);
    IssuedSize(s.starts, e);
  }

  lemma AfterStep(cpus: nat, es: seq<Event>, i: nat)
    requires 0 < i <= |es|
    ensures After(cpus, es[..i]) == Step(After(cpus, es[..i - 1]), es[i - 1])
  {
    assert es[..i][..i - 1] == es[..i - 1];
  }

  lemma {:induction false} CpuCount(cpus: nat, es: seq<Event>)
    ensures |After(cpus, es).cpus| == cpus
  {
    if es != [] { CpuCount(cpus, es[..|es| - 1]); }
  }

  lemma NetNext(cpus: nat, es: seq<Event>, i: nat)
    requires 0 < i <= |es| && es[i - 1].cpu < cpus
    ensures Net(After(cpus, es[..i]), es[i - 1].config.generation) ==
      Net(After(cpus, es[..i - 1]), es[i - 1].config.generation) + LostBy(StartsAt(es, i - 1), es[i - 1])
  {
    CpuCount(cpus, es[..i - 1]);
    StartsAgree(cpus, es, i - 1);
    AfterStep(cpus, es, i);
    NetStep(After(cpus, es[..i - 1]), es[i - 1]);
  }

  lemma {:induction false} Telescopes(net: seq<int>, change: seq<nat>, m: nat, i: nat)
    requires |net| == |change| + 1 && m <= i <= |change|
    requires forall k | m <= k < i :: change[k] == net[k + 1] - net[k]
    ensures net[i] == net[m] + Total(change, m, i)
  {
    if m < i { Telescopes(net, change, m, i - 1); }
  }

  ghost function Nets(cpus: nat, es: seq<Event>, generation: u64): (r: seq<int>)
    ensures |r| == |es| + 1 && forall i | 0 <= i <= |es| :: r[i] == Net(After(cpus, es[..i]), generation)
  {
    seq(|es| + 1, (i: nat) requires i <= |es| => Net(After(cpus, es[..i]), generation))
  }

  lemma NetsNext(cpus: nat, es: seq<Event>, generation: u64, k: nat)
    requires k < |es| && es[k].cpu < cpus && es[k].config.generation == generation
    ensures Losses(es)[k] == Nets(cpus, es, generation)[k + 1] - Nets(cpus, es, generation)[k]
  {
    NetNext(cpus, es, k + 1);
  }

  lemma NetRun(cpus: nat, es: seq<Event>, generation: u64, m: nat)
    requires m <= |es|
    requires forall k | m <= k < |es| :: es[k].cpu < cpus && es[k].config.generation == generation
    ensures Nets(cpus, es, generation)[|es|] == Nets(cpus, es, generation)[m] + LostIn(es, m, |es|)
  {
    var net, losses := Nets(cpus, es, generation), Losses(es);
    forall k | m <= k < |es| ensures losses[k] == net[k + 1] - net[k] { NetsNext(cpus, es, generation, k); }
    Telescopes(net, losses, m, |es|);
  }

  /** From the moment a generation becomes active: the requests then in flight and the issues that
      passed its filter are together its observed completions, the requests in flight now, and the
      issues lost in one of four named ways. Events of other generations may come before. */
  lemma IssuesConserved(cpus: nat, es: seq<Event>, generation: u64, m: nat)
    requires ActiveFrom(es, m, generation) && forall k | 0 <= k < |es| :: es[k].cpu < cpus
    ensures var c := Snapshot(After(cpus, es).cpus, generation);
      c.passed + |Issued(StartsAt(es, m))| == c.observed + |Issued(StartsAt(es, |es|))| + LostIn(es, m, |es|)
  {
    assert es[..|es|] == es;
    NetRun(cpus, es, generation, m);
    NetStart(cpus, es, generation, m);
    StartsAgree(cpus, es, |es|);
  }

  lemma NetStart(cpus: nat, es: seq<Event>, generation: u64, m: nat)
    requires ActiveFrom(es, m, generation)
    ensures Net(After(cpus, es[..m]), generation) == -|Issued(StartsAt(es, m))|
  {
    NotYetCounted(cpus, es, generation, m);
    StartsAgree(cpus, es, m);
  }

  lemma {:induction false} UncountedBefore(cpus: nat, es: seq<Event>, generation: u64, i: nat)
    requires i <= |es| && forall k | 0 <= k < i :: es[k].config.generation != generation
    ensures Uncounted(After(cpus, es[..i]).cpus, generation)
  {
    if i == 0 {
      StartUncounted(StartCpus(cpus), 0, generation);
    } else {
      UncountedBefore(cpus, es, generation, i - 1);
      AfterStep(cpus, es, i);
      var s := After(cpus, es[..i - 1]);
      ApplyUncounted(s.cpus, EntryOf(s.starts, es[i - 1]), generation);
    }
  }

  lemma NotYetCounted(cpus: nat, es: seq<Event>, generation: u64, m: nat)
    requires ActiveFrom(es, m, generation)
    ensures Snapshot(After(cpus, es[..m]).cpus, generation) == NO_COUNTS
  {
    UncountedBefore(cpus, es, generation, m);
    UncountedMerged(After(cpus, es[..m]).cpus, generation);
  }

  // ---- what the snapshot of a run counts ----

  /** The notes of a run, event by event. */
  function Entries(es: seq<Event>, n: nat): (r: seq<Entry>)
    requires n <= |es|
    ensures |r| == n
  {
    if n == 0 then [] else Entries(es, n - 1) + [EntryOf(StartsAt(es, n - 1), es[n - 1])]
  }

  lemma {:induction false} RunIsEntries(cpus: nat, es: seq<Event>, n: nat)
    requires n <= |es|
    ensures After(cpus, es[..n]).cpus == CpusAfter(cpus, Entries(es, n))
  {
    if n > 0 {
      RunIsEntries(cpus, es, n - 1);
      StartsAgree(cpus, es, n - 1);
      AfterStep(cpus, es, n);
      CpusPush(cpus, Entries(es, n - 1), EntryOf(StartsAt(es, n - 1), es[n - 1]));
    }
  }

  /** After every run the snapshot's counters are those of exactly the notes its events took under
      the generation and that no later note of another generation on the same CPU discarded ... */
  lemma RunCounters(cpus: nat, es: seq<Event>, generation: u64)
    ensures Merged(After(cpus, es).cpus, generation).counters ==
      CountersOf(AllNotes(LogsOf(cpus, Entries(es, |es|)), generation))
  {
    RunIsEntries(cpus, es, |es|);
    assert es[..|es|] == es;
    SnapshotCounters(cpus, Entries(es, |es|), generation);
  }

  /** ... and so is each bucket of its histograms. */
  lemma RunBuckets(cpus: nat, es: seq<Event>, generation: u64, metric: Metric, k: nat)
    requires k < BUCKETS
    ensures HistogramOf(Merged(After(cpus, es).cpus, generation).histograms, metric)[k] ==
      InBucket(AllNotes(LogsOf(cpus, Entries(es, |es|)), generation), metric, k)
  {
    RunIsEntries(cpus, es, |es|);
    assert es[..|es|] == es;
    SnapshotBuckets(cpus, Entries(es, |es|), generation, metric, k);
  }

  // ---- the probe ----

  lemma IssueNotes(a: Aggregate, starts: Starts, e: Event)
    requires e.kind.Issue? && e.accepted
    ensures
      var g := e.config.generation;
      var b := if e.request in starts && starts[e.request].issueTs != 0 then Record(a, g, KeyReused) else a;
      RecordAll(a, g, NotesOf(starts, e)) ==
      if e.stored then RecordAll(Record(b, g, Passed), g, RingNotes(starts, e)) else Record(b, g, MapFailure)
  {
    var g, last := e.config.generation, if e.stored then Passed else MapFailure;
    RecordAllPlus(a, g, ProtocolNotes(starts, e), RingNotes(starts, e));
    RecordTwo(a, g, KeyReused, last);
    RecordTwo(a, g, last, last);
    assert ProtocolNotes(starts, e) ==
      if e.request in starts && starts[e.request].issueTs != 0 then [KeyReused, last] else [last];
  }

  lemma CompleteNotes(a: Aggregate, starts: Starts, e: Event)
    requires Counts(starts, e)
    ensures
      var g, start := e.config.generation, starts[e.request];
      RecordAll(a, g, NotesOf(starts, e)) ==
      RecordAll(Record(Record(a, g, CompletedNote(start, e)), g, Verdict(start, e)), g, RingNotes(starts, e))
  {
    var g, start := e.config.generation, starts[e.request];
    RecordAllPlus(a, g, ProtocolNotes(starts, e), RingNotes(starts, e));
    RecordTwo(a, g, CompletedNote(start, e), Verdict(start, e));
  }

  class BlockProbes {
    var starts: Starts
    var cpus: seq<Aggregate>

    ghost function Model(): State
      reads this
    {
      State(starts, cpus)
    }

    constructor (count: nat)
      ensures Model() == Initial(count)
    {
      starts := map[];
      cpus := StartCpus(count);
    }

    /** The counters of the current CPU, reset first if they are of another generation. */
    method TakeNote(cpu: nat, generation: u64, note: Note)
      requires cpu < |cpus|
      modifies this`cpus
      ensures cpus == old(cpus)[cpu := Record(old(cpus[cpu]), generation, note)]
    {
      var a := cpus[cpu];
      if a.generation != generation { a := Zero(generation); }
      cpus := cpus[cpu := Noted(a, note)];
    }

    /** Submits reports until the ring refuses one. */
    method Submit(cpu: nat, generation: u64, reports: seq<Sent>, room: nat) returns (sent: seq<Sent>)
      requires cpu < |cpus|
      modifies this`cpus
      ensures sent == reports[..Min(room, |reports|)]
      ensures cpus == old(cpus)[cpu := RecordAll(old(cpus[cpu]), generation,
                                                 if room < |reports| then [RingFailure] else [])]
    {
      sent := [];
      for k := 0 to |reports|
        invariant k <= room && sent == reports[..k] && cpus == old(cpus)
      {
        if k == room {
          TakeNote(cpu, generation, RingFailure);
          RecordTwo(old(cpus[cpu]), generation, RingFailure, RingFailure);
          return;
        }
        sent := sent + [reports[k]];
      }
      assert old(cpus)[cpu := old(cpus[cpu])] == old(cpus);
    }

    method ProcessInsert(e: Event) returns (sent: seq<Sent>)
      requires e.kind.Insert? && e.cpu < |cpus|
      modifies this
      ensures Model() == Step(old(Model()), e)
      ensures sent == Delivered(old(starts), e)
    {
      var g := e.config.generation;
      if !e.accepted {
        TakeNote(e.cpu, g, Suppressed);
        RecordTwo(old(cpus[e.cpu]), g, Suppressed, Suppressed);
        return [];
      }
      ghost var a := cpus[e.cpu];
      if e.stored {
        starts := starts[e.request := Start(e.ts, 0, e.io, e.task, e.cpu, e.exact)];
      } else {
        TakeNote(e.cpu, g, MapFailure);
        RecordTwo(a, g, MapFailure, MapFailure);
      }
      sent := Submit(e.cpu, g, if Verbose(e.config) then [OwnEvent(map[], e)] else [], e.room);
      RecordAllPlus(a, g, ProtocolNotes(old(starts), e), RingNotes(old(starts), e));
    }

    method ProcessIssue(e: Event) returns (sent: seq<Sent>)
      requires e.kind.Issue? && e.cpu < |cpus|
      modifies this
      ensures Model() == Step(old(Model()), e)
      ensures sent == Delivered(old(starts), e)
    {
      var g := e.config.generation;
      var event := OwnEvent(starts, e);
      ghost var a := cpus[e.cpu];
      if !e.accepted {
        starts := starts - {e.request};
        TakeNote(e.cpu, g, Suppressed);
        RecordTwo(a, g, Suppressed, Suppressed);
        return [];
      }
      var start := StartOf(starts, e);
      IssueNotes(a, starts, e);
      if e.request in starts && starts[e.request].issueTs != 0 { TakeNote(e.cpu, g, KeyReused); }
      if !e.stored {
        TakeNote(e.cpu, g, MapFailure);
        return [];
      }
      starts := starts[e.request := start];
      TakeNote(e.cpu, g, Passed);
      sent := Submit(e.cpu, g, if Verbose(e.config) then [event] else [], e.room);
    }

    method ProcessComplete(e: Event) returns (sent: seq<Sent>)
      requires e.kind.Complete? && e.cpu < |cpus|
      modifies this
      ensures Model() == Step(old(Model()), e)
      ensures sent == Delivered(old(starts), e)
    {
      var g := e.config.generation;
      ghost var a := cpus[e.cpu];
      if e.request !in starts {
        assert starts - {e.request} == starts;
        TakeNote(e.cpu, g, Expired);
        RecordTwo(a, g, Expired, Expired);
        return [];
      }
      var start := starts[e.request];
      starts := starts - {e.request};
      if start.issueTs == 0 || e.ts < start.issueTs {
        TakeNote(e.cpu, g, Expired);
        RecordTwo(a, g, Expired, Expired);
        return [];
      }
      CompleteNotes(a, old(starts), e);
      sent := CountCompletion(start, e);
    }

    /** A completion with a known issue: its note, its verdict and its reports. */
    method CountCompletion(start: Start, e: Event) returns (sent: seq<Sent>)
      requires e.cpu < |cpus|
      modifies this`cpus
      ensures var g, reports := e.config.generation, CompletionReports(start, e);
        && sent == reports[..Min(e.room, |reports|)]
        && cpus == old(cpus)[e.cpu := RecordAll(Record(Record(old(cpus[e.cpu]), g, CompletedNote(start, e)), g,
                                                       Verdict(start, e)),
                                                g, if e.room < |reports| then [RingFailure] else [])]
    {
      TakeNote(e.cpu, e.config.generation, CompletedNote(start, e));
      TakeNote(e.cpu, e.config.generation, Verdict(start, e));
      var reports := ReportCompletion(start, e);
      sent := Submit(e.cpu, e.config.generation, reports, e.room);
    }

    method ReportCompletion(start: Start, e: Event) returns (reports: seq<Sent>)
      ensures reports == CompletionReports(start, e)
    {
      reports := [];
      if IsDetailed(start, e) {
        var event := OwnEvent(map[], e).(startTs := 0);
        if e.config.mode.Deep? {
          event := event.(startTs := if start.insertTs == 0 then start.issueTs else start.insertTs);
        }
        if e.config.mode.Balance? {
          if start.insertTs != 0 { reports := [FromStart(start, e.request, Insert)]; }
          reports := reports + [FromStart(start, e.request, Issue)];
        }
        reports := reports + [event];
      }
    }

    method ProcessBlock(e: Event) returns (sent: seq<Sent>)
      requires e.cpu < |cpus|
      modifies this
      ensures Model() == Step(old(Model()), e)
      ensures sent == Delivered(old(starts), e)
    {
      match e.kind
      case Insert => sent := ProcessInsert(e);
      case Issue => sent := ProcessIssue(e);
      case Complete => sent := ProcessComplete(e);
      case Foreign => sent := RefuseForeign(e);
    }

    /** Another probe's report, refused by the ring. */
    method RefuseForeign(e: Event) returns (sent: seq<Sent>)
      requires e.kind.Foreign? && e.cpu < |cpus|
      modifies this
      ensures Model() == Step(old(Model()), e)
      ensures sent == Delivered(old(starts), e)
    {
      TakeNote(e.cpu, e.config.generation, RingFailure);
      RecordTwo(old(cpus[e.cpu]), e.config.generation, RingFailure, RingFailure);
      assert NotesOf(starts, e) == [RingFailure];
      return [];
    }
  }
}
