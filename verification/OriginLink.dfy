/**
 From a file operation to the block request that carries it: the probes remember the file a thread
 is working on, stamp it on each bio the thread submits, and report it when the bio joins a request.
 Each probe is one atomic step; map insertions and ring reservations may fail at any step.
 */
module OriginLink {
  import opened Common
  import Aggregates

  const MAX_REQUEST_ORIGINS: nat := 8

  datatype Origin = Origin(
    ts: u64, requested: u64, inode: u64, mount: u64, device: u32, generation: Option<u32>,
    pid: u32, tid: u32, writeback: bool, operation: u8)

  /** The booleans say what the kernel answered: whether exact attribution was on, and whether the
      insertion or the reservation succeeded. A capture that was filtered out, or could not read
      its file, is one that stored nothing. Other probes take notes on the same counters. */
  datatype Event =
    | Capture(thread: u64, origin: Origin, stored: bool)
    | Clear(thread: u64)
    | Bind(enabled: bool, thread: u64, bio: u64, stored: bool)
    | Link(enabled: bool, request: u64, bio: u64, starts: bool, counted: bool, reserved: bool, cpu: nat,
           generation: u64)
    | Complete(request: u64)
    | OtherNote(cpu: nat, generation: u64, note: Aggregates.Note)

  datatype State = State(active: map<u64, Origin>, bound: map<u64, Origin>, counts: map<u64, nat>)

  datatype Report = Report(request: u64, bio: u64, origin: Origin, bytes: u32, incomplete: bool)

  datatype Outcome =
    | Ignored
    | Dropped
    | Refused
    | Lost(incomplete: bool)
    | Sent(report: Report)

  function CountOf(counts: map<u64, nat>, request: u64): nat {
    if request in counts then counts[request] else 0
  }

  predicate LinkActive(e: Event) {
    e.Link? && e.enabled && e.request != 0 && e.bio != 0
  }

  /** The counts as the link finds them: a fresh request starts over. */
  function Restarted(counts: map<u64, nat>, e: Event): map<u64, nat>
    requires e.Link?
  {
    if e.starts then counts - {e.request} else counts
  }

  function ReportOf(e: Event, origin: Origin, incomplete: bool): Report
    requires e.Link?
  {
    Report(e.request, e.bio, origin, Min(origin.requested, U32_MAX), incomplete)
  }

  function OutcomeOf(s: State, e: Event): Outcome {
    if !LinkActive(e) || e.bio !in s.bound then Ignored
    else
      var count := CountOf(Restarted(s.counts, e), e.request);
      if count > MAX_REQUEST_ORIGINS then Dropped
      else if !e.counted then Refused
      else if !e.reserved then Lost(count == MAX_REQUEST_ORIGINS)
      else Sent(ReportOf(e, s.bound[e.bio], count == MAX_REQUEST_ORIGINS))
  }

  function LinkStep(s: State, e: Event): State
    requires LinkActive(e)
  {
    var counts := Restarted(s.counts, e);
    var next := counts[e.request := CountOf(counts, e.request) + 1];
    match OutcomeOf(s, e)
    case Ignored => s.(counts := counts)
    case Dropped => s.(counts := counts, bound := s.bound - {e.bio})
    case Refused => s.(counts := counts)
    case Lost(_) => s.(counts := next)
    case Sent(_) => s.(counts := next, bound := s.bound - {e.bio})
  }

  function Step(s: State, e: Event): State {
    match e
    case Capture(thread, origin, stored) => if stored then s.(active := s.active[thread := origin]) else s
    case Clear(thread) => s.(active := s.active - {thread})
    case Bind(enabled, thread, bio, stored) =>
      if !enabled || bio == 0 then s
      else if thread in s.active && stored then s.(bound := s.bound[bio := s.active[thread]])
      else s.(bound := s.bound - {bio})
    case Link(_, _, _, _, _, _, _, _) => if LinkActive(e) then LinkStep(s, e) else s
    case Complete(request) => s.(counts := s.counts - {request})
    case OtherNote(_, _, _) => s
  }

  function After(es: seq<Event>): State {
    if es == [] then State(map[], map[], map[])
    else Step(After(es[..|es| - 1]), es[|es| - 1])
  }

  /** What event `i` of a run did. */
  function At(es: seq<Event>, i: nat): Outcome
    requires i < |es|
  {
    OutcomeOf(After(es[..i]), es[i])
  }

  // ---- where a report comes from ----

  predicate Touches(e: Event, thread: u64) {
    (e.Capture? && e.thread == thread && e.stored) || (e.Clear? && e.thread == thread)
  }

  /** Event `k` is the capture in force for its thread when event `j` comes. */
  ghost predicate Captured(es: seq<Event>, k: nat, j: nat) {
    && k < j <= |es|
    && es[k].Capture? && es[k].stored
    && forall m | k < m < j :: !Touches(es[m], es[k].thread)
  }

  predicate Submits(e: Event, bio: u64) {
    e.Bind? && e.enabled && e.bio == bio && bio != 0
  }

  /** A link that used up the stamp on the bio: it was reported, or dropped as one too many. */
  predicate Consumes(es: seq<Event>, m: nat, bio: u64)
    requires m < |es|
  {
    es[m].Link? && es[m].bio == bio && (At(es, m).Sent? || At(es, m).Dropped?)
  }

  /** Event `j` stamped the bio with the file captured at `k`, and the stamp is still there when
      event `i` comes. */
  ghost predicate Stamped(es: seq<Event>, k: nat, j: nat, i: nat, bio: u64) {
    && k < j < i <= |es|
    && Submits(es[j], bio) && es[j].stored
    && Captured(es, k, j) && es[k].thread == es[j].thread
    && forall m | j < m < i :: !Submits(es[m], bio) && !Consumes(es, m, bio)
  }

  ghost predicate HasCapture(es: seq<Event>, thread: u64, origin: Origin) {
    exists k: nat :: Captured(es, k, |es|) && es[k].thread == thread && es[k].origin == origin
  }

  ghost predicate HasStamp(es: seq<Event>, bio: u64, origin: Origin) {
    exists k: nat, j: nat :: Stamped(es, k, j, |es|, bio) && es[k].origin == origin
  }

  lemma ConsumesPrefix(es: seq<Event>, n: nat, m: nat, bio: u64)
    requires m < n <= |es|
    ensures Consumes(es[..n], m, bio) <==> Consumes(es, m, bio)
  {
    assert es[..n][..m] == es[..m];
  }

  lemma StampedPrefix(es: seq<Event>, n: nat, k: nat, j: nat, i: nat, bio: u64)
    requires n <= |es| && i <= n
    ensures Stamped(es[..n], k, j, i, bio) <==> Stamped(es, k, j, i, bio)
  {
    forall m | 0 <= m < n ensures Consumes(es[..n], m, bio) <==> Consumes(es, m, bio) {
      ConsumesPrefix(es, n, m, bio);
    }
  }

  /** The thread's entry is exactly the capture in force. */
  lemma {:induction false} ActiveMeans(es: seq<Event>, thread: u64, origin: Origin)
    ensures thread in After(es).active && After(es).active[thread] == origin <==> HasCapture(es, thread, origin)
  {
    if es != [] {
      var n := |es| - 1;
      var e := es[n];
      ActiveMeans(es[..n], thread, origin);
      if Touches(e, thread) {
        if e.Capture? && e.origin == origin { assert Captured(es, n, |es|); }
      } else {
        ActiveKept(es[..n], e, thread);
        if HasCapture(es[..n], thread, origin) {
          var k: nat :| Captured(es[..n], k, n) && es[..n][k].thread == thread && es[..n][k].origin == origin;
          assert Captured(es, k, |es|);
        }
        if HasCapture(es, thread, origin) {
          var k: nat :| Captured(es, k, |es|) && es[k].thread == thread && es[k].origin == origin;
          assert Captured(es[..n], k, n);
        }
      }
    }
  }

  lemma ActiveKept(before: seq<Event>, e: Event, thread: u64)
    requires !Touches(e, thread)
    ensures var s, t := After(before), Step(After(before), e);
      && (thread in s.active <==> thread in t.active)
      && (thread in s.active ==> s.active[thread] == t.active[thread])
  {
  }

  predicate Changes(es: seq<Event>, m: nat, bio: u64)
    requires m < |es|
  {
    Submits(es[m], bio) || Consumes(es, m, bio)
  }

  lemma BoundKept(s: State, e: Event, bio: u64)
    requires !Submits(e, bio)
    requires !(e.Link? && e.bio == bio && (OutcomeOf(s, e).Sent? || OutcomeOf(s, e).Dropped?))
    ensures bio in s.bound <==> bio in Step(s, e).bound
    ensures bio in s.bound ==> s.bound[bio] == Step(s, e).bound[bio]
  {
  }

  lemma StampExtends(es: seq<Event>, bio: u64, origin: Origin)
    requires es != [] && !Changes(es, |es| - 1, bio)
    ensures HasStamp(es[..|es| - 1], bio, origin) <==> HasStamp(es, bio, origin)
  {
    var n := |es| - 1;
    if HasStamp(es[..n], bio, origin) {
      var k: nat, j: nat :| Stamped(es[..n], k, j, n, bio) && es[..n][k].origin == origin;
      StampedPrefix(es, n, k, j, n, bio);
      assert Stamped(es, k, j, |es|, bio);
    }
    if HasStamp(es, bio, origin) {
      var k: nat, j: nat :| Stamped(es, k, j, |es|, bio) && es[k].origin == origin;
      assert Stamped(es, k, j, n, bio);
      StampedPrefix(es, n, k, j, n, bio);
      assert es[..n][k].origin == origin;
    }
  }

  lemma StampBySubmit(es: seq<Event>, bio: u64, origin: Origin)
    requires es != [] && Submits(es[|es| - 1], bio)
    ensures HasStamp(es, bio, origin) <==>
      es[|es| - 1].stored && HasCapture(es[..|es| - 1], es[|es| - 1].thread, origin)
  {
    var n := |es| - 1;
    if es[n].stored && HasCapture(es[..n], es[n].thread, origin) {
      var k: nat :| Captured(es[..n], k, n) && es[..n][k].thread == es[n].thread && es[..n][k].origin == origin;
      assert Stamped(es, k, n, |es|, bio);
    }
    if HasStamp(es, bio, origin) {
      var k: nat, j: nat :| Stamped(es, k, j, |es|, bio) && es[k].origin == origin;
      assert j == n;
      assert Captured(es[..n], k, n) && es[..n][k].thread == es[n].thread && es[..n][k].origin == origin;
    }
  }

  /** The bio's entry is exactly the stamp still in force. */
  lemma {:induction false} BoundMeans(es: seq<Event>, bio: u64, origin: Origin)
    ensures bio in After(es).bound && After(es).bound[bio] == origin <==> HasStamp(es, bio, origin)
  {
    if es != [] {
      var n := |es| - 1;
      var e := es[n];
      if Submits(e, bio) {
        ActiveMeans(es[..n], e.thread, origin);
        StampBySubmit(es, bio, origin);
      } else if Consumes(es, n, bio) {
        assert bio !in After(es).bound;
      } else {
        BoundMeans(es[..n], bio, origin);
        BoundKept(After(es[..n]), e, bio);
        StampExtends(es, bio, origin);
      }
    }
  }

  ghost predicate ComesFrom(es: seq<Event>, k: nat, j: nat, i: nat, report: Report) {
    && i < |es|
    && Stamped(es, k, j, i, report.bio)
    && report.origin == es[k].origin
  }

  /** Every report names the file that the thread which last submitted the bio was working on when
      it submitted it, and nothing used that stamp before. */
  lemma ReportHasOrigin(es: seq<Event>, i: nat)
    requires i < |es| && At(es, i).Sent?
    ensures es[i].Link? && At(es, i).report.request == es[i].request && At(es, i).report.bio == es[i].bio
    ensures exists k: nat, j: nat :: ComesFrom(es, k, j, i, At(es, i).report)
  {
    var report := At(es, i).report;
    BoundMeans(es[..i], report.bio, report.origin);
    var k: nat, j: nat :| Stamped(es[..i], k, j, i, report.bio) && es[..i][k].origin == report.origin;
    StampedPrefix(es, i, k, j, i, report.bio);
    assert ComesFrom(es, k, j, i, report);
  }

  /** Conversely a stamped bio that joins a request with room is reported, unless an insertion or
      a reservation fails. */
  lemma StampIsReported(es: seq<Event>, k: nat, j: nat, i: nat)
    requires i < |es| && LinkActive(es[i]) && es[i].counted && es[i].reserved
    requires Stamped(es, k, j, i, es[i].bio)
    requires CountOf(Restarted(After(es[..i]).counts, es[i]), es[i].request) <= MAX_REQUEST_ORIGINS
    ensures At(es, i).Sent? && At(es, i).report.origin == es[k].origin
  {
    StampedPrefix(es, i, k, j, i, es[i].bio);
    assert HasStamp(es[..i], es[i].bio, es[k].origin) by {
      assert Stamped(es[..i], k, j, |es[..i]|, es[i].bio) && es[..i][k].origin == es[k].origin;
    }
    BoundMeans(es[..i], es[i].bio, es[k].origin);
  }

  ghost predicate SubmittedBetween(es: seq<Event>, lo: nat, hi: nat, bio: u64) {
    exists j: nat :: lo < j < hi <= |es| && Submits(es[j], bio)
  }

  /** One submission is reported at most once: between two reports of a bio it was submitted again. */
  lemma ReportedOnce(es: seq<Event>, first: nat, second: nat)
    requires first < second < |es| && At(es, first).Sent? && At(es, second).Sent?
    requires es[first].bio == es[second].bio
    ensures SubmittedBetween(es, first, second, es[second].bio)
  {
    ReportHasOrigin(es, second);
    var k: nat, j: nat :| ComesFrom(es, k, j, second, At(es, second).report);
    assert Consumes(es, first, es[second].bio);
    assert j > first;
  }

  // ---- at most eight origins a request, and an overflow that shows ----

  /** What happened to the stamped bios that joined a request since it was last started or completed. */
  datatype Tally = Tally(plain: nat, flagged: nat, lostPlain: nat, lostFlagged: nat, refused: nat, dropped: nat)

  function Tried(t: Tally): nat {
    t.plain + t.flagged + t.lostPlain + t.lostFlagged + t.refused + t.dropped
  }

  predicate Resets(e: Event, request: u64) {
    (e.Complete? && e.request == request) || (LinkActive(e) && e.starts && e.request == request)
  }

  function Added(t: Tally, o: Outcome): Tally {
    match o
    case Ignored => t
    case Dropped => t.(dropped := t.dropped + 1)
    case Refused => t.(refused := t.refused + 1)
    case Lost(incomplete) =>
      if incomplete then t.(lostFlagged := t.lostFlagged + 1) else t.(lostPlain := t.lostPlain + 1)
    case Sent(report) =>
      if report.incomplete then t.(flagged := t.flagged + 1) else t.(plain := t.plain + 1)
  }

  function TallyOf(es: seq<Event>, request: u64): Tally {
    if es == [] then NONE
    else
      var n := |es| - 1;
      var kept := if Resets(es[n], request) then NONE else TallyOf(es[..n], request);
      if es[n].Link? && es[n].request == request then Added(kept, At(es, n)) else kept
  }

  /** The count kept for a request against what happened to it. */
  ghost predicate Tallied(count: nat, t: Tally) {
    && count <= MAX_REQUEST_ORIGINS + 1
    && t.plain + t.lostPlain == Min(count, MAX_REQUEST_ORIGINS)
    && t.flagged + t.lostFlagged == (if count > MAX_REQUEST_ORIGINS then 1 else 0)
    && (t.dropped > 0 ==> count > MAX_REQUEST_ORIGINS)
  }

  const NONE: Tally := Tally(0, 0, 0, 0, 0, 0)

  /** One link of the request itself, its count already restarted where it starts the request. */
  lemma LinkTallied(s: State, e: Event, t: Tally)
    requires LinkActive(e)
    requires Tallied(CountOf(Restarted(s.counts, e), e.request), t)
    ensures Tallied(CountOf(LinkStep(s, e).counts, e.request), Added(t, OutcomeOf(s, e)))
  {
  }

  lemma CountStep(s: State, e: Event, request: u64, t: Tally)
    requires Tallied(CountOf(s.counts, request), t)
    ensures
      var kept := if Resets(e, request) then NONE else t;
      Tallied(CountOf(Step(s, e).counts, request),
              if e.Link? && e.request == request then Added(kept, OutcomeOf(s, e)) else kept)
  {
    if LinkActive(e) && e.request == request {
      LinkTallied(s, e, if Resets(e, request) then NONE else t);
    } else if LinkActive(e) {
      OtherLink(s, e, request);
    }
  }

  lemma OtherLink(s: State, e: Event, request: u64)
    requires LinkActive(e) && e.request != request
    ensures CountOf(LinkStep(s, e).counts, request) == CountOf(s.counts, request)
  {
  }

  lemma {:induction false} CountMeans(es: seq<Event>, request: u64)
    ensures Tallied(CountOf(After(es).counts, request), TallyOf(es, request))
  {
    if es != [] {
      var n := |es| - 1;
      CountMeans(es[..n], request);
      CountStep(After(es[..n]), es[n], request, TallyOf(es[..n], request));
    }
  }

  /** At most eight origins were reported without the incomplete mark and at most one with it. With
      no origin refused by the count map, the mark was made exactly when a ninth was tried; with
      none lost in the ring either, the first eight and the mark were all reported. */
  ghost predicate OverflowVisible(t: Tally) {
    && t.plain <= MAX_REQUEST_ORIGINS && t.flagged <= 1
    && (t.flagged == 1 ==> Tried(t) > MAX_REQUEST_ORIGINS)
    && (t.refused == 0 ==> (Tried(t) > MAX_REQUEST_ORIGINS <==> t.flagged + t.lostFlagged == 1))
    && (t.refused + t.lostPlain + t.lostFlagged == 0 ==>
          && t.plain == Min(Tried(t), MAX_REQUEST_ORIGINS)
          && (t.flagged == 1 <==> Tried(t) > MAX_REQUEST_ORIGINS))
  }

  lemma TalliedBounds(count: nat, t: Tally)
    requires Tallied(count, t)
    ensures OverflowVisible(t)
  {
  }

  lemma OverflowShows(es: seq<Event>, request: u64)
    ensures OverflowVisible(TallyOf(es, request))
  {
    CountMeans(es, request);
    TalliedBounds(CountOf(After(es).counts, request), TallyOf(es, request));
  }

  // ---- where a lost report is counted ----

  /** The note an event takes on the counters of its CPU, if any. */
  function EntryOf(s: State, e: Event): Aggregates.Entry {
    if OutcomeOf(s, e).Lost? then Aggregates.Entry(e.cpu, e.generation, [Aggregates.RingFailure])
    else if e.OtherNote? then Aggregates.Entry(e.cpu, e.generation, [e.note])
    else Aggregates.Entry(0, 0, [])
  }

  function Entries(es: seq<Event>): (r: seq<Aggregates.Entry>)
    ensures |r| == |es| && forall i | 0 <= i < |es| :: r[i] == EntryOf(After(es[..i]), es[i])
  {
    seq(|es|, (i: nat) requires i < |es| => EntryOf(After(es[..i]), es[i]))
  }

  predicate TakesNote(es: seq<Event>, i: nat)
    requires i < |es|
  {
    At(es, i).Lost? || es[i].OtherNote?
  }

  predicate NotesFailure(es: seq<Event>, i: nat)
    requires i < |es|
  {
    At(es, i).Lost? || (es[i].OtherNote? && es[i].note.RingFailure?)
  }

  /** The CPU of event `i` took no note of another generation since. */
  ghost predicate StillCounted(es: seq<Event>, i: nat)
    requires i < |es| && TakesNote(es, i)
  {
    forall k | i < k < |es| && TakesNote(es, k) :: es[k].cpu == es[i].cpu ==> es[k].generation == es[i].generation
  }

  /** One for each lost report and other failure of a CPU that is still counted. */
  ghost function Failures(es: seq<Event>, cpu: nat): (r: seq<nat>)
    ensures |r| == |es|
    ensures forall i | 0 <= i < |es| :: r[i] == Counts(es, i, cpu)
  {
    seq(|es|, (i: nat) requires i < |es| => Counts(es, i, cpu))
  }

  ghost function Counts(es: seq<Event>, i: nat, cpu: nat): nat
    requires i < |es|
  {
    if NotesFailure(es, i) && es[i].cpu == cpu && StillCounted(es, i) then 1 else 0
  }

  lemma LiveIsCounted(es: seq<Event>, i: nat)
    requires i < |es| && TakesNote(es, i)
    ensures Aggregates.Live(Entries(es), i) <==> StillCounted(es, i)
  {
    var r := Entries(es);
    forall k | 0 <= k < |es| ensures (r[k].notes != [] <==> TakesNote(es, k)) &&
      (TakesNote(es, k) ==> r[k].cpu == es[k].cpu && r[k].generation == es[k].generation)
    {
    }
  }

  lemma OneNote(note: Aggregates.Note)
    ensures Aggregates.RingFailures([note]) == if note.RingFailure? then 1 else 0
  {
    Aggregates.CountersStep([], note);
    assert [] + [note] == [note];
  }

  lemma ShareAgrees(es: seq<Event>, i: nat, cpu: nat)
    requires i < |es|
    ensures Aggregates.LiveFailures(Entries(es), cpu)[i] == Counts(es, i, cpu)
  {
    if At(es, i).Lost? {
      LiveIsCounted(es, i);
      OneNote(Aggregates.RingFailure);
    } else if es[i].OtherNote? {
      LiveIsCounted(es, i);
      OneNote(es[i].note);
    }
  }

  lemma FailuresAgree(es: seq<Event>, cpu: nat)
    ensures Aggregates.LiveFailures(Entries(es), cpu) == Failures(es, cpu)
  {
    forall i | 0 <= i < |es| ensures Aggregates.LiveFailures(Entries(es), cpu)[i] == Failures(es, cpu)[i] {
      ShareAgrees(es, i, cpu);
    }
  }

  /** After every run, the failure counter of a CPU holds exactly the reports lost there, and the
      other failures noted there, since that CPU last took a note of another generation. */
  lemma LossesCounted(cpus: nat, es: seq<Event>, cpu: nat)
    requires cpu < cpus
    ensures Aggregates.CpusAfter(cpus, Entries(es))[cpu].counters.ringFailures ==
      Aggregates.Sum(Failures(es, cpu))
  {
    Aggregates.FailuresLive(cpus, Entries(es), cpu);
    FailuresAgree(es, cpu);
  }

  /** A report lost under generation 1 is in no counter once its CPU has noted something under
      generation 2. */
  lemma LossForgotten(origin: Origin, generation: u64)
    ensures
      var es := [Capture(7, origin, true), Bind(true, 7, 5, true), Link(true, 9, 5, true, true, false, 0, 1),
                 OtherNote(0, 2, Aggregates.Passed)];
      && At(es, 2).Lost?
      && Aggregates.Merged(Aggregates.CpusAfter(1, Entries(es)), generation).counters.ringFailures == 0
  {
    var es := [Capture(7, origin, true), Bind(true, 7, 5, true), Link(true, 9, 5, true, true, false, 0, 1),
               OtherNote(0, 2, Aggregates.Passed)];
    AfterNext(es, 0);
    AfterNext(es, 1);
    LossesCounted(1, es, 0);
    assert TakesNote(es, 3) && !StillCounted(es, 2);
    Aggregates.SumZero(Failures(es, 0));
    MergedOne(Aggregates.CpusAfter(1, Entries(es)), generation);
  }

  lemma AfterNext(es: seq<Event>, i: nat)
    requires i < |es|
    ensures After(es[..i + 1]) == Step(After(es[..i]), es[i])
  {
    assert es[..i + 1][..i] == es[..i];
  }

  lemma MergedOne(cpus: seq<Aggregates.Aggregate>, generation: u64)
    requires |cpus| == 1 && cpus[0].counters.ringFailures == 0
    ensures Aggregates.Merged(cpus, generation).counters.ringFailures == 0
  {
    assert cpus[..0] == [];
  }

  // ---- the probes ----

  lemma NoNotes(cpus: seq<Aggregates.Aggregate>, cpu: nat, generation: u64)
    ensures Aggregates.Apply(cpus, Aggregates.Entry(cpu, generation, [])) == cpus
  {
  }

  lemma OneFailure(a: Aggregates.Aggregate, generation: u64)
    ensures Aggregates.RecordAll(a, generation, [Aggregates.RingFailure]) ==
      Aggregates.Record(a, generation, Aggregates.RingFailure)
  {
    assert [Aggregates.RingFailure][..0] == [];
  }

  class BioLinks {
    var active: map<u64, Origin>
    var bound: map<u64, Origin>
    var counts: map<u64, nat>
    var cpus: seq<Aggregates.Aggregate>

    ghost function Model(): State
      reads this
    {
      State(active, bound, counts)
    }

    constructor (count: nat)
      ensures Model() == After([]) && cpus == Aggregates.StartCpus(count)
    {
      active, bound, counts, cpus := map[], map[], map[], Aggregates.StartCpus(count);
    }

    method CaptureFile(thread: u64, origin: Origin, stored: bool)
      modifies this`active, this`bound, this`counts
      ensures Model() == Step(old(Model()), Capture(thread, origin, stored))
    {
      if stored { active := active[thread := origin]; }
    }

    method ClearFile(thread: u64)
      modifies this`active, this`bound, this`counts
      ensures Model() == Step(old(Model()), Clear(thread))
    {
      active := active - {thread};
    }

    method BindBio(enabled: bool, thread: u64, bio: u64, stored: bool)
      modifies this`active, this`bound, this`counts
      ensures Model() == Step(old(Model()), Bind(enabled, thread, bio, stored))
    {
      if !enabled { return; }
      if bio == 0 { return; }
      bound := bound - {bio};
      if thread !in active || !stored { return; }
      bound := bound[bio := active[thread]];
      assert bound == old(bound)[bio := active[thread]];
    }

    method LinkBio(enabled: bool, request: u64, bio: u64, starts: bool, counted: bool, reserved: bool, cpu: nat,
                   generation: u64)
      returns (out: Outcome)
      requires cpu < |cpus|
      modifies this
      ensures var e := Link(enabled, request, bio, starts, counted, reserved, cpu, generation);
        && Model() == Step(old(Model()), e) && out == OutcomeOf(old(Model()), e)
        && cpus == Aggregates.Apply(old(cpus), EntryOf(old(Model()), e))
    {
      ghost var e := Link(enabled, request, bio, starts, counted, reserved, cpu, generation);
      NoNotes(cpus, 0, 0);
      if !enabled { return Ignored; }
      if request == 0 || bio == 0 { return Ignored; }
      if starts { counts := counts - {request}; }
      assert counts == Restarted(old(counts), e);
      if bio !in bound { return Ignored; }
      var origin := bound[bio];
      var count := CountOf(counts, request);
      if count > MAX_REQUEST_ORIGINS {
        bound := bound - {bio};
        return Dropped;
      }
      var incomplete := count == MAX_REQUEST_ORIGINS;
      if !counted { return Refused; }
      counts := counts[request := count + 1];
      if !reserved {
        OneFailure(cpus[cpu], generation);
        cpus := cpus[cpu := Aggregates.Record(cpus[cpu], generation, Aggregates.RingFailure)];
        return Lost(incomplete);
      }
      bound := bound - {bio};
      return Sent(Report(request, bio, origin, Min(origin.requested, U32_MAX), incomplete));
    }

    method CompleteRequest(request: u64)
      modifies this`active, this`bound, this`counts
      ensures Model() == Step(old(Model()), Complete(request))
    {
      counts := counts - {request};
    }
  }
}
