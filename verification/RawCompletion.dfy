/**
 Partial completions of raw block requests. A request is issued for a number of bytes and completes
 in parts; the accounting decides when a completion is delivered to the block protocol, and with
 which status. The reference is the list of parts accepted since the request was issued.
 */
module RawCompletion {
  import opened Common

  datatype Excess = Excess

  /** The per-request record, with the update the probe and its host tests share. */
  class CompletionState {
    var remaining: u32
    var error: int

    constructor (bytes: u32)
      ensures Value() == Counter(bytes, 0)
    {
      remaining, error := bytes, 0;
    }

    ghost function Value(): Counter
      reads this
    {
      Counter(remaining, error)
    }

    method Advance(bytes: u32, status: int) returns (r: Result<bool, Excess>)
      modifies this
      ensures Value() == Advanced(old(Value()), bytes, status)
      ensures r == if bytes > old(remaining) then Err(Excess) else Ok(bytes == old(remaining))
    {
      if bytes > remaining { return Err(Excess); }
      remaining := remaining - bytes;
      if error == 0 { error := status; }
      return Ok(remaining == 0);
    }
  }

  datatype Counter = Counter(remaining: u32, error: int)

  function Advanced(c: Counter, bytes: u32, status: int): Counter {
    if bytes > c.remaining then c
    else Counter(c.remaining - bytes, if c.error == 0 then status else c.error)
  }

  /** The errno of a block status; reserved and unknown values are I/O errors. */
  function Errno(raw: u8): int {
    match raw
    case 0 => 0
    case 1 => -95
    case 2 => -110
    case 3 => -28
    case 4 => -67
    case 5 => -121
    case 6 => -52
    case 7 => -61
    case 8 => -84
    case 9 => -12
    case 10 => -5
    case 11 => -78
    case 12 => -11
    case 13 => -16
    case 14 => -109
    case 15 => -75
    case 16 => -19
    case 17 => -62
    case 19 => -22
    case _ => -5
  }

  /** No failure is ever turned into success, nor the reverse. */
  lemma ErrnoKeepsFailure(raw: u8)
    ensures Errno(raw) != 0 <==> raw != 0
    ensures Errno(raw) <= 0
  {
  }

  /** A raw issue may fail to be stored. Updating the record of a request already in the map, as a
      partial completion does, succeeds. */
  datatype Event =
    | Issue(request: u64, bytes: u32, stored: bool)
    | Part(request: u64, bytes: u32, raw: u8)

  type Table = map<u64, Counter>

  datatype Outcome = Silent | Delivered(status: int)

  function Step(t: Table, e: Event): Table {
    match e
    case Issue(request, bytes, stored) => if stored then t[request := Counter(bytes, 0)] else t
    case Part(request, bytes, raw) =>
      if request !in t || bytes > t[request].remaining then t
      else if bytes == t[request].remaining then t - {request}
      else t[request := Advanced(t[request], bytes, Errno(raw))]
  }

  function OutcomeOf(t: Table, e: Event): Outcome {
    if e.Part? && e.request in t && e.bytes == t[e.request].remaining
    then Delivered(Advanced(t[e.request], e.bytes, Errno(e.raw)).error)
    else Silent
  }

  function After(es: seq<Event>): Table {
    if es == [] then map[] else Step(After(es[..|es| - 1]), es[|es| - 1])
  }

  function At(es: seq<Event>, i: nat): Outcome
    requires i < |es|
  {
    OutcomeOf(After(es[..i]), es[i])
  }

  // ---- the reference: the parts accepted since the issue ----

  function SumBytes(parts: seq<Event>): nat {
    if parts == [] then 0
    else SumBytes(parts[..|parts| - 1]) + (if parts[|parts| - 1].Part? then parts[|parts| - 1].bytes else 0)
  }

  /** The status of the first failing part, or zero. */
  function FirstError(parts: seq<Event>): int {
    if parts == [] then 0
    else if parts[0].Part? && parts[0].raw != 0 then Errno(parts[0].raw)
    else FirstError(parts[1..])
  }

  predicate IssueOf(e: Event, request: u64) { e.Issue? && e.stored && e.request == request }

  predicate PartOf(e: Event, request: u64) { e.Part? && e.request == request }

  /** Whether event `i` is a part that fits in what is left of the request issued at `j`. */
  predicate Accepted(es: seq<Event>, j: nat, i: nat)
    requires j < i < |es| && es[j].Issue?
    decreases i, 1
  {
    PartOf(es[i], es[j].request) && SumBytes(Parts(es, j, i)) + es[i].bytes <= es[j].bytes
  }

  /** The parts after the issue at `j` and before `i` that fitted when they came. */
  function Parts(es: seq<Event>, j: nat, i: nat): seq<Event>
    requires j < i <= |es| && es[j].Issue?
    decreases i, 0
  {
    if i == j + 1 then []
    else Parts(es, j, i - 1) + if Accepted(es, j, i - 1) then [es[i - 1]] else []
  }

  /** The accepted parts up to and including event `i` make up the issued bytes. */
  predicate Finishes(es: seq<Event>, j: nat, i: nat)
    requires j < i < |es| && es[j].Issue?
  {
    Accepted(es, j, i) && SumBytes(Parts(es, j, i)) + es[i].bytes == es[j].bytes
  }

  /** Event `j` issued the request, nothing issued it again, and it was not finished before `i`. */
  ghost predicate Open(es: seq<Event>, j: nat, i: nat) {
    && j < i <= |es|
    && es[j].Issue? && es[j].stored
    && (forall m | j < m < i :: !IssueOf(es[m], es[j].request))
    && (forall m | j < m < i :: !Finishes(es, j, m))
  }

  ghost predicate OpenSince(es: seq<Event>, j: nat, request: u64) {
    Open(es, j, |es|) && es[j].request == request
  }

  lemma {:induction false} FirstErrorAppend(parts: seq<Event>, p: Event)
    requires p.Part?
    ensures FirstError(parts + [p]) == if FirstError(parts) != 0 then FirstError(parts) else Errno(p.raw)
  {
    if parts == [] {
      assert ([] + [p])[1..] == [];
      assert [] + [p] == [p];
    } else {
      assert (parts + [p])[1..] == parts[1..] + [p];
      FirstErrorAppend(parts[1..], p);
      if parts[0].Part? { ErrnoKeepsFailure(parts[0].raw); }
    }
  }

  lemma SumAppend(parts: seq<Event>, p: Event)
    requires p.Part?
    ensures SumBytes(parts + [p]) == SumBytes(parts) + p.bytes
  {
    assert (parts + [p])[..|parts|] == parts;
  }

  lemma {:induction false} PartsPrefix(es: seq<Event>, n: nat, j: nat, i: nat)
    requires j < i <= n <= |es| && es[j].Issue?
    ensures Parts(es[..n], j, i) == Parts(es, j, i)
    decreases i
  {
    if i > j + 1 { PartsPrefix(es, n, j, i - 1); }
  }

  lemma OpenPrefix(es: seq<Event>, n: nat, j: nat, i: nat)
    requires i <= n <= |es|
    ensures Open(es[..n], j, i) <==> Open(es, j, i)
  {
    if j < i && es[j].Issue? {
      forall m | j < m < i ensures Finishes(es[..n], j, m) <==> Finishes(es, j, m) {
        PartsPrefix(es, n, j, m);
      }
    }
  }

  /** The record of a request against its open issue. */
  ghost predicate Shows(t: Table, es: seq<Event>, j: nat) {
    && Open(es, j, |es|)
    && es[j].request in t
    && t[es[j].request].remaining == es[j].bytes - SumBytes(Parts(es, j, |es|))
    && t[es[j].request].error == FirstError(Parts(es, j, |es|))
  }

  ghost predicate Tracks(t: Table, es: seq<Event>, request: u64) {
    && (request in t ==> exists j: nat :: j < |es| && es[j].request == request && Shows(t, es, j))
    && (forall j: nat | OpenSince(es, j, request) :: Shows(t, es, j))
  }

  /** An event that is not of the request changes neither side. */
  lemma OtherKeeps(es: seq<Event>, j: nat)
    requires es != [] && j < |es| - 1 && es[j].Issue?
    requires !IssueOf(es[|es| - 1], es[j].request) && !Accepted(es, j, |es| - 1)
    ensures Parts(es, j, |es|) == Parts(es[..|es| - 1], j, |es| - 1)
    ensures Open(es, j, |es|) <==> Open(es[..|es| - 1], j, |es| - 1)
  {
    PartsPrefix(es, |es| - 1, j, |es| - 1);
    OpenPrefix(es, |es| - 1, j, |es| - 1);
  }

  lemma PartKeeps(t: Table, es: seq<Event>, j: nat)
    requires es != [] && j < |es| - 1 && Shows(t, es[..|es| - 1], j)
    requires Accepted(es, j, |es| - 1) && !Finishes(es, j, |es| - 1)
    ensures Shows(Step(t, es[|es| - 1]), es, j)
  {
    var n := |es| - 1;
    PartsPrefix(es, n, j, n);
    OpenPrefix(es, n, j, n);
    SumAppend(Parts(es, j, n), es[n]);
    FirstErrorAppend(Parts(es, j, n), es[n]);
  }

  lemma ShowsStep(t: Table, es: seq<Event>, j: nat)
    requires es != [] && j < |es| - 1 && Shows(t, es[..|es| - 1], j)
    requires Open(es, j, |es|)
    ensures Shows(Step(t, es[|es| - 1]), es, j)
  {
    var n := |es| - 1;
    if Accepted(es, j, n) {
      PartKeeps(t, es, j);
    } else {
      OtherKeeps(es, j);
      PartsPrefix(es, n, j, n);
    }
  }

  lemma IssueShows(t: Table, es: seq<Event>)
    requires es != [] && es[|es| - 1].Issue? && es[|es| - 1].stored
    ensures Shows(Step(t, es[|es| - 1]), es, |es| - 1)
  {
  }

  /** The map holds exactly the issued and unfinished requests, with the bytes still owed and the
      first error so far. */
  lemma {:induction false} TableMeans(es: seq<Event>, request: u64)
    ensures Tracks(After(es), es, request)
  {
    if es != [] {
      var n := |es| - 1;
      var t := After(es[..n]);
      TableMeans(es[..n], request);
      if IssueOf(es[n], request) {
        IssueShows(t, es);
        forall j: nat | OpenSince(es, j, request) ensures Shows(After(es), es, j) {
          assert j == n;
        }
      } else {
        forall j: nat | OpenSince(es, j, request) ensures Shows(After(es), es, j) {
          StillOpen(es, j);
          assert OpenSince(es[..n], j, request);
          ShowsStep(t, es, j);
        }
        if request in After(es) {
          assert request in t;
          var j: nat :| j < n && es[..n][j].request == request && Shows(t, es[..n], j);
          StaysOpen(t, es, j);
          ShowsStep(t, es, j);
        }
      }
    }
  }

  lemma StillOpen(es: seq<Event>, j: nat)
    requires es != [] && Open(es, j, |es|) && j < |es| - 1
    ensures Open(es[..|es| - 1], j, |es| - 1)
  {
    OpenPrefix(es, |es| - 1, j, |es| - 1);
  }

  lemma StaysOpen(t: Table, es: seq<Event>, j: nat)
    requires es != [] && j < |es| - 1 && Shows(t, es[..|es| - 1], j)
    requires !IssueOf(es[|es| - 1], es[j].request)
    requires es[j].request in Step(t, es[|es| - 1])
    ensures Open(es, j, |es|)
  {
    var n := |es| - 1;
    OpenPrefix(es, n, j, n);
    PartsPrefix(es, n, j, n);
    assert !Finishes(es, j, n);
  }

  ghost predicate DeliversFor(es: seq<Event>, j: nat, i: nat, status: int) {
    && j < i < |es|
    && Open(es, j, i)
    && Finishes(es, j, i)
    && status == FirstError(Parts(es, j, i) + [es[i]])
  }

  /** A completion is delivered exactly when the accepted parts since the open issue of its request
      make up the issued bytes, and then with the first nonzero error among them. */
  lemma DeliveredIff(es: seq<Event>, i: nat, status: int)
    requires i < |es|
    ensures At(es, i) == Delivered(status) <==> exists j: nat :: DeliversFor(es, j, i, status)
  {
    if At(es, i) == Delivered(status) {
      TableMeans(es[..i], es[i].request);
      var j: nat :| j < i && es[..i][j].request == es[i].request && Shows(After(es[..i]), es[..i], j);
      PartsPrefix(es, i, j, i);
      OpenPrefix(es, i, j, i);
      FirstErrorAppend(Parts(es, j, i), es[i]);
      assert DeliversFor(es, j, i, status);
    }
    if j: nat :| DeliversFor(es, j, i, status) {
      TableMeans(es[..i], es[i].request);
      OpenPrefix(es, i, j, i);
      assert OpenSince(es[..i], j, es[i].request);
      PartsPrefix(es, i, j, i);
      FirstErrorAppend(Parts(es, j, i), es[i]);
    }
  }

  /** One issue is delivered at most once. */
  lemma DeliveredOnce(es: seq<Event>, j: nat, first: nat, second: nat, s1: int, s2: int)
    requires first < second && DeliversFor(es, j, first, s1)
    ensures !DeliversFor(es, j, second, s2)
  {
  }

  /** The delivered status is a failure exactly when some accepted part failed. */
  lemma {:induction false} StatusMeans(parts: seq<Event>)
    requires forall p | p in parts :: p.Part?
    ensures FirstError(parts) != 0 <==> exists p :: p in parts && p.Part? && p.raw != 0
  {
    if parts != [] {
      StatusMeans(parts[1..]);
      ErrnoKeepsFailure(parts[0].raw);
      assert forall p :: p in parts <==> p == parts[0] || p in parts[1..];
    }
  }

  // ---- the probe ----

  class RawTable {
    var table: Table

    constructor ()
      ensures table == After([])
    {
      table := map[];
    }

    method RawIssue(request: u64, bytes: u32, stored: bool)
      modifies this
      ensures table == Step(old(table), Issue(request, bytes, stored))
    {
      if stored { table := table[request := Counter(bytes, 0)]; }
    }

    method RawComplete(request: u64, bytes: u32, raw: u8) returns (out: Outcome)
      modifies this
      ensures table == Step(old(table), Part(request, bytes, raw))
      ensures out == OutcomeOf(old(table), Part(request, bytes, raw))
    {
      var status := Errno(raw);
      if request !in table { return Silent; }
      var state := new CompletionState(table[request].remaining);
      state.error := table[request].error;
      var advanced := state.Advance(bytes, status);
      match advanced
      case Ok(false) =>
        table := table[request := Counter(state.remaining, state.error)];
        return Silent;
      case Ok(true) =>
        table := table - {request};
        return Delivered(state.error);
      case Err(_) =>
        return Silent;
    }
  }
}
