/**
 Pairing of file system calls from their entry and exit probes. Either probe may miss events, so a
 thread's delivered events are an arbitrary sequence of entries and exits.
 */
module Syscalls {
  import opened Common
  import BlockRequests

  /** What an entry records: the four read and write calls of arm64. */
  datatype Call = Call(
    nr: int, ts: u64, requested: u64, inode: u64, offset: u64, device: u32, flags: u32, fd: int,
    pid: u32, tid: u32, comm: seq<u8>)

  datatype Operation = Read | Write

  /** `readable` is whether the probe could read its arguments, `accepted` the filter's verdict,
      `stored` and `reserved` whether the map and the ring had room. */
  datatype Event =
    | Enter(thread: u64, call: Call, readable: bool, accepted: bool, stored: bool)
    | Exit(thread: u64, nr: int, ts: u64, result: int, config: BlockRequests.Config, readable: bool, reserved: bool)

  datatype FileIo = FileIo(thread: u64, call: Call, operation: Operation, endTs: u64, result: int)

  type Starts = map<u64, Call>

  function OperationOf(nr: int): Option<Operation> {
    if nr == 63 || nr == 67 then Some(Read)
    else if nr == 64 || nr == 68 then Some(Write)
    else None
  }

  predicate Stores(e: Event) {
    e.Enter? && e.readable && OperationOf(e.call.nr).Some? && e.accepted && e.stored
  }

  function Step(starts: Starts, e: Event): Starts {
    if Stores(e) then starts[e.thread := e.call] else starts - {e.thread}
  }

  predicate IsDetailed(call: Call, e: Event)
    requires e.Exit?
  {
    match e.config.mode
    case Balance =>
      || SatSub(e.ts, call.ts) >= e.config.totalNs
      || (e.config.permyriad != 0 && e.thread % 10_000 < e.config.permyriad)
      || (e.config.includeErrors && e.result < 0)
    case Deep => true
    case RawAll => true
    case _ => false
  }

  predicate Wanted(call: Call, e: Event) {
    e.Exit? && e.readable && e.nr == call.nr && IsDetailed(call, e) && e.reserved
  }

  function OutcomeOf(starts: Starts, e: Event): Option<FileIo> {
    if e.thread in starts && OperationOf(starts[e.thread].nr).Some? && Wanted(starts[e.thread], e)
    then Some(FileIo(e.thread, starts[e.thread], OperationOf(starts[e.thread].nr).value, e.ts, e.result))
    else None
  }

  function After(es: seq<Event>): Starts {
    if es == [] then map[] else Step(After(es[..|es| - 1]), es[|es| - 1])
  }

  function At(es: seq<Event>, i: nat): Option<FileIo>
    requires i < |es|
  {
    OutcomeOf(After(es[..i]), es[i])
  }

  /** Event `j` is the last one its thread delivered before event `i`. */
  ghost predicate Precedes(es: seq<Event>, j: nat, i: nat, thread: u64) {
    && j < i <= |es|
    && es[j].thread == thread
    && forall m | j < m < i :: es[m].thread != thread
  }

  ghost predicate EntryHeld(es: seq<Event>, j: nat, i: nat, thread: u64, call: Call) {
    Precedes(es, j, i, thread) && Stores(es[j]) && es[j].call == call
  }

  /** A call is pending exactly when its entry was stored and is the thread's last event. */
  lemma {:induction false} PendingMeans(es: seq<Event>, thread: u64, call: Call)
    ensures thread in After(es) && After(es)[thread] == call <==>
      exists j: nat :: EntryHeld(es, j, |es|, thread, call)
  {
    if es != [] {
      var n := |es| - 1;
      if es[n].thread == thread {
        if Stores(es[n]) && es[n].call == call { assert EntryHeld(es, n, |es|, thread, call); }
        assert forall j: nat | EntryHeld(es, j, |es|, thread, call) :: j == n;
      } else {
        PendingMeans(es[..n], thread, call);
        forall j: nat ensures EntryHeld(es, j, |es|, thread, call) <==> EntryHeld(es[..n], j, n, thread, call) {
        }
      }
    }
  }

  ghost predicate Joins(es: seq<Event>, j: nat, i: nat, io: FileIo) {
    && i < |es|
    && EntryHeld(es, j, i, es[i].thread, io.call)
    && Wanted(es[j].call, es[i])
    && io == FileIo(es[i].thread, es[j].call, OperationOf(es[j].call.nr).value, es[i].ts, es[i].result)
  }

  /** A file operation is reported exactly when an exit directly follows, among its thread's
      events, the stored entry of the same call; it carries that entry's data. */
  lemma ReportedIff(es: seq<Event>, i: nat, io: FileIo)
    requires i < |es|
    ensures At(es, i) == Some(io) <==> exists j: nat :: Joins(es, j, i, io)
  {
    PendingMeans(es[..i], es[i].thread, io.call);
    assert forall j: nat ::
      EntryHeld(es, j, i, es[i].thread, io.call) <==> EntryHeld(es[..i], j, i, es[i].thread, io.call);
    if At(es, i) == Some(io) {
      var j: nat :| EntryHeld(es[..i], j, |es[..i]|, es[i].thread, io.call);
      assert Joins(es, j, i, io);
    }
    if j: nat :| Joins(es, j, i, io) {
      assert EntryHeld(es[..i], j, |es[..i]|, es[i].thread, io.call);
    }
  }

  /** No entry is used twice. */
  lemma EntryUsedOnce(es: seq<Event>, j: nat, first: nat, second: nat, io1: FileIo, io2: FileIo)
    requires first < second && Joins(es, j, first, io1)
    ensures !Joins(es, j, second, io2)
  {
  }

  class FileProbes {
    var starts: Starts

    /** Only the four calls are ever recorded. */
    ghost predicate Valid()
      reads this
    {
      forall t | t in starts :: OperationOf(starts[t].nr).Some?
    }

    constructor ()
      ensures Valid() && starts == After([])
    {
      starts := map[];
    }

    method SysEnter(thread: u64, call: Call, readable: bool, accepted: bool, stored: bool)
      requires Valid()
      modifies this
      ensures Valid()
      ensures starts == Step(old(starts), Enter(thread, call, readable, accepted, stored))
    {
      starts := starts - {thread};
      if !readable { return; }
      match OperationOf(call.nr)
      case None => return;
      case Some(_) =>
        if !accepted { return; }
        if stored {
          starts := starts[thread := call];
          assert starts == old(starts)[thread := call];
        }
    }

    method SysExit(thread: u64, nr: int, ts: u64, result: int, config: BlockRequests.Config, readable: bool,
                   reserved: bool)
      returns (out: Option<FileIo>)
      requires Valid()
      modifies this
      ensures Valid()
      ensures starts == Step(old(starts), Exit(thread, nr, ts, result, config, readable, reserved))
      ensures out == OutcomeOf(old(starts), Exit(thread, nr, ts, result, config, readable, reserved))
    {
      if thread !in starts {
        assert starts - {thread} == starts;
        return None;
      }
      var start := starts[thread];
      starts := starts - {thread};
      if !readable || nr != start.nr { return None; }
      if !IsDetailed(start, Exit(thread, nr, ts, result, config, readable, reserved)) { return None; }
      if !reserved { return None; }
      return Some(FileIo(thread, start, OperationOf(start.nr).value, ts, result));
    }
  }
}
