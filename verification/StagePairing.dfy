/**
 Begin/End pairing of pipeline stages with reused keys and expiry, as the agent keeps it for its
 probe health report. The reference counts, per key, the Begins since the key's last End or expiry.
 */
module StagePairing {
  import opened Common

  const EXPIRY: u64 := 30_000_000_000

  datatype Layer =
    | Filesystem | Scsi | Ufs | SchedulerContext | UicContext
    | OtherLayer(code: nat)

  datatype Phase = Begin | End | Instant | Span

  type Key = (Layer, u64)

  /** The names of the health report; the layers without one of their own share StoragePipeline. */
  datatype Probe =
    | FilesystemPipeline | ScsiPipeline | UfsPipeline | SchedulerPipeline | UicPipeline | StoragePipeline
    | OtherProbe(code: nat)

  /** `key` is the stage key or else the correlation identifier, if the event has either. */
  datatype Event =
    | Plain(probe: nat)
    | Pipeline(layer: Layer, key: Option<u64>, phase: Phase, ts: u64)

  datatype Health = Health(emitted: nat, paired: nat, unpaired: nat)

  datatype State = State(
    pending: map<Key, u64>, ambiguous: map<Key, u64>, expired: nat, reused: nat, health: map<Probe, Health>)

  function NameOf(e: Event): Probe {
    match e
    case Plain(code) => OtherProbe(code)
    case Pipeline(layer, _, _, _) =>
      match layer
      case Filesystem => FilesystemPipeline
      case Scsi => ScsiPipeline
      case Ufs => UfsPipeline
      case SchedulerContext => SchedulerPipeline
      case UicContext => UicPipeline
      case OtherLayer(_) => StoragePipeline
  }

  function HealthOf(h: map<Probe, Health>, name: Probe): Health {
    if name in h then h[name] else Health(0, 0, 0)
  }

  function Emitted(h: map<Probe, Health>, name: Probe): map<Probe, Health> {
    h[name := HealthOf(h, name).(emitted := HealthOf(h, name).emitted + 1)]
  }

  function Unpaired(h: map<Probe, Health>, name: Probe): map<Probe, Health> {
    h[name := HealthOf(h, name).(unpaired := HealthOf(h, name).unpaired + 1)]
  }

  function Paired(h: map<Probe, Health>, name: Probe): map<Probe, Health> {
    h[name := HealthOf(h, name).(paired := HealthOf(h, name).paired + 1)]
  }

  predicate Fresh(started: u64, now: u64) { SatSub(now, started) <= EXPIRY }

  function Keep(m: map<Key, u64>, now: u64): (r: map<Key, u64>)
    ensures |r| <= |m|
  {
    var r := map k | k in m && Fresh(m[k], now) :: m[k];
    assert r.Keys <= m.Keys;
    Subset(r.Keys, m.Keys);
    r
  }

  lemma {:induction false} Subset<T>(a: set<T>, b: set<T>)
    requires a <= b
    ensures |a| <= |b|
    decreases |a|
  {
    if a != {} {
      var x :| x in a;
      Subset(a - {x}, b - {x});
    }
  }

  /** The transition on a stage event, before expiry. */
  function Pair(s: State, name: Probe, key: Key, phase: Phase, ts: u64): State {
    match phase
    case Begin =>
      if key in s.pending || key in s.ambiguous
      then s.(pending := s.pending - {key}, ambiguous := s.ambiguous[key := ts],
              reused := s.reused + 1, health := Unpaired(s.health, name))
      else s.(pending := s.pending[key := ts])
    case End =>
      if key in s.ambiguous
      then s.(ambiguous := s.ambiguous - {key}, pending := s.pending - {key}, health := Unpaired(s.health, name))
      else if key in s.pending
      then s.(pending := s.pending - {key}, health := Paired(s.health, name))
      else s.(health := Unpaired(s.health, name))
    case _ => s
  }

  function Expire(s: State, now: u64): State {
    var p, a := Keep(s.pending, now), Keep(s.ambiguous, now);
    s.(pending := p, ambiguous := a,
       expired := s.expired + (|s.pending| - |p|) + (|s.ambiguous| - |a|))
  }

  function Step(s: State, e: Event): State {
    var t := s.(health := Emitted(s.health, NameOf(e)));
    if e.Plain? || e.key.None? then t
    else Expire(Pair(t, NameOf(e), (e.layer, e.key.value), e.phase, e.ts), e.ts)
  }

  function After(es: seq<Event>): State {
    if es == [] then State(map[], map[], 0, 0, map[])
    else Step(After(es[..|es| - 1]), es[|es| - 1])
  }

  // ---- the reference, one key at a time ----

  /** The Begins of a key that are still open, and the time of the last one. */
  datatype Open = Closed | Open(begins: nat, last: u64)

  predicate IsStage(e: Event) { e.Pipeline? && e.key.Some? }

  predicate Concerns(e: Event, key: Key) { IsStage(e) && (e.layer, e.key.value) == key }

  /** What is open for `key` after the event, expiry not yet applied. */
  function Opened(o: Open, e: Event, key: Key): Open {
    if !Concerns(e, key) then o
    else match e.phase
      case Begin => Open(if o.Closed? then 1 else o.begins + 1, e.ts)
      case End => Closed
      case _ => o
  }

  function OpenAfter(es: seq<Event>, key: Key): Open {
    if es == [] then Closed
    else
      var e := es[|es| - 1];
      var o := Opened(OpenAfter(es[..|es| - 1], key), e, key);
      if o.Open? && IsStage(e) && !Fresh(o.last, e.ts) then Closed else o
  }

  /** What is open for the key of event `i` just before it. */
  function OpenBefore(es: seq<Event>, i: nat): Open
    requires i < |es| && IsStage(es[i])
  {
    OpenAfter(es[..i], (es[i].layer, es[i].key.value))
  }

  ghost predicate Shows(s: State, key: Key, o: Open) {
    && (key in s.pending <==> o.Open? && o.begins == 1)
    && (key in s.ambiguous <==> o.Open? && o.begins > 1)
    && (key in s.pending ==> s.pending[key] == o.last)
    && (key in s.ambiguous ==> s.ambiguous[key] == o.last)
    && (o.Open? ==> o.begins >= 1)
  }

  lemma PairShows(s: State, e: Event, key: Key, o: Open)
    requires IsStage(e) && Shows(s, key, o)
    ensures Shows(Pair(s, NameOf(e), (e.layer, e.key.value), e.phase, e.ts), key, Opened(o, e, key))
  {
    var own := (e.layer, e.key.value);
    if own != key {
      var t := Pair(s, NameOf(e), own, e.phase, e.ts);
      assert key in t.pending <==> key in s.pending;
      assert key in t.ambiguous <==> key in s.ambiguous;
    }
  }

  lemma ExpireShows(s: State, now: u64, key: Key, o: Open)
    requires Shows(s, key, o)
    ensures Shows(Expire(s, now), key, if o.Open? && !Fresh(o.last, now) then Closed else o)
  {
  }

  /** Pending and ambiguous are exactly the keys with one, and with several, open Begins. */
  lemma {:induction false} RefinesCounters(es: seq<Event>, key: Key)
    ensures Shows(After(es), key, OpenAfter(es, key))
  {
    if es != [] {
      var before, e := es[..|es| - 1], es[|es| - 1];
      RefinesCounters(before, key);
      var s := After(before);
      var t := s.(health := Emitted(s.health, NameOf(e)));
      var o := OpenAfter(before, key);
      assert Shows(t, key, o);
      if IsStage(e) {
        PairShows(t, e, key, o);
        ExpireShows(Pair(t, NameOf(e), (e.layer, e.key.value), e.phase, e.ts), e.ts, key, Opened(o, e, key));
      }
    }
  }

  // ---- counters ----

  predicate IsBegin(e: Event) { IsStage(e) && e.phase.Begin? }

  predicate IsEnd(e: Event) { IsStage(e) && e.phase.End? }

  /** Events of the first kinds, by what was open before them: a Begin on an open key, an End on
      exactly one open Begin, an End on several, and an End on none. */
  datatype Kind = AnyBegin | ReusedBegin | PairedEnd | AmbiguousEnd | UnmatchedEnd

  predicate IsKind(es: seq<Event>, i: nat, kind: Kind)
    requires i < |es|
  {
    match kind
    case AnyBegin => IsBegin(es[i])
    case ReusedBegin => IsBegin(es[i]) && OpenBefore(es, i).Open?
    case PairedEnd => IsEnd(es[i]) && OpenBefore(es, i).Open? && OpenBefore(es, i).begins == 1
    case AmbiguousEnd => IsEnd(es[i]) && OpenBefore(es, i).Open? && OpenBefore(es, i).begins > 1
    case UnmatchedEnd => IsEnd(es[i]) && OpenBefore(es, i).Closed?
  }

  /** How many of the first `n` events are of a kind. */
  function Count(es: seq<Event>, n: nat, kind: Kind): nat
    requires n <= |es|
  {
    if n == 0 then 0 else Count(es, n - 1, kind) + if IsKind(es, n - 1, kind) then 1 else 0
  }

  /** The same, for the events reported under one probe name. */
  function CountNamed(es: seq<Event>, n: nat, kind: Kind, name: Probe): nat
    requires n <= |es|
  {
    if n == 0 then 0
    else CountNamed(es, n - 1, kind, name) +
         if NameOf(es[n - 1]) == name && IsKind(es, n - 1, kind) then 1 else 0
  }

  lemma {:induction false} CountPrefix(es: seq<Event>, m: nat, n: nat, kind: Kind)
    requires n <= m <= |es|
    ensures Count(es[..m], n, kind) == Count(es, n, kind)
    decreases n
  {
    if n > 0 {
      CountPrefix(es, m, n - 1, kind);
      assert es[..m][..n - 1] == es[..n - 1];
    }
  }

  lemma {:induction false} CountNamedPrefix(es: seq<Event>, m: nat, n: nat, kind: Kind, name: Probe)
    requires n <= m <= |es|
    ensures CountNamed(es[..m], n, kind, name) == CountNamed(es, n, kind, name)
    decreases n
  {
    if n > 0 {
      CountNamedPrefix(es, m, n - 1, kind, name);
      assert es[..m][..n - 1] == es[..n - 1];
    }
  }

  /** What the event adds to the unpaired count of its own probe name, by what was open before it. */
  function UnpairedBy(e: Event, o: Open): nat {
    if IsBegin(e) && o.Open? then 1
    else if IsEnd(e) && (o.Closed? || o.begins > 1) then 1
    else 0
  }

  function PairedBy(e: Event, o: Open): nat {
    if IsEnd(e) && o.Open? && o.begins == 1 then 1 else 0
  }

  lemma PairHealth(s: State, e: Event, o: Open, name: Probe)
    requires IsStage(e) && Shows(s, (e.layer, e.key.value), o)
    ensures var h := HealthOf(s.health, name);
      HealthOf(Pair(s, NameOf(e), (e.layer, e.key.value), e.phase, e.ts).health, name) ==
      if NameOf(e) == name then Health(h.emitted, h.paired + PairedBy(e, o), h.unpaired + UnpairedBy(e, o)) else h
  {
    HealthUpdates(s.health, NameOf(e), name);
    var t := Pair(s, NameOf(e), (e.layer, e.key.value), e.phase, e.ts);
    assert t.health ==
      if UnpairedBy(e, o) == 1 then Unpaired(s.health, NameOf(e))
      else if PairedBy(e, o) == 1 then Paired(s.health, NameOf(e))
      else s.health;
  }

  lemma HealthUpdates(m: map<Probe, Health>, own: Probe, name: Probe)
    ensures var h := HealthOf(m, name);
      && HealthOf(Unpaired(m, own), name) == (if own == name then h.(unpaired := h.unpaired + 1) else h)
      && HealthOf(Paired(m, own), name) == (if own == name then h.(paired := h.paired + 1) else h)
      && HealthOf(Emitted(m, own), name) == (if own == name then h.(emitted := h.emitted + 1) else h)
  {
  }

  lemma HealthStep(s: State, e: Event, o: Open, name: Probe)
    requires IsStage(e) ==> Shows(s, (e.layer, e.key.value), o)
    ensures var h, k := HealthOf(s.health, name), HealthOf(Step(s, e).health, name);
      if NameOf(e) == name
      then k == Health(h.emitted + 1, h.paired + PairedBy(e, o), h.unpaired + UnpairedBy(e, o))
      else k == h
  {
    var t := s.(health := Emitted(s.health, NameOf(e)));
    HealthUpdates(s.health, NameOf(e), name);
    if IsStage(e) {
      PairHealth(t, e, o, name);
      assert Step(s, e).health == Pair(t, NameOf(e), (e.layer, e.key.value), e.phase, e.ts).health;
    } else {
      assert Step(s, e).health == t.health;
    }
  }

  /** What open state the kinds speak of, for any event. */
  function OpenOf(es: seq<Event>, i: nat): Open
    requires i < |es|
  {
    if IsStage(es[i]) then OpenBefore(es, i) else Closed
  }

  lemma CountNamedLast(es: seq<Event>, kind: Kind, name: Probe)
    requires es != []
    ensures var n := |es| - 1;
      CountNamed(es, |es|, kind, name) ==
      CountNamed(es[..n], n, kind, name) + if NameOf(es[n]) == name && IsKind(es, n, kind) then 1 else 0
  {
    CountNamedPrefix(es, |es| - 1, |es| - 1, kind, name);
  }

  lemma PairedStep(es: seq<Event>, name: Probe)
    requires es != []
    ensures var n := |es| - 1;
      CountNamed(es, |es|, PairedEnd, name) == CountNamed(es[..n], n, PairedEnd, name) +
        if NameOf(es[n]) == name then PairedBy(es[n], OpenOf(es, n)) else 0
  {
    CountNamedLast(es, PairedEnd, name);
  }

  lemma UnpairedStep(es: seq<Event>, name: Probe)
    requires es != []
    ensures var n := |es| - 1;
      UnpairedCount(es, name) == UnpairedCount(es[..n], name) +
        if NameOf(es[n]) == name then UnpairedBy(es[n], OpenOf(es, n)) else 0
  {
    CountNamedLast(es, ReusedBegin, name);
    CountNamedLast(es, AmbiguousEnd, name);
    CountNamedLast(es, UnmatchedEnd, name);
  }

  function UnpairedCount(es: seq<Event>, name: Probe): nat {
    CountNamed(es, |es|, ReusedBegin, name) + CountNamed(es, |es|, AmbiguousEnd, name) +
    CountNamed(es, |es|, UnmatchedEnd, name)
  }

  /** The health report: an End is paired exactly when one Begin was open; reused Begins and all
      other Ends are unpaired. */
  lemma {:induction false} HealthMeans(es: seq<Event>, name: Probe)
    ensures HealthOf(After(es).health, name).paired == CountNamed(es, |es|, PairedEnd, name)
    ensures HealthOf(After(es).health, name).unpaired == UnpairedCount(es, name)
  {
    if es != [] {
      var n := |es| - 1;
      HealthMeans(es[..n], name);
      PairedStep(es, name);
      UnpairedStep(es, name);
      if IsStage(es[n]) { RefinesCounters(es[..n], (es[n].layer, es[n].key.value)); }
      HealthStep(After(es[..n]), es[n], OpenOf(es, n), name);
    }
  }

  /** The names under which pipeline events are reported. */
  const PIPELINES: seq<Probe> :=
    [FilesystemPipeline, ScsiPipeline, UfsPipeline, SchedulerPipeline, UicPipeline, StoragePipeline]

  /** What the health report counts as paired under the first `k` names. */
  function TotalPaired(h: map<Probe, Health>, k: nat): nat
    requires k <= |PIPELINES|
  {
    if k == 0 then 0 else TotalPaired(h, k - 1) + HealthOf(h, PIPELINES[k - 1]).paired
  }

  function TotalNamed(es: seq<Event>, n: nat, k: nat): nat
    requires n <= |es| && k <= |PIPELINES|
  {
    if k == 0 then 0 else TotalNamed(es, n, k - 1) + CountNamed(es, n, PairedEnd, PIPELINES[k - 1])
  }

  lemma NamedOnce(e: Event)
    requires IsStage(e)
    ensures exists k :: 0 <= k < |PIPELINES| && PIPELINES[k] == NameOf(e)
  {
    assert PIPELINES[0] == FilesystemPipeline && PIPELINES[1] == ScsiPipeline && PIPELINES[2] == UfsPipeline;
    assert PIPELINES[3] == SchedulerPipeline && PIPELINES[4] == UicPipeline && PIPELINES[5] == StoragePipeline;
  }

  /** One more event adds one to the total of the names up to its own. */
  lemma {:induction false} TotalStep(es: seq<Event>, n: nat, k: nat, own: nat)
    requires n < |es| && k <= |PIPELINES| && own < |PIPELINES| && NameOf(es[n]) == PIPELINES[own]
    ensures TotalNamed(es, n + 1, k) ==
      TotalNamed(es, n, k) + if own < k && IsKind(es, n, PairedEnd) then 1 else 0
  {
    if k > 0 {
      TotalStep(es, n, k - 1, own);
      assert PIPELINES[k - 1] == PIPELINES[own] ==> k - 1 == own;
    }
  }

  lemma {:induction false} TotalSame(es: seq<Event>, n: nat, k: nat)
    requires n < |es| && k <= |PIPELINES| && !IsKind(es, n, PairedEnd)
    ensures TotalNamed(es, n + 1, k) == TotalNamed(es, n, k)
  {
    if k > 0 { TotalSame(es, n, k - 1); }
  }

  lemma {:induction false} PairedByName(es: seq<Event>, n: nat)
    requires n <= |es|
    ensures Count(es, n, PairedEnd) == TotalNamed(es, n, |PIPELINES|)
  {
    if n == 0 {
      NoneNamed(es, |PIPELINES|);
    } else {
      PairedByName(es, n - 1);
      if IsKind(es, n - 1, PairedEnd) {
        NamedOnce(es[n - 1]);
        var own :| 0 <= own < |PIPELINES| && PIPELINES[own] == NameOf(es[n - 1]);
        TotalStep(es, n - 1, |PIPELINES|, own);
      } else {
        TotalSame(es, n - 1, |PIPELINES|);
      }
    }
  }

  lemma {:induction false} NoneNamed(es: seq<Event>, k: nat)
    requires k <= |PIPELINES|
    ensures TotalNamed(es, 0, k) == 0
  {
    if k > 0 { NoneNamed(es, k - 1); }
  }

  lemma {:induction false} TotalsAgree(es: seq<Event>, k: nat)
    requires k <= |PIPELINES|
    ensures TotalPaired(After(es).health, k) == TotalNamed(es, |es|, k)
  {
    if k > 0 {
      TotalsAgree(es, k - 1);
      HealthMeans(es, PIPELINES[k - 1]);
    }
  }

  /** Every Begin is accounted for once: paired in the health report under some name, still pending,
      ambiguous, ended ambiguously, expired, or absorbed by the reuse of its key. */
  lemma BeginsConserved(es: seq<Event>)
    ensures var s := After(es);
      && s.reused == Count(es, |es|, ReusedBegin)
      && Count(es, |es|, AnyBegin) ==
           TotalPaired(s.health, |PIPELINES|) + |s.pending| + |s.ambiguous| +
           Count(es, |es|, AmbiguousEnd) + s.expired + s.reused
  {
    BeginsBalance(es);
    PairedByName(es, |es|);
    TotalsAgree(es, |PIPELINES|);
  }

  ghost predicate Balance(es: seq<Event>, s: State) {
    && s.reused == Count(es, |es|, ReusedBegin)
    && Count(es, |es|, AnyBegin) ==
         Count(es, |es|, PairedEnd) + |s.pending| + |s.ambiguous| +
         Count(es, |es|, AmbiguousEnd) + s.expired + s.reused
  }

  lemma {:induction false} BeginsBalance(es: seq<Event>)
    ensures Balance(es, After(es))
  {
    if es != [] {
      var n := |es| - 1;
      var s, e := After(es[..n]), es[n];
      BeginsBalance(es[..n]);
      CountStep(es);
      if IsStage(e) {
        RefinesCounters(es[..n], (e.layer, e.key.value));
        StepSizes(s, e);
      }
    }
  }

  lemma CountStep(es: seq<Event>)
    requires es != []
    ensures var n := |es| - 1; var e, o := es[n], OpenOf(es, n);
      && Count(es, |es|, AnyBegin) == Count(es[..n], n, AnyBegin) + (if IsBegin(e) then 1 else 0)
      && Count(es, |es|, ReusedBegin) ==
           Count(es[..n], n, ReusedBegin) + (if IsBegin(e) && o.Open? then 1 else 0)
      && Count(es, |es|, PairedEnd) + Count(es, |es|, AmbiguousEnd) ==
           Count(es[..n], n, PairedEnd) + Count(es[..n], n, AmbiguousEnd) +
           (if IsEnd(e) && o.Open? && o.begins >= 1 then 1 else 0)
  {
    var n := |es| - 1;
    CountPrefix(es, n, n, AnyBegin);
    CountPrefix(es, n, n, PairedEnd);
    CountPrefix(es, n, n, ReusedBegin);
    CountPrefix(es, n, n, AmbiguousEnd);
  }

  lemma RemoveSize(m: map<Key, u64>, key: Key)
    ensures |m - {key}| == |m| - if key in m then 1 else 0
  {
    var r := m - {key};
    assert r.Keys == m.Keys - {key};
  }

  lemma InsertSize(m: map<Key, u64>, key: Key, ts: u64)
    ensures |m[key := ts]| == |m| + if key in m then 0 else 1
  {
    var r := m[key := ts];
    assert r.Keys == m.Keys + {key};
  }

  lemma PairSizes(s: State, name: Probe, key: Key, phase: Phase, ts: u64)
    requires !(key in s.pending && key in s.ambiguous)
    ensures var t := Pair(s, name, key, phase, ts);
      |t.pending| + |t.ambiguous| ==
      |s.pending| + |s.ambiguous| + SizeChange(phase, key in s.pending || key in s.ambiguous)
  {
    RemoveSize(s.pending, key);
    RemoveSize(s.ambiguous, key);
    InsertSize(s.pending, key, ts);
    InsertSize(s.ambiguous, key, ts);
  }

  function SizeChange(phase: Phase, open: bool): int {
    if phase == Begin && !open then 1 else if phase == End && open then -1 else 0
  }

  /** How one stage event moves keys between the two maps and into the counters. */
  lemma StepSizes(s: State, e: Event)
    requires IsStage(e)
    requires !((e.layer, e.key.value) in s.pending && (e.layer, e.key.value) in s.ambiguous)
    ensures var t := Step(s, e);
      var open := (e.layer, e.key.value) in s.pending || (e.layer, e.key.value) in s.ambiguous;
      && t.reused == s.reused + (if IsBegin(e) && open then 1 else 0)
      && |t.pending| + |t.ambiguous| + t.expired ==
           |s.pending| + |s.ambiguous| + s.expired + SizeChange(e.phase, open)
  {
    var t := s.(health := Emitted(s.health, NameOf(e)));
    PairSizes(t, NameOf(e), (e.layer, e.key.value), e.phase, e.ts);
  }

  // ---- the agent's code ----

  class StageHealth {
    var pending: map<Key, u64>
    var ambiguous: map<Key, u64>
    var expired: nat
    var reused: nat
    var health: map<Probe, Health>

    ghost function Model(): State
      reads this
    {
      State(pending, ambiguous, expired, reused, health)
    }

    constructor ()
      ensures Model() == After([])
    {
      pending, ambiguous, expired, reused, health := map[], map[], 0, 0, map[];
    }

    method Update(e: Event)
      modifies this
      ensures Model() == Step(old(Model()), e)
    {
      var name := NameOf(e);
      health := Emitted(health, name);
      if e.Plain? || e.key.None? { return; }
      var key := (e.layer, e.key.value);
      PairEvent(name, key, e.phase, e.ts);
      var kept, dropped := Retain(pending, e.ts);
      pending, expired := kept, expired + dropped;
      kept, dropped := Retain(ambiguous, e.ts);
      ambiguous, expired := kept, expired + dropped;
    }

    method PairEvent(name: Probe, key: Key, phase: Phase, ts: u64)
      modifies this
      ensures Model() == Pair(old(Model()), name, key, phase, ts)
    {
      match phase
      case Begin =>
        var removed := key in pending;
        pending := pending - {key};
        if removed || key in ambiguous {
          ambiguous := ambiguous[key := ts];
          health := Unpaired(health, name);
          reused := reused + 1;
        } else {
          pending := pending[key := ts];
          assert pending == old(pending)[key := ts];
        }
      case End =>
        if key in ambiguous {
          ambiguous := ambiguous - {key};
          pending := pending - {key};
          health := Unpaired(health, name);
        } else if key in pending {
          pending := pending - {key};
          health := Paired(health, name);
        } else {
          health := Unpaired(health, name);
        }
      case _ =>
    }
  }

  /** Drops the entries older than the expiry and counts them. */
  method Retain(m: map<Key, u64>, now: u64) returns (kept: map<Key, u64>, dropped: nat)
    ensures kept == Keep(m, now)
    ensures dropped == |m| - |kept|
  {
    kept, dropped := m, 0;
    var left := m.Keys;
    while left != {}
      invariant left <= kept.Keys <= m.Keys
      invariant forall k :: k in kept ==> kept[k] == m[k] && (k in left || Fresh(m[k], now))
      invariant forall k :: k in m && Fresh(m[k], now) ==> k in kept
      invariant dropped + |kept| == |m|
      decreases |left|
    {
      var k :| k in left;
      left := left - {k};
      if !Fresh(m[k], now) {
        RemoveSize(kept, k);
        kept, dropped := kept - {k}, dropped + 1;
      }
    }
  }
}
