/**
 Live capture filters. The agent stages a filter generation in the kernel's maps with one map
 write at a time and then flips the active generation; probes read the same maps one lookup at a
 time. The five FILTER_* key maps are one set of keys tagged by dimension; only membership is read.
 */
module FilterSwitch {
  import opened Common

  datatype Mode = Basic | Balanced | Deep | RawAll

  datatype Operation = Read | Write | Flush | Discard | Other

  /** `matchAll` says what a filter without any key means. */
  datatype Filter = Filter(
    matchAll: bool, pids: seq<u32>, tids: seq<u32>, uids: seq<u32>, devices: seq<(u32, u32)>,
    operations: seq<Operation>, files: seq<(u32, u32, u64)>,
    minBytes: Option<u32>, maxBytes: Option<u32>)

  /** `triggerOk` stands for the outcome of validating the adaptive trigger policy. */
  datatype Config = Config(
    generation: u64, mode: Mode, filter: Filter, sampleRate: u16, triggerOk: bool)

  datatype Request = Request(pid: u32, tid: u32, uid: u32, device: u32, bytes: u32, operation: u8)

  datatype Dim = Pid | Tid | Uid | Device | Op

  // The order in which the agent stages and the probe checks the dimensions.
  const DIMS: seq<Dim> := [Pid, Tid, Uid, Device, Op]

  const MAX_KEYS: nat := 256

  function OperationCode(op: Operation): u8 {
    match op
    case Read => 1
    case Write => 2
    case Flush => 3
    case Discard => 4
    case Other => 255
  }

  /** The key values that staging writes for one dimension. */
  function Values(f: Filter, dim: Dim): seq<u64> {
    match dim
    case Pid => f.pids
    case Tid => f.tids
    case Uid => f.uids
    case Device => seq(|f.devices|, i requires 0 <= i < |f.devices| => EncodeDevice(f.devices[i]))
    case Op => seq(|f.operations|, i requires 0 <= i < |f.operations| => OperationCode(f.operations[i]))
  }

  function Field(r: Request, dim: Dim): u64 {
    match dim
    case Pid => r.pid
    case Tid => r.tid
    case Uid => r.uid
    case Device => r.device
    case Op => r.operation
  }

  predicate Distinct<T(==)>(s: seq<T>) {
    forall i, j :: 0 <= i < j < |s| ==> s[i] != s[j]
  }

  /** `CaptureConfig::validate(256)` succeeds. */
  predicate Valid(c: Config) {
    var f := c.filter;
    && c.generation != 0
    && |f.pids| + |f.tids| + |f.uids| + |f.devices| + |f.files| + |f.operations| <= MAX_KEYS
    && Distinct(f.pids) && Distinct(f.tids) && Distinct(f.uids) && Distinct(f.devices)
    && Distinct(f.files) && Distinct(f.operations)
    && (f.minBytes.Some? && f.maxBytes.Some? ==> f.minBytes.value <= f.maxBytes.value)
    && c.sampleRate <= 10000
    && c.triggerOk
  }

  // ---- what the kernel stores ----

  datatype Raw = Raw(
    generation: u64, minBytes: u32, maxBytes: u32, collector: u32, matchAll: bool,
    pidCount: u16, tidCount: u16, uidCount: u16, deviceCount: u16, operationCount: u16)

  function Count(r: Raw, dim: Dim): u16 {
    match dim
    case Pid => r.pidCount
    case Tid => r.tidCount
    case Uid => r.uidCount
    case Device => r.deviceCount
    case Op => r.operationCount
  }

  /** The lengths are cast to 16 bits, the optional limits to zero; no probe reads `matchAll`. */
  function RawOf(c: Config, collector: u32): Raw {
    var f := c.filter;
    Raw(c.generation,
        if f.minBytes.Some? then f.minBytes.value else 0,
        if f.maxBytes.Some? then f.maxBytes.value else 0,
        collector, f.matchAll,
        |f.pids| % 0x1_0000, |f.tids| % 0x1_0000, |f.uids| % 0x1_0000,
        |f.devices| % 0x1_0000, |f.operations| % 0x1_0000)
  }

  datatype Key = Key(dim: Dim, generation: u64, value: u64)

  datatype Kernel = Kernel(active: u64, configs: map<u64, Raw>, keys: set<Key>)

  datatype Write = PutKey(key: Key) | PutConfig(raw: Raw) | Activate(generation: u64)

  function Perform(k: Kernel, w: Write): Kernel {
    match w
    case PutKey(key) => k.(keys := k.keys + {key})
    case PutConfig(raw) => k.(configs := k.configs[raw.generation := raw])
    case Activate(g) => k.(active := g)
  }

  function PerformAll(k: Kernel, ws: seq<Write>): Kernel {
    if ws == [] then k else Perform(PerformAll(k, ws[..|ws| - 1]), ws[|ws| - 1])
  }

  function KeyWrites(c: Config, dim: Dim): seq<Write> {
    var vs := Values(c.filter, dim);
    seq(|vs|, i requires 0 <= i < |vs| => PutKey(Key(dim, c.generation, vs[i])))
  }

  function AllKeyWrites(c: Config, dims: seq<Dim>): seq<Write> {
    if dims == [] then [] else AllKeyWrites(c, dims[..|dims| - 1]) + KeyWrites(c, dims[|dims| - 1])
  }

  /** The map writes of `FilterMaps::apply`, in order. */
  function Writes(c: Config, collector: u32): seq<Write> {
    AllKeyWrites(c, DIMS) + [PutConfig(RawOf(c, collector)), Activate(c.generation)]
  }

  // ---- the meaning of a filter ----

  predicate ScalarsPass(r: Raw, q: Request) {
    && !(r.collector != 0 && q.pid == r.collector)
    && !(r.minBytes != 0 && q.bytes < r.minBytes)
    && !(r.maxBytes != 0 && q.bytes > r.maxBytes)
  }

  /** The pure predicate of one configuration, without maps. */
  ghost predicate Allows(c: Config, collector: u32, q: Request) {
    var f := c.filter;
    && (collector != 0 ==> q.pid != collector)
    && (f.minBytes.Some? ==> f.minBytes.value <= q.bytes)
    && (f.maxBytes.Some? && f.maxBytes.value != 0 ==> q.bytes <= f.maxBytes.value)
    && forall dim :: Values(f, dim) == [] || Field(q, dim) in Values(f, dim)
  }

  /** `matches_filter` on maps that nobody changes meanwhile. */
  ghost predicate Matches(k: Kernel, q: Request) {
    k.active == 0 || k.active !in k.configs ||
    var r := k.configs[k.active];
    && ScalarsPass(r, q)
    && forall dim :: Count(r, dim) == 0 || Key(dim, r.generation, Field(q, dim)) in k.keys
  }

  // ---- the system: one agent, any number of probes ----

  datatype Probe =
    | GotGeneration(q: Request, gen: u64)
    | Checking(q: Request, gen: u64, raw: Raw, n: nat)
    | Done(q: Request, gen: u64, result: bool)

  datatype Ack = Ack(requested: u64, active: u64, applied: bool)

  datatype Cause = Startup | FromCommand | Adaptive

  datatype Staging = Idle | Staging(next: Config, previous: Config, at: nat, cause: Cause) | Stopped

  datatype Command = ApplyConfig(config: Config) | SetMode(generation: u64, mode: Mode)

  /** `staged` records every generation whose staging began; the program does not hold it. */
  datatype State = State(
    kernel: Kernel, config: Config, staging: Staging, acks: seq<Ack>,
    probes: map<nat, Probe>, staged: map<u64, Config>)

  datatype Label =
    | Control(command: Command)
    | Adapt(mode: Mode)
    | WriteDone
    | WriteFailed
    | ReadActive(p: nat, q: Request)
    | ReadConfig(p: nat)
    | ReadKey(p: nat)

  function DefaultConfig(): Config {
    Config(1, Deep, Filter(true, [], [], [], [], [], [], None, None), 0, true)
  }

  function Requested(active: Config, c: Command): Config {
    match c
    case ApplyConfig(config) => config
    case SetMode(g, mode) => active.(generation := g, mode := mode)
  }

  predicate Accepted(active: Config, c: Command) {
    Requested(active, c).generation > active.generation && Valid(Requested(active, c))
  }

  function Automatic(active: Config, mode: Mode): Config {
    active.(generation := SatAdd(active.generation, 1), mode := mode)
  }

  function Begin(s: State, next: Config, cause: Cause): State {
    s.(staging := Staging(next, s.config, 0, cause),
       config := if cause == FromCommand then next else s.config,
       staged := s.staged[next.generation := next])
  }

  function HandleCommand(s: State, c: Command): State {
    var next := Requested(s.config, c);
    if !Accepted(s.config, c) || next.filter.files != [] then
      s.(acks := s.acks + [Ack(next.generation, s.config.generation, false)])
    else Begin(s, next, FromCommand)
  }

  /** The write at hand succeeded; after the last one the generation is acknowledged. */
  function Advance(s: State, collector: u32): State
    requires s.staging.Staging? && s.staging.at < |Writes(s.staging.next, collector)|
  {
    var st := s.staging;
    var ws := Writes(st.next, collector);
    var t := s.(kernel := Perform(s.kernel, ws[st.at]), staging := st.(at := st.at + 1));
    if st.at + 1 < |ws| then t
    else t.(staging := Idle, config := st.next,
            acks := if st.cause == FromCommand
                    then s.acks + [Ack(st.next.generation, st.next.generation, true)] else s.acks)
  }

  /** The write at hand failed: a command is rolled back, the other callers give up. */
  function Abandon(s: State): State
    requires s.staging.Staging?
  {
    var st := s.staging;
    if st.cause == FromCommand then
      s.(staging := Idle, config := st.previous,
         acks := s.acks + [Ack(st.next.generation, st.previous.generation, false)])
    else s.(staging := Stopped)
  }

  function ProbeStep(k: Kernel, p: Probe): Probe
    requires !p.Done? && (p.Checking? ==> p.n < |DIMS|)
  {
    match p
    case GotGeneration(q, g) =>
      if g !in k.configs then Done(q, g, true)
      else if !ScalarsPass(k.configs[g], q) then Done(q, g, false)
      else Checking(q, g, k.configs[g], 0)
    case Checking(q, g, raw, n) =>
      if Count(raw, DIMS[n]) != 0 && Key(DIMS[n], raw.generation, Field(q, DIMS[n])) !in k.keys
      then Done(q, g, false)
      else if n + 1 == |DIMS| then Done(q, g, true) else Checking(q, g, raw, n + 1)
  }

  ghost predicate Enabled(s: State, l: Label, collector: u32) {
    match l
    case Control(c) => s.staging.Idle?
    case Adapt(mode) => s.staging.Idle? && s.config.mode != mode
    case WriteDone => s.staging.Staging? && s.staging.at < |Writes(s.staging.next, collector)|
    case WriteFailed => s.staging.Staging?
    case ReadActive(p, q) => p !in s.probes || s.probes[p].Done?
    case ReadConfig(p) => p in s.probes && s.probes[p].GotGeneration?
    case ReadKey(p) => p in s.probes && s.probes[p].Checking? && s.probes[p].n < |DIMS|
  }

  /** No generation is staged a second time. */
  ghost predicate Fresh(s: State, l: Label) {
    match l
    case Control(c) =>
      Accepted(s.config, c) && Requested(s.config, c).filter.files == [] ==>
        Requested(s.config, c).generation !in s.staged
    case Adapt(mode) => Automatic(s.config, mode).generation !in s.staged
    case _ => true
  }

  ghost function Next(s: State, l: Label, collector: u32): State
    requires Enabled(s, l, collector)
  {
    match l
    case Control(c) => HandleCommand(s, c)
    case Adapt(mode) => Begin(s, Automatic(s.config, mode), Adaptive)
    case WriteDone => Advance(s, collector)
    case WriteFailed => Abandon(s)
    case ReadActive(p, q) =>
      var g := s.kernel.active;
      s.(probes := s.probes[p := if g == 0 then Done(q, g, true) else GotGeneration(q, g)])
    case ReadConfig(p) => s.(probes := s.probes[p := ProbeStep(s.kernel, s.probes[p])])
    case ReadKey(p) => s.(probes := s.probes[p := ProbeStep(s.kernel, s.probes[p])])
  }

  /** Probes are attached before the default configuration is staged. */
  function Initial(): State {
    var c := DefaultConfig();
    State(Kernel(0, map[], {}), c, Staging(c, c, 0, Startup), [], map[], map[c.generation := c])
  }

  ghost predicate IsRun(run: seq<State>, labels: seq<Label>, collector: u32) {
    && |run| == |labels| + 1
    && run[0] == Initial()
    && forall i :: 0 <= i < |labels| ==>
      Enabled(run[i], labels[i], collector) && Fresh(run[i], labels[i]) &&
      run[i + 1] == Next(run[i], labels[i], collector)
  }

  // ---- the writes of one configuration ----

  lemma {:induction false} KeyWritesMembers(c: Config, dims: seq<Dim>, w: Write)
    ensures w in AllKeyWrites(c, dims) <==>
      w.PutKey? && w.key.generation == c.generation && w.key.dim in dims &&
      w.key.value in Values(c.filter, w.key.dim)
  {
    if dims != [] {
      var dim := dims[|dims| - 1];
      KeyWritesMembers(c, dims[..|dims| - 1], w);
      assert dims == dims[..|dims| - 1] + [dim];
      var vs := Values(c.filter, dim);
      if w.PutKey? && w.key == Key(dim, c.generation, w.key.value) && w.key.value in vs {
        var i :| 0 <= i < |vs| && vs[i] == w.key.value;
        assert KeyWrites(c, dim)[i] == w;
      }
    }
  }

  lemma DimsComplete(dim: Dim)
    ensures dim in DIMS
  {
    assert DIMS[0] == Pid && DIMS[1] == Tid && DIMS[2] == Uid && DIMS[3] == Device && DIMS[4] == Op;
    match dim case Pid => case Tid => case Uid => case Device => case Op =>
  }

  /** What a write position means: keys first, the configuration last but one, the switch last. */
  lemma WritesShape(c: Config, collector: u32)
    ensures |Writes(c, collector)| >= 2
    ensures var ws := Writes(c, collector);
      && ws[|ws| - 2] == PutConfig(RawOf(c, collector))
      && ws[|ws| - 1] == Activate(c.generation)
      && forall w :: w in ws[..|ws| - 2] <==>
        w.PutKey? && w.key.generation == c.generation && w.key.value in Values(c.filter, w.key.dim)
  {
    var ws := Writes(c, collector);
    assert ws[..|ws| - 2] == AllKeyWrites(c, DIMS);
    forall w ensures w in ws[..|ws| - 2] <==>
        w.PutKey? && w.key.generation == c.generation && w.key.value in Values(c.filter, w.key.dim)
    {
      KeyWritesMembers(c, DIMS, w);
      if w.PutKey? { DimsComplete(w.key.dim); }
    }
  }

  // ---- the invariant ----

  /** Everything the kernel needs to know about configuration `c` is in its maps, and nothing else. */
  ghost predicate Published(k: Kernel, c: Config, collector: u32) {
    && c.generation in k.configs && k.configs[c.generation] == RawOf(c, collector)
    && forall dim, v :: Key(dim, c.generation, v) in k.keys <==> v in Values(c.filter, dim)
  }

  ghost predicate Small(c: Config) {
    var f := c.filter;
    c.generation != 0 && f.files == [] &&
    |f.pids| + |f.tids| + |f.uids| + |f.devices| + |f.operations| <= MAX_KEYS
  }

  ghost predicate KernelInv(k: Kernel, staged: map<u64, Config>, collector: u32) {
    && (k.active != 0 ==> k.active in k.configs)
    && (forall g :: g in k.configs ==> g in staged && Published(k, staged[g], collector))
    && (forall key :: key in k.keys ==> key.generation in staged)
    && (forall g :: g in staged ==> staged[g].generation == g && Small(staged[g]))
  }

  ghost predicate StagingInv(k: Kernel, staged: map<u64, Config>, st: Staging, collector: u32) {
    st.Staging? ==>
      var ws := Writes(st.next, collector);
      && st.next.generation in staged && staged[st.next.generation] == st.next
      && st.at < |ws|
      && (st.at <= |ws| - 2 ==> st.next.generation !in k.configs)
      && (st.at == |ws| - 1 ==> Published(k, st.next, collector))
      && (forall key :: key in k.keys && key.generation == st.next.generation
                        <==> PutKey(key) in ws[..st.at])
  }

  ghost predicate ProbeInv(k: Kernel, staged: map<u64, Config>, p: Probe, collector: u32) {
    match p
    case GotGeneration(q, g) => g in k.configs
    case Checking(q, g, raw, n) =>
      && g in k.configs && raw == k.configs[g] && ScalarsPass(raw, q) && n < |DIMS|
      && g in staged
      && forall m :: 0 <= m < n ==>
        Values(staged[g].filter, DIMS[m]) == [] || Field(q, DIMS[m]) in Values(staged[g].filter, DIMS[m])
    case Done(q, g, result) =>
      if g == 0 then result
      else g in staged && result == Allows(staged[g], collector, q)
  }

  /** Agent, kernel and the acknowledgements agree whenever no staging is under way. */
  ghost predicate AgentInv(s: State) {
    && Small(s.config)
    && (s.staging.Idle? ==> s.config.generation == s.kernel.active)
    && (s.staging.Staging? ==>
          Small(s.staging.next) &&
          if s.staging.cause == Startup then s.acks == [] && s.kernel.active == 0
          else && Small(s.staging.previous) && s.staging.previous.generation == s.kernel.active
               && s.staging.next.generation > s.kernel.active
               && (s.staging.cause == Adaptive ==> s.config == s.staging.previous))
    && (forall i :: 0 <= i < |s.acks| ==> s.acks[i].active <= s.kernel.active)
    && (forall i, j :: 0 <= i < j < |s.acks| && s.acks[j].applied ==> s.acks[i].active < s.acks[j].active)
    && (forall i :: 0 <= i < |s.acks| && s.acks[i].applied ==> s.acks[i].active == s.acks[i].requested)
  }

  ghost predicate MapsInv(s: State, collector: u32) {
    KernelInv(s.kernel, s.staged, collector) && StagingInv(s.kernel, s.staged, s.staging, collector)
  }

  ghost predicate Inv(s: State, collector: u32) {
    && MapsInv(s, collector) && AgentInv(s)
    && forall p :: p in s.probes ==> ProbeInv(s.kernel, s.staged, s.probes[p], collector)
  }

  lemma CountsAgree(c: Config, collector: u32, dim: Dim)
    requires Small(c)
    ensures Count(RawOf(c, collector), dim) == 0 <==> Values(c.filter, dim) == []
  {
  }

  /** The keys on either side of the next write. */
  lemma WrittenPrefix(ws: seq<Write>, at: nat, w: Write)
    requires at < |ws|
    ensures w in ws[..at + 1] <==> w in ws[..at] || w == ws[at]
  {
    assert ws[..at + 1] == ws[..at] + [ws[at]];
  }

  lemma KeyWriteKeeps(s: State, collector: u32)
    requires Inv(s, collector) && s.staging.Staging?
    requires s.staging.at + 2 < |Writes(s.staging.next, collector)|
    ensures MapsInv(Advance(s, collector), collector)
  {
    var st, t := s.staging, Advance(s, collector);
    var ws, g := Writes(st.next, collector), st.next.generation;
    WritesShape(st.next, collector);
    var w := ws[st.at];
    assert w in ws[..|ws| - 2];
    forall key ensures key in t.kernel.keys && key.generation == g <==> PutKey(key) in ws[..st.at + 1] {
      WrittenPrefix(ws, st.at, PutKey(key));
    }
  }

  lemma ConfigWriteKeeps(s: State, collector: u32)
    requires Inv(s, collector) && s.staging.Staging?
    requires s.staging.at + 2 == |Writes(s.staging.next, collector)|
    ensures MapsInv(Advance(s, collector), collector)
  {
    var st, t := s.staging, Advance(s, collector);
    var ws, g := Writes(st.next, collector), st.next.generation;
    WritesShape(st.next, collector);
    forall key ensures PutKey(key) in ws[..st.at + 1] <==> PutKey(key) in ws[..st.at] {
      WrittenPrefix(ws, st.at, PutKey(key));
    }
    forall dim, v ensures Key(dim, g, v) in t.kernel.keys <==> v in Values(st.next.filter, dim) {
      assert PutKey(Key(dim, g, v)) in ws[..st.at] <==> v in Values(st.next.filter, dim);
    }
    assert Published(t.kernel, st.next, collector);
    forall h | h in t.kernel.configs && h != g
      ensures Published(t.kernel, s.staged[h], collector)
    {
      assert Published(s.kernel, s.staged[h], collector);
    }
  }

  lemma ActivateKeeps(s: State, collector: u32)
    requires Inv(s, collector) && s.staging.Staging?
    requires s.staging.at + 1 == |Writes(s.staging.next, collector)|
    ensures KernelInv(Advance(s, collector).kernel, Advance(s, collector).staged, collector)
    ensures AgentInv(Advance(s, collector))
    ensures Advance(s, collector).kernel.active == s.staging.next.generation
  {
    WritesShape(s.staging.next, collector);
    var t := Advance(s, collector);
    assert forall g :: g in t.kernel.configs ==>
      (Published(t.kernel, t.staged[g], collector) <==> Published(s.kernel, s.staged[g], collector));
  }

  lemma ProbesKeep(s: State, t: State, collector: u32)
    requires Inv(s, collector) && KernelInv(t.kernel, t.staged, collector) && t.probes == s.probes
    requires forall g :: g in s.kernel.configs ==> g in t.kernel.configs && t.kernel.configs[g] == s.kernel.configs[g]
    requires forall g :: g in s.staged ==> g in t.staged && t.staged[g] == s.staged[g]
    ensures forall p :: p in t.probes ==> ProbeInv(t.kernel, t.staged, t.probes[p], collector)
  {
    forall p | p in t.probes ensures ProbeInv(t.kernel, t.staged, t.probes[p], collector) {
      assert ProbeInv(s.kernel, s.staged, s.probes[p], collector);
    }
  }

  lemma WriteDoneKeeps(s: State, collector: u32)
    requires Inv(s, collector) && Enabled(s, WriteDone, collector)
    ensures Inv(Advance(s, collector), collector)
  {
    var t, ws := Advance(s, collector), Writes(s.staging.next, collector);
    WritesShape(s.staging.next, collector);
    if s.staging.at + 2 < |ws| {
      KeyWriteKeeps(s, collector);
      assert ws[s.staging.at] in ws[..|ws| - 2];
    } else if s.staging.at + 2 == |ws| {
      ConfigWriteKeeps(s, collector);
    } else {
      ActivateKeeps(s, collector);
    }
    ProbesKeep(s, t, collector);
  }

  /** Kernel part: recording a generation that has no keys yet changes nothing. */
  lemma BeginKeepsKernel(s: State, next: Config, cause: Cause, collector: u32)
    requires KernelInv(s.kernel, s.staged, collector)
    requires Small(next) && next.generation !in s.staged
    ensures KernelInv(Begin(s, next, cause).kernel, Begin(s, next, cause).staged, collector)
  {
    var t := Begin(s, next, cause);
    forall g | g in t.kernel.configs ensures g in t.staged && Published(t.kernel, t.staged[g], collector) {
      assert Published(s.kernel, s.staged[g], collector);
    }
  }

  lemma BeginKeepsStaging(s: State, next: Config, cause: Cause, collector: u32)
    requires KernelInv(s.kernel, s.staged, collector) && next.generation !in s.staged
    ensures var t := Begin(s, next, cause); StagingInv(t.kernel, t.staged, t.staging, collector)
  {
    WritesShape(next, collector);
    assert Writes(next, collector)[..0] == [];
  }

  lemma BeginKeeps(s: State, next: Config, cause: Cause, collector: u32)
    requires Inv(s, collector) && s.staging.Idle? && cause != Startup
    requires Small(next) && next.generation > s.config.generation && next.generation !in s.staged
    ensures Inv(Begin(s, next, cause), collector)
  {
    BeginKeepsKernel(s, next, cause, collector);
    BeginKeepsStaging(s, next, cause, collector);
    ProbesKeep(s, Begin(s, next, cause), collector);
  }

  /** A probe's next lookup agrees with the configuration it read, whatever was staged meanwhile. */
  lemma ProbeStepKeeps(s: State, p: Probe, collector: u32)
    requires Inv(s, collector) && ProbeInv(s.kernel, s.staged, p, collector) && !p.Done?
    requires p.gen != 0
    ensures ProbeInv(s.kernel, s.staged, ProbeStep(s.kernel, p), collector)
    ensures ProbeStep(s.kernel, p).gen == p.gen && ProbeStep(s.kernel, p).q == p.q
  {
    var g := p.gen;
    var c := s.staged[g];
    assert Published(s.kernel, c, collector);
    if p.Checking? {
      var dim := DIMS[p.n];
      CountsAgree(c, collector, dim);
      assert Key(dim, g, Field(p.q, dim)) in s.kernel.keys <==> Field(p.q, dim) in Values(c.filter, dim);
      if p.n + 1 == |DIMS| && ProbeStep(s.kernel, p).result {
        forall d ensures Values(c.filter, d) == [] || Field(p.q, d) in Values(c.filter, d) {
          DimsComplete(d);
          var m :| 0 <= m < |DIMS| && DIMS[m] == d;
        }
      }
    }
  }

  lemma ProbeNonzero(s: State, p: nat, collector: u32)
    requires Inv(s, collector) && p in s.probes && !s.probes[p].Done?
    ensures s.probes[p].gen != 0
  {
    assert ProbeInv(s.kernel, s.staged, s.probes[p], collector);
    assert Published(s.kernel, s.staged[s.probes[p].gen], collector);
  }

  lemma ProbeUpdateKeeps(s: State, p: nat, probe: Probe, collector: u32)
    requires Inv(s, collector) && ProbeInv(s.kernel, s.staged, probe, collector)
    ensures Inv(s.(probes := s.probes[p := probe]), collector)
  {
    var t := s.(probes := s.probes[p := probe]);
    forall r | r in t.probes ensures ProbeInv(t.kernel, t.staged, t.probes[r], collector) {
      if r != p { assert ProbeInv(s.kernel, s.staged, s.probes[r], collector); }
    }
  }

  lemma CommandKeeps(s: State, c: Command, collector: u32)
    requires Inv(s, collector) && s.staging.Idle? && Fresh(s, Control(c))
    ensures Inv(HandleCommand(s, c), collector)
  {
    var next := Requested(s.config, c);
    if Accepted(s.config, c) && next.filter.files == [] {
      BeginKeeps(s, next, FromCommand, collector);
    } else {
      ProbesKeep(s, HandleCommand(s, c), collector);
    }
  }

  lemma AbandonKeepsAgent(s: State, collector: u32)
    requires Inv(s, collector) && s.staging.Staging?
    ensures AgentInv(Abandon(s))
  {
  }

  lemma AbandonKeeps(s: State, collector: u32)
    requires Inv(s, collector) && s.staging.Staging?
    ensures Inv(Abandon(s), collector)
  {
    AbandonKeepsAgent(s, collector);
    assert MapsInv(Abandon(s), collector);
    ProbesKeep(s, Abandon(s), collector);
  }

  lemma StepKeeps(s: State, l: Label, collector: u32)
    requires Inv(s, collector) && Enabled(s, l, collector) && Fresh(s, l)
    ensures Inv(Next(s, l, collector), collector)
  {
    match l {
      case Control(c) => CommandKeeps(s, c, collector);
      case Adapt(mode) =>
        assert s.config.generation in s.staged;
        BeginKeeps(s, Automatic(s.config, mode), Adaptive, collector);
      case WriteDone => WriteDoneKeeps(s, collector);
      case WriteFailed => AbandonKeeps(s, collector);
      case ReadActive(p, q) =>
        var g := s.kernel.active;
        ProbeUpdateKeeps(s, p, if g == 0 then Done(q, g, true) else GotGeneration(q, g), collector);
      case ReadConfig(p) =>
        ProbeNonzero(s, p, collector);
        ProbeStepKeeps(s, s.probes[p], collector);
        ProbeUpdateKeeps(s, p, ProbeStep(s.kernel, s.probes[p]), collector);
      case ReadKey(p) =>
        ProbeNonzero(s, p, collector);
        ProbeStepKeeps(s, s.probes[p], collector);
        ProbeUpdateKeeps(s, p, ProbeStep(s.kernel, s.probes[p]), collector);
    }
  }

  /** The acknowledgement just sent names the generation that is then active. */
  ghost predicate AckTrue(s: State) {
    && s.staging.Idle? && s.acks != []
    && s.acks[|s.acks| - 1].active == s.config.generation == s.kernel.active
  }

  lemma AdvanceAck(s: State, collector: u32)
    requires Inv(s, collector) && s.staging.Staging? && |Advance(s, collector).acks| > |s.acks|
    ensures AckTrue(Advance(s, collector))
  {
    WritesShape(s.staging.next, collector);
  }

  lemma AbandonAck(s: State, collector: u32)
    requires Inv(s, collector) && s.staging.Staging? && |Abandon(s).acks| > |s.acks|
    ensures AckTrue(Abandon(s))
  {
  }

  lemma CommandAck(s: State, c: Command, collector: u32)
    requires Inv(s, collector) && s.staging.Idle? && |HandleCommand(s, c).acks| > |s.acks|
    ensures AckTrue(HandleCommand(s, c))
  {
  }

  lemma StepAck(s: State, l: Label, collector: u32)
    requires Inv(s, collector) && Enabled(s, l, collector) && |Next(s, l, collector).acks| > |s.acks|
    ensures AckTrue(Next(s, l, collector))
  {
    match l {
      case Control(c) => CommandAck(s, c, collector);
      case WriteDone => AdvanceAck(s, collector);
      case WriteFailed => AbandonAck(s, collector);
      case _ =>
    }
  }

  lemma {:induction false} RunKeeps(run: seq<State>, labels: seq<Label>, collector: u32, j: nat)
    requires IsRun(run, labels, collector) && j < |run|
    ensures Inv(run[j], collector)
    ensures 0 < j && |run[j].acks| > |run[j - 1].acks| ==> AckTrue(run[j])
  {
    if j == 0 {
      WritesShape(DefaultConfig(), collector);
      assert Writes(DefaultConfig(), collector)[..0] == [];
    } else {
      RunKeeps(run, labels, collector, j - 1);
      StepKeeps(run[j - 1], labels[j - 1], collector);
      if |run[j].acks| > |run[j - 1].acks| { StepAck(run[j - 1], labels[j - 1], collector); }
    }
  }

  // ---- main theorems ----

  /** Step `i` is the one read of the active generation behind probe `p`'s state at `j`. */
  ghost predicate ReadAt(run: seq<State>, labels: seq<Label>, p: nat, i: nat, j: nat)
    requires |run| == |labels| + 1 && j < |run| && p in run[j].probes
  {
    && i < j
    && labels[i] == ReadActive(p, run[j].probes[p].q)
    && run[i].kernel.active == run[j].probes[p].gen
    && forall k :: i < k < j ==> !(labels[k].ReadActive? && labels[k].p == p)
  }

  /** No step other than a new read changes what a probe read. */
  lemma ProbeRemembers(s: State, l: Label, collector: u32, p: nat)
    requires Inv(s, collector) && Enabled(s, l, collector)
    requires p in Next(s, l, collector).probes && !(l.ReadActive? && l.p == p)
    ensures p in s.probes
    ensures Next(s, l, collector).probes[p].gen == s.probes[p].gen
    ensures Next(s, l, collector).probes[p].q == s.probes[p].q
  {
    if (l.ReadConfig? || l.ReadKey?) && l.p == p {
      ProbeNonzero(s, p, collector);
      ProbeStepKeeps(s, s.probes[p], collector);
    }
  }

  /** The probe's verdict is that of the configuration staged as generation `g`. */
  ghost predicate DecidedBy(g: u64, s: State, p: nat, collector: u32)
    requires p in s.probes && s.probes[p].Done?
  {
    if g == 0 then s.probes[p].result
    else g in s.staged && s.probes[p].result == Allows(s.staged[g], collector, s.probes[p].q)
  }

  lemma RunRemembers(run: seq<State>, labels: seq<Label>, collector: u32, p: nat, j: nat)
    requires IsRun(run, labels, collector) && j < |run| && p in run[j].probes
    ensures 0 < j
    ensures !(labels[j - 1].ReadActive? && labels[j - 1].p == p) ==>
      && p in run[j - 1].probes
      && run[j].probes[p].gen == run[j - 1].probes[p].gen
      && run[j].probes[p].q == run[j - 1].probes[p].q
  {
    if !(labels[j - 1].ReadActive? && labels[j - 1].p == p) {
      RunKeeps(run, labels, collector, j - 1);
      ProbeRemembers(run[j - 1], labels[j - 1], collector, p);
    }
  }

  lemma {:induction false} ReadWitness(run: seq<State>, labels: seq<Label>, collector: u32, p: nat, j: nat)
    returns (i: nat)
    requires IsRun(run, labels, collector) && j < |run| && p in run[j].probes
    ensures ReadAt(run, labels, p, i, j)
  {
    RunRemembers(run, labels, collector, p, j);
    var l := labels[j - 1];
    if l.ReadActive? && l.p == p {
      i := j - 1;
    } else {
      i := ReadWitness(run, labels, collector, p, j - 1);
    }
  }

  /** Every decision is the pure predicate of the one configuration whose generation was active
      when the probe read it, however staging writes and failures interleave with its lookups. */
  lemma SwitchIsAtomic(run: seq<State>, labels: seq<Label>, collector: u32, p: nat, j: nat)
    requires IsRun(run, labels, collector) && j < |run| && p in run[j].probes && run[j].probes[p].Done?
    ensures exists i: nat :: ReadAt(run, labels, p, i, j) && DecidedBy(run[i].kernel.active, run[j], p, collector)
  {
    var i := ReadWitness(run, labels, collector, p, j);
    RunKeeps(run, labels, collector, j);
    assert ProbeInv(run[j].kernel, run[j].staged, run[j].probes[p], collector);
    assert ReadAt(run, labels, p, i, j) && DecidedBy(run[i].kernel.active, run[j], p, collector);
  }

  ghost predicate Recorded(staged: map<u64, Config>, c: Config) {
    c.generation in staged && staged[c.generation] == c
  }

  /** The agent's configuration is one that was staged, and so is the one to go back to. */
  ghost predicate ConfigInv(s: State) {
    && (s.staging.Idle? ==> Recorded(s.staged, s.config))
    && (s.staging.Staging? && s.staging.cause != Startup ==> Recorded(s.staged, s.staging.previous))
  }

  lemma StepTies(s: State, l: Label, collector: u32)
    requires Inv(s, collector) && ConfigInv(s) && Enabled(s, l, collector) && Fresh(s, l)
    ensures ConfigInv(Next(s, l, collector))
  {
  }

  lemma {:induction false} RunTies(run: seq<State>, labels: seq<Label>, collector: u32, j: nat)
    requires IsRun(run, labels, collector) && j < |run|
    ensures ConfigInv(run[j])
  {
    if j > 0 {
      RunTies(run, labels, collector, j - 1);
      RunKeeps(run, labels, collector, j - 1);
      StepTies(run[j - 1], labels[j - 1], collector);
    }
  }

  /** On maps that hold exactly the active configuration, a probe decides as the configuration. */
  lemma PublishedMatches(k: Kernel, c: Config, collector: u32, q: Request)
    requires Published(k, c, collector) && k.active == c.generation && Small(c)
    ensures Matches(k, q) == Allows(c, collector, q)
  {
    forall dim ensures (Count(RawOf(c, collector), dim) == 0 || Key(dim, c.generation, Field(q, dim)) in k.keys)
        <==> (Values(c.filter, dim) == [] || Field(q, dim) in Values(c.filter, dim))
    {
      CountsAgree(c, collector, dim);
    }
  }

  /** The kernel's maps hold the agent's configuration, and decide every request as it says. */
  ghost predicate KernelHolds(s: State, collector: u32) {
    && s.config.generation == s.kernel.active
    && Published(s.kernel, s.config, collector)
    && forall q :: Matches(s.kernel, q) == Allows(s.config, collector, q)
  }

  lemma IdleHolds(s: State, collector: u32)
    requires Inv(s, collector) && ConfigInv(s) && s.staging.Idle?
    ensures KernelHolds(s, collector)
  {
    assert Published(s.kernel, s.staged[s.kernel.active], collector);
    forall q ensures Matches(s.kernel, q) == Allows(s.config, collector, q) {
      PublishedMatches(s.kernel, s.config, collector, q);
    }
  }

  /** Between commands the kernel holds and decides by the agent's configuration, every
      acknowledgement told the truth when it was sent, and applied generations strictly increase. */
  lemma CommandsAgree(run: seq<State>, labels: seq<Label>, collector: u32, j: nat)
    requires IsRun(run, labels, collector) && j < |run|
    ensures run[j].staging.Idle? ==> KernelHolds(run[j], collector)
    ensures 0 < j && |run[j].acks| > |run[j - 1].acks| ==>
      && run[j].staging.Idle?
      && run[j].acks[|run[j].acks| - 1].active == run[j].config.generation == run[j].kernel.active
    ensures forall a, b :: 0 <= a < b < |run[j].acks| && run[j].acks[a].applied && run[j].acks[b].applied ==>
      run[j].acks[a].requested < run[j].acks[b].requested
  {
    RunKeeps(run, labels, collector, j);
    RunTies(run, labels, collector, j);
    if run[j].staging.Idle? { IdleHolds(run[j], collector); }
  }

  // ---- where the staged form and the configuration as written differ ----

  ghost predicate ListsKeys(f: Filter) { exists dim: Dim :: Values(f, dim) != [] }

  /** The configuration read literally: limits as given, devices compared as pairs, and without any
      key `matchAll` decides. */
  ghost predicate Intended(c: Config, collector: u32, q: Request) {
    var f := c.filter;
    && (ListsKeys(f) || f.matchAll)
    && (collector != 0 ==> q.pid != collector)
    && (f.minBytes.Some? ==> f.minBytes.value <= q.bytes)
    && (f.maxBytes.Some? ==> q.bytes <= f.maxBytes.value)
    && (f.devices == [] || DecodeDevice(q.device) in f.devices)
    && forall dim :: dim != Device ==> Values(f, dim) == [] || Field(q, dim) in Values(f, dim)
  }

  /** Every pid the filter admits is the collector itself, so nothing can pass. */
  ghost predicate OnlyCollector(c: Config, collector: u32) {
    collector != 0 && c.filter.pids != [] && forall pid :: pid in c.filter.pids ==> pid == collector
  }

  /** A filter without keys says that it matches all, a zero upper limit is not asked for, and every
      listed device fits 12 + 20 bits or has its truncated form listed too. */
  ghost predicate Representable(c: Config) {
    && (ListsKeys(c.filter) || c.filter.matchAll)
    && c.filter.maxBytes != Some(0)
    && forall d :: d in c.filter.devices ==> DecodeDevice(EncodeDevice(d)) in c.filter.devices
  }

  lemma EncodedDevice(f: Filter, code: u64)
    ensures code in Values(f, Device) <==> exists d :: d in f.devices && EncodeDevice(d) == code
  {
    var vs := Values(f, Device);
    if code in vs {
      var i :| 0 <= i < |vs| && vs[i] == code;
      assert f.devices[i] in f.devices;
    }
    if d :| d in f.devices && EncodeDevice(d) == code {
      var i :| 0 <= i < |f.devices| && f.devices[i] == d;
      assert vs[i] == code;
    }
  }

  lemma DevicesAgree(c: Config, q: Request)
    requires forall d :: d in c.filter.devices ==> DecodeDevice(EncodeDevice(d)) in c.filter.devices
    ensures q.device in Values(c.filter, Device) <==> DecodeDevice(q.device) in c.filter.devices
  {
    EncodedDevice(c.filter, q.device);
    DeviceRoundTrip(q.device, (0, 0));
  }

  lemma RepresentableAgrees(c: Config, collector: u32, q: Request)
    requires Representable(c)
    ensures Allows(c, collector, q) == Intended(c, collector, q)
  {
    DevicesAgree(c, q);
    assert Field(q, Device) == q.device;
    if Intended(c, collector, q) {
      forall dim ensures Values(c.filter, dim) == [] || Field(q, dim) in Values(c.filter, dim) {
        if dim == Device && c.filter.devices == [] { assert Values(c.filter, dim) == []; }
      }
    }
    if Allows(c, collector, q) {
      assert Values(c.filter, Device) == [] || Field(q, Device) in Values(c.filter, Device);
      if Values(c.filter, Device) == [] { assert |c.filter.devices| == 0; }
    }
  }

  /** A request that a filter of valid shape lets through, with the given device code. */
  function Sample(c: Config, pid: u32, device: u32, bytes: u32): Request {
    var f := c.filter;
    Request(pid,
            if f.tids == [] then 0 else f.tids[0],
            if f.uids == [] then 0 else f.uids[0],
            device, bytes,
            if f.operations == [] then 1 else OperationCode(f.operations[0]))
  }

  lemma SampleAllowed(c: Config, collector: u32, pid: u32, device: u32, bytes: u32)
    requires collector != 0 ==> pid != collector
    requires c.filter.pids == [] || pid in c.filter.pids
    requires c.filter.devices == [] || device in Values(c.filter, Device)
    requires c.filter.minBytes.Some? ==> c.filter.minBytes.value <= bytes
    requires c.filter.maxBytes.Some? && c.filter.maxBytes.value != 0 ==> bytes <= c.filter.maxBytes.value
    ensures Allows(c, collector, Sample(c, pid, device, bytes))
  {
    var q, f := Sample(c, pid, device, bytes), c.filter;
    forall dim ensures Values(f, dim) == [] || Field(q, dim) in Values(f, dim) {
      match dim
      case Pid =>
      case Tid => assert f.tids != [] ==> f.tids[0] in f.tids;
      case Uid => assert f.uids != [] ==> f.uids[0] in f.uids;
      case Device => assert f.devices == [] ==> Values(f, Device) == [];
      case Op => assert f.operations != [] ==> Values(f, Op)[0] == q.operation;
    }
  }

  lemma UnrepresentableDiffers(c: Config, collector: u32) returns (q: Request)
    requires Valid(c) && !OnlyCollector(c, collector) && !Representable(c)
    ensures Allows(c, collector, q) && !Intended(c, collector, q)
  {
    var f := c.filter;
    var pid: u32 := if collector == 1 then 2 else 1;
    if f.pids != [] {
      if collector == 0 { pid := f.pids[0]; }
      else { pid :| pid in f.pids && pid != collector; }
    }
    var bytes: u32 := if f.minBytes.Some? then f.minBytes.value else 0;
    var device: u32 := if f.devices == [] then 0 else EncodeDevice(f.devices[0]);
    if !ListsKeys(f) && !f.matchAll {
      assert f.pids == Values(f, Pid) && |f.devices| == |Values(f, Device)|;
    } else if f.maxBytes == Some(0) {
      bytes := 1;
    } else {
      var d :| d in f.devices && DecodeDevice(EncodeDevice(d)) !in f.devices;
      device := EncodeDevice(d);
    }
    EncodedDevice(f, device);
    assert f.devices != [] ==> f.devices[0] in f.devices;
    q := Sample(c, pid, device, bytes);
    SampleAllowed(c, collector, pid, device, bytes);
  }

  /** The staged filter means what the configuration says exactly when the configuration is
      representable (or can match nothing at all). */
  lemma IntentHonoured(c: Config, collector: u32)
    requires Valid(c)
    ensures (forall q :: Allows(c, collector, q) == Intended(c, collector, q))
            <==> Representable(c) || OnlyCollector(c, collector)
  {
    if Representable(c) {
      forall q ensures Allows(c, collector, q) == Intended(c, collector, q) {
        RepresentableAgrees(c, collector, q);
      }
    } else if OnlyCollector(c, collector) {
      forall q ensures Allows(c, collector, q) == Intended(c, collector, q) {
        assert Values(c.filter, Pid) == c.filter.pids && Field(q, Pid) == q.pid;
      }
    } else {
      var q := UnrepresentableDiffers(c, collector);
    }
  }

  /** The filter that an empty description gives: valid, meant to match nothing, and let through
      by the kernel for everyone but the collector. */
  lemma EmptyFilterPasses(q: Request, collector: u32)
    requires collector != 0 ==> q.pid != collector
    ensures var c := DefaultConfig().(generation := 2, filter := Filter(false, [], [], [], [], [], [], None, None));
      Valid(c) && Allows(c, collector, q) && !Intended(c, collector, q)
  {
    var f := Filter(false, [], [], [], [], [], [], None, None);
    forall dim ensures Values(f, dim) == [] {
    }
  }

  // ---- a generation number used twice ----

  lemma {:induction false} PerformKeys(k: Kernel, ws: seq<Write>, key: Key)
    ensures key in PerformAll(k, ws).keys <==> key in k.keys || PutKey(key) in ws
  {
    if ws != [] {
      var n := |ws| - 1;
      assert ws == ws[..n] + [ws[n]];
      PerformKeys(k, ws[..n], key);
    }
  }

  lemma PerformWrites(k: Kernel, c: Config, collector: u32)
    ensures var t := PerformAll(k, Writes(c, collector));
      && t.active == c.generation
      && c.generation in t.configs && t.configs[c.generation] == RawOf(c, collector)
  {
    var ws := Writes(c, collector);
    WritesShape(c, collector);
    var n := |ws| - 1;
    assert ws[..n][..n - 1] == ws[..n - 1];
    assert PerformAll(k, ws) == Perform(PerformAll(k, ws[..n]), ws[n]);
    assert PerformAll(k, ws[..n]) == Perform(PerformAll(k, ws[..n - 1]), ws[n - 1]);
  }

  /** Completing a staging publishes exactly `c` if and only if whatever an earlier attempt with the
      same generation left behind is also wanted by `c`. */
  lemma StagingExactIff(k: Kernel, c: Config, collector: u32)
    ensures Published(PerformAll(k, Writes(c, collector)), c, collector)
            <==> forall key :: key in k.keys && key.generation == c.generation ==>
                   key.value in Values(c.filter, key.dim)
  {
    var ws := Writes(c, collector);
    var t := PerformAll(k, ws);
    PerformWrites(k, c, collector);
    WritesShape(c, collector);
    assert ws == ws[..|ws| - 2] + [ws[|ws| - 2], ws[|ws| - 1]];
    forall dim, v
      ensures Key(dim, c.generation, v) in t.keys <==>
        Key(dim, c.generation, v) in k.keys || v in Values(c.filter, dim)
    {
      PerformKeys(k, ws, Key(dim, c.generation, v));
      assert PutKey(Key(dim, c.generation, v)) in ws[..|ws| - 2] <==> v in Values(c.filter, dim);
    }
    if forall key :: key in k.keys && key.generation == c.generation ==> key.value in Values(c.filter, key.dim) {
      assert Published(t, c, collector);
    }
    if Published(t, c, collector) {
      forall key | key in k.keys && key.generation == c.generation
        ensures key.value in Values(c.filter, key.dim)
      {
        assert Key(key.dim, c.generation, key.value) in t.keys;
      }
    }
  }

  /** Two attempts at generation 2: the first dies after one key, and the second lets that key's
      process through although its filter excludes it. */
  lemma ReusedGenerationLeaks()
    ensures
      var wide := DefaultConfig().(generation := 2,
        filter := Filter(false, [7, 8], [], [], [], [], [], None, None));
      var narrow := wide.(filter := Filter(false, [9], [], [], [], [], [], None, None));
      var q := Request(7, 7, 0, 0, 4096, 1);
      var left := PerformAll(Kernel(0, map[], {}), Writes(wide, 0)[..1]);
      Matches(PerformAll(left, Writes(narrow, 0)), q) && !Allows(narrow, 0, q)
  {
    var wide := DefaultConfig().(generation := 2,
      filter := Filter(false, [7, 8], [], [], [], [], [], None, None));
    var narrow := wide.(filter := Filter(false, [9], [], [], [], [], [], None, None));
    var q := Request(7, 7, 0, 0, 4096, 1);
    var first := Writes(wide, 0)[..1];
    assert AllKeyWrites(wide, [Pid]) == KeyWrites(wide, Pid) by { assert [Pid][..0] == []; }
    FirstWrite(wide, 0);
    assert first == [PutKey(Key(Pid, 2, 7))];
    var left := PerformAll(Kernel(0, map[], {}), first);
    assert first[..0] == [];
    assert Key(Pid, 2, 7) in left.keys;
    PerformWrites(left, narrow, 0);
    PerformKeys(left, Writes(narrow, 0), Key(Pid, 2, 7));
    var t := PerformAll(left, Writes(narrow, 0));
    forall dim ensures Count(t.configs[2], dim) == 0 || Key(dim, 2, Field(q, dim)) in t.keys {
    }
    assert Values(narrow.filter, Pid) == [9] && Field(q, Pid) == 7;
  }

  /** Process keys are staged first. */
  lemma FirstWrite(c: Config, collector: u32)
    requires c.filter.pids != []
    ensures |Writes(c, collector)| > 0
    ensures Writes(c, collector)[0] == PutKey(Key(Pid, c.generation, c.filter.pids[0]))
  {
    assert DIMS[..4] == [Pid, Tid, Uid, Device] && DIMS[..4][..3] == [Pid, Tid, Uid];
    assert [Pid, Tid, Uid][..2] == [Pid, Tid] && [Pid, Tid][..1] == [Pid] && [Pid][..0] == [];
    assert AllKeyWrites(c, [Pid]) == KeyWrites(c, Pid);
    assert AllKeyWrites(c, [Pid, Tid]) == AllKeyWrites(c, [Pid]) + KeyWrites(c, Tid);
    assert AllKeyWrites(c, [Pid, Tid, Uid]) == AllKeyWrites(c, [Pid, Tid]) + KeyWrites(c, Uid);
    assert AllKeyWrites(c, DIMS[..4]) == AllKeyWrites(c, [Pid, Tid, Uid]) + KeyWrites(c, Device);
    assert AllKeyWrites(c, DIMS) == AllKeyWrites(c, DIMS[..4]) + KeyWrites(c, Op);
  }
}
