/**
 Attribution of block requests to files by physical extents: the filesystem reports which sectors
 an inode maps to, device-mapper remaps translate those ranges to lower devices, and an issued
 request is matched against what is still remembered.
 */
module Extents {
  import opened Common

  const TTL: u64 := 5_000_000_000
  const PATH_TTL: u64 := 30_000_000_000
  const MAX_EXTENTS: nat := 16_384

  datatype Extent = Extent(
    ts: u64, device: u32, fsDevice: u32, sector: u64, sectors: u32, inode: u64,
    key: u64, pid: u32, tid: u32)

  datatype Remap = Remap(
    ts: u64, device: u32, oldDevice: u32, sector: u64, oldSector: u64, sectors: u32)

  datatype PathEntry = PathEntry(identity: Identity, path: string, ts: u64)

  datatype Issue = Issue(ts: u64, device: (u32, u32), sector: u64, sectors: u32)

  datatype Origin = Origin(file: Identity, path: Option<string>, key: u64, pid: u32, tid: u32)

  datatype Event = Raw(extent: Extent) | Remapped(remap: Remap) | FileIo(entry: PathEntry) | Issued(issue: Issue)

  datatype Store = Store(extents: seq<Extent>, paths: map<(u32, u32, u64), PathEntry>)

  function End(e: Extent): u64 { SatAdd(e.sector, e.sectors) }

  /** The sectors an extent speaks for; an end past 2^64 - 1 is cut off there. */
  predicate Covers(e: Extent, x: int) { e.sector <= x < End(e) }

  // ---- the updates, as functions of the store ----

  predicate Stale(e: Extent, now: u64) { SatSub(now, e.ts) > TTL }

  function DropStale(xs: seq<Extent>, now: u64): seq<Extent> {
    if xs != [] && Stale(xs[0], now) then DropStale(xs[1..], now) else xs
  }

  function Prune(s: Store, now: u64): Store {
    Store(DropStale(s.extents, now),
          map k | k in s.paths && SatSub(now, s.paths[k].ts) <= PATH_TTL :: s.paths[k])
  }

  function Push(xs: seq<Extent>, e: Extent): seq<Extent> {
    (if |xs| == MAX_EXTENTS then xs[1..] else xs) + [e]
  }

  function PushAll(xs: seq<Extent>, ys: seq<Extent>): seq<Extent>
    decreases |ys|
  {
    if ys == [] then xs else PushAll(Push(xs, ys[0]), ys[1..])
  }

  predicate SameRange(a: Extent, b: Extent) {
    a.device == b.device && a.fsDevice == b.fsDevice && a.sector == b.sector &&
    a.sectors == b.sectors && a.inode == b.inode
  }

  /** Position of the newest extent with the same range and inode, or `|xs|`. */
  function FindSame(xs: seq<Extent>, e: Extent): (i: nat)
    ensures i <= |xs| && (i < |xs| ==> SameRange(xs[i], e))
  {
    if xs == [] then 0
    else if SameRange(xs[|xs| - 1], e) then |xs| - 1
    else
      var i := FindSame(xs[..|xs| - 1], e);
      if i == |xs| - 1 then |xs| else i
  }

  function ObserveRaw(s: Store, e: Extent): Store {
    if e.sectors == 0 then s
    else
      var t := Prune(s, e.ts);
      var i := FindSame(t.extents, e);
      t.(extents := if i < |t.extents| then t.extents[i := e] else Push(t.extents, e))
  }

  predicate Overlaps(e: Extent, r: Remap) {
    && (e.device == r.oldDevice || e.device == r.device)
    && e.ts <= r.ts
    && e.sector < SatAdd(r.oldSector, r.sectors)
    && r.oldSector < End(e)
  }

  /** The overlapping part of `e`, moved to the remap's target at the same relative offset. */
  function Translate(e: Extent, r: Remap): Extent {
    var from := Max(e.sector, r.oldSector);
    var to := Min(End(e), SatAdd(r.oldSector, r.sectors));
    Extent(r.ts, r.device, e.fsDevice, SatAdd(r.sector, Max(from - r.oldSector, 0)),
           Min(Max(to - from, 0), U32_MAX), e.inode, e.key, e.pid, e.tid)
  }

  function TranslateAll(xs: seq<Extent>, r: Remap): seq<Extent> {
    if xs == [] then []
    else TranslateAll(xs[..|xs| - 1], r) +
         if Overlaps(xs[|xs| - 1], r) then [Translate(xs[|xs| - 1], r)] else []
  }

  function ObserveRemap(s: Store, r: Remap): Store {
    if r.sectors == 0 then s
    else
      var t := Prune(s, r.ts);
      t.(extents := PushAll(t.extents, TranslateAll(t.extents, r)))
  }

  function PathKey(i: Identity): (u32, u32, u64) { (i.major, i.minor, i.inode) }

  function ObserveFileIo(s: Store, p: PathEntry): Store {
    s.(paths := s.paths[PathKey(p.identity) := p])
  }

  function IssueEnd(q: Issue): u64 { SatAdd(q.sector, q.sectors) }

  predicate Matches(e: Extent, q: Issue) {
    && e.device == EncodeDevice(q.device)
    && e.ts <= q.ts
    && e.sector < IssueEnd(q)
    && q.sector < End(e)
  }

  function BaseKey(e: Extent): (u32, u32, u64) {
    var (major, minor) := DecodeDevice(e.fsDevice);
    (major, minor, e.inode)
  }

  function OriginOf(e: Extent, paths: map<(u32, u32, u64), PathEntry>): Origin {
    var k := BaseKey(e);
    if k in paths then Origin(paths[k].identity, Some(paths[k].path), e.key, e.pid, e.tid)
    else Origin(Identity(k.0, k.1, k.2, None, None), None, e.key, e.pid, e.tid)
  }

  /** Origins of the matching extents, the first of each identity kept. */
  function OriginsOf(xs: seq<Extent>, q: Issue, paths: map<(u32, u32, u64), PathEntry>): seq<Origin> {
    if xs == [] then []
    else
      var n := |xs| - 1;
      var before := OriginsOf(xs[..n], q, paths);
      var o := OriginOf(xs[n], paths);
      if Matches(xs[n], q) && forall k :: 0 <= k < |before| ==> before[k].file != o.file
      then before + [o] else before
  }

  function Step(s: Store, e: Event): Store {
    match e
    case Raw(x) => ObserveRaw(s, x)
    case Remapped(r) => ObserveRemap(s, r)
    case FileIo(p) => ObserveFileIo(s, p)
    case Issued(q) => Prune(s, q.ts)
  }

  function After(h: seq<Event>): Store {
    if h == [] then Store([], map[]) else Step(After(h[..|h| - 1]), h[|h| - 1])
  }

  // ---- what the events themselves say ----

  /** The first `n` events prove that sector `x` of `device` holds data of `inode` on filesystem
      `fs`: the filesystem said so, or a remap brought it there from a sector proved by earlier
      events, at the same relative offset. */
  ghost predicate Proved(h: seq<Event>, n: nat, device: u32, x: int, fs: u32, inode: u64)
    requires n <= |h|
    decreases n
  {
    n > 0 &&
    (Proved(h, n - 1, device, x, fs, inode) ||
     match h[n - 1]
     case Raw(e) => e.device == device && e.fsDevice == fs && e.inode == inode && Covers(e, x)
     case Remapped(r) =>
       var y := r.oldSector + (x - r.sector);
       && r.device == device && 0 <= x < U64_MAX
       && r.oldSector <= y < SatAdd(r.oldSector, r.sectors)
       && (Proved(h, n - 1, r.oldDevice, y, fs, inode) || Proved(h, n - 1, r.device, y, fs, inode))
     case _ => false)
  }

  ghost predicate Claims(e: Extent, device: u32, x: int, fs: u32, inode: u64) {
    e.device == device && e.fsDevice == fs && e.inode == inode && Covers(e, x)
  }

  /** Every sector of every extent is proved by the history. */
  ghost predicate Sound(xs: seq<Extent>, h: seq<Event>) {
    forall i, x :: 0 <= i < |xs| && Covers(xs[i], x) ==>
      Proved(h, |h|, xs[i].device, x, xs[i].fsDevice, xs[i].inode)
  }

  lemma {:induction false} DropStaleSuffix(xs: seq<Extent>, now: u64)
    ensures |DropStale(xs, now)| <= |xs|
    ensures DropStale(xs, now) == xs[|xs| - |DropStale(xs, now)|..]
  {
    if xs != [] && Stale(xs[0], now) { DropStaleSuffix(xs[1..], now); }
  }

  lemma {:induction false} ProvedGrows(h: seq<Event>, e: Event, n: nat, device: u32, x: int, fs: u32, inode: u64)
    requires n <= |h|
    ensures Proved(h + [e], n, device, x, fs, inode) == Proved(h, n, device, x, fs, inode)
    decreases n
  {
    if n > 0 {
      ProvedGrows(h, e, n - 1, device, x, fs, inode);
      if h[n - 1].Remapped? {
        var r := h[n - 1].remap;
        var y := r.oldSector + (x - r.sector);
        ProvedGrows(h, e, n - 1, r.oldDevice, y, fs, inode);
        ProvedGrows(h, e, n - 1, r.device, y, fs, inode);
      }
    }
  }

  lemma SoundGrows(xs: seq<Extent>, h: seq<Event>, e: Event)
    requires Sound(xs, h)
    ensures Sound(xs, h + [e])
  {
    forall i, x | 0 <= i < |xs| && Covers(xs[i], x)
      ensures Proved(h + [e], |h| + 1, xs[i].device, x, xs[i].fsDevice, xs[i].inode)
    {
      ProvedGrows(h, e, |h|, xs[i].device, x, xs[i].fsDevice, xs[i].inode);
    }
  }

  /** A translated sector is the remap's image of one sector of the source extent. */
  lemma TranslateCovers(e: Extent, r: Remap, x: int)
    requires Overlaps(e, r)
    ensures Covers(Translate(e, r), x) <==>
      x < U64_MAX &&
      var y := r.oldSector + (x - r.sector);
      r.oldSector <= y < SatAdd(r.oldSector, r.sectors) && Covers(e, y)
  {
  }

  lemma {:induction false} PushAllMembers(xs: seq<Extent>, ys: seq<Extent>)
    requires |xs| <= MAX_EXTENTS
    ensures |PushAll(xs, ys)| <= MAX_EXTENTS
    ensures forall i :: 0 <= i < |PushAll(xs, ys)| ==> PushAll(xs, ys)[i] in xs || PushAll(xs, ys)[i] in ys
    ensures |xs| + |ys| <= MAX_EXTENTS ==> PushAll(xs, ys) == xs + ys
    decreases |ys|
  {
    if ys != [] {
      PushAllMembers(Push(xs, ys[0]), ys[1..]);
      assert ys == [ys[0]] + ys[1..];
      assert xs + ys == xs + [ys[0]] + ys[1..];
    }
  }

  lemma {:induction false} TranslateAllMembers(xs: seq<Extent>, r: Remap, t: Extent)
    ensures t in TranslateAll(xs, r) <==>
      exists i :: 0 <= i < |xs| && Overlaps(xs[i], r) && t == Translate(xs[i], r)
  {
    if xs != [] {
      var n := |xs| - 1;
      TranslateAllMembers(xs[..n], r, t);
      assert forall i :: 0 <= i < n ==> xs[..n][i] == xs[i];
      if exists i :: 0 <= i < n && Overlaps(xs[i], r) && t == Translate(xs[i], r) {
        var i :| 0 <= i < n && Overlaps(xs[i], r) && t == Translate(xs[i], r);
        assert Overlaps(xs[..n][i], r);
      }
    }
  }

  // ---- soundness ----

  lemma TranslatedSound(xs: seq<Extent>, h: seq<Event>, r: Remap, t: Extent, x: int)
    requires Sound(xs, h) && t in TranslateAll(xs, r) && Covers(t, x)
    ensures Proved(h + [Remapped(r)], |h| + 1, t.device, x, t.fsDevice, t.inode)
  {
    TranslateAllMembers(xs, r, t);
    var i :| 0 <= i < |xs| && Overlaps(xs[i], r) && t == Translate(xs[i], r);
    TranslateCovers(xs[i], r, x);
    var y := r.oldSector + (x - r.sector);
    assert Proved(h, |h|, xs[i].device, y, xs[i].fsDevice, xs[i].inode);
    ProvedGrows(h, Remapped(r), |h|, xs[i].device, y, xs[i].fsDevice, xs[i].inode);
  }

  lemma SuffixSound(xs: seq<Extent>, h: seq<Event>, now: u64)
    requires Sound(xs, h)
    ensures Sound(DropStale(xs, now), h) && |DropStale(xs, now)| <= |xs|
  {
    DropStaleSuffix(xs, now);
  }

  lemma RemapSound(xs: seq<Extent>, h: seq<Event>, r: Remap)
    requires Sound(xs, h) && |xs| <= MAX_EXTENTS
    ensures Sound(PushAll(xs, TranslateAll(xs, r)), h + [Remapped(r)])
  {
    var ys := TranslateAll(xs, r);
    var zs := PushAll(xs, ys);
    PushAllMembers(xs, ys);
    SoundGrows(xs, h, Remapped(r));
    forall i, x | 0 <= i < |zs| && Covers(zs[i], x)
      ensures Proved(h + [Remapped(r)], |h| + 1, zs[i].device, x, zs[i].fsDevice, zs[i].inode)
    {
      if zs[i] in ys { TranslatedSound(xs, h, r, zs[i], x); }
    }
  }

  lemma StepSound(s: Store, h: seq<Event>, e: Event)
    requires Sound(s.extents, h) && |s.extents| <= MAX_EXTENTS
    ensures Sound(Step(s, e).extents, h + [e]) && |Step(s, e).extents| <= MAX_EXTENTS
  {
    match e {
      case Raw(x) =>
        SuffixSound(s.extents, h, x.ts);
        SoundGrows(DropStale(s.extents, x.ts), h, e);
        SoundGrows(s.extents, h, e);
      case Remapped(r) =>
        SuffixSound(s.extents, h, r.ts);
        var xs := DropStale(s.extents, r.ts);
        RemapSound(xs, h, r);
        PushAllMembers(xs, TranslateAll(xs, r));
        SoundGrows(s.extents, h, e);
      case FileIo(p) => SoundGrows(s.extents, h, e);
      case Issued(q) => SuffixSound(s.extents, h, q.ts); SoundGrows(DropStale(s.extents, q.ts), h, e);
    }
  }

  /** In every reachable state each remembered sector is proved by the events seen, and the number
      of extents stays within the capacity. */
  lemma {:induction false} ExtentsSound(h: seq<Event>)
    ensures Sound(After(h).extents, h)
    ensures |After(h).extents| <= MAX_EXTENTS
  {
    if h != [] {
      var n := |h| - 1;
      ExtentsSound(h[..n]);
      StepSound(After(h[..n]), h[..n], h[n]);
      assert h[..n] + [h[n]] == h;
    }
  }

  // ---- completeness while nothing is dropped ----

  /** The event expires nothing, overflows nothing and is not older than what is remembered. */
  ghost predicate Keeps(s: Store, e: Event) {
    match e
    case Raw(x) => x.sectors == 0 ||
      (DropStale(s.extents, x.ts) == s.extents && (FindSame(s.extents, x) < |s.extents| || |s.extents| < MAX_EXTENTS))
    case Remapped(r) => r.sectors == 0 ||
      (DropStale(s.extents, r.ts) == s.extents && |s.extents| + |TranslateAll(s.extents, r)| <= MAX_EXTENTS &&
       forall i :: 0 <= i < |s.extents| ==> s.extents[i].ts <= r.ts)
    case FileIo(p) => true
    case Issued(q) => DropStale(s.extents, q.ts) == s.extents
  }

  ghost predicate Lossless(h: seq<Event>) {
    forall n :: 0 <= n < |h| ==> Keeps(After(h[..n]), h[n])
  }

  ghost predicate Known(xs: seq<Extent>, device: u32, x: int, fs: u32, inode: u64) {
    exists i :: 0 <= i < |xs| && Claims(xs[i], device, x, fs, inode)
  }

  /** A kept step forgets no claim. */
  lemma KnownGrows(s: Store, e: Event, device: u32, x: int, fs: u32, inode: u64)
    requires Keeps(s, e) && |s.extents| <= MAX_EXTENTS && Known(s.extents, device, x, fs, inode)
    ensures Known(Step(s, e).extents, device, x, fs, inode)
  {
    var i :| 0 <= i < |s.extents| && Claims(s.extents[i], device, x, fs, inode);
    if e.Remapped? { PushAllMembers(s.extents, TranslateAll(s.extents, e.remap)); }
    var t := Step(s, e).extents;
    assert Claims(t[i], device, x, fs, inode);
  }

  lemma RawKnown(s: Store, e: Extent, x: int)
    requires Keeps(s, Raw(e)) && Covers(e, x)
    ensures Known(ObserveRaw(s, e).extents, e.device, x, e.fsDevice, e.inode)
  {
    var t := ObserveRaw(s, e).extents;
    var i := FindSame(s.extents, e);
    assert Claims(t[if i < |s.extents| then i else |t| - 1], e.device, x, e.fsDevice, e.inode);
  }

  lemma RemapKnown(s: Store, r: Remap, source: u32, x: int, fs: u32, inode: u64)
    requires Keeps(s, Remapped(r)) && |s.extents| <= MAX_EXTENTS && 0 <= x < U64_MAX
    requires source == r.oldDevice || source == r.device
    requires var y := r.oldSector + (x - r.sector);
      r.oldSector <= y < SatAdd(r.oldSector, r.sectors) && Known(s.extents, source, y, fs, inode)
    ensures Known(ObserveRemap(s, r).extents, r.device, x, fs, inode)
  {
    var y := r.oldSector + (x - r.sector);
    var i :| 0 <= i < |s.extents| && Claims(s.extents[i], source, y, fs, inode);
    var t := Translate(s.extents[i], r);
    TranslateCovers(s.extents[i], r, x);
    TranslateAllMembers(s.extents, r, t);
    var ys := TranslateAll(s.extents, r);
    PushAllMembers(s.extents, ys);
    var k :| 0 <= k < |ys| && ys[k] == t;
    assert Claims(ObserveRemap(s, r).extents[|s.extents| + k], r.device, x, fs, inode);
  }

  /** What the last event can add to the proved sectors. */
  lemma ProvedLast(g: seq<Event>, e: Event, device: u32, x: int, fs: u32, inode: u64)
    requires Proved(g + [e], |g| + 1, device, x, fs, inode) && !Proved(g, |g|, device, x, fs, inode)
    ensures e.Raw? || e.Remapped?
    ensures e.Raw? ==> Claims(e.extent, device, x, fs, inode)
    ensures e.Remapped? ==> Moves(g, e.remap, device, x, fs, inode)
  {
    ProvedGrows(g, e, |g|, device, x, fs, inode);
    if e.Remapped? {
      var y := e.remap.oldSector + (x - e.remap.sector);
      ProvedGrows(g, e, |g|, e.remap.oldDevice, y, fs, inode);
      ProvedGrows(g, e, |g|, e.remap.device, y, fs, inode);
    }
  }

  /** The remap carries a sector proved on one of its devices to `x`. */
  ghost predicate Moves(g: seq<Event>, r: Remap, device: u32, x: int, fs: u32, inode: u64) {
    var y := r.oldSector + (x - r.sector);
    && r.device == device && 0 <= x < U64_MAX
    && r.oldSector <= y < SatAdd(r.oldSector, r.sectors)
    && (Proved(g, |g|, r.oldDevice, y, fs, inode) || Proved(g, |g|, r.device, y, fs, inode))
  }

  lemma LosslessPrefix(g: seq<Event>, e: Event)
    requires Lossless(g + [e])
    ensures Lossless(g) && Keeps(After(g), e)
  {
    var h := g + [e];
    forall n | 0 <= n < |g| ensures Keeps(After(g[..n]), g[n]) {
      assert g[..n] == h[..n] && h[n] == g[n];
    }
    assert h[..|g|] == g && h[|g|] == e;
  }

  lemma AfterPush(g: seq<Event>, e: Event)
    ensures After(g + [e]) == Step(After(g), e)
  {
    assert (g + [e])[..|g|] == g;
  }

  lemma RemapStepKnown(s: Store, r: Remap, source: u32, x: int, fs: u32, inode: u64)
    requires Keeps(s, Remapped(r)) && |s.extents| <= MAX_EXTENTS && 0 <= x < U64_MAX
    requires source == r.oldDevice || source == r.device
    requires var y := r.oldSector + (x - r.sector);
      r.oldSector <= y < SatAdd(r.oldSector, r.sectors) && Known(s.extents, source, y, fs, inode)
    ensures Known(Step(s, Remapped(r)).extents, r.device, x, fs, inode)
  {
    RemapKnown(s, r, source, x, fs, inode);
  }

  lemma RawStepKnown(s: Store, e: Extent, device: u32, x: int, fs: u32, inode: u64)
    requires Keeps(s, Raw(e)) && Claims(e, device, x, fs, inode)
    ensures Known(Step(s, Raw(e)).extents, device, x, fs, inode)
  {
    RawKnown(s, e, x);
  }

  ghost predicate AllKnown(s: Store, g: seq<Event>, fs: u32, inode: u64) {
    forall device: u32, x: int :: Proved(g, |g|, device, x, fs, inode) ==> Known(s.extents, device, x, fs, inode)
  }

  lemma NewKnown(s: Store, g: seq<Event>, e: Event, device: u32, x: int, fs: u32, inode: u64)
    requires AllKnown(s, g, fs, inode) && Keeps(s, e) && |s.extents| <= MAX_EXTENTS
    requires Proved(g + [e], |g| + 1, device, x, fs, inode) && !Proved(g, |g|, device, x, fs, inode)
    ensures Known(Step(s, e).extents, device, x, fs, inode)
  {
    ProvedLast(g, e, device, x, fs, inode);
    if e.Raw? {
      RawStepKnown(s, e.extent, device, x, fs, inode);
    } else {
      var r := e.remap;
      var y := r.oldSector + (x - r.sector);
      RemapStepKnown(s, r, if Proved(g, |g|, r.oldDevice, y, fs, inode) then r.oldDevice else r.device, x, fs, inode);
    }
  }

  lemma StepKnown(s: Store, g: seq<Event>, e: Event, fs: u32, inode: u64)
    requires AllKnown(s, g, fs, inode) && Keeps(s, e) && |s.extents| <= MAX_EXTENTS
    ensures AllKnown(Step(s, e), g + [e], fs, inode)
  {
    forall device: u32, x: int | Proved(g + [e], |g| + 1, device, x, fs, inode)
      ensures Known(Step(s, e).extents, device, x, fs, inode)
    {
      if Proved(g, |g|, device, x, fs, inode) {
        KnownGrows(s, e, device, x, fs, inode);
      } else {
        NewKnown(s, g, e, device, x, fs, inode);
      }
    }
  }

  /** As long as nothing was dropped every proved sector is known. */
  lemma {:induction false} ProvedKnown(h: seq<Event>, fs: u32, inode: u64)
    requires Lossless(h)
    ensures AllKnown(After(h), h, fs, inode)
  {
    if h != [] {
      var g, e := h[..|h| - 1], h[|h| - 1];
      assert g + [e] == h;
      LosslessPrefix(g, e);
      ExtentsSound(g);
      ProvedKnown(g, fs, inode);
      AfterPush(g, e);
      StepKnown(After(g), g, e, fs, inode);
    }
  }

  /** As long as nothing was dropped, the remembered extents claim exactly the proved sectors. */
  lemma ExtentsExact(h: seq<Event>, device: u32, x: int, fs: u32, inode: u64)
    requires Lossless(h)
    ensures Known(After(h).extents, device, x, fs, inode) <==> Proved(h, |h|, device, x, fs, inode)
  {
    ExtentsSound(h);
    ProvedKnown(h, fs, inode);
  }

  // ---- the origins reported for an issue ----

  ghost predicate PathsOk(paths: map<(u32, u32, u64), PathEntry>) {
    forall k :: k in paths ==> PathKey(paths[k].identity) == k
  }

  lemma {:induction false} PathsStayOk(h: seq<Event>)
    ensures PathsOk(After(h).paths)
  {
    if h != [] { PathsStayOk(h[..|h| - 1]); }
  }

  ghost predicate FromMatch(o: Origin, xs: seq<Extent>, q: Issue, paths: map<(u32, u32, u64), PathEntry>) {
    exists i :: 0 <= i < |xs| && Matches(xs[i], q) && o == OriginOf(xs[i], paths)
  }

  ghost predicate Reported(os: seq<Origin>, file: Identity) {
    exists k :: 0 <= k < |os| && os[k].file == file
  }

  lemma SameKeySameFile(a: Extent, b: Extent, paths: map<(u32, u32, u64), PathEntry>)
    requires PathsOk(paths)
    ensures PathKey(OriginOf(a, paths).file) == BaseKey(a)
    ensures PathKey(OriginOf(a, paths).file) == PathKey(OriginOf(b, paths).file) ==>
      OriginOf(a, paths).file == OriginOf(b, paths).file
  {
  }

  /** Every origin is that of a matching extent ... */
  lemma {:induction false} OriginsMatch(xs: seq<Extent>, q: Issue, paths: map<(u32, u32, u64), PathEntry>, k: nat)
    requires k < |OriginsOf(xs, q, paths)|
    ensures FromMatch(OriginsOf(xs, q, paths)[k], xs, q, paths)
  {
    var n, os := |xs| - 1, OriginsOf(xs, q, paths);
    var before := OriginsOf(xs[..n], q, paths);
    if k < |before| {
      OriginsMatch(xs[..n], q, paths, k);
      var i :| 0 <= i < n && Matches(xs[..n][i], q) && os[k] == OriginOf(xs[..n][i], paths);
      assert Matches(xs[i], q) && os[k] == OriginOf(xs[i], paths);
    } else {
      assert Matches(xs[n], q) && os[k] == OriginOf(xs[n], paths);
    }
  }

  /** ... every matching extent's file is reported ... */
  lemma {:induction false} MatchesReported(xs: seq<Extent>, q: Issue, paths: map<(u32, u32, u64), PathEntry>, i: nat)
    requires i < |xs| && Matches(xs[i], q)
    ensures Reported(OriginsOf(xs, q, paths), OriginOf(xs[i], paths).file)
  {
    var n, os, file := |xs| - 1, OriginsOf(xs, q, paths), OriginOf(xs[i], paths).file;
    var before := OriginsOf(xs[..n], q, paths);
    if i < n {
      MatchesReported(xs[..n], q, paths, i);
      var k :| 0 <= k < |before| && before[k].file == file;
      assert os[k].file == file;
    } else if |os| > |before| {
      assert os[|before|].file == file;
    } else {
      var k :| 0 <= k < |before| && before[k].file == file;
      assert os[k].file == file;
    }
  }

  /** ... and no file twice, not even under another generation or mount. */
  lemma {:induction false} OriginsDistinct(
    xs: seq<Extent>, q: Issue, paths: map<(u32, u32, u64), PathEntry>, j: nat, k: nat)
    requires PathsOk(paths) && j < k < |OriginsOf(xs, q, paths)|
    ensures PathKey(OriginsOf(xs, q, paths)[j].file) != PathKey(OriginsOf(xs, q, paths)[k].file)
  {
    var n := |xs| - 1;
    var before := OriginsOf(xs[..n], q, paths);
    if k < |before| {
      OriginsDistinct(xs[..n], q, paths, j, k);
    } else {
      OriginsMatch(xs[..n], q, paths, j);
      var i :| 0 <= i < n && Matches(xs[..n][i], q) && before[j] == OriginOf(xs[..n][i], paths);
      SameKeySameFile(xs[..n][i], xs[n], paths);
    }
  }

  /** Remembered extents are never empty. */
  ghost predicate NonEmpty(xs: seq<Extent>) {
    forall i :: 0 <= i < |xs| ==> xs[i].sectors > 0
  }

  lemma TranslatedNonEmpty(xs: seq<Extent>, r: Remap)
    requires NonEmpty(xs) && r.sectors > 0
    ensures NonEmpty(TranslateAll(xs, r))
  {
    var ys := TranslateAll(xs, r);
    forall k | 0 <= k < |ys| ensures ys[k].sectors > 0 {
      TranslateAllMembers(xs, r, ys[k]);
    }
  }

  lemma {:induction false} ExtentsNonEmpty(h: seq<Event>)
    ensures NonEmpty(After(h).extents)
  {
    if h != [] {
      var n := |h| - 1;
      ExtentsNonEmpty(h[..n]);
      ExtentsSound(h[..n]);
      StepNonEmpty(After(h[..n]), h[n]);
    }
  }

  lemma PruneNonEmpty(xs: seq<Extent>, now: u64)
    requires NonEmpty(xs)
    ensures NonEmpty(DropStale(xs, now)) && |DropStale(xs, now)| <= |xs|
  {
    DropStaleSuffix(xs, now);
  }

  lemma PushAllNonEmpty(xs: seq<Extent>, ys: seq<Extent>)
    requires NonEmpty(xs) && NonEmpty(ys) && |xs| <= MAX_EXTENTS
    ensures NonEmpty(PushAll(xs, ys))
  {
    PushAllMembers(xs, ys);
  }

  lemma RemapNonEmpty(s: Store, r: Remap)
    requires NonEmpty(s.extents) && |s.extents| <= MAX_EXTENTS
    ensures NonEmpty(ObserveRemap(s, r).extents)
  {
    if r.sectors > 0 {
      var xs := DropStale(s.extents, r.ts);
      PruneNonEmpty(s.extents, r.ts);
      TranslatedNonEmpty(xs, r);
      PushAllNonEmpty(xs, TranslateAll(xs, r));
    }
  }

  lemma StepNonEmpty(s: Store, e: Event)
    requires NonEmpty(s.extents) && |s.extents| <= MAX_EXTENTS
    ensures NonEmpty(Step(s, e).extents)
  {
    match e
    case Raw(x) => PruneNonEmpty(s.extents, x.ts);
    case Remapped(r) => RemapNonEmpty(s, r);
    case FileIo(p) =>
    case Issued(q) => PruneNonEmpty(s.extents, q.ts);
  }

  ghost predicate SharesSector(e: Extent, q: Issue) {
    exists x :: q.sector <= x < IssueEnd(q) && Covers(e, x)
  }

  /** A match means a common sector exactly when the issue spans at least one sector: an empty
      request strictly inside an extent is matched too. */
  lemma MatchMeansOverlap(e: Extent, q: Issue)
    requires Matches(e, q) && e.sectors > 0
    ensures SharesSector(e, q) <==> q.sector < IssueEnd(q)
  {
    if q.sector < IssueEnd(q) { assert Covers(e, Max(e.sector, q.sector)); }
  }

  lemma EmptyIssueMatches()
    ensures var e := Extent(1, 8, 8, 0, 16, 5, 0, 1, 1);
      var q := Issue(1, (0, 8), 8, 0);
      Matches(e, q) && !SharesSector(e, q)
  {
  }

  ghost predicate OwnsSector(h: seq<Event>, q: Issue, file: Identity, x: int, fs: u32) {
    && q.sector <= x < IssueEnd(q) && DecodeDevice(fs) == (file.major, file.minor)
    && Proved(h, |h|, EncodeDevice(q.device), x, fs, file.inode)
  }

  /** Every origin reported for a request of at least one sector names a file that provably owns a
      sector of that request. */
  lemma OriginsSound(h: seq<Event>, q: Issue, k: nat)
    requires q.sector < IssueEnd(q)
    requires var s := Prune(After(h), q.ts); k < |OriginsOf(s.extents, q, s.paths)|
    ensures var s := Prune(After(h), q.ts);
      exists x: int, fs: u32 :: OwnsSector(h, q, OriginsOf(s.extents, q, s.paths)[k].file, x, fs)
  {
    var s := Prune(After(h), q.ts);
    var g := h + [Issued(q)];
    assert g[..|h|] == h && After(g) == s;
    ExtentsNonEmpty(g);
    ExtentsSound(h);
    SuffixSound(After(h).extents, h, q.ts);
    PathsStayOk(g);
    OriginsMatch(s.extents, q, s.paths, k);
    var o := OriginsOf(s.extents, q, s.paths)[k];
    var i :| 0 <= i < |s.extents| && Matches(s.extents[i], q) && o == OriginOf(s.extents[i], s.paths);
    OriginOwns(h, s, q, i);
  }

  lemma OriginOwns(h: seq<Event>, s: Store, q: Issue, i: nat)
    requires i < |s.extents| && Matches(s.extents[i], q) && q.sector < IssueEnd(q)
    requires Sound(s.extents, h) && PathsOk(s.paths) && NonEmpty(s.extents)
    ensures exists x: int, fs: u32 :: OwnsSector(h, q, OriginOf(s.extents[i], s.paths).file, x, fs)
  {
    var e := s.extents[i];
    MatchMeansOverlap(e, q);
    SameKeySameFile(e, e, s.paths);
    var x :| q.sector <= x < IssueEnd(q) && Covers(e, x);
    assert OwnsSector(h, q, OriginOf(e, s.paths).file, x, e.fsDevice);
  }

  /** `F2fsExtentAttributor`. */
  class Attributor {
    var extents: seq<Extent>
    var paths: map<(u32, u32, u64), PathEntry>

    ghost function Model(): Store
      reads this
    {
      Store(extents, paths)
    }

    constructor ()
      ensures Model() == After([])
    {
      extents, paths := [], map[];
    }

    method PruneAt(now: u64)
      modifies this
      ensures Model() == Prune(old(Model()), now)
    {
      while extents != [] && Stale(extents[0], now)
        invariant paths == old(paths) && DropStale(extents, now) == DropStale(old(extents), now)
        decreases |extents|
      {
        extents := extents[1..];
      }
      paths := map k | k in paths && SatSub(now, paths[k].ts) <= PATH_TTL :: paths[k];
    }

    method PushBack(e: Extent)
      modifies this`extents
      ensures extents == Push(old(extents), e)
    {
      if |extents| == MAX_EXTENTS { extents := extents[1..]; }
      extents := extents + [e];
    }

    method ObserveRawExtent(e: Extent)
      modifies this
      ensures Model() == Step(old(Model()), Raw(e))
    {
      if e.sectors == 0 { return; }
      PruneAt(e.ts);
      ghost var xs := extents;
      var i := |extents|;
      assert xs[..|xs|] == xs;
      while i > 0
        invariant 0 <= i <= |xs| && extents == xs
        invariant FindSame(xs, e) == if FindSame(xs[..i], e) < i then FindSame(xs[..i], e) else |xs|
      {
        assert xs[..i][..i - 1] == xs[..i - 1];
        i := i - 1;
        if SameRange(extents[i], e) {
          extents := extents[i := extents[i].(ts := e.ts, key := e.key, pid := e.pid, tid := e.tid)];
          return;
        }
      }
      PushBack(e);
    }

    method ObserveBioRemap(r: Remap)
      modifies this
      ensures Model() == Step(old(Model()), Remapped(r))
    {
      if r.sectors == 0 { return; }
      PruneAt(r.ts);
      var translated := [];
      for i := 0 to |extents|
        invariant translated == TranslateAll(extents[..i], r)
      {
        assert extents[..i + 1][..i] == extents[..i];
        if Overlaps(extents[i], r) { translated := translated + [Translate(extents[i], r)]; }
      }
      assert extents[..|extents|] == extents;
      ghost var xs := extents;
      for i := 0 to |translated|
        invariant paths == old(Prune(Model(), r.ts).paths)
        invariant PushAll(xs, translated) == PushAll(extents, translated[i..])
      {
        assert translated[i..][1..] == translated[i + 1..];
        PushBack(translated[i]);
      }
    }

    method ObserveFile(p: PathEntry)
      modifies this
      ensures Model() == Step(old(Model()), FileIo(p))
    {
      paths := paths[PathKey(p.identity) := p];
    }

    method OriginsForIssue(q: Issue) returns (origins: seq<Origin>)
      modifies this
      ensures Model() == Step(old(Model()), Issued(q))
      ensures origins == OriginsOf(extents, q, paths)
    {
      PruneAt(q.ts);
      origins := [];
      var seen: set<Identity> := {};
      for i := 0 to |extents|
        invariant Model() == Prune(old(Model()), q.ts)
        invariant origins == OriginsOf(extents[..i], q, paths)
        invariant forall f :: f in seen <==> Reported(origins, f)
      {
        assert extents[..i + 1][..i] == extents[..i];
        ghost var before := origins;
        var o := OriginOf(extents[i], paths);
        if Matches(extents[i], q) && o.file !in seen {
          assert !Reported(before, o.file);
          seen := seen + {o.file};
          origins := origins + [o];
          forall f ensures f in seen <==> Reported(origins, f) {
            if f == o.file { assert origins[|before|].file == f; }
            if Reported(before, f) {
              var k :| 0 <= k < |before| && before[k].file == f;
              assert origins[k].file == f;
            }
          }
        } else if Matches(extents[i], q) {
          assert Reported(before, o.file);
        }
      }
      assert extents[..|extents|] == extents;
    }
  }
}
