/**
 Which file records belong to a cohort of block requests. Per file identity the requests' time
 windows are sorted and merged, and each record is looked up with a binary search. The reference
 is a scan over all requests and origins.
 */
module FileEvidence {
  import opened Common

  const MARGIN: u64 := 30_000_000_000

  datatype Window = Window(low: u64, high: u64)

  datatype FileNode = FileNode(start: u64, end: u64, pid: u32, tid: u32)

  /** A completed request: its timestamps, the file operations of its graph and its file origins. */
  datatype Io = Io(insert: Option<u64>, issue: u64, complete: u64, nodes: seq<FileNode>, origins: seq<Identity>)

  datatype File = File(node: FileNode, identity: Option<Identity>)

  type Key = (u32, u32, u64)

  function KeyOf(id: Identity): Key { (id.major, id.minor, id.inode) }

  function WindowOf(io: Io): Window {
    Window(SatSub(if io.insert.Some? then io.insert.value else io.issue, MARGIN), SatAdd(io.complete, MARGIN))
  }

  predicate Compatible(a: Identity, b: Identity) {
    && !(a.generation.Some? && b.generation.Some? && a.generation != b.generation)
    && !(a.mount.Some? && b.mount.Some? && a.mount != b.mount)
  }

  // ---- the reference ----

  ghost predicate Direct(ios: seq<Io>, f: File) {
    exists i :: 0 <= i < |ios| && f.node in ios[i].nodes
  }

  predicate Overlaps(w: Window, f: FileNode) { w.low <= f.end && f.start <= w.high }

  /** Request `i` of the first `n` has origin `id` and window `w`. */
  ghost predicate Collected(ios: seq<Io>, n: nat, id: Identity, w: Window)
    requires n <= |ios|
  {
    exists i :: 0 <= i < n && id in ios[i].origins && w == WindowOf(ios[i])
  }

  ghost predicate ByOrigin(ios: seq<Io>, f: File, id: Identity, w: Window) {
    && f.identity.Some? && KeyOf(id) == KeyOf(f.identity.value) && Compatible(f.identity.value, id)
    && Collected(ios, |ios|, id, w) && Overlaps(w, f.node)
  }

  /** The naive scan. */
  ghost predicate Related(ios: seq<Io>, f: File) {
    Direct(ios, f) || exists id, w :: ByOrigin(ios, f, id, w)
  }

  ghost predicate Ordered(ios: seq<Io>) {
    forall i :: 0 <= i < |ios| ==> WindowOf(ios[i]).low <= WindowOf(ios[i]).high
  }

  // ---- sorting and merging windows ----

  predicate LessEq(a: Window, b: Window) { a.low < b.low || (a.low == b.low && a.high <= b.high) }

  ghost predicate Sorted(ws: seq<Window>) {
    forall i, j :: 0 <= i < j < |ws| ==> LessEq(ws[i], ws[j])
  }

  function Insert(ws: seq<Window>, w: Window): seq<Window> {
    if ws == [] || LessEq(ws[|ws| - 1], w) then ws + [w]
    else Insert(ws[..|ws| - 1], w) + [ws[|ws| - 1]]
  }

  function Sort(ws: seq<Window>): seq<Window> {
    if ws == [] then [] else Insert(Sort(ws[..|ws| - 1]), ws[|ws| - 1])
  }

  lemma {:induction false} InsertAdds(ws: seq<Window>, w: Window)
    ensures multiset(Insert(ws, w)) == multiset(ws) + multiset{w}
  {
    if ws != [] && !LessEq(ws[|ws| - 1], w) {
      var n := |ws| - 1;
      InsertAdds(ws[..n], w);
      assert ws == ws[..n] + [ws[n]];
    }
  }

  lemma {:induction false} InsertSorts(ws: seq<Window>, w: Window)
    requires Sorted(ws)
    ensures Sorted(Insert(ws, w))
  {
    if ws != [] && !LessEq(ws[|ws| - 1], w) {
      var n := |ws| - 1;
      InsertSorts(ws[..n], w);
      InsertAdds(ws[..n], w);
      var t := Insert(ws[..n], w);
      forall i | 0 <= i < |t| ensures LessEq(t[i], ws[n]) {
        assert t[i] in multiset(t);
        assert t[i] == w || t[i] in ws[..n];
      }
    }
  }

  lemma {:induction false} SortSorts(ws: seq<Window>)
    ensures Sorted(Sort(ws)) && multiset(Sort(ws)) == multiset(ws)
  {
    if ws != [] {
      var n := |ws| - 1;
      SortSorts(ws[..n]);
      InsertSorts(Sort(ws[..n]), ws[n]);
      InsertAdds(Sort(ws[..n]), ws[n]);
      assert ws == ws[..n] + [ws[n]];
    }
  }

  lemma SortMembers(ws: seq<Window>, w: Window)
    ensures w in Sort(ws) <==> w in ws
  {
    SortSorts(ws);
    assert w in multiset(Sort(ws)) <==> w in multiset(ws);
  }

  function Absorb(ms: seq<Window>, w: Window): seq<Window> {
    var n := |ms| - 1;
    if ms != [] && w.low <= ms[n].high then ms[n := Window(ms[n].low, Max(ms[n].high, w.high))] else ms + [w]
  }

  function Merge(ws: seq<Window>): seq<Window> {
    if ws == [] then [] else Absorb(Merge(ws[..|ws| - 1]), ws[|ws| - 1])
  }

  ghost predicate AllOrdered(ws: seq<Window>) {
    forall i :: 0 <= i < |ws| ==> ws[i].low <= ws[i].high
  }

  ghost predicate Separate(ms: seq<Window>) {
    forall i, j :: 0 <= i < j < |ms| ==> ms[i].high < ms[j].low
  }

  /** Merged windows are separate, start with the first and do not run past the sorted input. */
  lemma {:induction false} MergeShape(ws: seq<Window>)
    requires Sorted(ws) && AllOrdered(ws)
    ensures AllOrdered(Merge(ws)) && Separate(Merge(ws))
    ensures ws == [] <==> Merge(ws) == []
    ensures ws != [] ==> Merge(ws)[|Merge(ws)| - 1].low <= ws[|ws| - 1].low
  {
    if ws != [] {
      var n := |ws| - 1;
      MergeShape(ws[..n]);
      if n > 0 { assert LessEq(ws[n - 1], ws[n]); }
      AbsorbShape(Merge(ws[..n]), ws[n]);
    }
  }

  lemma AbsorbShape(ms: seq<Window>, w: Window)
    requires AllOrdered(ms) && Separate(ms) && w.low <= w.high && (ms != [] ==> ms[|ms| - 1].low <= w.low)
    ensures AllOrdered(Absorb(ms, w)) && Separate(Absorb(ms, w))
    ensures Absorb(ms, w) != [] && Absorb(ms, w)[|Absorb(ms, w)| - 1].low <= w.low
  {
  }

  ghost predicate AnyOverlap(ws: seq<Window>, f: FileNode) {
    exists i :: 0 <= i < |ws| && Overlaps(ws[i], f)
  }

  /** As every window of a request: it reaches a margin from both ends of time. */
  predicate Margined(w: Window) { w.low <= U64_MAX - MARGIN && MARGIN <= w.high }

  ghost predicate AllMargined(ws: seq<Window>) {
    forall i :: 0 <= i < |ws| ==> Margined(ws[i])
  }

  /** The records on which merging has no effect: those that do not end more than one tick before
      they start, and those within a margin of either end of time. */
  predicate Unaffected(f: FileNode) {
    f.start <= f.end + 1 || f.start <= MARGIN || f.end >= U64_MAX - MARGIN
  }

  lemma AbsorbOverlap(ms: seq<Window>, w: Window, f: FileNode)
    requires Unaffected(f) && AllMargined(ms) && Margined(w) && (ms != [] ==> ms[|ms| - 1].low <= w.low)
    ensures AnyOverlap(Absorb(ms, w), f) <==> AnyOverlap(ms, f) || Overlaps(w, f)
    ensures AllMargined(Absorb(ms, w))
  {
    var after := Absorb(ms, w);
    if AnyOverlap(ms, f) {
      var i :| 0 <= i < |ms| && Overlaps(ms[i], f);
      assert Overlaps(after[i], f);
    }
    if Overlaps(w, f) { assert Overlaps(after[|after| - 1], f); }
    if AnyOverlap(after, f) {
      var i :| 0 <= i < |after| && Overlaps(after[i], f);
      assert (i < |ms| && Overlaps(ms[i], f)) || Overlaps(w, f);
    }
  }

  lemma {:induction false} MergedOverlap(sorted: seq<Window>, f: FileNode)
    requires Sorted(sorted) && AllOrdered(sorted) && AllMargined(sorted) && Unaffected(f)
    ensures AnyOverlap(Merge(sorted), f) <==> AnyOverlap(sorted, f)
    ensures AllMargined(Merge(sorted))
  {
    if sorted != [] {
      var n := |sorted| - 1;
      MergeShape(sorted[..n]);
      if n > 0 { assert LessEq(sorted[n - 1], sorted[n]); }
      MergedOverlap(sorted[..n], f);
      AbsorbOverlap(Merge(sorted[..n]), sorted[n], f);
      LastOverlap(sorted, f);
    }
  }

  lemma LastOverlap(ws: seq<Window>, f: FileNode)
    requires ws != []
    ensures AnyOverlap(ws, f) <==> AnyOverlap(ws[..|ws| - 1], f) || Overlaps(ws[|ws| - 1], f)
  {
    var n := |ws| - 1;
    if AnyOverlap(ws[..n], f) {
      var i :| 0 <= i < n && Overlaps(ws[..n][i], f);
      assert Overlaps(ws[i], f);
    }
    if AnyOverlap(ws, f) {
      var i :| 0 <= i < |ws| && Overlaps(ws[i], f);
      assert i < n ==> Overlaps(ws[..n][i], f);
    }
  }

  lemma SortedOverlap(ws: seq<Window>, f: FileNode)
    ensures AnyOverlap(Sort(ws), f) <==> AnyOverlap(ws, f)
  {
    var sorted := Sort(ws);
    if AnyOverlap(ws, f) {
      var i :| 0 <= i < |ws| && Overlaps(ws[i], f);
      SortMembers(ws, ws[i]);
      var k :| 0 <= k < |sorted| && sorted[k] == ws[i];
      assert Overlaps(sorted[k], f);
    }
    if AnyOverlap(sorted, f) {
      var i :| 0 <= i < |sorted| && Overlaps(sorted[i], f);
      SortMembers(ws, sorted[i]);
      var k :| 0 <= k < |ws| && ws[k] == sorted[i];
      assert Overlaps(ws[k], f);
    }
  }

  lemma SortOrdered(ws: seq<Window>)
    requires AllOrdered(ws)
    ensures Sorted(Sort(ws)) && AllOrdered(Sort(ws))
    ensures AllMargined(ws) ==> AllMargined(Sort(ws))
  {
    SortSorts(ws);
    forall i | 0 <= i < |Sort(ws)| ensures Sort(ws)[i] in ws { SortMembers(ws, Sort(ws)[i]); }
  }

  /** For the records it does not affect, merging the windows of requests changes no answer. */
  lemma MergeOverlap(ws: seq<Window>, f: FileNode)
    requires AllOrdered(ws) && AllMargined(ws) && Unaffected(f)
    ensures AnyOverlap(Merge(Sort(ws)), f) <==> AnyOverlap(ws, f)
  {
    SortOrdered(ws);
    MergedOverlap(Sort(ws), f);
    SortedOverlap(ws, f);
  }

  ghost predicate Within(w: Window, ms: seq<Window>) {
    exists i :: 0 <= i < |ms| && ms[i].low <= w.low && w.high <= ms[i].high
  }

  lemma AbsorbContains(ms: seq<Window>, w: Window, v: Window)
    requires Within(v, ms) || v == w
    requires ms != [] ==> ms[|ms| - 1].low <= w.low
    ensures Within(v, Absorb(ms, w))
  {
    var after := Absorb(ms, w);
    if Within(v, ms) {
      var i :| 0 <= i < |ms| && ms[i].low <= v.low && v.high <= ms[i].high;
      assert after[i].low <= v.low && v.high <= after[i].high;
    } else {
      assert after[|after| - 1].low <= v.low && v.high <= after[|after| - 1].high;
    }
  }

  lemma {:induction false} MergeContains(ws: seq<Window>, v: Window)
    requires Sorted(ws) && AllOrdered(ws) && v in ws
    ensures Within(v, Merge(ws))
  {
    var n := |ws| - 1;
    MergeShape(ws[..n]);
    if n > 0 { assert LessEq(ws[n - 1], ws[n]); }
    if v in ws[..n] { MergeContains(ws[..n], v); }
    AbsorbContains(Merge(ws[..n]), ws[n], v);
  }

  /** Two windows with a common instant end up in one merged window. */
  lemma TouchingMerge(ws: seq<Window>, a: Window, b: Window, f: FileNode)
    requires AllOrdered(ws) && a in ws && b in ws && a.low <= b.low <= a.high <= b.high
    requires a.low <= f.end && f.start <= b.high
    ensures AnyOverlap(Merge(Sort(ws)), f)
  {
    var ms := Merge(Sort(ws));
    SortOrdered(ws);
    SortMembers(ws, a);
    SortMembers(ws, b);
    MergeShape(Sort(ws));
    MergeContains(Sort(ws), a);
    MergeContains(Sort(ws), b);
    var i :| 0 <= i < |ms| && ms[i].low <= a.low && a.high <= ms[i].high;
    var j :| 0 <= j < |ms| && ms[j].low <= b.low && b.high <= ms[j].high;
    assert i == j by { SamePart(ms, i, j, b.low); }
    assert Overlaps(ms[i], f);
  }

  lemma SamePart(ms: seq<Window>, i: nat, j: nat, p: int)
    requires Separate(ms) && i < |ms| && j < |ms|
    requires ms[i].low <= p <= ms[i].high && ms[j].low <= p <= ms[j].high
    ensures i == j
  {
  }

  ghost predicate Clean(ms: seq<Window>) { Separate(ms) && AllOrdered(ms) }

  /** `partition_point` on the window ends: a binary search, meaningful on separate windows. */
  method PartitionPoint(ms: seq<Window>, x: u64) returns (k: nat)
    ensures k <= |ms|
    ensures Clean(ms) ==> forall i :: 0 <= i < |ms| ==> (i < k <==> ms[i].high < x)
  {
    var lo, hi := 0, |ms|;
    while lo < hi
      invariant 0 <= lo <= hi <= |ms|
      invariant Clean(ms) ==> forall i :: 0 <= i < lo ==> ms[i].high < x
      invariant Clean(ms) ==> forall i :: hi <= i < |ms| ==> x <= ms[i].high
    {
      var mid := (lo + hi) / 2;
      if ms[mid].high < x { lo := mid + 1; } else { hi := mid; }
    }
    k := lo;
  }

  // ---- the index ----

  datatype Indexed = Indexed(id: Identity, windows: seq<Window>)

  type Lookup = map<Key, seq<Indexed>>

  predicate Has(identities: map<Identity, seq<Window>>, id: Identity, w: Window) {
    id in identities && w in identities[id]
  }

  ghost predicate Gathered(identities: map<Identity, seq<Window>>, ios: seq<Io>, n: nat)
    requires n <= |ios|
  {
    forall id, w :: Has(identities, id, w) <==> Collected(ios, n, id, w)
  }

  /** The windows of the first `m` origins of request `n` are in as well. */
  ghost predicate GatheredInto(identities: map<Identity, seq<Window>>, ios: seq<Io>, n: nat, m: nat)
    requires n < |ios| && m <= |ios[n].origins|
  {
    forall id, w :: Has(identities, id, w) <==>
      Collected(ios, n, id, w) || (id in ios[n].origins[..m] && w == WindowOf(ios[n]))
  }

  lemma GatheredAll(identities: map<Identity, seq<Window>>, ios: seq<Io>, n: nat)
    requires n < |ios| && GatheredInto(identities, ios, n, |ios[n].origins|)
    ensures Gathered(identities, ios, n + 1)
  {
    assert ios[n].origins[..|ios[n].origins|] == ios[n].origins;
    forall id, w ensures Has(identities, id, w) <==> Collected(ios, n + 1, id, w) {
      assert Has(identities, id, w) <==>
        Collected(ios, n, id, w) || (id in ios[n].origins && w == WindowOf(ios[n]));
    }
  }

  method GatherOrigins(identities: map<Identity, seq<Window>>, ios: seq<Io>, n: nat)
    returns (after: map<Identity, seq<Window>>)
    requires n < |ios| && Gathered(identities, ios, n)
    ensures Gathered(after, ios, n + 1)
  {
    after := identities;
    var origins, w := ios[n].origins, WindowOf(ios[n]);
    for m := 0 to |origins|
      invariant GatheredInto(after, ios, n, m)
    {
      ghost var before := after;
      var id := origins[m];
      var windows := if id in after then after[id] else [];
      after := after[id := windows + [w]];
      assert origins[..m + 1] == origins[..m] + [id];
      forall i, v
        ensures Has(after, i, v) <==> Has(before, i, v) || (i == id && v == w)
      {
      }
    }
    GatheredAll(after, ios, n);
  }

  method Gather(ios: seq<Io>) returns (direct: set<FileNode>, identities: map<Identity, seq<Window>>)
    ensures forall f :: f in direct <==> exists i :: 0 <= i < |ios| && f in ios[i].nodes
    ensures Gathered(identities, ios, |ios|)
  {
    direct, identities := {}, map[];
    for n := 0 to |ios|
      invariant forall f :: f in direct <==> exists i :: 0 <= i < n && f in ios[i].nodes
      invariant Gathered(identities, ios, n)
    {
      direct := direct + (set f | f in ios[n].nodes);
      identities := GatherOrigins(identities, ios, n);
    }
  }

  method MergeWindows(ws: seq<Window>) returns (merged: seq<Window>)
    ensures merged == Merge(Sort(ws))
  {
    var sorted := Sort(ws);
    merged := [];
    for i := 0 to |sorted|
      invariant merged == Merge(sorted[..i])
    {
      assert sorted[..i + 1][..i] == sorted[..i];
      var w, n := sorted[i], |merged| - 1;
      if merged != [] && w.low <= merged[n].high {
        merged := merged[n := merged[n].(high := Max(merged[n].high, w.high))];
      } else {
        merged := merged + [w];
      }
    }
    assert sorted[..|sorted|] == sorted;
  }

  function EntryOf(identities: map<Identity, seq<Window>>, id: Identity): Indexed
    requires id in identities
  {
    Indexed(id, Merge(Sort(identities[id])))
  }

  /** The lookup holds, under its key, exactly one entry per identity in `done`. */
  ghost predicate Builds(lookup: Lookup, identities: map<Identity, seq<Window>>, done: set<Identity>) {
    && done <= identities.Keys
    && (forall k, e :: k in lookup && e in lookup[k] ==>
          e.id in done && KeyOf(e.id) == k && e == EntryOf(identities, e.id))
    && (forall id :: id in done ==> KeyOf(id) in lookup && EntryOf(identities, id) in lookup[KeyOf(id)])
  }

  method BuildLookup(identities: map<Identity, seq<Window>>) returns (lookup: Lookup)
    ensures Builds(lookup, identities, identities.Keys)
  {
    lookup := map[];
    var rest := identities.Keys;
    while rest != {}
      invariant rest <= identities.Keys && Builds(lookup, identities, identities.Keys - rest)
      decreases |rest|
    {
      var id :| id in rest;
      lookup := AddEntry(lookup, identities, identities.Keys - rest, id);
      assert identities.Keys - (rest - {id}) == identities.Keys - rest + {id};
      rest := rest - {id};
    }
  }

  method AddEntry(lookup: Lookup, identities: map<Identity, seq<Window>>, ghost done: set<Identity>, id: Identity)
    returns (after: Lookup)
    requires Builds(lookup, identities, done) && id in identities
    ensures Builds(after, identities, done + {id})
  {
    var merged := MergeWindows(identities[id]);
    var key := KeyOf(id);
    after := lookup[key := (if key in lookup then lookup[key] else []) + [Indexed(id, merged)]];
    forall k, e | k in after && e in after[k]
      ensures (e == EntryOf(identities, id) && k == key) || (k in lookup && e in lookup[k])
    {
    }
  }

  /** One binary search answers for all windows of an entry. */
  method Search(ms: seq<Window>, f: FileNode) returns (found: bool)
    ensures Clean(ms) ==> (found <==> AnyOverlap(ms, f))
  {
    var k := PartitionPoint(ms, f.start);
    found := k < |ms| && ms[k].low <= f.end;
    if Clean(ms) {
      if found { assert Overlaps(ms[k], f); }
      if AnyOverlap(ms, f) {
        var i :| 0 <= i < |ms| && Overlaps(ms[i], f);
        assert k <= i && ms[k].low <= ms[i].low;
      }
    }
  }

  /** Some entry of the file's key is compatible and has an overlapping window. */
  ghost predicate Hit(entries: seq<Indexed>, id: Identity, f: FileNode) {
    exists k :: 0 <= k < |entries| && Compatible(id, entries[k].id) && AnyOverlap(entries[k].windows, f)
  }

  method SearchEntries(entries: seq<Indexed>, id: Identity, f: FileNode) returns (found: bool)
    ensures (forall k :: 0 <= k < |entries| ==> Clean(entries[k].windows)) ==> (found <==> Hit(entries, id, f))
  {
    found := false;
    for k := 0 to |entries|
      invariant (forall j :: 0 <= j < |entries| ==> Clean(entries[j].windows)) ==>
        (found <==> exists j :: 0 <= j < k && Compatible(id, entries[j].id) && AnyOverlap(entries[j].windows, f))
    {
      var overlap := Search(entries[k].windows, f);
      if Compatible(id, entries[k].id) && overlap { found := true; }
    }
  }

  ghost predicate InLookup(f: File, lookup: Lookup) {
    f.identity.Some? && KeyOf(f.identity.value) in lookup &&
    Hit(lookup[KeyOf(f.identity.value)], f.identity.value, f.node)
  }

  method IsLinked(f: File, direct: set<FileNode>, lookup: Lookup) returns (linked: bool)
    ensures (forall k, e :: k in lookup && e in lookup[k] ==> Clean(e.windows)) ==>
      (linked <==> f.node in direct || InLookup(f, lookup))
  {
    linked := f.node in direct;
    if !linked && f.identity.Some? && KeyOf(f.identity.value) in lookup {
      linked := SearchEntries(lookup[KeyOf(f.identity.value)], f.identity.value, f.node);
    }
  }

  lemma WindowsOrdered(identities: map<Identity, seq<Window>>, ios: seq<Io>, id: Identity)
    requires Ordered(ios) && Gathered(identities, ios, |ios|) && id in identities
    ensures AllOrdered(identities[id]) && AllMargined(identities[id])
    ensures Clean(Merge(Sort(identities[id])))
  {
    var ws := identities[id];
    forall i | 0 <= i < |ws| ensures ws[i].low <= ws[i].high && Margined(ws[i]) {
      assert Has(identities, id, ws[i]);
      assert Collected(ios, |ios|, id, ws[i]);
    }
    SortOrdered(ws);
    MergeShape(Sort(ws));
  }

  /** An entry overlaps the record exactly when one of its requests' windows does. */
  lemma EntryOverlap(identities: map<Identity, seq<Window>>, ios: seq<Io>, id: Identity, f: FileNode)
    requires Ordered(ios) && Gathered(identities, ios, |ios|) && id in identities && Unaffected(f)
    ensures AnyOverlap(EntryOf(identities, id).windows, f) <==>
      exists w :: Collected(ios, |ios|, id, w) && Overlaps(w, f)
  {
    var ws := identities[id];
    WindowsOrdered(identities, ios, id);
    MergeOverlap(ws, f);
    if AnyOverlap(ws, f) {
      var i :| 0 <= i < |ws| && Overlaps(ws[i], f);
      assert Has(identities, id, ws[i]);
    }
    if w :| Collected(ios, |ios|, id, w) && Overlaps(w, f) {
      assert Has(identities, id, w);
      var i :| 0 <= i < |ws| && ws[i] == w;
      assert Overlaps(ws[i], f);
    }
  }

  lemma HitIsByOrigin(lookup: Lookup, identities: map<Identity, seq<Window>>, ios: seq<Io>, f: File)
    requires Ordered(ios) && Gathered(identities, ios, |ios|) && Builds(lookup, identities, identities.Keys)
    requires Unaffected(f.node) && f.identity.Some?
    ensures InLookup(f, lookup) <==> exists i, w :: ByOrigin(ios, f, i, w)
  {
    var id := f.identity.value;
    var key := KeyOf(id);
    if InLookup(f, lookup) {
      var k :| 0 <= k < |lookup[key]| && Compatible(id, lookup[key][k].id) &&
               AnyOverlap(lookup[key][k].windows, f.node);
      var e := lookup[key][k];
      assert e in lookup[key];
      EntryOverlap(identities, ios, e.id, f.node);
      var w :| Collected(ios, |ios|, e.id, w) && Overlaps(w, f.node);
      assert ByOrigin(ios, f, e.id, w);
    }
    if i, w :| ByOrigin(ios, f, i, w) {
      assert Has(identities, i, w);
      EntryOverlap(identities, ios, i, f.node);
      var e := EntryOf(identities, i);
      assert e in lookup[key];
      var k :| 0 <= k < |lookup[key]| && lookup[key][k] == e;
      assert Compatible(id, lookup[key][k].id) && AnyOverlap(lookup[key][k].windows, f.node);
    }
  }

  /** The maps the program builds for the requests. */
  ghost predicate IndexFor(ios: seq<Io>, identities: map<Identity, seq<Window>>, lookup: Lookup) {
    Gathered(identities, ios, |ios|) && Builds(lookup, identities, identities.Keys)
  }

  ghost predicate Selects(ios: seq<Io>, lookup: Lookup, f: File) { Direct(ios, f) || InLookup(f, lookup) }

  lemma SelectedIsRelated(identities: map<Identity, seq<Window>>, lookup: Lookup, ios: seq<Io>, f: File)
    requires Ordered(ios) && IndexFor(ios, identities, lookup) && (f.identity.None? || Unaffected(f.node))
    ensures Selects(ios, lookup, f) <==> Related(ios, f)
  {
    if f.identity.Some? { HitIsByOrigin(lookup, identities, ios, f); }
  }

  /** The index of the requests answers about the record as the naive scan does. */
  ghost predicate IndexAgrees(ios: seq<Io>, f: File) {
    forall identities, lookup :: IndexFor(ios, identities, lookup) ==> (Selects(ios, lookup, f) <==> Related(ios, f))
  }

  /** Two requests of the record's own file: one over before the record starts, the other not begun
      when it ends, a common instant in between. */
  function Straddling(f: FileNode, id: Identity): seq<Io>
    requires !Unaffected(f)
  {
    [Io(None, 0, f.start - 1 - MARGIN, [], [id]), Io(None, f.end + 1 + MARGIN, U64_MAX, [], [id])]
  }

  lemma StraddlingWindows(f: FileNode, id: Identity)
    requires !Unaffected(f)
    ensures var ios := Straddling(f, id);
      && Ordered(ios)
      && WindowOf(ios[0]) == Window(0, f.start - 1) && WindowOf(ios[1]) == Window(f.end + 1, U64_MAX)
  {
  }

  lemma StraddlingUnrelated(f: FileNode, id: Identity)
    requires !Unaffected(f)
    ensures !Related(Straddling(f, id), File(f, Some(id)))
  {
    StraddlingWindows(f, id);
  }

  lemma StraddlingEntry(f: FileNode, id: Identity, identities: map<Identity, seq<Window>>)
    requires !Unaffected(f) && Gathered(identities, Straddling(f, id), 2)
    ensures id in identities && AnyOverlap(EntryOf(identities, id).windows, f)
  {
    var ios := Straddling(f, id);
    StraddlingWindows(f, id);
    var a, b := WindowOf(ios[0]), WindowOf(ios[1]);
    assert Collected(ios, 2, id, a) && Collected(ios, 2, id, b);
    assert Has(identities, id, a) && Has(identities, id, b);
    WindowsOrdered(identities, ios, id);
    TouchingMerge(identities[id], a, b, f);
  }

  /** For every other record these requests are a failing input: whatever the index, the record is
      selected, and no request is related to it. */
  lemma StraddlingDiffers(f: FileNode, id: Identity, identities: map<Identity, seq<Window>>, lookup: Lookup)
    requires !Unaffected(f) && IndexFor(Straddling(f, id), identities, lookup)
    ensures Selects(Straddling(f, id), lookup, File(f, Some(id)))
    ensures !Related(Straddling(f, id), File(f, Some(id)))
  {
    StraddlingUnrelated(f, id);
    StraddlingEntry(f, id, identities);
    var entries := lookup[KeyOf(id)];
    var k :| 0 <= k < |entries| && entries[k] == EntryOf(identities, id);
    assert Hit(entries, id, f);
  }

  lemma PairGathered(a: Io, b: Io, id: Identity)
    requires a.origins == [id] && b.origins == [id]
    ensures Gathered(map[id := [WindowOf(a), WindowOf(b)]], [a, b], 2)
  {
    var ios, ws := [a, b], [WindowOf(a), WindowOf(b)];
    forall i, w ensures Has(map[id := ws], i, w) <==> Collected(ios, 2, i, w) {
      if i == id && w in ws {
        var k :| 0 <= k < 2 && ws[k] == w;
        assert id in ios[k].origins && w == WindowOf(ios[k]);
      }
    }
  }

  lemma SingleBuilt(id: Identity, ws: seq<Window>)
    ensures Builds(map[KeyOf(id) := [Indexed(id, Merge(Sort(ws)))]], map[id := ws], map[id := ws].Keys)
  {
    var identities := map[id := ws];
    assert EntryOf(identities, id) == Indexed(id, Merge(Sort(ws)));
  }

  lemma IndexExists(f: FileNode, id: Identity)
    requires !Unaffected(f)
    ensures exists identities, lookup :: IndexFor(Straddling(f, id), identities, lookup)
  {
    var a, b := Straddling(f, id)[0], Straddling(f, id)[1];
    var ws := [WindowOf(a), WindowOf(b)];
    PairGathered(a, b, id);
    SingleBuilt(id, ws);
    assert Straddling(f, id) == [a, b];
    assert IndexFor(Straddling(f, id), map[id := ws], map[KeyOf(id) := [Indexed(id, Merge(Sort(ws)))]]);
  }

  /** The index answers about a record as the naive scan does, whatever the requests, if and only if
      the record names no file or merging has no effect on it. */
  lemma IndexExactIff(f: File)
    ensures (forall ios :: Ordered(ios) ==> IndexAgrees(ios, f)) <==> f.identity.None? || Unaffected(f.node)
  {
    if f.identity.None? || Unaffected(f.node) {
      forall ios | Ordered(ios) ensures IndexAgrees(ios, f) {
        forall identities, lookup | IndexFor(ios, identities, lookup)
          ensures Selects(ios, lookup, f) <==> Related(ios, f)
        {
          SelectedIsRelated(identities, lookup, ios, f);
        }
      }
    } else {
      var id := f.identity.value;
      StraddlingWindows(f.node, id);
      IndexExists(f.node, id);
      var identities, lookup :| IndexFor(Straddling(f.node, id), identities, lookup);
      StraddlingDiffers(f.node, id, identities, lookup);
      assert f == File(f.node, Some(id));
      assert !IndexAgrees(Straddling(f.node, id), f);
    }
  }

  /** The positions are those an index of the requests selects. */
  ghost predicate Answers(ios: seq<Io>, files: seq<File>, positions: seq<nat>, n: nat, lookup: Lookup)
    requires n <= |files|
  {
    forall p :: 0 <= p < n ==> (p in positions <==> Selects(ios, lookup, files[p]))
  }

  ghost predicate FromIndex(ios: seq<Io>, files: seq<File>, positions: seq<nat>) {
    exists identities, lookup :: IndexFor(ios, identities, lookup) && Answers(ios, files, positions, |files|, lookup)
  }

  /** `related_file_positions`: ascending positions, those an index of the requests selects; and so,
      given ordered request windows, those the naive scan relates, but for records that merging
      affects. */
  method RelatedFilePositions(ios: seq<Io>, files: seq<File>) returns (positions: seq<nat>)
    ensures forall i, j :: 0 <= i < j < |positions| ==> positions[i] < positions[j]
    ensures forall i :: 0 <= i < |positions| ==> positions[i] < |files|
    ensures Ordered(ios) && files != [] ==> FromIndex(ios, files, positions)
    ensures Ordered(ios) ==> forall p :: 0 <= p < |files| && (files[p].identity.None? || Unaffected(files[p].node)) ==>
      (p in positions <==> Related(ios, files[p]))
  {
    positions := [];
    if files == [] || ios == [] {
      EmptyIndex(files);
      return;
    }
    var direct, identities := Gather(ios);
    var lookup := BuildLookup(identities);
    CleanLookup(lookup, identities, ios);
    for n := 0 to |files|
      invariant forall i, j :: 0 <= i < j < |positions| ==> positions[i] < positions[j]
      invariant forall i :: 0 <= i < |positions| ==> positions[i] < n
      invariant Ordered(ios) ==> Answers(ios, files, positions, n, lookup)
    {
      var linked := IsLinked(files[n], direct, lookup);
      if linked { positions := positions + [n]; }
    }
    if Ordered(ios) {
      AnswersRelated(ios, files, positions, identities, lookup);
      assert IndexFor(ios, identities, lookup) && Answers(ios, files, positions, |files|, lookup);
    }
  }

  lemma EmptyIndex(files: seq<File>)
    ensures FromIndex([], files, [])
  {
    assert IndexFor([], map[], map[]) && Answers([], files, [], |files|, map[]);
  }

  lemma AnswersRelated(ios: seq<Io>, files: seq<File>, positions: seq<nat>, identities: map<Identity, seq<Window>>,
                       lookup: Lookup)
    requires Ordered(ios) && IndexFor(ios, identities, lookup)
    requires Answers(ios, files, positions, |files|, lookup)
    ensures forall p :: 0 <= p < |files| && (files[p].identity.None? || Unaffected(files[p].node)) ==>
      (p in positions <==> Related(ios, files[p]))
  {
    forall p | 0 <= p < |files| && (files[p].identity.None? || Unaffected(files[p].node))
      ensures p in positions <==> Related(ios, files[p])
    {
      SelectedIsRelated(identities, lookup, ios, files[p]);
    }
  }

  lemma CleanLookup(lookup: Lookup, identities: map<Identity, seq<Window>>, ios: seq<Io>)
    requires Gathered(identities, ios, |ios|) && Builds(lookup, identities, identities.Keys)
    ensures Ordered(ios) ==> forall k, e :: k in lookup && e in lookup[k] ==> Clean(e.windows)
  {
    if Ordered(ios) {
      forall k, e | k in lookup && e in lookup[k] ensures Clean(e.windows) {
        WindowsOrdered(identities, ios, e.id);
      }
    }
  }
}
