/**
 The address summary: requests are reduced to signed edges per sector, and one sweep over the
 sorted edges yields maximal ranges with constant read and write counts. The reference is the
 number of requests that contain a sector.
 */
module AddressSweep {
  import opened Common

  datatype Device = Device(major: u32, minor: u32)

  datatype Operation = Read | Write | Flush | Discard | Other

  datatype Io = Io(device: Device, operation: Operation, sector: u64, sectors: u32)

  datatype Row = Row(device: Device, start: nat, end: nat, readCount: nat, writeCount: nat)

  /** Signed read and write edges by sector. */
  type Edges = map<nat, (int, int)>

  function End(io: Io): u64 { SatAdd(io.sector, io.sectors) }

  predicate Addressed(io: Io) { io.operation.Read? || io.operation.Write? }

  /** Direction `w` is true for writes. */
  predicate Hits(io: Io, d: Device, w: bool, x: int) {
    Addressed(io) && io.device == d && io.operation.Write? == w && io.sector <= x < End(io)
  }

  /** The reference: how many requests in one direction contain sector `x` of device `d`. */
  function Cover(ios: seq<Io>, d: Device, w: bool, x: int): nat {
    if ios == [] then 0
    else Cover(ios[..|ios| - 1], d, w, x) + if Hits(ios[|ios| - 1], d, w, x) then 1 else 0
  }

  /** Requests that name no sector. */
  function Unaddressed(ios: seq<Io>): nat {
    if ios == [] then 0
    else
      var io := ios[|ios| - 1];
      Unaddressed(ios[..|ios| - 1]) + if Addressed(io) && End(io) <= io.sector then 1 else 0
  }

  function Delta(edges: Edges, x: int): (int, int) {
    if 0 <= x && x in edges then edges[x] else (0, 0)
  }

  /** The edges are the finite differences of the reference counts. */
  ghost predicate EdgeLaw(edges: Edges, ios: seq<Io>, d: Device) {
    forall x: int :: Delta(edges, x) == (Rise(ios, d, false, x), Rise(ios, d, true, x))
  }

  /** How much the count changes at a sector. */
  function Rise(ios: seq<Io>, d: Device, w: bool, x: int): int {
    Cover(ios, d, w, x) - Cover(ios, d, w, x - 1)
  }

  // ---- finite differences ----

  lemma {:induction false} CoverOutside(ios: seq<Io>, d: Device, w: bool, x: int)
    requires x < 0 || x >= U64_MAX
    ensures Cover(ios, d, w, x) == 0
  {
    if ios != [] { CoverOutside(ios[..|ios| - 1], d, w, x); }
  }

  lemma {:induction false} CoverConstant(edges: Edges, ios: seq<Io>, d: Device, w: bool, from: int, x: int)
    requires EdgeLaw(edges, ios, d) && from <= x
    requires forall k :: k in edges ==> !(from < k <= x)
    ensures Cover(ios, d, w, x) == Cover(ios, d, w, from)
    decreases x - from
  {
    if from < x {
      CoverConstant(edges, ios, d, w, from, x - 1);
      assert Delta(edges, x) == (0, 0);
    }
  }

  /** Below the first edge and from the last edge on nothing is covered. */
  lemma CoverBeyond(edges: Edges, ios: seq<Io>, d: Device, w: bool, x: int)
    requires EdgeLaw(edges, ios, d)
    requires (forall k :: k in edges ==> x < k) || (forall k :: k in edges ==> k <= x)
    ensures Cover(ios, d, w, x) == 0
  {
    if forall k :: k in edges ==> x < k {
      if x >= 0 {
        CoverConstant(edges, ios, d, w, -1, x);
        CoverOutside(ios, d, w, -1);
      } else {
        CoverOutside(ios, d, w, x);
      }
    } else if x < U64_MAX {
      CoverConstant(edges, ios, d, w, x, U64_MAX);
      CoverOutside(ios, d, w, U64_MAX);
    } else {
      CoverOutside(ios, d, w, x);
    }
  }

  // ---- observing one request ----

  function Bump(edges: Edges, at: nat, step: (int, int)): Edges {
    var edge := Delta(edges, at);
    edges[at := (edge.0 + step.0, edge.1 + step.1)]
  }

  function Direction(io: Io): (int, int) { if io.operation.Read? then (1, 0) else (0, 1) }

  lemma CoverPush(ios: seq<Io>, io: Io, d: Device, w: bool, x: int)
    ensures Cover(ios + [io], d, w, x) == Cover(ios, d, w, x) + if Hits(io, d, w, x) then 1 else 0
  {
    assert (ios + [io])[..|ios|] == ios;
  }

  function One(b: bool): int { if b then 1 else 0 }

  lemma RisePush(ios: seq<Io>, io: Io, w: bool, x: int)
    requires Addressed(io) && io.sector < End(io)
    ensures Rise(ios + [io], io.device, w, x) == Rise(ios, io.device, w, x) +
      if io.operation.Write? == w then One(x == io.sector) - One(x == End(io)) else 0
  {
    CoverPush(ios, io, io.device, w, x);
    CoverPush(ios, io, io.device, w, x - 1);
  }

  lemma BumpDelta(edges: Edges, at: nat, step: (int, int), x: int)
    ensures Delta(Bump(edges, at, step), x) ==
      if x == at then (Delta(edges, x).0 + step.0, Delta(edges, x).1 + step.1) else Delta(edges, x)
  {
  }

  lemma EdgeLawKept(edges: Edges, ios: seq<Io>, io: Io)
    requires EdgeLaw(edges, ios, io.device) && Addressed(io) && io.sector < End(io)
    ensures EdgeLaw(Bump(Bump(edges, io.sector, Direction(io)), End(io), (-Direction(io).0, -Direction(io).1)),
                    ios + [io], io.device)
  {
    var all, d, step := ios + [io], io.device, Direction(io);
    var once := Bump(edges, io.sector, step);
    var twice := Bump(once, End(io), (-step.0, -step.1));
    forall x: int ensures Delta(twice, x) == (Rise(all, d, false, x), Rise(all, d, true, x)) {
      assert Delta(edges, x) == (Rise(ios, d, false, x), Rise(ios, d, true, x));
      BumpDelta(edges, io.sector, step, x);
      BumpDelta(once, End(io), (-step.0, -step.1), x);
      RisePush(ios, io, false, x);
      RisePush(ios, io, true, x);
    }
  }

  lemma EdgeLawElsewhere(edges: Edges, ios: seq<Io>, io: Io, d: Device)
    requires EdgeLaw(edges, ios, d)
    requires !Addressed(io) || End(io) <= io.sector || io.device != d
    ensures EdgeLaw(edges, ios + [io], d)
  {
    var all := ios + [io];
    assert all[..|ios|] == ios;
    forall x: int
      ensures Delta(edges, x) ==
        (Cover(all, d, false, x) - Cover(all, d, false, x - 1), Cover(all, d, true, x) - Cover(all, d, true, x - 1))
    {
      assert Cover(all, d, false, x) == Cover(ios, d, false, x) && Cover(all, d, true, x) == Cover(ios, d, true, x);
      assert Cover(all, d, false, x - 1) == Cover(ios, d, false, x - 1);
      assert Cover(all, d, true, x - 1) == Cover(ios, d, true, x - 1);
    }
  }

  // ---- the rows ----

  function DeviceKey(d: Device): nat { d.major * 0x1_0000_0000 + d.minor }

  predicate Contains(r: Row, d: Device, x: int) { r.device == d && r.start <= x < r.end }

  /** Row `a` lies wholly before row `b`. */
  predicate Before(a: Row, b: Row) {
    DeviceKey(a.device) < DeviceKey(b.device) || (a.device == b.device && a.end <= b.start)
  }

  /** Rows are nonempty, counted, in order, disjoint, and no two neighbours could be joined. */
  ghost predicate Canonical(rows: seq<Row>) {
    && (forall i :: 0 <= i < |rows| ==> rows[i].start < rows[i].end && rows[i].readCount + rows[i].writeCount > 0)
    && (forall i, j :: 0 <= i < j < |rows| ==> Before(rows[i], rows[j]))
    && (forall i :: 0 < i < |rows| && rows[i - 1].device == rows[i].device && rows[i - 1].end == rows[i].start ==>
          (rows[i - 1].readCount, rows[i - 1].writeCount) != (rows[i].readCount, rows[i].writeCount))
  }

  ghost predicate RowsTell(rows: seq<Row>, ios: seq<Io>) {
    forall i, x :: 0 <= i < |rows| && rows[i].start <= x < rows[i].end ==>
      rows[i].readCount == Cover(ios, rows[i].device, false, x) &&
      rows[i].writeCount == Cover(ios, rows[i].device, true, x)
  }

  ghost predicate Listed(rows: seq<Row>, d: Device, x: int) {
    exists i :: 0 <= i < |rows| && Contains(rows[i], d, x)
  }

  ghost predicate Touched(ios: seq<Io>, d: Device, x: int) {
    Cover(ios, d, false, x) + Cover(ios, d, true, x) > 0
  }

  /** Row counts are the reference counts, and every touched sector is in some row. */
  ghost predicate Exact(rows: seq<Row>, ios: seq<Io>) {
    RowsTell(rows, ios) && forall d, x :: Touched(ios, d, x) ==> Listed(rows, d, x)
  }

  /** Sectors named by all rows, weighted by the count of one direction. */
  function Weight(rows: seq<Row>, w: bool): int {
    if rows == [] then 0
    else
      var r := rows[|rows| - 1];
      Weight(rows[..|rows| - 1], w) + (r.end - r.start) * (if w then r.writeCount else r.readCount)
  }

  /** Sectors named by all requests of one direction. */
  function Length(ios: seq<Io>, w: bool): int {
    if ios == [] then 0
    else
      var io := ios[|ios| - 1];
      Length(ios[..|ios| - 1], w) + if Addressed(io) && io.operation.Write? == w then End(io) - io.sector else 0
  }

  /** Sum of the reference counts of the sectors below `x`. */
  function Area(ios: seq<Io>, d: Device, w: bool, x: nat): nat
    decreases x
  {
    if x == 0 then 0 else Area(ios, d, w, x - 1) + Cover(ios, d, w, x - 1)
  }

  lemma {:induction false} AreaConstant(ios: seq<Io>, d: Device, w: bool, lo: nat, hi: nat, c: nat)
    requires lo <= hi && forall x :: lo <= x < hi ==> Cover(ios, d, w, x) == c
    ensures Area(ios, d, w, hi) == Area(ios, d, w, lo) + (hi - lo) * c
    decreases hi
  {
    if lo < hi {
      AreaConstant(ios, d, w, lo, hi - 1, c);
      assert (hi - lo) * c == (hi - 1 - lo) * c + c;
    }
  }

  // ---- the sweep over one device ----

  /** Extends the last row when it ends where the range starts with the same counts, else adds one. */
  function Emit(rows: seq<Row>, d: Device, start: nat, end: nat, r: nat, w: nat): seq<Row> {
    var n := |rows| - 1;
    if rows != [] && rows[n].device == d && rows[n].end == start && rows[n].readCount == r && rows[n].writeCount == w
    then rows[n := rows[n].(end := end)]
    else rows + [Row(d, start, end, r, w)]
  }

  /** Rows from `m` on describe device `d` below sector `p`; earlier rows are of earlier devices. */
  ghost predicate SweptTo(rows: seq<Row>, m: nat, d: Device, ios: seq<Io>, p: int) {
    && m <= |rows| && Canonical(rows)
    && (forall i :: 0 <= i < m ==> DeviceKey(rows[i].device) < DeviceKey(d))
    && (forall i :: m <= i < |rows| ==> rows[i].device == d && rows[i].end <= p)
    && (forall i, x :: m <= i < |rows| && rows[i].start <= x < rows[i].end ==>
          rows[i].readCount == Cover(ios, d, false, x) && rows[i].writeCount == Cover(ios, d, true, x))
    && (forall x :: x < p && Touched(ios, d, x) ==> Listed(rows[m..], d, x))
  }

  /** Over [start, end) the device has constant counts `r` and `w`. */
  ghost predicate Constant(ios: seq<Io>, d: Device, start: int, end: int, r: int, w: int) {
    forall x :: start <= x < end ==> Cover(ios, d, false, x) == r && Cover(ios, d, true, x) == w
  }

  lemma ListedGrows(a: seq<Row>, b: seq<Row>, d: Device, x: int)
    requires Listed(a, d, x) && |a| <= |b|
    requires forall i :: 0 <= i < |a| ==> a[i].device == b[i].device && a[i].start == b[i].start && a[i].end <= b[i].end
    ensures Listed(b, d, x)
  {
    var i :| 0 <= i < |a| && Contains(a[i], d, x);
    assert Contains(b[i], d, x);
  }

  lemma CanonicalAppend(rows: seq<Row>, row: Row)
    requires Canonical(rows) && row.start < row.end && row.readCount + row.writeCount > 0
    requires forall i :: 0 <= i < |rows| ==> Before(rows[i], row)
    requires rows != [] ==>
      var last := rows[|rows| - 1];
      last.device == row.device && last.end == row.start ==>
        (last.readCount, last.writeCount) != (row.readCount, row.writeCount)
    ensures Canonical(rows + [row])
  {
  }

  lemma CanonicalExtend(rows: seq<Row>, end: nat)
    requires Canonical(rows) && rows != [] && rows[|rows| - 1].end <= end
    ensures Canonical(rows[|rows| - 1 := rows[|rows| - 1].(end := end)])
  {
    var n := |rows| - 1;
    var after := rows[n := rows[n].(end := end)];
    forall i, j | 0 <= i < j < |after| ensures Before(after[i], after[j]) {
      assert Before(rows[i], rows[j]);
    }
  }

  lemma SweptBefore(rows: seq<Row>, m: nat, d: Device, ios: seq<Io>, start: nat, row: Row)
    requires SweptTo(rows, m, d, ios, start) && row.device == d && row.start == start
    ensures forall i :: 0 <= i < |rows| ==> Before(rows[i], row)
  {
  }

  lemma EmitCanonical(rows: seq<Row>, m: nat, d: Device, ios: seq<Io>, start: nat, end: nat, r: nat, w: nat)
    requires SweptTo(rows, m, d, ios, start) && start < end && r + w > 0
    ensures Canonical(Emit(rows, d, start, end, r, w))
  {
    var n, row := |rows| - 1, Row(d, start, end, r, w);
    if rows != [] && rows[n].device == d && rows[n].end == start && rows[n].readCount == r && rows[n].writeCount == w {
      CanonicalExtend(rows, end);
    } else {
      SweptBefore(rows, m, d, ios, start, row);
      CanonicalAppend(rows, row);
    }
  }

  lemma EmitPrefix(rows: seq<Row>, m: nat, d: Device, ios: seq<Io>, start: nat, end: nat, r: nat, w: nat)
    requires SweptTo(rows, m, d, ios, start)
    ensures m <= |Emit(rows, d, start, end, r, w)| && Emit(rows, d, start, end, r, w)[..m] == rows[..m]
  {
  }

  lemma EmitListed(rows: seq<Row>, m: nat, d: Device, ios: seq<Io>, start: nat, end: nat, r: nat, w: nat, x: int)
    requires SweptTo(rows, m, d, ios, start) && start < end && r + w > 0
    requires x < end && Touched(ios, d, x)
    ensures Listed(Emit(rows, d, start, end, r, w)[m..], d, x)
  {
    var after := Emit(rows, d, start, end, r, w);
    if x < start {
      ListedGrows(rows[m..], after[m..], d, x);
    } else {
      assert after[m..][|after| - 1 - m] == after[|after| - 1];
      assert Contains(after[|after| - 1], d, x);
    }
  }

  lemma EmitKeeps(rows: seq<Row>, m: nat, d: Device, ios: seq<Io>, start: nat, end: nat, r: nat, w: nat)
    requires SweptTo(rows, m, d, ios, start) && start < end && r + w > 0
    requires Constant(ios, d, start, end, r, w)
    ensures SweptTo(Emit(rows, d, start, end, r, w), m, d, ios, end)
    ensures Emit(rows, d, start, end, r, w)[..m] == rows[..m]
  {
    EmitCanonical(rows, m, d, ios, start, end, r, w);
    EmitPrefix(rows, m, d, ios, start, end, r, w);
    forall x | x < end && Touched(ios, d, x) ensures Listed(Emit(rows, d, start, end, r, w)[m..], d, x) {
      EmitListed(rows, m, d, ios, start, end, r, w, x);
    }
  }

  lemma Extended(from: int, mid: int, end: int, c: int)
    ensures (end - from) * c == (mid - from) * c + (end - mid) * c
  {
  }

  lemma EmitWeight(rows: seq<Row>, d: Device, start: nat, end: nat, r: nat, w: nat, dir: bool)
    requires start < end
    ensures Weight(Emit(rows, d, start, end, r, w), dir) == Weight(rows, dir) + (end - start) * (if dir then w else r)
  {
    var after, n := Emit(rows, d, start, end, r, w), |rows| - 1;
    if |after| == |rows| {
      assert after[..n] == rows[..n];
      Extended(rows[n].start, start, end, if dir then w else r);
    } else {
      assert after[..|rows|] == rows;
    }
  }

  ghost predicate IsMinimum(s: set<nat>, k: nat) {
    k in s && forall j :: j in s ==> k <= j
  }

  lemma {:induction false} MinimumExists(s: set<nat>) returns (k: nat)
    requires s != {}
    ensures IsMinimum(s, k)
    decreases |s|
  {
    var a :| a in s;
    var t := s - {a};
    if t == {} {
      k := a;
      assert s == {a};
    } else {
      var b := MinimumExists(t);
      k := if a <= b then a else b;
      forall j | j in s ensures k <= j { assert j == a || j in t; }
    }
  }

  ghost predicate Ascending(ks: seq<nat>) {
    forall i, j :: 0 <= i < j < |ks| ==> ks[i] < ks[j]
  }

  /** A BTree map yields its keys in ascending order. */
  method SortedKeys(keys: set<nat>) returns (ks: seq<nat>)
    ensures Ascending(ks)
    ensures forall k :: k in ks <==> k in keys
  {
    ks := [];
    var rest := keys;
    while rest != {}
      invariant rest <= keys && (forall k :: k in ks <==> k in keys && k !in rest)
      invariant Ascending(ks)
      invariant forall i, k :: 0 <= i < |ks| && k in rest ==> ks[i] < k
      decreases |rest|
    {
      ghost var g := MinimumExists(rest);
      var k :| k in rest && forall j :: j in rest ==> k <= j;
      ks, rest := ks + [k], rest - {k};
    }
  }

  lemma NothingBelowZero(ios: seq<Io>, d: Device)
    ensures forall x :: x < 0 ==> !Touched(ios, d, x)
  {
    forall x | x < 0 ensures !Touched(ios, d, x) {
      CoverOutside(ios, d, false, x);
      CoverOutside(ios, d, true, x);
    }
  }

  lemma Tail(edges: Edges, ios: seq<Io>, d: Device, last: int)
    requires EdgeLaw(edges, ios, d) && forall k :: k in edges ==> k <= last
    ensures forall x :: last <= x ==> Cover(ios, d, false, x) == Cover(ios, d, true, x) == 0
  {
    forall x | last <= x ensures Cover(ios, d, false, x) == Cover(ios, d, true, x) == 0 {
      CoverBeyond(edges, ios, d, false, x);
      CoverBeyond(edges, ios, d, true, x);
    }
  }

  /** Between two neighbouring edges the counts are constant; an edge adds its difference. */
  lemma Gap(edges: Edges, ios: seq<Io>, d: Device, ks: seq<nat>, i: nat, r: int, w: int)
    requires EdgeLaw(edges, ios, d) && i < |ks|
    requires Ascending(ks) && forall k :: k in ks <==> k in edges
    requires if i == 0 then r == w == 0
             else r == Cover(ios, d, false, ks[i - 1]) && w == Cover(ios, d, true, ks[i - 1])
    ensures ks[i] in edges
    ensures Constant(ios, d, if i == 0 then 0 else ks[i - 1], ks[i], r, w)
    ensures Cover(ios, d, false, ks[i]) == r + edges[ks[i]].0
    ensures Cover(ios, d, true, ks[i]) == w + edges[ks[i]].1
  {
    var lo: int := if i == 0 then -1 else ks[i - 1];
    var below: int := ks[i];
    below := below - 1;
    forall x: int | lo <= x < ks[i] ensures Cover(ios, d, false, x) == r && Cover(ios, d, true, x) == w {
      if i == 0 {
        CoverBeyond(edges, ios, d, false, x);
        CoverBeyond(edges, ios, d, true, x);
      } else {
        CoverConstant(edges, ios, d, false, lo, x);
        CoverConstant(edges, ios, d, true, lo, x);
      }
    }
    assert ks[i] in ks;
    assert i > 0 ==> ks[i - 1] < ks[i];
    assert Cover(ios, d, false, below) == r && Cover(ios, d, true, below) == w;
    assert Delta(edges, ks[i]) == edges[ks[i]];
  }

  /** The rows describe earlier devices as before and device `d` below `p`, in full weight. */
  ghost predicate Swept(rows: seq<Row>, before: seq<Row>, d: Device, ios: seq<Io>, p: nat) {
    && SweptTo(rows, |before|, d, ios, p) && rows[..|before|] == before
    && Weight(rows, false) == Weight(before, false) + Area(ios, d, false, p)
    && Weight(rows, true) == Weight(before, true) + Area(ios, d, true, p)
  }

  lemma SweepEmits(rows: seq<Row>, before: seq<Row>, d: Device, ios: seq<Io>, start: nat, end: nat, r: nat, w: nat)
    requires Swept(rows, before, d, ios, start) && start < end && r + w > 0
    requires Constant(ios, d, start, end, r, w)
    ensures Swept(Emit(rows, d, start, end, r, w), before, d, ios, end)
  {
    EmitKeeps(rows, |before|, d, ios, start, end, r, w);
    EmitWeight(rows, d, start, end, r, w, false);
    EmitWeight(rows, d, start, end, r, w, true);
    AreaConstant(ios, d, false, start, end, r);
    AreaConstant(ios, d, true, start, end, w);
  }

  lemma SweepSkips(rows: seq<Row>, before: seq<Row>, d: Device, ios: seq<Io>, start: nat, end: nat)
    requires Swept(rows, before, d, ios, start) && start <= end
    requires Constant(ios, d, start, end, 0, 0)
    ensures Swept(rows, before, d, ios, end)
  {
    assert Area(ios, d, false, end) == Area(ios, d, false, start) by { AreaConstant(ios, d, false, start, end, 0); }
    assert Area(ios, d, true, end) == Area(ios, d, true, start) by { AreaConstant(ios, d, true, start, end, 0); }
    forall x: int | x < end && Touched(ios, d, x) ensures Listed(rows[|before|..], d, x) {
      assert x < start;
    }
  }

  lemma SweepStarts(before: seq<Row>, d: Device, ios: seq<Io>)
    requires Canonical(before) && forall i :: 0 <= i < |before| ==> DeviceKey(before[i].device) < DeviceKey(d)
    ensures Swept(before, before, d, ios, 0)
  {
    NothingBelowZero(ios, d);
  }

  lemma SweepEnds(edges: Edges, rows: seq<Row>, before: seq<Row>, d: Device, ios: seq<Io>, last: nat)
    requires EdgeLaw(edges, ios, d) && Swept(rows, before, d, ios, last) && last <= U64_MAX
    requires forall k :: k in edges ==> k <= last
    ensures Swept(rows, before, d, ios, U64_MAX + 1)
  {
    Tail(edges, ios, d, last);
    SweepSkips(rows, before, d, ios, last, U64_MAX + 1);
  }

  /** Edits the last row in place or pushes a new one. */
  method EmitRow(rows: seq<Row>, d: Device, start: nat, end: nat, r: nat, w: nat) returns (after: seq<Row>)
    ensures after == Emit(rows, d, start, end, r, w)
  {
    var n := |rows| - 1;
    if rows != [] && rows[n].device == d && rows[n].end == start && rows[n].readCount == r && rows[n].writeCount == w {
      after := rows[n := rows[n].(end := end)];
    } else {
      after := rows + [Row(d, start, end, r, w)];
    }
  }

  /** The running counts are those at the last edge passed. */
  ghost predicate Running(ios: seq<Io>, d: Device, ks: seq<nat>, i: nat, r: int, w: int)
    requires i <= |ks|
  {
    if i == 0 then r == w == 0 else r == Cover(ios, d, false, ks[i - 1]) && w == Cover(ios, d, true, ks[i - 1])
  }

  /** One edge of the sweep: the range before it is emitted, then its difference is added. */
  method SweepEdge(d: Device, edges: Edges, ks: seq<nat>, i: nat, rows: seq<Row>, r: int, w: int,
                   ghost before: seq<Row>, ghost ios: seq<Io>)
    returns (after: seq<Row>, r': int, w': int)
    requires EdgeLaw(edges, ios, d) && i < |ks|
    requires Ascending(ks) && forall k :: k in ks <==> k in edges
    requires Running(ios, d, ks, i, r, w)
    requires Swept(rows, before, d, ios, if i == 0 then 0 else ks[i - 1])
    ensures Running(ios, d, ks, i + 1, r', w')
    ensures Swept(after, before, d, ios, ks[i])
  {
    var sector := ks[i];
    after := rows;
    Gap(edges, ios, d, ks, i, r, w);
    if i > 0 && (r > 0 || w > 0) {
      SweepEmits(rows, before, d, ios, ks[i - 1], sector, r, w);
      after := EmitRow(rows, d, ks[i - 1], sector, r, w);
    } else {
      SweepSkips(rows, before, d, ios, if i == 0 then 0 else ks[i - 1], sector);
    }
    r', w' := r + edges[sector].0, w + edges[sector].1;
  }

  /** The inner loop of `finish`: running counts over one device's sorted edges. */
  method SweepEdges(d: Device, edges: Edges, ks: seq<nat>, before: seq<Row>, ghost ios: seq<Io>)
    returns (rows: seq<Row>, ghost last: nat)
    requires EdgeLaw(edges, ios, d) && Ascending(ks) && forall k :: k in ks <==> k in edges
    requires Swept(before, before, d, ios, 0)
    ensures Swept(rows, before, d, ios, last)
    ensures last == if ks == [] then 0 else ks[|ks| - 1]
  {
    rows, last := before, 0;
    var readCount, writeCount := 0, 0;
    for i := 0 to |ks|
      invariant Running(ios, d, ks, i, readCount, writeCount)
      invariant last == if i == 0 then 0 else ks[i - 1]
      invariant Swept(rows, before, d, ios, last)
    {
      rows, readCount, writeCount := SweepEdge(d, edges, ks, i, rows, readCount, writeCount, before, ios);
      last := ks[i];
    }
  }

  method SweepDevice(d: Device, edges: Edges, before: seq<Row>, ghost ios: seq<Io>) returns (rows: seq<Row>)
    requires EdgeLaw(edges, ios, d) && (forall k :: k in edges ==> k <= U64_MAX)
    requires Canonical(before) && forall i :: 0 <= i < |before| ==> DeviceKey(before[i].device) < DeviceKey(d)
    ensures Swept(rows, before, d, ios, U64_MAX + 1)
  {
    var ks := SortedKeys(edges.Keys);
    SweepStarts(before, d, ios);
    ghost var last;
    rows, last := SweepEdges(d, edges, ks, before, ios);
    LastKey(edges, ks, last);
    SweepEnds(edges, rows, before, d, ios, last);
  }

  lemma LastKey(edges: Edges, ks: seq<nat>, last: nat)
    requires Ascending(ks) && (forall k :: k in ks <==> k in edges) && (forall k :: k in edges ==> k <= U64_MAX)
    requires last == if ks == [] then 0 else ks[|ks| - 1]
    ensures last <= U64_MAX && forall k :: k in edges ==> k <= last
  {
    assert ks != [] ==> ks[|ks| - 1] in ks;
    assert forall k :: k in edges ==> k in ks;
  }

  // ---- weights ----

  function Share(io: Io, d: Device, w: bool, x: int): int {
    if Addressed(io) && io.device == d && io.operation.Write? == w then Max(0, Min(x, End(io)) - io.sector) else 0
  }

  lemma {:induction false} AreaAdds(ios: seq<Io>, io: Io, d: Device, w: bool, x: nat)
    ensures Area(ios + [io], d, w, x) == Area(ios, d, w, x) + Share(io, d, w, x)
    decreases x
  {
    if x > 0 {
      AreaAdds(ios, io, d, w, x - 1);
      assert (ios + [io])[..|ios|] == ios;
    }
  }

  function AreaSum(ios: seq<Io>, ds: seq<Device>, w: bool): int {
    if ds == [] then 0
    else AreaSum(ios, ds[..|ds| - 1], w) + Area(ios, ds[|ds| - 1], w, U64_MAX + 1)
  }

  ghost predicate Distinct(ds: seq<Device>) {
    forall i, j :: 0 <= i < j < |ds| ==> ds[i] != ds[j]
  }

  lemma {:induction false} AreaSumAdds(ios: seq<Io>, io: Io, ds: seq<Device>, w: bool)
    requires Distinct(ds)
    ensures AreaSum(ios + [io], ds, w) ==
      AreaSum(ios, ds, w) + if io.device in ds then Share(io, io.device, w, U64_MAX + 1) else 0
  {
    if ds != [] {
      var n := |ds| - 1;
      LastDistinct(ds, io.device);
      AreaSumAdds(ios, io, ds[..n], w);
      AreaAdds(ios, io, ds[n], w, U64_MAX + 1);
    }
  }

  lemma LastDistinct(ds: seq<Device>, d: Device)
    requires Distinct(ds) && ds != []
    ensures Distinct(ds[..|ds| - 1]) && ds[|ds| - 1] !in ds[..|ds| - 1]
    ensures d in ds <==> d in ds[..|ds| - 1] || d == ds[|ds| - 1]
  {
    assert ds == ds[..|ds| - 1] + [ds[|ds| - 1]];
  }

  lemma {:induction false} AreaSumEmpty(ds: seq<Device>, w: bool)
    ensures AreaSum([], ds, w) == 0
  {
    if ds != [] {
      AreaSumEmpty(ds[..|ds| - 1], w);
      AreaConstant([], ds[|ds| - 1], w, 0, U64_MAX + 1, 0);
    }
  }

  ghost predicate DevicesIn(ios: seq<Io>, ds: seq<Device>) {
    forall i :: 0 <= i < |ios| && Addressed(ios[i]) && ios[i].sector < End(ios[i]) ==> ios[i].device in ds
  }

  /** Summed over all devices, the reference counts give the total length of the requests. */
  lemma {:induction false} AreaIsLength(ios: seq<Io>, ds: seq<Device>, w: bool)
    requires Distinct(ds) && DevicesIn(ios, ds)
    ensures AreaSum(ios, ds, w) == Length(ios, w)
  {
    if ios == [] {
      AreaSumEmpty(ds, w);
    } else {
      var n := |ios| - 1;
      AreaIsLength(ios[..n], ds, w);
      AreaSumAdds(ios[..n], ios[n], ds, w);
      assert ios[..n] + [ios[n]] == ios;
    }
  }

  // ---- rows are determined by the counts ----

  /** Point (d, x) comes no later than point (e, y). */
  predicate AtMost(d: Device, x: int, e: Device, y: int) {
    DeviceKey(d) < DeviceKey(e) || (d == e && x <= y)
  }

  lemma StartTouched(rows: seq<Row>, ios: seq<Io>, i: nat)
    requires Canonical(rows) && Exact(rows, ios) && i < |rows|
    ensures Touched(ios, rows[i].device, rows[i].start)
  {
    assert rows[i].readCount == Cover(ios, rows[i].device, false, rows[i].start);
  }

  lemma EarlierMisses(a: seq<Row>, i: nat, k: nat, x: int)
    requires Canonical(a) && k < i < |a| && a[i].start <= x
    ensures !Contains(a[k], a[i].device, x)
  {
    assert Before(a[k], a[i]);
  }

  /** If two exact lists agree before `i`, the second's next row starts no later than the first's. */
  lemma NextStart(a: seq<Row>, b: seq<Row>, ios: seq<Io>, i: nat)
    requires Canonical(a) && Exact(a, ios) && Canonical(b) && Exact(b, ios)
    requires i < |a| && i <= |b| && a[..i] == b[..i]
    ensures i < |b| && AtMost(b[i].device, b[i].start, a[i].device, a[i].start)
  {
    StartTouched(a, ios, i);
    var j :| 0 <= j < |b| && Contains(b[j], a[i].device, a[i].start);
    forall k | 0 <= k < i ensures !Contains(b[k], a[i].device, a[i].start) {
      assert a[..i][k] == b[..i][k];
      EarlierMisses(a, i, k, a[i].start);
    }
    assert j >= i;
    if j > i { assert Before(b[i], b[j]); }
  }

  lemma DeviceKeyInjective(d: Device, e: Device)
    ensures DeviceKey(d) == DeviceKey(e) ==> d == e
  {
  }

  /** Right after a row the counts change. */
  lemma EndDiffers(a: seq<Row>, ios: seq<Io>, i: nat)
    requires Canonical(a) && Exact(a, ios) && i < |a|
    ensures var d, x := a[i].device, a[i].end;
      Cover(ios, d, false, x) != a[i].readCount || Cover(ios, d, true, x) != a[i].writeCount
  {
    var d, x := a[i].device, a[i].end;
    if Touched(ios, d, x) {
      var m :| 0 <= m < |a| && Contains(a[m], d, x);
      forall k | 0 <= k <= i ensures !Contains(a[k], d, x) {
        if k < i { EarlierMisses(a, i, k, x); }
      }
      assert i < m;
      NeighbourAt(a, i, m);
      assert a[m].start <= x < a[m].end;
    }
  }

  /** A later row that contains the end of row `i` is the next row and starts there. */
  lemma NeighbourAt(a: seq<Row>, i: nat, m: nat)
    requires Canonical(a) && i < m < |a| && Contains(a[m], a[i].device, a[i].end)
    ensures m == i + 1 && a[m].start == a[i].end
  {
    Later(a, i, m);
    Later(a, i, i + 1);
    Later(a, i + 1, m);
  }

  lemma Later(a: seq<Row>, j: nat, m: nat)
    requires Canonical(a) && j <= m < |a|
    ensures j == m || Before(a[j], a[m])
  {
  }

  lemma CountsAt(b: seq<Row>, ios: seq<Io>, i: nat, x: int)
    requires RowsTell(b, ios) && i < |b|
    ensures b[i].start <= x < b[i].end ==>
      b[i].readCount == Cover(ios, b[i].device, false, x) && b[i].writeCount == Cover(ios, b[i].device, true, x)
  {
  }

  /** A row of the first list cannot stop short of the matching row of the second. */
  lemma NoEarlyEnd(a: seq<Row>, b: seq<Row>, ios: seq<Io>, i: nat)
    requires Canonical(a) && Exact(a, ios) && Canonical(b) && Exact(b, ios)
    requires i < |a| && i < |b| && a[i].device == b[i].device && a[i].start == b[i].start
    ensures a[i].end >= b[i].end
  {
    EndDiffers(a, ios, i);
    var d, s, x := a[i].device, a[i].start, a[i].end;
    assert a[i].readCount == Cover(ios, d, false, s) == b[i].readCount;
    assert a[i].writeCount == Cover(ios, d, true, s) == b[i].writeCount;
    CountsAt(b, ios, i, x);
  }

  lemma {:induction false} PrefixUnique(a: seq<Row>, b: seq<Row>, ios: seq<Io>, i: nat)
    requires Canonical(a) && Exact(a, ios) && Canonical(b) && Exact(b, ios)
    requires i <= |a|
    ensures i <= |b| && a[..i] == b[..i]
  {
    if i > 0 {
      var n := i - 1;
      PrefixUnique(a, b, ios, n);
      NextStart(a, b, ios, n);
      NextStart(b, a, ios, n);
      DeviceKeyInjective(a[n].device, b[n].device);
      NoEarlyEnd(a, b, ios, n);
      NoEarlyEnd(b, a, ios, n);
      var d, x := a[n].device, a[n].start;
      assert a[n].readCount == Cover(ios, d, false, x) == b[n].readCount;
      assert a[n].writeCount == Cover(ios, d, true, x) == b[n].writeCount;
      assert a[..i] == a[..n] + [a[n]] && b[..i] == b[..n] + [b[n]];
    }
  }

  /** There is only one list of maximal rows with the reference counts. */
  lemma RowsUnique(a: seq<Row>, b: seq<Row>, ios: seq<Io>)
    requires Canonical(a) && Exact(a, ios) && Canonical(b) && Exact(b, ios)
    ensures a == b
  {
    PrefixUnique(a, b, ios, |a|);
    PrefixUnique(b, a, ios, |b|);
    assert a[..|a|] == a && b[..|b|] == b;
  }

  lemma {:induction false} CoverRemoves(ios: seq<Io>, k: nat, d: Device, w: bool, x: int)
    requires k < |ios|
    ensures Cover(ios, d, w, x) == Cover(ios[..k] + ios[k + 1..], d, w, x) + if Hits(ios[k], d, w, x) then 1 else 0
  {
    var n := |ios| - 1;
    if k == n {
      assert ios[..k] + ios[k + 1..] == ios[..n];
    } else {
      var front := ios[..n];
      CoverRemoves(front, k, d, w, x);
      CoverPush(front[..k] + front[k + 1..], ios[n], d, w, x);
      assert ios[..k] + ios[k + 1..] == front[..k] + front[k + 1..] + [ios[n]];
    }
  }

  lemma {:induction false} CoverOrderFree(ios: seq<Io>, jos: seq<Io>, d: Device, w: bool, x: int)
    requires multiset(ios) == multiset(jos)
    ensures Cover(ios, d, w, x) == Cover(jos, d, w, x)
    decreases |ios|
  {
    if ios == [] {
      assert |multiset(jos)| == 0;
    } else {
      var n := |ios| - 1;
      assert ios[n] in multiset(jos) by { assert ios[n] in multiset(ios); }
      var k :| 0 <= k < |jos| && jos[k] == ios[n];
      RemoveOne(ios, n);
      RemoveOne(jos, k);
      assert ios[..n] + ios[n + 1..] == ios[..n];
      CoverOrderFree(ios[..n], jos[..k] + jos[k + 1..], d, w, x);
      CoverRemoves(jos, k, d, w, x);
    }
  }

  lemma RemoveOne(ios: seq<Io>, k: nat)
    requires k < |ios|
    ensures multiset(ios[..k] + ios[k + 1..]) == multiset(ios) - multiset{ios[k]}
  {
    assert ios == ios[..k] + [ios[k]] + ios[k + 1..];
  }

  /** The rows do not depend on the order in which requests were observed. */
  lemma OrderIndependent(ios: seq<Io>, jos: seq<Io>, a: seq<Row>, b: seq<Row>)
    requires multiset(ios) == multiset(jos)
    requires Canonical(a) && Exact(a, ios) && Canonical(b) && Exact(b, jos)
    ensures a == b
  {
    forall d: Device, w: bool, x: int ensures Cover(ios, d, w, x) == Cover(jos, d, w, x) {
      CoverOrderFree(ios, jos, d, w, x);
    }
    assert Exact(b, ios) by {
      forall d, x | Touched(ios, d, x) ensures Listed(b, d, x) { assert Touched(jos, d, x); }
    }
    RowsUnique(a, b, ios);
  }

  // ---- the accumulator ----

  function EdgesOf(edges: map<Device, Edges>, d: Device): Edges { if d in edges then edges[d] else map[] }

  /** The edges of every device follow the requests seen so far. */
  ghost predicate Follows(edges: map<Device, Edges>, ios: seq<Io>) {
    && (forall d: Device :: EdgeLaw(EdgesOf(edges, d), ios, d))
    && (forall d: Device, k :: k in EdgesOf(edges, d) ==> k <= U64_MAX)
    && (forall i :: 0 <= i < |ios| && Addressed(ios[i]) && ios[i].sector < End(ios[i]) ==> ios[i].device in edges)
  }

  lemma FollowsSkip(edges: map<Device, Edges>, ios: seq<Io>, io: Io)
    requires Follows(edges, ios) && (!Addressed(io) || End(io) <= io.sector)
    ensures Follows(edges, ios + [io])
  {
    forall d: Device ensures EdgeLaw(EdgesOf(edges, d), ios + [io], d) {
      EdgeLawElsewhere(EdgesOf(edges, d), ios, io, d);
    }
  }

  lemma FollowsAdd(edges: map<Device, Edges>, ios: seq<Io>, io: Io, bumped: Edges)
    requires Follows(edges, ios) && Addressed(io) && io.sector < End(io)
    requires bumped == Bump(Bump(EdgesOf(edges, io.device), io.sector, Direction(io)), End(io),
                            (-Direction(io).0, -Direction(io).1))
    ensures Follows(edges[io.device := bumped], ios + [io])
  {
    var after := edges[io.device := bumped];
    forall d: Device ensures EdgeLaw(EdgesOf(after, d), ios + [io], d) {
      assert EdgeLaw(EdgesOf(edges, d), ios, d);
      if d == io.device { EdgeLawKept(EdgesOf(edges, d), ios, io); }
      else { EdgeLawElsewhere(EdgesOf(edges, d), ios, io, d); }
    }
    forall d: Device, k | k in EdgesOf(after, d) ensures k <= U64_MAX {
      assert k == io.sector || k == End(io) || k in EdgesOf(edges, d);
    }
  }

  /** Rows are final for the devices `ds`, and there are no others. */
  ghost predicate FinalFor(rows: seq<Row>, ds: seq<Device>, ios: seq<Io>) {
    && Canonical(rows) && RowsTell(rows, ios)
    && (forall i :: 0 <= i < |rows| ==> rows[i].device in ds)
    && (forall d, x :: d in ds && Touched(ios, d, x) ==> Listed(rows, d, x))
    && Weight(rows, false) == AreaSum(ios, ds, false)
    && Weight(rows, true) == AreaSum(ios, ds, true)
  }

  lemma ListedStays(rows: seq<Row>, before: seq<Row>, d: Device, x: int)
    requires |before| <= |rows| && rows[..|before|] == before
    requires Listed(before, d, x) || Listed(rows[|before|..], d, x)
    ensures Listed(rows, d, x)
  {
    var m := |before|;
    if Listed(before, d, x) {
      var i :| 0 <= i < m && Contains(before[i], d, x);
      assert rows[i] == rows[..m][i];
      assert Contains(rows[i], d, x);
    } else {
      var i :| 0 <= i < |rows[m..]| && Contains(rows[m..][i], d, x);
      assert Contains(rows[m + i], d, x);
    }
  }

  lemma InRange(ios: seq<Io>, d: Device, x: int)
    requires Touched(ios, d, x)
    ensures x < U64_MAX + 1
  {
    if x > U64_MAX {
      CoverOutside(ios, d, false, x);
      CoverOutside(ios, d, true, x);
    }
  }

  lemma TellsGrows(rows: seq<Row>, before: seq<Row>, d: Device, ios: seq<Io>)
    requires RowsTell(before, ios) && SweptTo(rows, |before|, d, ios, U64_MAX + 1) && rows[..|before|] == before
    ensures RowsTell(rows, ios)
    ensures forall i :: 0 <= i < |rows| ==> (if i < |before| then rows[i] == before[i] else rows[i].device == d)
  {
    assert forall i :: 0 <= i < |before| ==> rows[i] == rows[..|before|][i];
  }

  lemma FinalGrows(rows: seq<Row>, before: seq<Row>, ds: seq<Device>, d: Device, ios: seq<Io>)
    requires FinalFor(before, ds, ios) && Swept(rows, before, d, ios, U64_MAX + 1)
    ensures FinalFor(rows, ds + [d], ios)
  {
    assert (ds + [d])[..|ds|] == ds;
    TellsGrows(rows, before, d, ios);
    forall e, x | e in ds + [d] && Touched(ios, e, x) ensures Listed(rows, e, x) {
      if e !in ds { InRange(ios, d, x); }
      ListedStays(rows, before, e, x);
    }
  }

  lemma UntouchedElsewhere(edges: map<Device, Edges>, ios: seq<Io>, d: Device, x: int)
    requires Follows(edges, ios) && d !in edges
    ensures !Touched(ios, d, x)
  {
    assert EdgeLaw(EdgesOf(edges, d), ios, d);
    CoverBeyond(map[], ios, d, false, x);
    CoverBeyond(map[], ios, d, true, x);
  }

  lemma UnaddressedStep(ios: seq<Io>, io: Io)
    ensures Unaddressed(ios + [io]) == Unaddressed(ios) + if Addressed(io) && End(io) <= io.sector then 1 else 0
  {
    assert (ios + [io])[..|ios|] == ios;
  }

  class AddressAccumulator {
    var edges: map<Device, Edges>
    var unknownOrEmpty: nat
    ghost var seen: seq<Io>

    ghost predicate Valid()
      reads this
    {
      Follows(edges, seen) && unknownOrEmpty == Unaddressed(seen)
    }

    constructor ()
      ensures Valid() && seen == []
    {
      edges, unknownOrEmpty, seen := map[], 0, [];
    }

    method Observe(io: Io)
      requires Valid()
      modifies this
      ensures Valid() && seen == old(seen) + [io]
    {
      var start, end, direction := io.sector, End(io), Direction(io);
      UnaddressedStep(seen, io);
      if Addressed(io) && start < end {
        var at := Bump(EdgesOf(edges, io.device), start, direction);
        at := Bump(at, end, (-direction.0, -direction.1));
        FollowsAdd(edges, seen, io, at);
        edges := edges[io.device := at];
      } else {
        FollowsSkip(edges, seen, io);
        if Addressed(io) { unknownOrEmpty := unknownOrEmpty + 1; }
      }
      seen := seen + [io];
    }

    /** The sweep yields the maximal ranges with the reference counts, and no sector is lost. */
    method Finish() returns (rows: seq<Row>)
      requires Valid()
      ensures Canonical(rows) && Exact(rows, seen)
      ensures Weight(rows, false) == Length(seen, false) && Weight(rows, true) == Length(seen, true)
    {
      rows := [];
      var keys := SortedKeys(set d | d in edges :: DeviceKey(d));
      ghost var ds: seq<Device> := [];
      for i := 0 to |keys|
        invariant Visited(edges, keys, ds, i)
        invariant FinalFor(rows, ds, seen)
      {
        ghost var d;
        rows, d := SweepNext(rows, keys, ds, i);
        ds := ds + [d];
      }
      AllVisited(edges, seen, rows, keys, ds);
    }

    /** The rows of the next device in order. */
    method SweepNext(before: seq<Row>, keys: seq<nat>, ghost ds: seq<Device>, i: nat)
      returns (rows: seq<Row>, ghost d: Device)
      requires Valid() && i < |keys| && Ascending(keys)
      requires forall k :: k in keys <==> k in (set d | d in edges :: DeviceKey(d))
      requires Visited(edges, keys, ds, i) && FinalFor(before, ds, seen)
      ensures Visited(edges, keys, ds + [d], i + 1) && FinalFor(rows, ds + [d], seen)
    {
      assert keys[i] in keys;
      var device :| device in edges && DeviceKey(device) == keys[i];
      NextDevice(edges, seen, before, keys, ds, i, device);
      rows := SweepDevice(device, edges[device], before, seen);
      FinalGrows(rows, before, ds, device, seen);
      d := device;
    }
  }

  ghost predicate Visited(edges: map<Device, Edges>, keys: seq<nat>, ds: seq<Device>, i: nat)
    requires i <= |keys|
  {
    |ds| == i && forall j :: 0 <= j < i ==> ds[j] in edges && DeviceKey(ds[j]) == keys[j]
  }

  lemma NextDevice(edges: map<Device, Edges>, ios: seq<Io>, rows: seq<Row>, keys: seq<nat>, ds: seq<Device>, i: nat,
                   d: Device)
    requires Follows(edges, ios) && FinalFor(rows, ds, ios) && Ascending(keys)
    requires i < |keys| && Visited(edges, keys, ds, i) && d in edges && DeviceKey(d) == keys[i]
    ensures EdgeLaw(edges[d], ios, d) && forall k :: k in edges[d] ==> k <= U64_MAX
    ensures forall r :: 0 <= r < |rows| ==> DeviceKey(rows[r].device) < DeviceKey(d)
  {
    assert EdgesOf(edges, d) == edges[d];
    forall r | 0 <= r < |rows| ensures DeviceKey(rows[r].device) < DeviceKey(d) {
      var j :| 0 <= j < i && ds[j] == rows[r].device;
    }
  }

  /** Once every device with edges was swept, the rows are exact and complete. */
  lemma AllVisited(edges: map<Device, Edges>, ios: seq<Io>, rows: seq<Row>, keys: seq<nat>, ds: seq<Device>)
    requires Follows(edges, ios) && FinalFor(rows, ds, ios) && Ascending(keys)
    requires Visited(edges, keys, ds, |keys|) && forall d :: d in edges ==> DeviceKey(d) in keys
    ensures Canonical(rows) && Exact(rows, ios)
    ensures Weight(rows, false) == Length(ios, false) && Weight(rows, true) == Length(ios, true)
  {
    forall d | d in edges ensures d in ds {
      var j :| 0 <= j < |keys| && keys[j] == DeviceKey(d);
      DeviceKeyInjective(d, ds[j]);
    }
    forall d, x | Touched(ios, d, x) ensures Listed(rows, d, x) {
      if d !in edges { UntouchedElsewhere(edges, ios, d, x); }
    }
    AreaIsLength(ios, ds, false);
    AreaIsLength(ios, ds, true);
  }
}
