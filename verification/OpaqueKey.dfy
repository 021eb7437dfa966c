/**
 The salted mix that replaces raw kernel identifiers by opaque ones, and the pairing of block
 issues with block completions that the agent does on the mixed identifiers.
 Words are integers below 2^64; exclusive or, shift and wrapping product are written out.
 */
module OpaqueKey {
  import opened Common

  const WORD: int := 0x1_0000_0000_0000_0000
  const MIX_A: u64 := 0xff51_afd7_ed55_8ccd
  const MIX_B: u64 := 0xc4ce_b9fe_1a85_ec53

  // Inverses of the two odd multipliers modulo 2^64.
  const UNMIX_A: u64 := 0x4f74_430c_22a5_4005
  const UNMIX_B: u64 := 0x9cb4_b2f8_1293_37db

  function Pow2(k: nat): nat { if k == 0 then 1 else 2 * Pow2(k - 1) }

  /** Bitwise exclusive or. */
  function Xor(a: nat, b: nat): nat
    decreases a + b
  {
    if a == 0 && b == 0 then 0 else 2 * Xor(a / 2, b / 2) + (a + b) % 2
  }

  /** Logical shift to the right. */
  function Shr(a: nat, k: nat): nat
    decreases k
  {
    if k == 0 then a else Shr(a / 2, k - 1)
  }

  function XorShift(v: nat): nat { Xor(v, Shr(v, 33)) }

  function WrapMul(a: nat, b: nat): nat { a * b % WORD }

  /** `opaque_key`. */
  function Opaque(raw: u64, salt: u64): nat {
    XorShift(WrapMul(XorShift(WrapMul(XorShift(Xor(raw, salt)), MIX_A)), MIX_B))
  }

  /** Undoes `Opaque` for the same salt. */
  function Reveal(key: u64, salt: u64): nat {
    Xor(XorShift(WrapMul(XorShift(WrapMul(XorShift(key), UNMIX_B)), UNMIX_A)), salt)
  }

  lemma {:induction false} XorBound(a: nat, b: nat, k: nat)
    requires a < Pow2(k) && b < Pow2(k)
    ensures Xor(a, b) < Pow2(k)
  {
    if k > 0 && (a != 0 || b != 0) { XorBound(a / 2, b / 2, k - 1); }
  }

  lemma Parity(y: nat, a: nat, b: nat)
    ensures (2 * y + (a + b) % 2 + b) % 2 == a % 2
  {
  }

  lemma {:induction false} XorUnfold(a: nat, b: nat)
    ensures Xor(a, b) == 2 * Xor(a / 2, b / 2) + (a + b) % 2
    ensures Xor(a, b) / 2 == Xor(a / 2, b / 2)
    ensures (Xor(a, b) + b) % 2 == a % 2
  {
    Parity(Xor(a / 2, b / 2), a, b);
  }

  lemma {:induction false} XorCancel(a: nat, b: nat)
    ensures Xor(Xor(a, b), b) == a
    decreases a + b
  {
    if a != 0 || b != 0 {
      XorCancel(a / 2, b / 2);
      XorUnfold(a, b);
      XorUnfold(Xor(a, b), b);
    }
  }

  lemma {:induction false} XorZero(a: nat)
    ensures Xor(a, 0) == a
  {
    if a != 0 { XorZero(a / 2); }
  }

  lemma {:induction false} ShrXor(a: nat, b: nat, k: nat)
    ensures Shr(Xor(a, b), k) == Xor(Shr(a, k), Shr(b, k))
    decreases k
  {
    if k > 0 {
      assert Xor(a, b) / 2 == Xor(a / 2, b / 2);
      ShrXor(a / 2, b / 2, k - 1);
    }
  }

  lemma {:induction false} ShrBound(a: nat, j: nat, k: nat)
    requires a < Pow2(j + k)
    ensures Shr(a, k) < Pow2(j)
    decreases k
  {
    if k > 0 { ShrBound(a / 2, j, k - 1); }
  }

  lemma {:induction false} Pow2Add(j: nat, k: nat)
    ensures Pow2(j + k) == Pow2(j) * Pow2(k)
  {
    if j > 0 { Pow2Add(j - 1, k); }
  }

  lemma Pow2Word()
    ensures Pow2(64) == WORD
  {
    assert Pow2(8) == 256;
    Pow2Add(8, 8);
    Pow2Add(16, 16);
    Pow2Add(32, 32);
  }

  /** Shifting by more than half the width makes the xor-shift its own inverse. */
  lemma XorShiftInvolution(v: u64)
    ensures XorShift(v) < WORD
    ensures XorShift(XorShift(v)) == v
  {
    Pow2Word();
    var s := Shr(v, 33);
    ShrBound(v, 31, 33);
    Pow2Add(31, 33);
    Pow2Add(31, 2);
    Pow2Add(0, 33);
    assert s < Pow2(31) <= Pow2(33) <= Pow2(64);
    XorBound(v, s, 64);
    ShrXor(v, s, 33);
    ShrBound(s, 0, 33);
    XorZero(s);
    assert Shr(XorShift(v), 33) == s;
    XorCancel(v, s);
  }

  lemma ModOfMultiple(v: int, t: int)
    requires 0 <= v < WORD
    ensures (v + t * WORD) % WORD == v
  {
  }

  /** A wrapping product by `m` is undone by a wrapping product by an inverse of `m`. */
  lemma WrapMulInverse(v: u64, m: nat, n: nat, q: nat)
    requires m * n == q * WORD + 1
    ensures WrapMul(WrapMul(v, m), n) == v
  {
    var k := v * m / WORD;
    calc {
      WrapMul(v, m) * n;
      (v * m - k * WORD) * n;
      v * (m * n) - k * n * WORD;
      v * (q * WORD + 1) - k * n * WORD;
      v + (v * q - k * n) * WORD;
    }
    ModOfMultiple(v, v * q - k * n);
  }

  lemma MixInverses(v: u64)
    ensures WrapMul(WrapMul(v, MIX_A), UNMIX_A) == v == WrapMul(WrapMul(v, UNMIX_A), MIX_A)
    ensures WrapMul(WrapMul(v, MIX_B), UNMIX_B) == v == WrapMul(WrapMul(v, UNMIX_B), MIX_B)
  {
    WrapMulInverse(v, MIX_A, UNMIX_A, MIX_A * UNMIX_A / WORD);
    WrapMulInverse(v, UNMIX_A, MIX_A, MIX_A * UNMIX_A / WORD);
    WrapMulInverse(v, MIX_B, UNMIX_B, MIX_B * UNMIX_B / WORD);
    WrapMulInverse(v, UNMIX_B, MIX_B, MIX_B * UNMIX_B / WORD);
  }

  lemma SaltedBound(raw: u64, salt: u64)
    ensures Xor(raw, salt) < WORD
  {
    Pow2Word();
    XorBound(raw, salt, 64);
  }

  /** For every salt `Opaque` is a map of 64-bit words that `Reveal` undoes. */
  lemma RevealOpaque(raw: u64, salt: u64)
    ensures Opaque(raw, salt) < WORD
    ensures Reveal(Opaque(raw, salt), salt) == raw
  {
    SaltedBound(raw, salt);
    var a := Xor(raw, salt);
    XorShiftInvolution(a);
    var b := WrapMul(XorShift(a), MIX_A);
    XorShiftInvolution(b);
    var c := WrapMul(XorShift(b), MIX_B);
    XorShiftInvolution(c);
    MixInverses(XorShift(a));
    MixInverses(XorShift(b));
    XorCancel(raw, salt);
  }

  /** ... and every 64-bit word is the opaque form of exactly one raw identifier. */
  lemma OpaqueReveal(key: u64, salt: u64)
    ensures Reveal(key, salt) < WORD
    ensures Opaque(Reveal(key, salt), salt) == key
  {
    XorShiftInvolution(key);
    var c := XorShift(key);
    var d := WrapMul(c, UNMIX_B);
    XorShiftInvolution(d);
    var b := XorShift(d);
    var e := WrapMul(b, UNMIX_A);
    XorShiftInvolution(e);
    var a := XorShift(e);
    SaltedBound(a, salt);
    XorCancel(a, salt);
    MixInverses(c);
    MixInverses(b);
  }

  // ---- pairing of issues with completions ----

  datatype Event = Issue(id: u64) | Complete(id: u64) | Unrelated

  /** The pending issues by identifier (as positions in the stream) and the links made so far. */
  datatype Pairing = Pairing(pending: map<u64, nat>, links: seq<(nat, nat)>)

  /** One event at position `at`. */
  function Observe(s: Pairing, at: nat, e: Event): Pairing {
    match e
    case Issue(id) => s.(pending := s.pending[id := at])
    case Complete(id) =>
      if id in s.pending then Pairing(s.pending - {id}, s.links + [(s.pending[id], at)]) else s
    case Unrelated => s
  }

  function PairAll(events: seq<Event>): Pairing {
    if events == [] then Pairing(map[], [])
    else Observe(PairAll(events[..|events| - 1]), |events| - 1, events[|events| - 1])
  }

  /** Event `e` is an issue or completion of request `id`. */
  predicate Touches(e: Event, id: u64) { !e.Unrelated? && e.id == id }

  /** The issue at `i` is the last event of its request before position `n`. */
  ghost predicate OpenIssue(events: seq<Event>, i: nat, n: nat)
    requires n <= |events|
  {
    i < n && events[i].Issue? && forall k :: i < k < n ==> !Touches(events[k], events[i].id)
  }

  /** Reference meaning of a link: the completion at `j` follows the issue at `i` with no event of
      the same request in between. */
  ghost predicate Linked(events: seq<Event>, i: nat, j: nat) {
    j < |events| && OpenIssue(events, i, j) && events[j] == Complete(events[i].id)
  }

  /** The pending map holds exactly the open issues, under their own identifier. */
  lemma {:induction false} PendingAreOpen(events: seq<Event>, i: nat, id: u64)
    ensures id in PairAll(events).pending && PairAll(events).pending[id] == i
            <==> OpenIssue(events, i, |events|) && events[i].id == id
  {
    if events != [] {
      var n := |events| - 1;
      PendingAreOpen(events[..n], i, id);
      if i < n {
        assert OpenIssue(events, i, n + 1) <==>
          OpenIssue(events[..n], i, n) && !Touches(events[n], events[i].id);
      }
    }
  }

  /** The pairing makes exactly the reference links. */
  lemma {:induction false} PairsAreLinks(events: seq<Event>, i: nat, j: nat)
    ensures (i, j) in PairAll(events).links <==> Linked(events, i, j)
  {
    if events != [] {
      var n := |events| - 1;
      var s, e := PairAll(events[..n]), events[n];
      PairsAreLinks(events[..n], i, j);
      assert j < n ==> (Linked(events, i, j) <==> Linked(events[..n], i, j));
      assert i < n ==> (OpenIssue(events, i, n) <==> OpenIssue(events[..n], i, n));
      if e.Complete? {
        PendingAreOpen(events[..n], i, e.id);
        assert (i, j) in PairAll(events).links <==>
          (i, j) in s.links || (e.id in s.pending && s.pending[e.id] == i && j == n);
        if (i, n) in s.links { PairsAreLinks(events[..n], i, n); }
      }
    }
  }

  /** The event as the agent forwards it: the identifier mixed with the session salt. */
  function Mixed(e: Event, salt: u64): Event {
    match e
    case Issue(id) => RevealOpaque(id, salt); Issue(Opaque(id, salt))
    case Complete(id) => RevealOpaque(id, salt); Complete(Opaque(id, salt))
    case Unrelated => Unrelated
  }

  function MixedAll(events: seq<Event>, salt: u64): seq<Event> {
    seq(|events|, k requires 0 <= k < |events| => Mixed(events[k], salt))
  }

  lemma OpaqueInjective(a: u64, b: u64, salt: u64)
    ensures Opaque(a, salt) == Opaque(b, salt) ==> a == b
  {
    RevealOpaque(a, salt);
    RevealOpaque(b, salt);
  }

  lemma MixedKeepsLinks(events: seq<Event>, salt: u64, i: nat, j: nat)
    ensures Linked(MixedAll(events, salt), i, j)
            <==> Linked(events, i, j)
  {
    var mixed := MixedAll(events, salt);
    if i < j < |events| && events[i].Issue? {
      forall k | 0 <= k < |events|
        ensures Touches(mixed[k], mixed[i].id) <==> Touches(events[k], events[i].id)
      {
        if !events[k].Unrelated? { OpaqueInjective(events[k].id, events[i].id, salt); }
      }
      assert mixed[j] == Complete(mixed[i].id) <==>
        events[j].Complete? && Touches(mixed[j], mixed[i].id);
    }
  }

  /** Pairing on opaque identifiers links exactly the events that pairing on raw ones links. */
  lemma OpaquePairingIsRawPairing(events: seq<Event>, salt: u64, i: nat, j: nat)
    ensures (i, j) in PairAll(MixedAll(events, salt)).links
            <==> (i, j) in PairAll(events).links
  {
    PairsAreLinks(events, i, j);
    PairsAreLinks(MixedAll(events, salt), i, j);
    MixedKeepsLinks(events, salt, i, j);
  }

  /** The agent's `LiveHeavyHitters`, reduced to the issues it holds and the pairs it makes. */
  class LivePairing {
    var pending: map<u64, nat>
    var links: seq<(nat, nat)>
    var seen: nat

    ghost function Model(): Pairing
      reads this
    {
      Pairing(pending, links)
    }

    constructor ()
      ensures Model() == PairAll([]) && seen == 0
    {
      pending, links, seen := map[], [], 0;
    }

    /** Keeps the object equal to the pairing of the whole stream observed so far. */
    method Observe(e: Event, ghost past: seq<Event>)
      requires seen == |past| && Model() == PairAll(past)
      modifies this
      ensures seen == |past| + 1 && Model() == PairAll(past + [e])
    {
      match e {
        case Issue(id) => pending := pending[id := seen];
        case Complete(id) =>
          if id in pending {
            links := links + [(pending[id], seen)];
            pending := pending - {id};
          }
        case Unrelated =>
      }
      seen := seen + 1;
      assert (past + [e])[..|past|] == past;
    }
  }
}
