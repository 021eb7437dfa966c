/**
 The BTF type section (section 2, "BTF Type and String Encoding", of the Linux kernel's
 Documentation/bpf/btf.rst): the record format, its encoder, and the general reader.
 `utf8` is the library's UTF-8 check; every statement holds for any such predicate.
 */
module Btf {
  import opened Common

  type Bytes = seq<u8>

  datatype BtfError =
    | UnsupportedHeader | InvalidMagic | Truncated | ShortHeader | InvalidSections
    | InvalidName | TruncatedType | TruncatedPayload | UnsupportedKind

  // ---- words ----

  function Join(a: int, b: int, c: int, d: int): int {
    a + 0x100 * b + 0x1_0000 * c + 0x100_0000 * d
  }

  function EncodeWord(w: u32, little: bool): Bytes {
    var b := [w % 0x100, w / 0x100 % 0x100, w / 0x100 / 0x100 % 0x100, w / 0x100 / 0x100 / 0x100];
    if little then b else [b[3], b[2], b[1], b[0]]
  }

  lemma SplitJoin(w: u32)
    ensures Join(w % 0x100, w / 0x100 % 0x100, w / 0x100 / 0x100 % 0x100, w / 0x100 / 0x100 / 0x100) == w
  {
  }

  lemma Shift(low: u8, high: nat)
    ensures (low + 0x100 * high) % 0x100 == low && (low + 0x100 * high) / 0x100 == high
  {
  }

  lemma JoinSplit(a: u8, b: u8, c: u8, d: u8)
    ensures 0 <= Join(a, b, c, d) <= U32_MAX
    ensures EncodeWord(Join(a, b, c, d), true) == [a, b, c, d]
  {
    var y: nat := c + 0x100 * d;
    var x: nat := b + 0x100 * y;
    assert Join(a, b, c, d) == a + 0x100 * x;
    Shift(a, x);
    Shift(b, y);
    Shift(c, d);
  }

  function Word(bytes: Bytes, p: nat, little: bool): u32
    requires p + 4 <= |bytes|
  {
    if little then Join(bytes[p], bytes[p + 1], bytes[p + 2], bytes[p + 3])
    else Join(bytes[p + 3], bytes[p + 2], bytes[p + 1], bytes[p])
  }

  /** Reading and writing a word are inverse, in either byte order. */
  lemma WordInverse(bytes: Bytes, p: nat, little: bool, w: u32)
    requires p + 4 <= |bytes|
    ensures bytes[p..p + 4] == EncodeWord(w, little) <==> Word(bytes, p, little) == w
  {
    var q := bytes[p..p + 4];
    assert q == [bytes[p], bytes[p + 1], bytes[p + 2], bytes[p + 3]];
    SplitJoin(w);
    if little { JoinSplit(q[0], q[1], q[2], q[3]); } else { JoinSplit(q[3], q[2], q[1], q[0]); }
    if q == EncodeWord(w, little) {
      if little {
        assert q[0] == w % 0x100 && q[1] == w / 0x100 % 0x100;
        assert q[2] == w / 0x100 / 0x100 % 0x100 && q[3] == w / 0x100 / 0x100 / 0x100;
      } else {
        assert q[3] == w % 0x100 && q[2] == w / 0x100 % 0x100;
        assert q[1] == w / 0x100 / 0x100 % 0x100 && q[0] == w / 0x100 / 0x100 / 0x100;
      }
    }
  }

  function EncodeWords(ws: seq<u32>, little: bool): (b: Bytes)
    ensures |b| == 4 * |ws|
  {
    if ws == [] then [] else EncodeWord(ws[0], little) + EncodeWords(ws[1..], little)
  }

  function ReadWords(bytes: Bytes, p: nat, count: nat, little: bool): (ws: seq<u32>)
    requires p + 4 * count <= |bytes|
    ensures |ws| == count
    decreases count
  {
    if count == 0 then [] else [Word(bytes, p, little)] + ReadWords(bytes, p + 4, count - 1, little)
  }

  lemma {:induction false} ReadWordsAt(bytes: Bytes, p: nat, count: nat, little: bool, i: nat)
    requires p + 4 * count <= |bytes| && i < count
    ensures ReadWords(bytes, p, count, little)[i] == Word(bytes, p + 4 * i, little)
    decreases count
  {
    if i > 0 { ReadWordsAt(bytes, p + 4, count - 1, little, i - 1); }
  }

  lemma ConcatSplit(s: Bytes, a: Bytes, b: Bytes)
    requires |a| <= |s|
    ensures s == a + b <==> s[..|a|] == a && s[|a|..] == b
  {
    assert s == s[..|a|] + s[|a|..];
    assert (a + b)[..|a|] == a && (a + b)[|a|..] == b;
  }

  lemma ConsEqual(ws: seq<u32>, w: u32, rest: seq<u32>)
    requires ws != []
    ensures ws == [w] + rest <==> ws[0] == w && ws[1..] == rest
  {
    assert ws == [ws[0]] + ws[1..];
  }

  lemma SectionParts(bytes: Bytes, p: nat, count: nat)
    requires p + 4 * count <= |bytes| && count > 0
    ensures var section := bytes[p..p + 4 * count];
      section[..4] == bytes[p..p + 4] && section[4..] == bytes[p + 4..p + 4 + 4 * (count - 1)]
  {
  }

  lemma {:induction false} WordsInverse(bytes: Bytes, p: nat, count: nat, little: bool, ws: seq<u32>)
    requires p + 4 * count <= |bytes|
    ensures bytes[p..p + 4 * count] == EncodeWords(ws, little) <==> ws == ReadWords(bytes, p, count, little)
    decreases count
  {
    if count > 0 && ws != [] {
      WordsInverse(bytes, p + 4, count - 1, little, ws[1..]);
      WordInverse(bytes, p, little, ws[0]);
      SectionParts(bytes, p, count);
      ConcatSplit(bytes[p..p + 4 * count], EncodeWord(ws[0], little), EncodeWords(ws[1..], little));
      ConsEqual(ws, Word(bytes, p, little), ReadWords(bytes, p + 4, count - 1, little));
    } else {
      assert |bytes[p..p + 4 * count]| == 4 * count;
    }
  }

  // ---- names ----

  /** Position of the first zero byte at or after `from`. */
  function FindZero(s: Bytes, from: nat): Option<nat>
    requires from <= |s|
    decreases |s| - from
  {
    if from == |s| then None else if s[from] == 0 then Some(from) else FindZero(s, from + 1)
  }

  function Name(strings: Bytes, offset: u32, utf8: Bytes -> bool): Option<Bytes> {
    if offset > |strings| then None
    else
      var end := FindZero(strings, offset);
      if end.Some? && offset <= end.value <= |strings| && utf8(strings[offset..end.value])
      then Some(strings[offset..end.value]) else None
  }

  // ---- records ----

  /** One type record as it is laid out: three header words and the payload words. */
  datatype Record = Record(name: u32, info: u32, size: u32, data: seq<u32>)

  /** One decoded type. */
  datatype Ty = Ty(name: Bytes, kind: u32, size: u32, flag: bool, data: seq<u32>)

  const VOID: Ty := Ty([], 0, 0, false, [])

  function Kind(info: u32): u32 { info / 0x100_0000 % 32 }

  function Vlen(info: u32): u32 { info % 0x1_0000 }

  function Flag(info: u32): bool { info / 0x8000_0000 != 0 }

  /** Payload words of a kind, `None` when the reader does not know it. */
  function PayloadWords(kind: u32, vlen: nat): Option<nat> {
    if kind == 1 || kind == 14 || kind == 17 then Some(1)
    else if kind == 2 || 7 <= kind <= 12 || kind == 16 || kind == 18 then Some(0)
    else if kind == 3 then Some(3)
    else if kind == 4 || kind == 5 || kind == 15 || kind == 19 then Some(3 * vlen)
    else if kind == 6 || kind == 13 then Some(2 * vlen)
    else None
  }

  predicate WellFormed(r: Record, strings: Bytes, utf8: Bytes -> bool) {
    PayloadWords(Kind(r.info), Vlen(r.info)) == Some(|r.data|) && Name(strings, r.name, utf8).Some?
  }

  ghost predicate AllWellFormed(rs: seq<Record>, strings: Bytes, utf8: Bytes -> bool) {
    forall i :: 0 <= i < |rs| ==> WellFormed(rs[i], strings, utf8)
  }

  function Decoded(r: Record, strings: Bytes, utf8: Bytes -> bool): Ty
    requires WellFormed(r, strings, utf8)
  {
    Ty(Name(strings, r.name, utf8).value, Kind(r.info), r.size, Flag(r.info), r.data)
  }

  ghost function DecodedAll(rs: seq<Record>, strings: Bytes, utf8: Bytes -> bool): seq<Ty>
    requires AllWellFormed(rs, strings, utf8)
  {
    seq(|rs|, i requires 0 <= i < |rs| => Decoded(rs[i], strings, utf8))
  }

  function EncodeRecord(r: Record, little: bool): (b: Bytes)
    ensures |b| == 12 + 4 * |r.data|
  {
    EncodeWords([r.name, r.info, r.size] + r.data, little)
  }

  function EncodeRecords(rs: seq<Record>, little: bool): Bytes {
    if rs == [] then [] else EncodeRecord(rs[0], little) + EncodeRecords(rs[1..], little)
  }

  // ---- the reader's loop, as a function ----

  datatype Step = Stop(error: BtfError) | Type(ty: Ty, next: nat)

  /** Decodes the record at `p` of a section that ends at `end`. */
  function ReadRecord(bytes: Bytes, little: bool, strings: Bytes, utf8: Bytes -> bool, p: nat, end: nat): (s: Step)
    requires p < end <= |bytes|
    ensures s.Type? ==> p + 12 <= s.next <= end && s.next == p + 12 + 4 * |s.ty.data|
  {
    if end - p < 12 then Stop(TruncatedType)
    else
      var name := Name(strings, Word(bytes, p, little), utf8);
      var info := Word(bytes, p + 4, little);
      var words := PayloadWords(Kind(info), Vlen(info));
      if name.None? then Stop(InvalidName)
      else if words.None? then Stop(UnsupportedKind)
      else if words.value * 4 > end - (p + 12) then Stop(TruncatedPayload)
      else
        Type(Ty(name.value, Kind(info), Word(bytes, p + 8, little), Flag(info),
                ReadWords(bytes, p + 12, words.value, little)),
             p + 12 + 4 * words.value)
  }

  function ReadTypes(bytes: Bytes, little: bool, strings: Bytes, utf8: Bytes -> bool, p: nat, end: nat)
    : Result<seq<Ty>, BtfError>
    requires p <= end <= |bytes|
    decreases end - p
  {
    if p == end then Ok([])
    else
      match ReadRecord(bytes, little, strings, utf8, p, end)
      case Stop(e) => Err(e)
      case Type(ty, next) =>
        match ReadTypes(bytes, little, strings, utf8, next, end)
        case Err(e) => Err(e)
        case Ok(rest) => Ok([ty] + rest)
  }

  /** The record whose bytes start at `p`. */
  ghost function RecordAt(bytes: Bytes, little: bool, p: nat, words: nat): Record
    requires p + 12 + 4 * words <= |bytes|
  {
    Record(Word(bytes, p, little), Word(bytes, p + 4, little), Word(bytes, p + 8, little),
           ReadWords(bytes, p + 12, words, little))
  }

  lemma RecordWords(bytes: Bytes, little: bool, p: nat, words: nat)
    requires p + 12 + 4 * words <= |bytes|
    ensures var r := RecordAt(bytes, little, p, words);
      ReadWords(bytes, p, words + 3, little) == [r.name, r.info, r.size] + r.data
  {
    var r := RecordAt(bytes, little, p, words);
    assert ReadWords(bytes, p + 8, words + 1, little) == [r.size] + r.data;
    assert ReadWords(bytes, p + 4, words + 2, little) == [r.info] + ReadWords(bytes, p + 8, words + 1, little);
    assert [r.name] + ([r.info] + ([r.size] + r.data)) == [r.name, r.info, r.size] + r.data;
  }

  lemma RecordBytes(bytes: Bytes, little: bool, p: nat, words: nat)
    requires p + 12 + 4 * words <= |bytes|
    ensures EncodeRecord(RecordAt(bytes, little, p, words), little) == bytes[p..p + 12 + 4 * words]
  {
    RecordWords(bytes, little, p, words);
    WordsInverse(bytes, p, words + 3, little, ReadWords(bytes, p, words + 3, little));
    assert p + 4 * (words + 3) == p + 12 + 4 * words;
  }

  lemma RecordUnique(bytes: Bytes, little: bool, p: nat, r: Record)
    requires p + 12 + 4 * |r.data| <= |bytes|
    requires bytes[p..p + 12 + 4 * |r.data|] == EncodeRecord(r, little)
    ensures r == RecordAt(bytes, little, p, |r.data|)
  {
    var all := [r.name, r.info, r.size] + r.data;
    WordsInverse(bytes, p, |all|, little, all);
    assert ReadWords(bytes, p + 8, |r.data| + 1, little) ==
      [Word(bytes, p + 8, little)] + ReadWords(bytes, p + 12, |r.data|, little);
    assert ReadWords(bytes, p + 4, |r.data| + 2, little) ==
      [Word(bytes, p + 4, little)] + ReadWords(bytes, p + 8, |r.data| + 1, little);
    assert all == [Word(bytes, p, little)] + ReadWords(bytes, p + 4, |r.data| + 2, little);
    assert all[0] == r.name && all[1] == r.info && all[2] == r.size && all[3..] == r.data;
    assert all[1..][1..][1..] == all[3..];
  }

  /** An accepted record is well formed, decodes to the type returned, and fills its bytes. */
  lemma RecordAccepted(bytes: Bytes, little: bool, strings: Bytes, utf8: Bytes -> bool, p: nat, end: nat)
    returns (r: Record)
    requires p < end <= |bytes| && ReadRecord(bytes, little, strings, utf8, p, end).Type?
    ensures var s := ReadRecord(bytes, little, strings, utf8, p, end);
      && WellFormed(r, strings, utf8) && Decoded(r, strings, utf8) == s.ty
      && EncodeRecord(r, little) == bytes[p..s.next]
  {
    var s := ReadRecord(bytes, little, strings, utf8, p, end);
    r := RecordAt(bytes, little, p, |s.ty.data|);
    RecordBytes(bytes, little, p, |s.ty.data|);
  }

  lemma Cons(r: Record, rest: seq<Record>, strings: Bytes, utf8: Bytes -> bool, little: bool)
    requires WellFormed(r, strings, utf8) && AllWellFormed(rest, strings, utf8)
    ensures AllWellFormed([r] + rest, strings, utf8)
    ensures DecodedAll([r] + rest, strings, utf8) == [Decoded(r, strings, utf8)] + DecodedAll(rest, strings, utf8)
    ensures EncodeRecords([r] + rest, little) == EncodeRecord(r, little) + EncodeRecords(rest, little)
  {
    assert ([r] + rest)[1..] == rest;
  }

  /** Whatever the reader accepts is the encoding of well-formed records, to the last byte. */
  lemma {:induction false} AcceptedIsEncoding(
    bytes: Bytes, little: bool, strings: Bytes, utf8: Bytes -> bool, p: nat, end: nat)
    returns (rs: seq<Record>)
    requires p <= end <= |bytes|
    requires ReadTypes(bytes, little, strings, utf8, p, end).Ok?
    ensures AllWellFormed(rs, strings, utf8)
    ensures EncodeRecords(rs, little) == bytes[p..end]
    ensures ReadTypes(bytes, little, strings, utf8, p, end) == Ok(DecodedAll(rs, strings, utf8))
    decreases end - p
  {
    if p == end {
      rs := [];
      assert DecodedAll(rs, strings, utf8) == [];
    } else {
      var s := ReadRecord(bytes, little, strings, utf8, p, end);
      var r := RecordAccepted(bytes, little, strings, utf8, p, end);
      var rest := AcceptedIsEncoding(bytes, little, strings, utf8, s.next, end);
      rs := [r] + rest;
      Cons(r, rest, strings, utf8, little);
      SliceSplit(bytes, p, s.next, end);
    }
  }

  lemma SliceSplit(bytes: Bytes, p: nat, mid: nat, end: nat)
    requires p <= mid <= end <= |bytes|
    ensures bytes[p..end] == bytes[p..mid] + bytes[mid..end]
  {
  }

  /** Every encoding of well-formed records is accepted and gives exactly those records back. */
  lemma {:induction false} EncodingIsAccepted(
    bytes: Bytes, little: bool, strings: Bytes, utf8: Bytes -> bool, p: nat, end: nat, rs: seq<Record>)
    requires p <= end <= |bytes|
    requires AllWellFormed(rs, strings, utf8) && EncodeRecords(rs, little) == bytes[p..end]
    ensures ReadTypes(bytes, little, strings, utf8, p, end) == Ok(DecodedAll(rs, strings, utf8))
    decreases |rs|
  {
    if rs == [] {
      assert |bytes[p..end]| == 0;
      assert DecodedAll(rs, strings, utf8) == [];
    } else {
      var next := p + |EncodeRecord(rs[0], little)|;
      FirstAccepted(bytes, little, strings, utf8, p, end, rs);
      EncodingIsAccepted(bytes, little, strings, utf8, next, end, rs[1..]);
      RestAccepted(bytes, little, strings, utf8, p, next, end, rs);
    }
  }

  lemma RestAccepted(
    bytes: Bytes, little: bool, strings: Bytes, utf8: Bytes -> bool, p: nat, next: nat, end: nat, rs: seq<Record>)
    requires p < next <= end <= |bytes| && rs != []
    requires AllWellFormed(rs, strings, utf8) && AllWellFormed(rs[1..], strings, utf8)
    requires ReadRecord(bytes, little, strings, utf8, p, end) == Type(Decoded(rs[0], strings, utf8), next)
    requires ReadTypes(bytes, little, strings, utf8, next, end) == Ok(DecodedAll(rs[1..], strings, utf8))
    ensures ReadTypes(bytes, little, strings, utf8, p, end) == Ok(DecodedAll(rs, strings, utf8))
  {
    TypesStep(bytes, little, strings, utf8, p, end);
    DecodedFirst(rs, strings, utf8);
  }

  lemma TypesStep(bytes: Bytes, little: bool, strings: Bytes, utf8: Bytes -> bool, p: nat, end: nat)
    requires p < end <= |bytes| && ReadRecord(bytes, little, strings, utf8, p, end).Type?
    ensures
      var s := ReadRecord(bytes, little, strings, utf8, p, end);
      var rest := ReadTypes(bytes, little, strings, utf8, s.next, end);
      rest.Ok? ==> ReadTypes(bytes, little, strings, utf8, p, end) == Ok([s.ty] + rest.value)
  {
  }

  lemma DecodedFirst(rs: seq<Record>, strings: Bytes, utf8: Bytes -> bool)
    requires rs != [] && AllWellFormed(rs, strings, utf8)
    ensures AllWellFormed(rs[1..], strings, utf8)
    ensures DecodedAll(rs, strings, utf8) == [Decoded(rs[0], strings, utf8)] + DecodedAll(rs[1..], strings, utf8)
  {
  }

  lemma FirstAccepted(
    bytes: Bytes, little: bool, strings: Bytes, utf8: Bytes -> bool, p: nat, end: nat, rs: seq<Record>)
    requires p <= end <= |bytes| && rs != []
    requires AllWellFormed(rs, strings, utf8) && EncodeRecords(rs, little) == bytes[p..end]
    ensures var next := p + |EncodeRecord(rs[0], little)|;
      && p < next <= end && bytes[next..end] == EncodeRecords(rs[1..], little)
      && ReadRecord(bytes, little, strings, utf8, p, end) == Type(Decoded(rs[0], strings, utf8), next)
    ensures AllWellFormed(rs[1..], strings, utf8)
  {
    SplitAt(bytes, p, end, EncodeRecord(rs[0], little), EncodeRecords(rs[1..], little));
    RecordUnique(bytes, little, p, rs[0]);
    assert WellFormed(rs[0], strings, utf8);
  }

  lemma SplitAt(bytes: Bytes, p: nat, end: nat, e: Bytes, rest: Bytes)
    requires p <= end <= |bytes| && e + rest == bytes[p..end]
    ensures p + |e| <= end && bytes[p..p + |e|] == e && bytes[p + |e|..end] == rest
  {
    assert bytes[p..p + |e|] == bytes[p..end][..|e|] && bytes[p + |e|..end] == bytes[p..end][|e|..];
  }

  // ---- the whole blob ----

  datatype Sections = Sections(little: bool, start: nat, end: nat, stringStart: nat, stringEnd: nat)

  function ByteOrder(bytes: Bytes): Option<bool>
    requires |bytes| >= 2
  {
    if bytes[0] == 0x9f && bytes[1] == 0xeb then Some(true)
    else if bytes[0] == 0xeb && bytes[1] == 0x9f then Some(false)
    else None
  }

  /** Section bounds from the five words after the magic, version and flags. */
  function SectionsOf(bytes: Bytes, little: bool): Sections
    requires |bytes| >= 24
  {
    var header := Word(bytes, 4, little);
    var start := header + Word(bytes, 8, little);
    var strings := header + Word(bytes, 16, little);
    Sections(little, start, start + Word(bytes, 12, little), strings, strings + Word(bytes, 20, little))
  }

  function ReadHeader(bytes: Bytes): (r: Result<Sections, BtfError>)
    ensures r.Ok? ==> 24 <= r.value.start <= r.value.end <= r.value.stringStart <= r.value.stringEnd <= |bytes|
  {
    if |bytes| < 24 || bytes[2] != 1 then Err(UnsupportedHeader)
    else
      var order := ByteOrder(bytes);
      if order.None? then Err(InvalidMagic)
      else if Word(bytes, 4, order.value) < 24 then Err(ShortHeader)
      else
        var s := SectionsOf(bytes, order.value);
        if s.end > |bytes| || s.stringStart < s.end || s.stringEnd > |bytes| then Err(InvalidSections)
        else Ok(s)
  }

  datatype Btf = Btf(types: seq<Ty>, strings: Bytes)

  function ReadBtf(bytes: Bytes, utf8: Bytes -> bool): Result<Btf, BtfError> {
    match ReadHeader(bytes)
    case Err(e) => Err(e)
    case Ok(s) =>
      var strings := bytes[s.stringStart..s.stringEnd];
      match ReadTypes(bytes, s.little, strings, utf8, s.start, s.end)
      case Err(e) => Err(e)
      case Ok(types) => Ok(Btf([VOID] + types, strings))
  }

  /** The payload words, pushed one by one. */
  method ReadPayload(bytes: Bytes, p: nat, n: nat, little: bool) returns (data: seq<u32>)
    requires p + 4 * n <= |bytes|
    ensures data == ReadWords(bytes, p, n, little)
  {
    ghost var expected := ReadWords(bytes, p, n, little);
    data := [];
    for i := 0 to n
      invariant data == expected[..i]
    {
      ReadWordsAt(bytes, p, n, little, i);
      data := data + [Word(bytes, p + 4 * i, little)];
    }
  }

  /** The body of the reader's loop: one record. */
  method ReadOne(bytes: Bytes, little: bool, strings: Bytes, utf8: Bytes -> bool, p: nat, end: nat)
    returns (s: Step)
    requires p < end <= |bytes|
    ensures s == ReadRecord(bytes, little, strings, utf8, p, end)
  {
    if end - p < 12 { return Stop(TruncatedType); }
    var name := Name(strings, Word(bytes, p, little), utf8);
    if name.None? { return Stop(InvalidName); }
    var info := Word(bytes, p + 4, little);
    var words := PayloadWords(Kind(info), Vlen(info));
    if words.None? { return Stop(UnsupportedKind); }
    if words.value * 4 > end - (p + 12) { return Stop(TruncatedPayload); }
    var data := ReadPayload(bytes, p + 12, words.value, little);
    s := Type(Ty(name.value, Kind(info), Word(bytes, p + 8, little), Flag(info), data),
              p + 12 + 4 * words.value);
  }

  /** The result of a read whose remaining section gives `rest`. */
  ghost function Finish(types: seq<Ty>, rest: Result<seq<Ty>, BtfError>, strings: Bytes): Result<Btf, BtfError> {
    match rest
    case Err(e) => Err(e)
    case Ok(ts) => Ok(Btf(types + ts, strings))
  }

  lemma FinishStep(types: seq<Ty>, ty: Ty, rest: Result<seq<Ty>, BtfError>, strings: Bytes)
    ensures Finish(types + [ty], rest, strings) ==
      Finish(types, if rest.Ok? then Ok([ty] + rest.value) else rest, strings)
  {
    if rest.Ok? { assert types + [ty] + rest.value == types + ([ty] + rest.value); }
  }

  /** `Btf::read`: a cursor over the type section, one pushed type per record. */
  method Read(bytes: Bytes, utf8: Bytes -> bool) returns (r: Result<Btf, BtfError>)
    ensures r == ReadBtf(bytes, utf8)
  {
    var header := ReadHeader(bytes);
    if header.Err? { return Err(header.error); }
    var s := header.value;
    var strings := bytes[s.stringStart..s.stringEnd];
    var types, p := [VOID], s.start;
    while p < s.end
      invariant s.start <= p <= s.end
      invariant ReadBtf(bytes, utf8) ==
        Finish(types, ReadTypes(bytes, s.little, strings, utf8, p, s.end), strings)
    {
      var step := ReadOne(bytes, s.little, strings, utf8, p, s.end);
      if step.Stop? { return Err(step.error); }
      FinishStep(types, step.ty, ReadTypes(bytes, s.little, strings, utf8, step.next, s.end), strings);
      types := types + [step.ty];
      p := step.next;
    }
    assert types + [] == types;
    r := Ok(Btf(types, strings));
  }

  /** `b` is the void type followed by the types of `rs`, and the type section is their encoding. */
  ghost predicate Describes(bytes: Bytes, s: Sections, utf8: Bytes -> bool, rs: seq<Record>, b: Btf)
    requires s.start <= s.end <= s.stringStart <= s.stringEnd <= |bytes|
  {
    var strings := bytes[s.stringStart..s.stringEnd];
    && AllWellFormed(rs, strings, utf8)
    && EncodeRecords(rs, s.little) == bytes[s.start..s.end]
    && b == Btf([VOID] + DecodedAll(rs, strings, utf8), strings)
  }

  /** The reader's language: it returns `b` exactly when the header is sound and the type section
      is, to its last byte, the encoding of well-formed records that decode to `b`. */
  lemma ReadIff(bytes: Bytes, utf8: Bytes -> bool, b: Btf)
    ensures ReadBtf(bytes, utf8) == Ok(b) <==>
      ReadHeader(bytes).Ok? && exists rs :: Describes(bytes, ReadHeader(bytes).value, utf8, rs, b)
  {
    if ReadHeader(bytes).Ok? {
      var s := ReadHeader(bytes).value;
      var strings := bytes[s.stringStart..s.stringEnd];
      if ReadBtf(bytes, utf8) == Ok(b) {
        var rs := AcceptedIsEncoding(bytes, s.little, strings, utf8, s.start, s.end);
        assert Describes(bytes, s, utf8, rs, b);
      }
      if rs :| Describes(bytes, s, utf8, rs, b) {
        EncodingIsAccepted(bytes, s.little, strings, utf8, s.start, s.end, rs);
      }
    }
  }

  /** Magic, version, flags and the five section words. */
  function EncodeHeader(types: u32, strings: u32, little: bool): (h: Bytes)
    ensures |h| == 24
  {
    (if little then [0x9f, 0xeb, 1, 0] else [0xeb, 0x9f, 1, 0]) +
    EncodeWords([24, 0, types, types, strings], little)
  }

  /** A blob with a 24-byte header, the records and then the strings. */
  function EncodeBlob(rs: seq<Record>, strings: Bytes, little: bool): Bytes
    requires |EncodeRecords(rs, little)| <= U32_MAX && |strings| <= U32_MAX
  {
    var types := EncodeRecords(rs, little);
    EncodeHeader(|types|, |strings|, little) + (types + strings)
  }

  lemma HeaderWords(bytes: Bytes, types: u32, strings: u32, little: bool, i: nat)
    requires |bytes| >= 24 && bytes[..24] == EncodeHeader(types, strings, little) && i < 5
    ensures Word(bytes, 4 + 4 * i, little) == [24, 0, types, types, strings][i]
  {
    var ws := [24, 0, types, types, strings];
    assert bytes[4..24] == bytes[..24][4..] == EncodeWords(ws, little);
    WordsInverse(bytes, 4, 5, little, ws);
    ReadWordsAt(bytes, 4, 5, little, i);
  }

  lemma HeaderMagic(bytes: Bytes, types: u32, strings: u32, little: bool)
    requires |bytes| >= 24 && bytes[..24] == EncodeHeader(types, strings, little)
    ensures ByteOrder(bytes) == Some(little) && bytes[2] == 1
  {
    var h := EncodeHeader(types, strings, little);
    assert bytes[0] == h[0] && bytes[1] == h[1] && bytes[2] == h[2];
  }

  lemma HeaderBounds(bytes: Bytes, types: u32, strings: u32, little: bool)
    requires |bytes| >= 24
    requires Word(bytes, 4, little) == 24 && Word(bytes, 8, little) == 0
    requires Word(bytes, 12, little) == Word(bytes, 16, little) == types
    requires Word(bytes, 20, little) == strings
    ensures SectionsOf(bytes, little) ==
      Sections(little, 24, 24 + types, 24 + types, 24 + types + strings)
  {
  }

  lemma HeaderSections(bytes: Bytes, types: u32, strings: u32, little: bool)
    requires |bytes| == 24 + types + strings && bytes[..24] == EncodeHeader(types, strings, little)
    ensures ReadHeader(bytes) ==
      Ok(Sections(little, 24, 24 + types, 24 + types, 24 + types + strings))
  {
    assert Word(bytes, 4, little) == 24 by { HeaderWords(bytes, types, strings, little, 0); }
    assert Word(bytes, 8, little) == 0 by { HeaderWords(bytes, types, strings, little, 1); }
    assert Word(bytes, 12, little) == types by { HeaderWords(bytes, types, strings, little, 2); }
    assert Word(bytes, 16, little) == types by { HeaderWords(bytes, types, strings, little, 3); }
    assert Word(bytes, 20, little) == strings by { HeaderWords(bytes, types, strings, little, 4); }
    HeaderMagic(bytes, types, strings, little);
    HeaderBounds(bytes, types, strings, little);
  }

  lemma BlobSlices(h: Bytes, types: Bytes, strings: Bytes)
    requires |h| == 24
    ensures var b, n := h + (types + strings), |types|;
      && |b| == 24 + n + |strings| && b[..24] == h
      && b[24..24 + n] == types && b[24 + n..24 + n + |strings|] == strings
  {
  }

  lemma ReadSections(bytes: Bytes, s: Sections, utf8: Bytes -> bool, rs: seq<Record>, strings: Bytes)
    requires ReadHeader(bytes) == Ok(s) && strings == bytes[s.stringStart..s.stringEnd]
    requires AllWellFormed(rs, strings, utf8) && EncodeRecords(rs, s.little) == bytes[s.start..s.end]
    ensures ReadBtf(bytes, utf8) == Ok(Btf([VOID] + DecodedAll(rs, strings, utf8), strings))
  {
    EncodingIsAccepted(bytes, s.little, strings, utf8, s.start, s.end, rs);
  }

  /** Any well-formed list of types survives encoding and reading, in either byte order. */
  lemma RoundTrip(rs: seq<Record>, strings: Bytes, little: bool, utf8: Bytes -> bool)
    requires |EncodeRecords(rs, little)| <= U32_MAX && |strings| <= U32_MAX
    requires AllWellFormed(rs, strings, utf8)
    ensures ReadBtf(EncodeBlob(rs, strings, little), utf8)
      == Ok(Btf([VOID] + DecodedAll(rs, strings, utf8), strings))
  {
    var n: u32, m: u32 := |EncodeRecords(rs, little)|, |strings|;
    BlobParts(rs, strings, little);
    BlobReads(EncodeBlob(rs, strings, little), n, m, little, utf8, rs, strings);
  }

  lemma BlobParts(rs: seq<Record>, strings: Bytes, little: bool)
    requires |EncodeRecords(rs, little)| <= U32_MAX && |strings| <= U32_MAX
    ensures var b, n, m := EncodeBlob(rs, strings, little), |EncodeRecords(rs, little)|, |strings|;
      && |b| == 24 + n + m && b[..24] == EncodeHeader(n, m, little)
      && b[24..24 + n] == EncodeRecords(rs, little) && b[24 + n..24 + n + m] == strings
  {
    var types := EncodeRecords(rs, little);
    BlobSlices(EncodeHeader(|types|, |strings|, little), types, strings);
  }

  lemma BlobReads(b: Bytes, n: u32, m: u32, little: bool, utf8: Bytes -> bool, rs: seq<Record>, strings: Bytes)
    requires |b| == 24 + n + m && b[..24] == EncodeHeader(n, m, little)
    requires b[24..24 + n] == EncodeRecords(rs, little) && b[24 + n..24 + n + m] == strings
    requires AllWellFormed(rs, strings, utf8)
    ensures ReadBtf(b, utf8) == Ok(Btf([VOID] + DecodedAll(rs, strings, utf8), strings))
  {
    HeaderSections(b, n, m, little);
    ReadSections(b, Sections(little, 24, 24 + n, 24 + n, 24 + n + m), utf8, rs, strings);
  }
}
