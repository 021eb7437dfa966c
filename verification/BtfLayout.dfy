/**
 The agent's other BTF decoder: a record walk that collects member offsets of seven kernel
 structures straight from the bytes. It is compared with the general reader of module `Btf`.
 */
module BtfLayout {
  import opened Common
  import opened Btf

  // "file", "inode", "super_block", "address_space", "task_struct", "files_struct", "fdtable"
  const OWNERS: set<Bytes> := {
    [102, 105, 108, 101],
    [105, 110, 111, 100, 101],
    [115, 117, 112, 101, 114, 95, 98, 108, 111, 99, 107],
    [97, 100, 100, 114, 101, 115, 115, 95, 115, 112, 97, 99, 101],
    [116, 97, 115, 107, 95, 115, 116, 114, 117, 99, 116],
    [102, 105, 108, 101, 115, 95, 115, 116, 114, 117, 99, 116],
    [102, 100, 116, 97, 98, 108, 101]
  }

  const STRUCT: u32 := 4

  /** Byte offset of each (structure, member) seen so far; a later record overwrites an earlier one. */
  type Fields = map<(Bytes, Bytes), u16>

  /** `btf_extra_size`, in bytes. */
  function ExtraSize(kind: u32, vlen: nat): Option<nat> {
    if kind == 1 then Some(4)
    else if kind == 2 || 7 <= kind <= 12 || kind == 16 || kind == 18 then Some(0)
    else if kind == 3 then Some(12)
    else if kind == 4 || kind == 5 then Some(12 * vlen)
    else if kind == 6 || kind == 13 then Some(8 * vlen)
    else if kind == 14 || kind == 17 then Some(4)
    else if kind == 15 || kind == 19 then Some(12 * vlen)
    else None
  }

  /** The two decoders' tables of payload sizes are the same table. */
  lemma SizesAgree(kind: u32, vlen: nat)
    ensures ExtraSize(kind, vlen).Some? <==> PayloadWords(kind, vlen).Some?
    ensures ExtraSize(kind, vlen).Some? ==> ExtraSize(kind, vlen).value == 4 * PayloadWords(kind, vlen).value
  {
  }

  /** Byte offset of a member, `None` for a bit field or an offset that is not addressable. */
  function MemberOffset(raw: u32, flag: bool): Option<u16> {
    var bit := if flag then raw % 0x100_0000 else raw;
    if (flag && raw / 0x100_0000 != 0) || bit % 8 != 0 || bit / 8 > U16_MAX then None
    else Some(bit / 8)
  }

  function AddMember(fields: Fields, owner: Bytes, member: Bytes, raw: u32, flag: bool): Fields {
    var offset := MemberOffset(raw, flag);
    if offset.Some? then fields[(owner, member) := offset.value] else fields
  }

  datatype Walked = Walked(fields: Fields, starts: seq<nat>)

  /** Members `i..count` of the structure whose payload is at `p`. */
  function WalkMembers(bytes: Bytes, little: bool, strings: Bytes, utf8: Bytes -> bool,
                       owner: Bytes, flag: bool, p: nat, i: nat, count: nat, fields: Fields): Result<Fields, BtfError>
    requires i <= count && p + 12 * count <= |bytes|
    decreases count - i
  {
    if i == count then Ok(fields)
    else
      var name := Name(strings, Word(bytes, p + 12 * i, little), utf8);
      if name.None? then Err(InvalidName)
      else WalkMembers(bytes, little, strings, utf8, owner, flag, p, i + 1, count,
                       AddMember(fields, owner, name.value, Word(bytes, p + 12 * i + 8, little), flag))
  }

  /** The fields after the record at `p`, whose payload lies within the section. */
  function WalkRecord(bytes: Bytes, little: bool, strings: Bytes, utf8: Bytes -> bool, p: nat, fields: Fields)
    : Result<Fields, BtfError>
    requires p + 12 <= |bytes|
    requires var info := Word(bytes, p + 4, little);
      ExtraSize(Kind(info), Vlen(info)).Some? && p + 12 + ExtraSize(Kind(info), Vlen(info)).value <= |bytes|
  {
    var info := Word(bytes, p + 4, little);
    if Kind(info) != STRUCT then Ok(fields)
    else
      var owner := Name(strings, Word(bytes, p, little), utf8);
      if owner.None? then Err(InvalidName)
      else if owner.value !in OWNERS then Ok(fields)
      else WalkMembers(bytes, little, strings, utf8, owner.value, Flag(info), p + 12, 0, Vlen(info), fields)
  }

  datatype Hop = Halt(error: BtfError) | Hop(fields: Fields, next: nat)

  /** One turn of the walk: the record at `p`. */
  function WalkStep(bytes: Bytes, s: Sections, strings: Bytes, utf8: Bytes -> bool, p: nat, fields: Fields): (h: Hop)
    requires p < s.end <= |bytes|
    ensures h.Hop? ==> p < h.next <= s.end
  {
    if p + 8 > |bytes| then Halt(Truncated)
    else
      var info := Word(bytes, p + 4, s.little);
      var extra := ExtraSize(Kind(info), Vlen(info));
      if extra.None? then Halt(UnsupportedKind)
      else if p + 12 + extra.value > s.end then Halt(TruncatedPayload)
      else
        match WalkRecord(bytes, s.little, strings, utf8, p, fields)
        case Err(e) => Halt(e)
        case Ok(f) => Hop(f, p + 12 + extra.value)
  }

  function Walk(bytes: Bytes, s: Sections, strings: Bytes, utf8: Bytes -> bool, p: nat, w: Walked)
    : Result<Walked, BtfError>
    requires s.end <= |bytes|
    decreases s.end - p
  {
    if p >= s.end then Ok(w)
    else
      match WalkStep(bytes, s, strings, utf8, p, w.fields)
      case Halt(e) => Err(e)
      case Hop(f, next) => Walk(bytes, s, strings, utf8, next, Walked(f, w.starts + [p]))
  }

  /** Header checks of this decoder: no version check and no minimal header length. */
  function WalkHeader(bytes: Bytes): (r: Result<Sections, BtfError>)
    ensures r.Ok? ==> r.value.end <= |bytes| && r.value.stringStart <= r.value.stringEnd <= |bytes|
  {
    if |bytes| < 24 then Err(UnsupportedHeader)
    else
      var order := ByteOrder(bytes);
      if order.None? then Err(InvalidMagic)
      else
        var s := SectionsOf(bytes, order.value);
        if s.end > |bytes| || s.stringEnd > |bytes| then Err(InvalidSections) else Ok(s)
  }

  function WalkBtf(bytes: Bytes, utf8: Bytes -> bool): Result<Walked, BtfError> {
    match WalkHeader(bytes)
    case Err(e) => Err(e)
    case Ok(s) => Walk(bytes, s, bytes[s.stringStart..s.stringEnd], utf8, s.start, Walked(map[], []))
  }

  /** The record walk of `parse_file_identity_layout`, with the record starts it visits. */
  method CollectFields(bytes: Bytes, utf8: Bytes -> bool) returns (r: Result<Walked, BtfError>)
    ensures r == WalkBtf(bytes, utf8)
  {
    var header := WalkHeader(bytes);
    if header.Err? { return Err(header.error); }
    var s := header.value;
    var strings := bytes[s.stringStart..s.stringEnd];
    var fields, starts, cursor: nat := map[], [], s.start;
    while cursor < s.end
      invariant WalkBtf(bytes, utf8) == Walk(bytes, s, strings, utf8, cursor, Walked(fields, starts))
      decreases s.end - cursor
    {
      var hop := CollectRecord(bytes, s, strings, utf8, cursor, fields);
      if hop.Halt? { return Err(hop.error); }
      starts := starts + [cursor];
      fields, cursor := hop.fields, hop.next;
    }
    r := Ok(Walked(fields, starts));
  }

  method CollectRecord(bytes: Bytes, s: Sections, strings: Bytes, utf8: Bytes -> bool, cursor: nat, before: Fields)
    returns (h: Hop)
    requires cursor < s.end <= |bytes|
    ensures h == WalkStep(bytes, s, strings, utf8, cursor, before)
  {
    if cursor + 8 > |bytes| { return Halt(Truncated); }
    var fields, info := before, Word(bytes, cursor + 4, s.little);
    var extra := ExtraSize(Kind(info), Vlen(info));
    if extra.None? { return Halt(UnsupportedKind); }
    if cursor + 12 + extra.value > s.end { return Halt(TruncatedPayload); }
    if Kind(info) == STRUCT {
      var owner := Name(strings, Word(bytes, cursor, s.little), utf8);
      if owner.None? { return Halt(InvalidName); }
      if owner.value in OWNERS {
        var members := CollectMembers(bytes, s.little, strings, utf8, owner.value, Flag(info), cursor + 12,
                                      Vlen(info), fields);
        if members.Err? { return Halt(members.error); }
        fields := members.value;
      }
    }
    h := Hop(fields, cursor + 12 + extra.value);
  }

  method CollectMembers(bytes: Bytes, little: bool, strings: Bytes, utf8: Bytes -> bool,
                        owner: Bytes, flag: bool, p: nat, count: nat, before: Fields)
    returns (r: Result<Fields, BtfError>)
    requires p + 12 * count <= |bytes|
    ensures r == WalkMembers(bytes, little, strings, utf8, owner, flag, p, 0, count, before)
  {
    var fields := before;
    for i := 0 to count
      invariant WalkMembers(bytes, little, strings, utf8, owner, flag, p, 0, count, before) ==
        WalkMembers(bytes, little, strings, utf8, owner, flag, p, i, count, fields)
    {
      var name := Name(strings, Word(bytes, p + 12 * i, little), utf8);
      if name.None? { return Err(InvalidName); }
      fields := AddMember(fields, owner, name.value, Word(bytes, p + 12 * i + 8, little), flag);
    }
    r := Ok(fields);
  }

  // ---- the same collection over types that the general reader decoded ----

  /** Members `i..count` from the payload words of a structure. */
  function MembersOf(ty: Ty, strings: Bytes, utf8: Bytes -> bool, i: nat, count: nat, fields: Fields)
    : Result<Fields, BtfError>
    requires i <= count && 3 * count <= |ty.data|
    decreases count - i
  {
    if i == count then Ok(fields)
    else
      var name := Name(strings, ty.data[3 * i], utf8);
      if name.None? then Err(InvalidName)
      else MembersOf(ty, strings, utf8, i + 1, count,
                     AddMember(fields, ty.name, name.value, ty.data[3 * i + 2], ty.flag))
  }

  function TypeFields(ty: Ty, strings: Bytes, utf8: Bytes -> bool, fields: Fields): Result<Fields, BtfError> {
    if ty.kind == STRUCT && ty.name in OWNERS then MembersOf(ty, strings, utf8, 0, |ty.data| / 3, fields)
    else Ok(fields)
  }

  function FieldsOf(types: seq<Ty>, strings: Bytes, utf8: Bytes -> bool, fields: Fields): Result<Fields, BtfError> {
    if types == [] then Ok(fields)
    else
      match TypeFields(types[0], strings, utf8, fields)
      case Err(e) => Err(e)
      case Ok(f) => FieldsOf(types[1..], strings, utf8, f)
  }

  /** Where the records of `types` start when the first one starts at `p`. */
  function StartsOf(types: seq<Ty>, p: nat): seq<nat> {
    if types == [] then [] else [p] + StartsOf(types[1..], p + 12 + 4 * |types[0].data|)
  }

  /** One member: both decoders read the same name and offset words. */
  lemma MemberAgrees(bytes: Bytes, little: bool, ty: Ty, p: nat, i: nat, count: nat)
    requires |ty.data| == 3 * count && p + 12 * count <= |bytes| && i < count
    requires forall k :: 0 <= k < |ty.data| ==> ty.data[k] == Word(bytes, p + 4 * k, little)
    ensures ty.data[3 * i] == Word(bytes, p + 12 * i, little)
    ensures ty.data[3 * i + 2] == Word(bytes, p + 12 * i + 8, little)
  {
    var a, b := 3 * i, 3 * i + 2;
    assert ty.data[a] == Word(bytes, p + 4 * a, little) && p + 4 * a == p + 12 * i;
    assert ty.data[b] == Word(bytes, p + 4 * b, little) && p + 4 * b == p + 12 * i + 8;
  }

  lemma {:induction false} MembersAgree(bytes: Bytes, little: bool, strings: Bytes, utf8: Bytes -> bool,
                                        ty: Ty, p: nat, i: nat, count: nat, fields: Fields)
    requires |ty.data| == 3 * count && p + 12 * count <= |bytes| && i <= count
    requires forall k :: 0 <= k < |ty.data| ==> ty.data[k] == Word(bytes, p + 4 * k, little)
    ensures WalkMembers(bytes, little, strings, utf8, ty.name, ty.flag, p, i, count, fields)
      == MembersOf(ty, strings, utf8, i, count, fields)
    decreases count - i
  {
    if i < count {
      MemberAgrees(bytes, little, ty, p, i, count);
      var name := Name(strings, ty.data[3 * i], utf8);
      if name.Some? {
        MembersAgree(bytes, little, strings, utf8, ty, p, i + 1, count,
                     AddMember(fields, ty.name, name.value, ty.data[3 * i + 2], ty.flag));
      }
    }
  }

  ghost function Attach(fields: Result<Fields, BtfError>, starts: seq<nat>): Result<Walked, BtfError> {
    if fields.Ok? then Ok(Walked(fields.value, starts)) else Err(fields.error)
  }

  lemma StructAgrees(bytes: Bytes, little: bool, strings: Bytes, utf8: Bytes -> bool, ty: Ty, p: nat, count: nat,
                     fields: Fields)
    requires |ty.data| == 3 * count && p + 12 * count <= |bytes|
    requires ty.data == ReadWords(bytes, p, 3 * count, little)
    ensures WalkMembers(bytes, little, strings, utf8, ty.name, ty.flag, p, 0, count, fields)
      == MembersOf(ty, strings, utf8, 0, count, fields)
  {
    forall k | 0 <= k < |ty.data| ensures ty.data[k] == Word(bytes, p + 4 * k, little) {
      ReadWordsAt(bytes, p, 3 * count, little, k);
    }
    MembersAgree(bytes, little, strings, utf8, ty, p, 0, count, fields);
  }

  lemma StructSize(vlen: nat, words: nat)
    requires ExtraSize(STRUCT, vlen) == Some(4 * words)
    ensures words == 3 * vlen && words / 3 == vlen
  {
  }

  ghost predicate Describes(bytes: Bytes, little: bool, strings: Bytes, utf8: Bytes -> bool, p: nat, ty: Ty) {
    && p + 12 + 4 * |ty.data| <= |bytes|
    && var info := Word(bytes, p + 4, little);
    && ty.kind == Kind(info) && ty.flag == Flag(info) && ExtraSize(Kind(info), Vlen(info)) == Some(4 * |ty.data|)
    && Name(strings, Word(bytes, p, little), utf8) == Some(ty.name)
    && ty.data == ReadWords(bytes, p + 12, |ty.data|, little)
  }

  lemma OwnerAgrees(bytes: Bytes, little: bool, strings: Bytes, utf8: Bytes -> bool, p: nat, ty: Ty, fields: Fields)
    requires Describes(bytes, little, strings, utf8, p, ty) && ty.kind == STRUCT
    ensures var count := Vlen(Word(bytes, p + 4, little));
      && count == |ty.data| / 3 && p + 12 + 12 * count <= |bytes|
      && WalkMembers(bytes, little, strings, utf8, ty.name, ty.flag, p + 12, 0, count, fields) ==
         MembersOf(ty, strings, utf8, 0, |ty.data| / 3, fields)
  {
    var count := Vlen(Word(bytes, p + 4, little));
    StructSize(count, |ty.data|);
    StructAgrees(bytes, little, strings, utf8, ty, p + 12, count, fields);
  }

  lemma FieldsAgree(bytes: Bytes, little: bool, strings: Bytes, utf8: Bytes -> bool, p: nat, ty: Ty, fields: Fields)
    requires Describes(bytes, little, strings, utf8, p, ty)
    ensures WalkRecord(bytes, little, strings, utf8, p, fields) == TypeFields(ty, strings, utf8, fields)
  {
    if ty.kind == STRUCT { OwnerAgrees(bytes, little, strings, utf8, p, ty, fields); }
  }

  lemma ReadRecordFacts(bytes: Bytes, little: bool, strings: Bytes, utf8: Bytes -> bool, p: nat, end: nat)
    requires p < end <= |bytes| && ReadRecord(bytes, little, strings, utf8, p, end).Type?
    ensures var step := ReadRecord(bytes, little, strings, utf8, p, end);
      var info := Word(bytes, p + 4, little);
      && step.ty.kind == Kind(info) && step.ty.flag == Flag(info)
      && ExtraSize(Kind(info), Vlen(info)) == Some(4 * |step.ty.data|)
      && Name(strings, Word(bytes, p, little), utf8) == Some(step.ty.name)
      && step.ty.data == ReadWords(bytes, p + 12, |step.ty.data|, little)
  {
    var info := Word(bytes, p + 4, little);
    SizesAgree(Kind(info), Vlen(info));
  }

  /** One record: both decoders move to the same next record, with the same fields. */
  lemma RecordAgrees(bytes: Bytes, s: Sections, strings: Bytes, utf8: Bytes -> bool, p: nat, fields: Fields)
    requires p < s.end <= |bytes| && ReadRecord(bytes, s.little, strings, utf8, p, s.end).Type?
    ensures var step := ReadRecord(bytes, s.little, strings, utf8, p, s.end);
      var f := TypeFields(step.ty, strings, utf8, fields);
      WalkStep(bytes, s, strings, utf8, p, fields) == if f.Ok? then Hop(f.value, step.next) else Halt(f.error)
  {
    var ty := ReadRecord(bytes, s.little, strings, utf8, p, s.end).ty;
    ReadRecordFacts(bytes, s.little, strings, utf8, p, s.end);
    FieldsAgree(bytes, s.little, strings, utf8, p, ty, fields);
  }

  lemma AttachCons(ty: Ty, rest: seq<Ty>, strings: Bytes, utf8: Bytes -> bool, p: nat, w: Walked)
    ensures var f := TypeFields(ty, strings, utf8, w.fields);
      Attach(FieldsOf([ty] + rest, strings, utf8, w.fields), w.starts + StartsOf([ty] + rest, p)) ==
        if f.Err? then Err(f.error)
        else Attach(FieldsOf(rest, strings, utf8, f.value), w.starts + [p] + StartsOf(rest, p + 12 + 4 * |ty.data|))
  {
    assert ([ty] + rest)[1..] == rest;
    assert w.starts + ([p] + StartsOf(rest, p + 12 + 4 * |ty.data|)) ==
      w.starts + [p] + StartsOf(rest, p + 12 + 4 * |ty.data|);
  }

  /** The walk's step at `p` is that of a record decoded as `ty`. */
  ghost predicate StepAt(bytes: Bytes, s: Sections, strings: Bytes, utf8: Bytes -> bool, p: nat, ty: Ty, fields: Fields)
    requires p < s.end <= |bytes|
  {
    WalkStep(bytes, s, strings, utf8, p, fields) ==
    var f := TypeFields(ty, strings, utf8, fields);
    if f.Ok? then Hop(f.value, p + 12 + 4 * |ty.data|) else Halt(f.error)
  }

  ghost predicate StepsOver(bytes: Bytes, s: Sections, strings: Bytes, utf8: Bytes -> bool, p: nat, ty: Ty)
    requires p < s.end <= |bytes|
  {
    forall fields :: StepAt(bytes, s, strings, utf8, p, ty, fields)
  }

  /** The section from `p` on is, for the walk, a sequence of records decoded as `types`. */
  ghost predicate Aligned(bytes: Bytes, s: Sections, strings: Bytes, utf8: Bytes -> bool, p: nat, types: seq<Ty>)
    requires s.end <= |bytes|
    decreases |types|
  {
    if types == [] then p == s.end
    else p < s.end && StepsOver(bytes, s, strings, utf8, p, types[0]) &&
         Aligned(bytes, s, strings, utf8, p + 12 + 4 * |types[0].data|, types[1..])
  }

  lemma AcceptedSteps(bytes: Bytes, s: Sections, strings: Bytes, utf8: Bytes -> bool, p: nat)
    requires p < s.end <= |bytes| && ReadRecord(bytes, s.little, strings, utf8, p, s.end).Type?
    ensures var step := ReadRecord(bytes, s.little, strings, utf8, p, s.end);
      StepsOver(bytes, s, strings, utf8, p, step.ty) && step.next == p + 12 + 4 * |step.ty.data|
  {
    var step := ReadRecord(bytes, s.little, strings, utf8, p, s.end);
    forall fields ensures StepAt(bytes, s, strings, utf8, p, step.ty, fields) {
      RecordAgrees(bytes, s, strings, utf8, p, fields);
    }
  }

  /** An accepted record before an aligned section. */
  lemma AlignedCons(bytes: Bytes, s: Sections, strings: Bytes, utf8: Bytes -> bool, p: nat, rest: seq<Ty>)
    requires p < s.end <= |bytes| && ReadRecord(bytes, s.little, strings, utf8, p, s.end).Type?
    requires Aligned(bytes, s, strings, utf8, ReadRecord(bytes, s.little, strings, utf8, p, s.end).next, rest)
    ensures Aligned(bytes, s, strings, utf8, p, [ReadRecord(bytes, s.little, strings, utf8, p, s.end).ty] + rest)
  {
    var ty := ReadRecord(bytes, s.little, strings, utf8, p, s.end).ty;
    AcceptedSteps(bytes, s, strings, utf8, p);
    assert ([ty] + rest)[1..] == rest;
  }

  /** An accepted section starts with an accepted record and goes on accepted. */
  lemma AcceptedCons(bytes: Bytes, s: Sections, strings: Bytes, utf8: Bytes -> bool, p: nat)
    requires p < s.end <= |bytes| && ReadTypes(bytes, s.little, strings, utf8, p, s.end).Ok?
    ensures var step := ReadRecord(bytes, s.little, strings, utf8, p, s.end);
      && step.Type?
      && var rest := ReadTypes(bytes, s.little, strings, utf8, step.next, s.end);
      && rest.Ok? && ReadTypes(bytes, s.little, strings, utf8, p, s.end).value == [step.ty] + rest.value
  {
  }

  lemma {:induction false} AcceptedIsAligned(
    bytes: Bytes, s: Sections, strings: Bytes, utf8: Bytes -> bool, p: nat, types: seq<Ty>)
    requires p <= s.end <= |bytes|
    requires ReadTypes(bytes, s.little, strings, utf8, p, s.end) == Ok(types)
    ensures Aligned(bytes, s, strings, utf8, p, types)
    decreases |types|
  {
    if p < s.end {
      AcceptedCons(bytes, s, strings, utf8, p);
      var step := ReadRecord(bytes, s.little, strings, utf8, p, s.end);
      var rest := ReadTypes(bytes, s.little, strings, utf8, step.next, s.end).value;
      AcceptedIsAligned(bytes, s, strings, utf8, step.next, rest);
      AlignedCons(bytes, s, strings, utf8, p, rest);
    }
  }

  lemma {:induction false} AlignedWalk(
    bytes: Bytes, s: Sections, strings: Bytes, utf8: Bytes -> bool, p: nat, types: seq<Ty>, w: Walked)
    requires s.end <= |bytes| && Aligned(bytes, s, strings, utf8, p, types)
    ensures Walk(bytes, s, strings, utf8, p, w) ==
      Attach(FieldsOf(types, strings, utf8, w.fields), w.starts + StartsOf(types, p))
    decreases |types|
  {
    if types == [] {
      assert w.starts + [] == w.starts;
    } else {
      var f := TypeFields(types[0], strings, utf8, w.fields);
      assert StepAt(bytes, s, strings, utf8, p, types[0], w.fields);
      assert types == [types[0]] + types[1..];
      AttachCons(types[0], types[1..], strings, utf8, p, w);
      if f.Ok? {
        AlignedWalk(bytes, s, strings, utf8, p + 12 + 4 * |types[0].data|, types[1..], Walked(f.value, w.starts + [p]));
      }
    }
  }

  /** On every blob the general reader accepts, the walk visits the same record starts and collects
      exactly what the decoded types say. */
  lemma DecodersAgree(bytes: Bytes, utf8: Bytes -> bool)
    requires ReadBtf(bytes, utf8).Ok?
    ensures var b := ReadBtf(bytes, utf8).value;
      WalkBtf(bytes, utf8) ==
        Attach(FieldsOf(b.types[1..], b.strings, utf8, map[]),
               StartsOf(b.types[1..], ReadHeader(bytes).value.start))
  {
    var s, b := ReadHeader(bytes).value, ReadBtf(bytes, utf8).value;
    AcceptedIsAligned(bytes, s, b.strings, utf8, s.start, b.types[1..]);
    AlignedWalk(bytes, s, b.strings, utf8, s.start, b.types[1..], Walked(map[], []));
    assert [] + StartsOf(b.types[1..], s.start) == StartsOf(b.types[1..], s.start);
  }

  /** Some member of a collected structure among `types` has an unreadable name. */
  ghost predicate BadMember(types: seq<Ty>, strings: Bytes, utf8: Bytes -> bool) {
    exists t, k :: 0 <= t < |types| && types[t].kind == STRUCT && types[t].name in OWNERS &&
      0 <= k < |types[t].data| / 3 && Name(strings, types[t].data[3 * k], utf8).None?
  }

  lemma {:induction false} MembersFail(ty: Ty, strings: Bytes, utf8: Bytes -> bool, i: nat, count: nat, fields: Fields)
    requires i <= count && 3 * count <= |ty.data|
    ensures MembersOf(ty, strings, utf8, i, count, fields).Err? <==>
      exists k :: i <= k < count && Name(strings, ty.data[3 * k], utf8).None?
    decreases count - i
  {
    if i < count && Name(strings, ty.data[3 * i], utf8).Some? {
      var name := Name(strings, ty.data[3 * i], utf8).value;
      MembersFail(ty, strings, utf8, i + 1, count,
                  AddMember(fields, ty.name, name, ty.data[3 * i + 2], ty.flag));
    }
  }

  lemma {:induction false} FieldsFail(types: seq<Ty>, strings: Bytes, utf8: Bytes -> bool, fields: Fields)
    ensures FieldsOf(types, strings, utf8, fields).Err? <==> BadMember(types, strings, utf8)
  {
    if types != [] {
      var ty := types[0];
      MembersFail(ty, strings, utf8, 0, |ty.data| / 3, fields);
      var step := TypeFields(ty, strings, utf8, fields);
      if step.Ok? {
        FieldsFail(types[1..], strings, utf8, step.value);
        if BadMember(types[1..], strings, utf8) {
          var t, k :| 0 <= t < |types[1..]| && types[1..][t].kind == STRUCT && types[1..][t].name in OWNERS &&
            0 <= k < |types[1..][t].data| / 3 && Name(strings, types[1..][t].data[3 * k], utf8).None?;
          assert types[t + 1] == types[1..][t];
        }
        if BadMember(types, strings, utf8) {
          var t, k :| 0 <= t < |types| && types[t].kind == STRUCT && types[t].name in OWNERS &&
            0 <= k < |types[t].data| / 3 && Name(strings, types[t].data[3 * k], utf8).None?;
          assert t > 0 && types[1..][t - 1] == types[t];
        }
      }
    }
  }

  /** ... and it fails there only on an unreadable member name of one of the seven structures. */
  lemma WalkFailsOnlyOnMemberNames(bytes: Bytes, utf8: Bytes -> bool)
    requires ReadBtf(bytes, utf8).Ok?
    ensures var b := ReadBtf(bytes, utf8).value;
      WalkBtf(bytes, utf8).Err? <==> BadMember(b.types[1..], b.strings, utf8)
  {
    var b := ReadBtf(bytes, utf8).value;
    DecodersAgree(bytes, utf8);
    FieldsFail(b.types[1..], b.strings, utf8, map[]);
  }
}
