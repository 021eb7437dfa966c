/**
 Reading newline-delimited records from a stream whose lines may exceed a bound. The reader hands
 out its input in buffers of any size; the lines do not depend on how it does so.
 */
module BoundedLines {
  import opened Common

  const NEWLINE: u8 := 10
  const RETURN: u8 := 13

  datatype LineError = Oversized | NotUtf8

  type Item = Result<seq<u8>, LineError>

  // ---- the lines of a stream ----

  /** The bytes up to and including the first newline, or all of them. */
  function FirstLine(data: seq<u8>): seq<u8> {
    if data == [] then []
    else if data[0] == NEWLINE then [NEWLINE]
    else [data[0]] + FirstLine(data[1..])
  }

  predicate Plain(bytes: seq<u8>) { forall k | 0 <= k < |bytes| :: bytes[k] != NEWLINE }

  predicate Ended(bytes: seq<u8>) { bytes != [] && bytes[|bytes| - 1] == NEWLINE }

  lemma {:induction false} FirstLineShape(data: seq<u8>)
    ensures FirstLine(data) <= data
    ensures data != [] ==> FirstLine(data) != [] && Plain(FirstLine(data)[..|FirstLine(data)| - 1])
    ensures Ended(FirstLine(data)) || (FirstLine(data) == data && Plain(data))
  {
    if data != [] && data[0] != NEWLINE {
      FirstLineShape(data[1..]);
      var line, rest := FirstLine(data), FirstLine(data[1..]);
      assert line == [data[0]] + rest;
      assert data == [data[0]] + data[1..];
      if rest != [] { assert line[..|line| - 1] == [data[0]] + rest[..|rest| - 1]; }
    }
  }

  /** A newline after bytes without one ends the first line. */
  lemma {:induction false} FirstLineIs(line: seq<u8>, rest: seq<u8>)
    requires line != [] && Plain(line[..|line| - 1])
    requires Ended(line) || rest == []
    ensures FirstLine(line + rest) == line
  {
    if |line| == 1 {
      if line[0] != NEWLINE { assert (line + rest)[1..] == []; }
    } else {
      assert line[0] == line[..|line| - 1][0];
      assert (line + rest)[1..] == line[1..] + rest;
      assert line[1..][..|line| - 2] == line[..|line| - 1][1..];
      FirstLineIs(line[1..], rest);
    }
  }

  function Segments(data: seq<u8>): seq<seq<u8>>
    decreases |data|
  {
    if data == [] then []
    else
      FirstLineShape(data);
      [FirstLine(data)] + Segments(data[|FirstLine(data)|..])
  }

  function Concat(parts: seq<seq<u8>>): seq<u8> {
    if parts == [] then [] else parts[0] + Concat(parts[1..])
  }

  predicate IsLine(part: seq<u8>, last: bool) {
    part != [] && Plain(part[..|part| - 1]) && (last || Ended(part))
  }

  /** A split into lines: nonempty, newlines only at the ends, and only the last may lack one. */
  ghost predicate AreLines(parts: seq<seq<u8>>) {
    forall k | 0 <= k < |parts| :: IsLine(parts[k], k == |parts| - 1)
  }

  /** The segments are a split of the data into lines. */
  lemma {:induction false} SegmentsSplit(data: seq<u8>)
    ensures Concat(Segments(data)) == data && AreLines(Segments(data))
    decreases |data|
  {
    if data != [] {
      FirstLineShape(data);
      var line := FirstLine(data);
      var rest := data[|line|..];
      SegmentsSplit(rest);
      assert Segments(data)[1..] == Segments(rest);
      assert data == line + rest;
      assert IsLine(line, rest == []);
    }
  }

  /** And the only one. */
  lemma {:induction false} SegmentsUnique(parts: seq<seq<u8>>)
    requires AreLines(parts)
    ensures Segments(Concat(parts)) == parts
  {
    if parts != [] {
      var line, rest := parts[0], Concat(parts[1..]);
      assert AreLines(parts[1..]) by {
        forall k | 0 <= k < |parts| - 1 ensures IsLine(parts[1..][k], k == |parts| - 2) {
          assert IsLine(parts[k + 1], k + 1 == |parts| - 1);
        }
      }
      assert IsLine(line, |parts| == 1);
      SegmentsUnique(parts[1..]);
      if |parts| == 1 { assert rest == []; }
      FirstLineIs(line, rest);
      assert (line + rest)[|line|..] == rest;
    }
  }

  // ---- what becomes of a line ----

  predicate LineEnd(b: u8) { b == NEWLINE || b == RETURN }

  function Trim(bytes: seq<u8>): seq<u8> {
    if bytes != [] && LineEnd(bytes[|bytes| - 1]) then Trim(bytes[..|bytes| - 1]) else bytes
  }

  function Classify(segment: seq<u8>, limit: nat, utf8: seq<u8> -> bool): Item {
    if |segment| > limit then Err(Oversized)
    else if utf8(Trim(segment)) then Ok(Trim(segment))
    else Err(NotUtf8)
  }

  function Items(segments: seq<seq<u8>>, limit: nat, utf8: seq<u8> -> bool): (items: seq<Item>)
    ensures |items| == |segments|
    ensures forall k | 0 <= k < |segments| :: items[k] == Classify(segments[k], limit, utf8)
  {
    seq(|segments|, (k: nat) requires k < |segments| => Classify(segments[k], limit, utf8))
  }

  // ---- the reader ----

  class LineReader {
    /** What the stream still holds. */
    var ahead: seq<u8>

    constructor (data: seq<u8>)
      ensures ahead == data
    {
      ahead := data;
    }

    /** Some of the bytes ahead; none only at the end. */
    method FillBuffer() returns (buffer: seq<u8>)
      ensures buffer <= ahead
      ensures buffer == [] <==> ahead == []
    {
      if ahead == [] { return []; }
      var size: nat :| 0 < size <= |ahead|;
      return ahead[..size];
    }

    method Consume(size: nat)
      requires size <= |ahead|
      modifies this
      ensures ahead == old(ahead)[size..]
    {
      ahead := ahead[size..];
    }

    /** At most `max` bytes, up to and including the first newline. */
    method ReadUntil(max: nat) returns (bytes: seq<u8>)
      modifies this
      ensures bytes == FirstLine(old(ahead))[..Min(max, |FirstLine(old(ahead))|)]
      ensures bytes <= old(ahead) && ahead == old(ahead)[|bytes|..]
    {
      ghost var data := ahead;
      FirstLineShape(data);
      bytes := [];
      while true
        invariant |bytes| <= max && bytes <= data && ahead == data[|bytes|..] && Plain(bytes)
        decreases |ahead|
      {
        if |bytes| == max { break; }
        var buffer := FillBuffer();
        if buffer == [] { break; }
        buffer := buffer[..Min(|buffer|, max - |bytes|)];
        var used, found := FindNewline(buffer);
        Extend(data, bytes, buffer, used);
        bytes := bytes + buffer[..used];
        Consume(used);
        if found { return; }
      }
      StoppedShort(data, bytes, max);
    }

    /** Skips the rest of the line, however long. */
    method Discard()
      modifies this
      ensures |FirstLine(old(ahead))| <= |old(ahead)|
      ensures ahead == old(ahead)[|FirstLine(old(ahead))|..]
    {
      ghost var data := ahead;
      ghost var skipped: seq<u8> := [];
      FirstLineShape(data);
      while true
        invariant skipped <= data && ahead == data[|skipped|..] && Plain(skipped)
        decreases |ahead|
      {
        var buffer := FillBuffer();
        if buffer == [] { break; }
        var used, found := FindNewline(buffer);
        Extend(data, skipped, buffer, used);
        skipped := skipped + buffer[..used];
        Consume(used);
        if found { return; }
      }
      StoppedShort(data, skipped, |skipped|);
    }

    /** The next line, an error in its place, or the end of the stream. */
    method Next(limit: nat, utf8: seq<u8> -> bool) returns (item: Option<Item>)
      modifies this
      ensures |FirstLine(old(ahead))| <= |old(ahead)|
      ensures old(ahead) == [] ==> item == None && ahead == []
      ensures old(ahead) != [] ==> item == Some(Classify(FirstLine(old(ahead)), limit, utf8))
      ensures ahead == old(ahead)[|FirstLine(old(ahead))|..]
    {
      ghost var data := ahead;
      FirstLineShape(data);
      var bytes := ReadUntil(limit + 1);
      if bytes == [] { return None; }
      if |bytes| > limit {
        if bytes[|bytes| - 1] != NEWLINE {
          TailOfLine(data, bytes);
          Discard();
        } else {
          WholeLine(data, bytes);
        }
        return Some(Err(Oversized));
      }
      assert bytes == FirstLine(data);
      var text := StripEnd(bytes);
      return Some(if utf8(text) then Ok(text) else Err(NotUtf8));
    }

    /** Taking items until there are none. */
    method Drain(limit: nat, utf8: seq<u8> -> bool) returns (items: seq<Item>)
      modifies this
      ensures ahead == []
      ensures items == Items(Segments(old(ahead)), limit, utf8)
    {
      items := [];
      ghost var done: seq<seq<u8>> := [];
      ghost var data := ahead;
      while true
        invariant Segments(data) == done + Segments(ahead)
        invariant items == Items(done, limit, utf8)
        decreases |ahead|
      {
        ghost var before := ahead;
        var item := Next(limit, utf8);
        if item.None? { break; }
        items := items + [item.value];
        FirstLineShape(before);
        assert Segments(before) == [FirstLine(before)] + Segments(ahead);
        done := done + [FirstLine(before)];
      }
    }
  }

  /** The length up to and including the first newline, or of the whole buffer. */
  method FindNewline(buffer: seq<u8>) returns (used: nat, found: bool)
    requires buffer != []
    ensures 0 < used <= |buffer|
    ensures Plain(buffer[..used - 1])
    ensures found <==> buffer[used - 1] == NEWLINE
    ensures !found ==> used == |buffer| && Plain(buffer)
  {
    for k := 0 to |buffer|
      invariant Plain(buffer[..k])
    {
      if buffer[k] == NEWLINE { return k + 1, true; }
    }
    return |buffer|, false;
  }

  method StripEnd(bytes: seq<u8>) returns (text: seq<u8>)
    ensures text == Trim(bytes)
  {
    text := bytes;
    while text != [] && LineEnd(text[|text| - 1])
      invariant Trim(text) == Trim(bytes)
      decreases |text|
    {
      text := text[..|text| - 1];
    }
  }

  /** Bytes read past the last newline-free stretch stay a stretch of the data, and end the first
      line if they end in a newline. */
  lemma Extend(data: seq<u8>, bytes: seq<u8>, buffer: seq<u8>, used: nat)
    requires bytes <= data && buffer <= data[|bytes|..] && Plain(bytes)
    requires 0 < used <= |buffer| && Plain(buffer[..used - 1])
    ensures bytes + buffer[..used] <= data
    ensures data[|bytes|..][used..] == data[|bytes| + used..]
    ensures buffer[used - 1] == NEWLINE ==> bytes + buffer[..used] == FirstLine(data)
    ensures buffer[used - 1] != NEWLINE ==> Plain(bytes + buffer[..used])
  {
    var line := bytes + buffer[..used];
    assert line == data[..|line|];
    assert line[..|line| - 1] == bytes + buffer[..used - 1];
    if buffer[used - 1] == NEWLINE {
      FirstLineIs(line, data[|line|..]);
      assert line + data[|line|..] == data;
    }
  }

  lemma StoppedShort(data: seq<u8>, bytes: seq<u8>, max: nat)
    requires bytes <= data && Plain(bytes) && |bytes| <= max
    requires |bytes| == max || bytes == data
    ensures |bytes| <= |FirstLine(data)|
    ensures bytes == FirstLine(data)[..Min(max, |FirstLine(data)|)]
  {
    FirstLineShape(data);
  }

  /** What follows a cut line is the rest of that line. */
  lemma {:induction false} TailOfLine(data: seq<u8>, bytes: seq<u8>)
    requires bytes != [] && bytes <= FirstLine(data) && bytes[|bytes| - 1] != NEWLINE
    ensures |bytes| <= |FirstLine(data)| <= |data|
    ensures FirstLine(data[|bytes|..]) == FirstLine(data)[|bytes|..]
    decreases |bytes|
  {
    FirstLineShape(data);
    if |bytes| > 1 {
      TailOfLine(data[1..], bytes[1..]);
      assert data[1..][|bytes| - 1..] == data[|bytes|..];
    }
  }

  lemma WholeLine(data: seq<u8>, bytes: seq<u8>)
    requires bytes != [] && bytes <= FirstLine(data) && bytes[|bytes| - 1] == NEWLINE
    ensures bytes == FirstLine(data)
  {
    FirstLineShape(data);
  }
}
