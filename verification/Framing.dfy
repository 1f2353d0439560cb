/** `Content-Length` framing: the printer, the message parser and the loops that feed it. */
module Framing {
  import opened Wrappers
  import opened Sequences
  import opened Decimals

  const CRLF: Bytes := [13, 10]
  const SEPARATOR: Bytes := [13, 10, 13, 10]
  const COLON_SPACE: Bytes := [58, 32]
  const CONTENT_LENGTH: Bytes := [67, 111, 110, 116, 101, 110, 116, 45, 76, 101, 110, 103, 116, 104, 58, 32]

  predicate IsAscii(s: Bytes) {
    forall k :: 0 <= k < |s| ==> s[k] < 128
  }

  /** JSON bodies and the UTF-8 decoding of headers. */
  datatype Codec<!J> = Codec(encode: J -> Bytes, decode: Bytes -> Option<J>, isNull: J -> bool, utf8: Bytes -> bool)

  ghost predicate Faithful<J(!new)>(codec: Codec<J>) {
    (forall m :: codec.decode(codec.encode(m)) == Some(m)) && codec.decode([]) == None && codec.utf8([]) &&
    (forall s, t :: IsAscii(t) ==> codec.utf8(s + t) == codec.utf8(s))
  }

  // ----- searching and splitting

  function Find(s: Bytes, pattern: Bytes): (r: Option<nat>)
    requires pattern != []
    ensures r.Some? ==> r.value + |pattern| <= |s|
  {
    if |s| < |pattern| then None
    else if pattern <= s then Some(0)
    else match Find(s[1..], pattern) case Some(i) => Some(i + 1) case None => None
  }

  function SplitLines(s: Bytes): seq<Bytes>
    decreases |s|
  {
    match Find(s, CRLF)
    case None => [s]
    case Some(i) => [s[..i]] + SplitLines(s[i + 2..])
  }

  lemma {:induction false} FindInLonger(s: Bytes, x: Bytes, pattern: Bytes)
    requires pattern != [] && Find(s, pattern).Some?
    ensures Find(s + x, pattern) == Find(s, pattern)
  {
    if pattern <= s {
      assert pattern <= s + x;
    } else {
      FindInLonger(s[1..], x, pattern);
      assert (s + x)[1..] == s[1..] + x;
      assert (s + x)[..|pattern|] == s[..|pattern|];
    }
  }

  /** A pattern is found where it stands if it matches nowhere before. */
  lemma {:induction false} FindAt(s: Bytes, pattern: Bytes, i: nat)
    requires pattern != [] && i + |pattern| <= |s| && pattern <= s[i..]
    requires forall k :: 0 <= k < i ==> !(pattern <= s[k..])
    ensures Find(s, pattern) == Some(i)
  {
    if i == 0 {
      assert s[0..] == s;
    } else {
      assert s[0..] == s;
      forall k | 0 <= k < i - 1 ensures !(pattern <= s[1..][k..]) {
        assert s[1..][k..] == s[k + 1..];
      }
      assert s[1..][i - 1..] == s[i..];
      FindAt(s[1..], pattern, i - 1);
    }
  }

  // ----- headers

  /** The text between the first and the second ": " of a Content-Length line. */
  function LengthField(line: Bytes): Bytes
    requires CONTENT_LENGTH <= line
  {
    var rest := line[|CONTENT_LENGTH|..];
    match Find(rest, COLON_SPACE) case Some(i) => rest[..i] case None => rest
  }

  datatype Header = Incomplete | Invalid | Header(bodyStart: nat, length: int)

  /** The last Content-Length wins, and an unreadable one is an error. */
  function LastLength(lines: seq<Bytes>, found: Option<int>): Option<int> {
    if lines == [] then found
    else if CONTENT_LENGTH <= lines[0] then
      match ParseInt(LengthField(lines[0]))
      case Some(n) => LastLength(lines[1..], Some(n))
      case None => None
    else LastLength(lines[1..], found)
  }

  function HeaderOf<J>(codec: Codec<J>, data: Bytes): (h: Header)
    ensures h.Header? ==> 4 <= h.bodyStart <= |data|
  {
    match Find(data, SEPARATOR)
    case None => Incomplete
    case Some(i) =>
      if !codec.utf8(data[..i]) then Invalid
      else match LastLength(SplitLines(data[..i]), None)
        case None => Invalid
        case Some(n) => Header(i + 4, n)
  }

  // ----- one message

  datatype ParseResult<+J> = Parsed(message: J, remaining: Bytes) | NotYet(remaining: Bytes) | Malformed

  /** Python's bound of a slice. */
  function Bound(i: int, length: nat): (r: nat)
    ensures r <= length
  {
    if i < 0 then (if length + i < 0 then 0 else length + i) else if i > length then length else i
  }

  function Body(data: Bytes, start: nat, end: int): Bytes {
    var from, to := Bound(start, |data|), Bound(end, |data|);
    if from <= to then data[from..to] else []
  }

  function ParseMessage<J>(codec: Codec<J>, data: Bytes): (r: ParseResult<J>)
  {
    match HeaderOf(codec, data)
    case Incomplete => NotYet(data)
    case Invalid => Malformed
    case Header(start, length) =>
      if |data| < start + length then NotYet(data)
      else
        var remaining := data[Bound(start + length, |data|)..];
        match codec.decode(Body(data, start, start + length))
        case None => Malformed
        case Some(message) => if codec.isNull(message) then NotYet(remaining) else Parsed(message, remaining)
  }

  lemma RemainingIsShorter<J(!new)>(codec: Codec<J>, data: Bytes)
    requires Faithful(codec) && ParseMessage(codec, data).Parsed?
    ensures |ParseMessage(codec, data).remaining| < |data|
  {
  }

  function ToBytes<J>(codec: Codec<J>, message: J): Bytes {
    var body := codec.encode(message);
    CONTENT_LENGTH + Decimal(|body|) + SEPARATOR + body
  }

  lemma {:induction false} NotSeparatorWithin(a: Bytes, x: Bytes, k: nat)
    requires k < |a| && forall m :: 0 <= m < |a| ==> a[m] != 13
    ensures !(SEPARATOR <= (a + x)[k..])
  {
    assert (a + x)[k..][0] == a[k];
  }

  lemma {:induction false} NoLineBreak(a: Bytes)
    requires forall m :: 0 <= m < |a| ==> a[m] != 13
    ensures Find(a, CRLF) == None
  {
    if |a| >= 2 {
      assert CRLF[0] == 13 && !(CRLF <= a);
      NoLineBreak(a[1..]);
    }
  }

  lemma {:induction false} NoColonInDecimal(ds: Bytes)
    requires forall k :: 0 <= k < |ds| ==> IsDigit(ds[k])
    ensures Find(ds, COLON_SPACE) == None
  {
    if |ds| >= 2 {
      assert COLON_SPACE[0] == 58 && IsDigit(ds[0]) && !(COLON_SPACE <= ds);
      NoColonInDecimal(ds[1..]);
    }
  }

  lemma PrintedLength(n: nat)
    ensures ParseInt(LengthField(CONTENT_LENGTH + Decimal(n))) == Some(n)
  {
    var line := CONTENT_LENGTH + Decimal(n);
    assert line[|CONTENT_LENGTH|..] == Decimal(n);
    NoColonInDecimal(Decimal(n));
    ParsePrinted(n);
  }

  /** The separator ends a header that contains no carriage return. */
  lemma SeparatorAfter(line: Bytes, x: Bytes)
    requires forall m :: 0 <= m < |line| ==> line[m] != 13
    ensures Find(line + SEPARATOR + x, SEPARATOR) == Some(|line|)
  {
    var data := line + SEPARATOR + x;
    assert data == line + (SEPARATOR + x);
    forall k | 0 <= k < |line| ensures !(SEPARATOR <= data[k..]) {
      NotSeparatorWithin(line, SEPARATOR + x, k);
    }
    assert data[|line|..] == SEPARATOR + x;
    FindAt(data, SEPARATOR, |line|);
  }

  lemma OneLine(line: Bytes)
    requires forall m :: 0 <= m < |line| ==> line[m] != 13
    ensures SplitLines(line) == [line]
    ensures LastLength([line], None) == LastLengthOf(line)
  {
    NoLineBreak(line);
    var lines: seq<Bytes> := [line];
    assert lines[1..] == [];
  }

  function LastLengthOf(line: Bytes): Option<int> {
    if CONTENT_LENGTH <= line then ParseInt(LengthField(line)) else None
  }

  lemma HeaderOfOneLine<J(!new)>(codec: Codec<J>, line: Bytes, x: Bytes)
    requires Faithful(codec) && IsAscii(line)
    requires forall m :: 0 <= m < |line| ==> line[m] != 13
    ensures HeaderOf(codec, line + SEPARATOR + x) ==
            match LastLengthOf(line) case Some(n) => Header(|line| + 4, n) case None => Invalid
  {
    SeparatorAfter(line, x);
    assert (line + SEPARATOR + x)[..|line|] == line;
    assert codec.utf8(line) by {
      assert [] + line == line;
    }
    OneLine(line);
  }

  lemma PrintedHeader<J(!new)>(codec: Codec<J>, n: nat, x: Bytes)
    requires Faithful(codec)
    ensures HeaderOf(codec, CONTENT_LENGTH + Decimal(n) + SEPARATOR + x) ==
            Header(|CONTENT_LENGTH + Decimal(n)| + 4, n)
  {
    HeaderOfOneLine(codec, CONTENT_LENGTH + Decimal(n), x);
    PrintedLength(n);
  }

  /** A printed message, whatever follows it, parses as that message and leaves what follows. */
  lemma ParsePrintedMessage<J(!new)>(codec: Codec<J>, message: J, x: Bytes)
    requires Faithful(codec) && !codec.isNull(message)
    ensures ParseMessage(codec, ToBytes(codec, message) + x) == Parsed(message, x)
  {
    var body := codec.encode(message);
    var data := ToBytes(codec, message) + x;
    var head := CONTENT_LENGTH + Decimal(|body|) + SEPARATOR;
    assert data == head + (body + x);
    PrintedHeader(codec, |body|, body + x);
    assert Body(data, |head|, |head| + |body|) == body;
    assert data[|head| + |body|..] == x;
  }

  // ----- the server's buffer loop

  datatype Delivery<+J> = Delivery(messages: seq<J>, buffer: Bytes, failed: bool)

  /** All complete messages of a buffer, what is left of it, and whether parsing raised. */
  function Drain<J(!new)>(codec: Codec<J>, buffer: Bytes): Delivery<J>
    requires Faithful(codec)
    decreases |buffer|
  {
    if buffer == [] then Delivery([], [], false)
    else match ParseMessage(codec, buffer)
      case Malformed => Delivery([], buffer, true)
      case NotYet(remaining) => Delivery([], remaining, false)
      case Parsed(message, remaining) =>
        RemainingIsShorter(codec, buffer);
        var d := Drain(codec, remaining);
        d.(messages := [message] + d.messages)
  }

  /** Reading chunk after chunk; an empty chunk is the end of the stream. */
  function Feed<J(!new)>(codec: Codec<J>, buffer: Bytes, chunks: seq<Bytes>): Delivery<J>
    requires Faithful(codec)
    decreases |chunks|
  {
    if chunks == [] || chunks[0] == [] then Delivery([], buffer, false)
    else
      var d := Drain(codec, buffer + chunks[0]);
      if d.failed then d
      else
        var rest := Feed(codec, d.buffer, chunks[1..]);
        rest.(messages := d.messages + rest.messages)
  }

  /** The inner loop: process complete messages. */
  method DrainBuffer<J(!new)>(codec: Codec<J>, start: Bytes)
    returns (messages: seq<J>, buffer: Bytes, failed: bool)
    requires Faithful(codec)
    ensures Delivery(messages, buffer, failed) == Drain(codec, start)
  {
    messages, buffer, failed := [], start, false;
    while buffer != []
      invariant var d := Drain(codec, buffer);
                Drain(codec, start) == d.(messages := messages + d.messages)
      decreases |buffer|
    {
      match ParseMessage(codec, buffer)
      case Malformed =>
        return messages, buffer, true;
      case NotYet(remaining) =>
        buffer := remaining;
        return;
      case Parsed(message, remaining) =>
        RemainingIsShorter(codec, buffer);
        ghost var d := Drain(codec, remaining);
        Assoc(messages, [message], d.messages);
        messages, buffer := messages + [message], remaining;
    }
  }

  function Prefixed<J>(messages: seq<J>, d: Delivery<J>): Delivery<J> {
    d.(messages := messages + d.messages)
  }

  lemma FeedOne<J(!new)>(codec: Codec<J>, messages: seq<J>, buffer: Bytes, chunks: seq<Bytes>)
    requires Faithful(codec) && chunks != [] && chunks[0] != []
    ensures var d := Drain(codec, buffer + chunks[0]);
            Prefixed(messages, Feed(codec, buffer, chunks)) ==
            if d.failed then Prefixed(messages, d)
            else Prefixed(messages + d.messages, Feed(codec, d.buffer, chunks[1..]))
  {
    var d := Drain(codec, buffer + chunks[0]);
    if !d.failed {
      Assoc(messages, d.messages, Feed(codec, d.buffer, chunks[1..]).messages);
    }
  }

  method HandleClient<J(!new)>(codec: Codec<J>, chunks: seq<Bytes>)
    returns (messages: seq<J>, buffer: Bytes, failed: bool)
    requires Faithful(codec)
    ensures Delivery(messages, buffer, failed) == Feed(codec, [], chunks)
  {
    messages, buffer, failed := [], [], false;
    var i := 0;
    while i < |chunks| && chunks[i] != []
      invariant i <= |chunks|
      invariant Feed(codec, [], chunks) == Prefixed(messages, Feed(codec, buffer, chunks[i..]))
    {
      FeedOne(codec, messages, buffer, chunks[i..]);
      assert chunks[i..][1..] == chunks[i + 1..];
      var more: seq<J>;
      more, buffer, failed := DrainBuffer(codec, buffer + chunks[i]);
      messages := messages + more;
      if failed {
        return;
      }
      i := i + 1;
    }
  }

  /** A loop over the header lines, then the body. */
  method Parse<J>(codec: Codec<J>, data: Bytes) returns (result: ParseResult<J>)
    ensures result == ParseMessage(codec, data)
  {
    var headerEnd := Find(data, SEPARATOR);
    if headerEnd == None {
      return NotYet(data);
    }
    var header := data[..headerEnd.value];
    if !codec.utf8(header) {
      return Malformed;
    }
    var bodyStart := headerEnd.value + 4;
    var contentLength: Option<int> := None;
    var lines := SplitLines(header);
    for i := 0 to |lines|
      invariant LastLength(lines, None) == LastLength(lines[i..], contentLength)
    {
      assert lines[i..][1..] == lines[i + 1..];
      if CONTENT_LENGTH <= lines[i] {
        contentLength := ParseInt(LengthField(lines[i]));
        if contentLength == None {
          return Malformed;
        }
      }
    }
    if contentLength == None {
      return Malformed;
    }
    var bodyEnd := bodyStart + contentLength.value;
    if |data| < bodyEnd {
      return NotYet(data);
    }
    var remaining := data[Bound(bodyEnd, |data|)..];
    match codec.decode(Body(data, bodyStart, bodyEnd))
    case None => return Malformed;
    case Some(message) => return if codec.isNull(message) then NotYet(remaining) else Parsed(message, remaining);
  }
}
