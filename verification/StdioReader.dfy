/** The line-based reader of the stdio transport, and its agreement with the message parser. */
module StdioReader {
  import opened Wrappers
  import opened Sequences
  import opened Decimals
  import opened Framing

  const LF: Bytes := [10]

  /** `readline`: up to and including the next line feed, or what is left at the end. */
  function ReadLine(s: Bytes): (line: Bytes)
    ensures line <= s && (s != [] ==> line != [])
  {
    match Find(s, LF) case Some(i) => s[..i + 1] case None => s
  }

  /** The first Content-Length decides. */
  function FirstLength(lines: seq<Bytes>): Option<int> {
    if lines == [] then None
    else if CONTENT_LENGTH <= lines[0] then ParseInt(LengthField(lines[0]))
    else FirstLength(lines[1..])
  }

  function ParseContentLength<J>(codec: Codec<J>, header: Bytes): Option<int> {
    if codec.utf8(header) then FirstLength(SplitLines(header)) else None
  }

  /** The bodies handed on, given the rest of the stream and the header lines read so far. */
  function ReadLoop<J>(codec: Codec<J>, s: Bytes, buffer: Bytes): seq<Bytes>
    decreases |s|
  {
    var line := ReadLine(s);
    if line == [] then []
    else
      var header, rest := buffer + line, s[|line|..];
      if line != CRLF then ReadLoop(codec, rest, header)
      else match ParseContentLength(codec, header)
        case None => ReadLoop(codec, rest, [])
        case Some(n) =>
          if n < 0 || |rest| < n then [] else [rest[..n]] + ReadLoop(codec, rest[n..], [])
  }

  method ReadBodies<J>(codec: Codec<J>, stream: Bytes) returns (bodies: seq<Bytes>)
    ensures bodies == ReadLoop(codec, stream, [])
  {
    bodies := [];
    var s, buffer: Bytes := stream, [];
    while s != []
      invariant ReadLoop(codec, stream, []) == bodies + ReadLoop(codec, s, buffer)
      decreases |s|
    {
      var line := ReadLine(s);
      buffer, s := buffer + line, s[|line|..];
      if line == CRLF {
        var length := ParseContentLength(codec, buffer);
        if length == None {
          buffer := [];
          continue;
        }
        if length.value < 0 || |s| < length.value {
          return;
        }
        Assoc(bodies, [s[..length.value]], ReadLoop(codec, s[length.value..], []));
        bodies := bodies + [s[..length.value]];
        buffer, s := [], s[length.value..];
      }
    }
  }

  // ----- well-formed frames

  datatype Frame = Frame(lines: seq<Bytes>, body: Bytes)

  predicate IsPlain(line: Bytes) {
    forall k :: 0 <= k < |line| ==> line[k] != 13 && line[k] != 10
  }

  /** Header lines joined by CRLF. */
  function Joined(lines: seq<Bytes>): Bytes {
    if lines == [] then [] else if |lines| == 1 then lines[0] else lines[0] + CRLF + Joined(lines[1..])
  }

  /** Header lines each ended by CRLF. */
  function HeaderBytes(lines: seq<Bytes>): Bytes {
    if lines == [] then [] else lines[0] + CRLF + HeaderBytes(lines[1..])
  }

  function FrameBytes(f: Frame): Bytes {
    HeaderBytes(f.lines) + CRLF + f.body
  }

  /** Exactly one line is a Content-Length, and it gives the length. */
  predicate OneLength(lines: seq<Bytes>, length: nat) {
    exists k :: 0 <= k < |lines| && CONTENT_LENGTH <= lines[k] && ParseInt(LengthField(lines[k])) == Some(length) &&
      forall j :: 0 <= j < |lines| && j != k ==> !(CONTENT_LENGTH <= lines[j])
  }

  predicate WellFormedFrame<J>(codec: Codec<J>, f: Frame) {
    (forall k :: 0 <= k < |f.lines| ==> f.lines[k] != [] && IsPlain(f.lines[k])) &&
    codec.utf8(Joined(f.lines)) && OneLength(f.lines, |f.body|)
  }

  predicate HasMessage<J>(codec: Codec<J>, f: Frame) {
    codec.decode(f.body).Some? && !codec.isNull(codec.decode(f.body).value)
  }

  lemma {:induction false} NoLength(lines: seq<Bytes>, found: Option<int>)
    requires forall k :: 0 <= k < |lines| ==> !(CONTENT_LENGTH <= lines[k])
    ensures LastLength(lines, found) == found && FirstLength(lines) == None
  {
    if lines != [] {
      NoLength(lines[1..], found);
    }
  }

  /** With exactly one Content-Length, first and last are the same. */
  lemma {:induction false} FirstIsLast(lines: seq<Bytes>, length: nat)
    requires OneLength(lines, length)
    ensures LastLength(lines, None) == Some(length) && FirstLength(lines) == Some(length)
  {
    var k :| 0 <= k < |lines| && CONTENT_LENGTH <= lines[k] && ParseInt(LengthField(lines[k])) == Some(length) &&
      forall j :: 0 <= j < |lines| && j != k ==> !(CONTENT_LENGTH <= lines[j]);
    if k == 0 {
      NoLength(lines[1..], Some(length));
    } else {
      var rest := lines[1..];
      assert rest[k - 1] == lines[k];
      assert OneLength(rest, length);
      FirstIsLast(rest, length);
    }
  }

  lemma {:induction false} FirstLengthPrefix(lines: seq<Bytes>, more: seq<Bytes>)
    requires FirstLength(lines).Some?
    ensures FirstLength(lines + more) == FirstLength(lines)
  {
    if !(CONTENT_LENGTH <= lines[0]) {
      FirstLengthPrefix(lines[1..], more);
      assert (lines + more)[1..] == lines[1..] + more;
    }
  }

  /** A match can be looked for behind bytes at which none begins. */
  lemma {:induction false} FindBehind(a: Bytes, s: Bytes, pattern: Bytes)
    requires pattern != [] && forall k :: 0 <= k < |a| ==> !(pattern <= (a + s)[k..])
    ensures Find(a + s, pattern) == match Find(s, pattern) case Some(i) => Some(|a| + i) case None => None
  {
    if a == [] {
      assert a + s == s;
    } else {
      assert (a + s)[0..] == a + s && (a + s)[1..] == a[1..] + s;
      forall k | 0 <= k < |a[1..]| ensures !(pattern <= (a[1..] + s)[k..]) {
        assert (a[1..] + s)[k..] == (a + s)[k + 1..];
      }
      if |a + s| >= |pattern| {
        FindBehind(a[1..], s, pattern);
      } else {
        FindTooShort(s, pattern);
      }
    }
  }

  lemma FindTooShort(s: Bytes, pattern: Bytes)
    requires pattern != [] && |s| < |pattern|
    ensures Find(s, pattern) == None
  {
  }

  lemma FindAfterPlain(line: Bytes, s: Bytes, pattern: Bytes)
    requires IsPlain(line) && pattern != [] && (pattern[0] == 13 || pattern[0] == 10)
    ensures Find(line + s, pattern) == match Find(s, pattern) case Some(i) => Some(|line| + i) case None => None
  {
    forall k | 0 <= k < |line| ensures !(pattern <= (line + s)[k..]) {
      assert (line + s)[k..][0] == line[k];
    }
    FindBehind(line, s, pattern);
  }

  lemma {:induction false} SplitJoined(lines: seq<Bytes>)
    requires lines != [] && forall k :: 0 <= k < |lines| ==> IsPlain(lines[k])
    ensures SplitLines(Joined(lines)) == lines
  {
    var rest := lines[1..];
    assert lines == [lines[0]] + rest;
    if rest == [] {
      NoLineBreak(lines[0]);
    } else {
      SplitJoined(rest);
      var data := lines[0] + CRLF + Joined(rest);
      assert data == lines[0] + (CRLF + Joined(rest));
      FindAfterPlain(lines[0], CRLF + Joined(rest), CRLF);
      assert CRLF <= CRLF + Joined(rest);
      assert data[..|lines[0]|] == lines[0] && data[|lines[0]| + 2..] == Joined(rest);
    }
  }

  lemma {:induction false} SeparatorAfterLines(lines: seq<Bytes>, x: Bytes)
    requires lines != [] && forall k :: 0 <= k < |lines| ==> lines[k] != [] && IsPlain(lines[k])
    ensures Find(Joined(lines) + SEPARATOR + x, SEPARATOR) == Some(|Joined(lines)|)
  {
    var rest := lines[1..];
    if rest == [] {
      SeparatorAfter(lines[0], x);
    } else {
      SeparatorAfterLines(rest, x);
      var tail := Joined(rest) + SEPARATOR + x;
      assert Joined(lines) + SEPARATOR + x == lines[0] + (CRLF + tail);
      FindAfterPlain(lines[0], CRLF + tail, SEPARATOR);
      JoinedStart(rest);
      assert (CRLF + tail)[2] == tail[0] == Joined(rest)[0];
      assert SEPARATOR[0] == 13 && SEPARATOR[2] == 13;
      assert (CRLF + tail)[0..][2] != 13 && (CRLF + tail)[1..][0] == 10;
      FindBehind(CRLF, tail, SEPARATOR);
    }
  }

  lemma JoinedStart(lines: seq<Bytes>)
    requires lines != [] && forall k :: 0 <= k < |lines| ==> lines[k] != [] && IsPlain(lines[k])
    ensures Joined(lines) != [] && Joined(lines)[0] != 13
  {
  }

  lemma {:induction false} HeaderIsJoined(lines: seq<Bytes>)
    requires lines != []
    ensures HeaderBytes(lines) + CRLF == Joined(lines) + SEPARATOR
    ensures Joined(lines + [[], []]) == Joined(lines) + SEPARATOR
  {
    var rest := lines[1..];
    if rest == [] {
      assert lines + [[], []] == [lines[0], [], []];
      assert [lines[0], [], []][1..] == [[], []];
      var tail: seq<Bytes> := [[], []];
      assert tail[1..] == [[]] && Joined(tail) == CRLF;
      assert lines[0] + CRLF + CRLF == lines[0] + SEPARATOR;
    } else {
      HeaderIsJoined(rest);
      assert (lines + [[], []])[1..] == rest + [[], []];
      Assoc(lines[0] + CRLF, HeaderBytes(rest), CRLF);
      Assoc(lines[0] + CRLF, Joined(rest), SEPARATOR);
    }
  }

  lemma FrameHeader<J(!new)>(codec: Codec<J>, f: Frame, x: Bytes)
    requires Faithful(codec) && WellFormedFrame(codec, f)
    ensures f.lines != []
    ensures HeaderOf(codec, Joined(f.lines) + SEPARATOR + x) == Header(|Joined(f.lines)| + 4, |f.body|)
  {
    var header := Joined(f.lines);
    SeparatorAfterLines(f.lines, x);
    assert (header + SEPARATOR + x)[..|header|] == header;
    SplitJoined(f.lines);
    FirstIsLast(f.lines, |f.body|);
  }

  lemma FrameLength<J(!new)>(codec: Codec<J>, f: Frame)
    requires Faithful(codec) && WellFormedFrame(codec, f)
    ensures ParseContentLength(codec, HeaderBytes(f.lines) + CRLF) == Some(|f.body|)
  {
    FirstIsLast(f.lines, |f.body|);
    HeaderIsJoined(f.lines);
    assert IsAscii(SEPARATOR);
    SplitJoined(f.lines + [[], []]);
    FirstLengthPrefix(f.lines, [[], []]);
  }

  /** The transport's reader collects the header lines of a frame. */
  lemma {:induction false} ReadHeaderLines<J>(codec: Codec<J>, lines: seq<Bytes>, x: Bytes, buffer: Bytes)
    requires forall k :: 0 <= k < |lines| ==> lines[k] != [] && IsPlain(lines[k])
    ensures ReadLoop(codec, HeaderBytes(lines) + x, buffer) == ReadLoop(codec, x, buffer + HeaderBytes(lines))
  {
    if lines == [] {
      assert HeaderBytes(lines) + x == x && buffer + HeaderBytes(lines) == buffer;
    } else {
      var line, rest := lines[0], HeaderBytes(lines[1..]);
      Assoc(line + CRLF, rest, x);
      ReadOneHeaderLine(codec, line, rest + x, buffer);
      ReadHeaderLines(codec, lines[1..], x, buffer + (line + CRLF));
      Assoc(buffer, line + CRLF, rest);
    }
  }

  lemma ReadOneHeaderLine<J>(codec: Codec<J>, line: Bytes, rest: Bytes, buffer: Bytes)
    requires line != [] && IsPlain(line)
    ensures ReadLoop(codec, line + CRLF + rest, buffer) == ReadLoop(codec, rest, buffer + (line + CRLF))
  {
    var s := line + CRLF + rest;
    Assoc(line, CRLF, rest);
    ReadOneLine(line, rest);
    assert s[|line| + 2..] == rest;
    assert |line + CRLF| > |CRLF|;
  }

  lemma ReadOneLine(line: Bytes, rest: Bytes)
    requires IsPlain(line)
    ensures ReadLine(line + (CRLF + rest)) == line + CRLF
  {
    FindAfterPlain(line, CRLF + rest, LF);
    assert (CRLF + rest)[1..] == LF + rest && LF <= LF + rest;
    assert !(LF <= CRLF + rest) by {
      assert (CRLF + rest)[0] == 13;
    }
    assert Find(LF + rest, LF) == Some(0);
    assert Find(CRLF + rest, LF) == Some(1);
    assert (line + (CRLF + rest))[..|line| + 2] == line + CRLF;
  }

  /** The blank line ends the header and the body follows. */
  lemma ReadBody<J>(codec: Codec<J>, body: Bytes, x: Bytes, buffer: Bytes)
    requires ParseContentLength(codec, buffer + CRLF) == Some(|body|)
    ensures ReadLoop(codec, CRLF + (body + x), buffer) == [body] + ReadLoop(codec, x, [])
  {
    var s, rest := CRLF + (body + x), body + x;
    ReadOneLine([], rest);
    assert [] + s == s && [] + CRLF == CRLF && s[2..] == rest;
    assert rest[..|body|] == body && rest[|body|..] == x;
  }

  lemma FrameLayout(f: Frame, x: Bytes)
    ensures FrameBytes(f) + x == HeaderBytes(f.lines) + (CRLF + (f.body + x))
  {
    var header := HeaderBytes(f.lines);
    Assoc(header, CRLF + f.body, x);
    Assoc(CRLF, f.body, x);
    assert FrameBytes(f) == header + (CRLF + f.body);
  }

  lemma ReadFrame<J(!new)>(codec: Codec<J>, f: Frame, x: Bytes)
    requires Faithful(codec) && WellFormedFrame(codec, f)
    ensures ReadLoop(codec, FrameBytes(f) + x, []) == [f.body] + ReadLoop(codec, x, [])
  {
    var tail := CRLF + (f.body + x);
    FrameLayout(f, x);
    ReadHeaderLines(codec, f.lines, tail, []);
    assert [] + HeaderBytes(f.lines) == HeaderBytes(f.lines);
    FrameLength(codec, f);
    ReadBody(codec, f.body, x, HeaderBytes(f.lines));
  }

  lemma ParseFrame<J(!new)>(codec: Codec<J>, f: Frame, x: Bytes)
    requires Faithful(codec) && WellFormedFrame(codec, f)
    requires HasMessage(codec, f)
    ensures ParseMessage(codec, FrameBytes(f) + x) == Parsed(codec.decode(f.body).value, x)
    ensures var d := Drain(codec, x);
            Drain(codec, FrameBytes(f) + x) == d.(messages := [codec.decode(f.body).value] + d.messages)
  {
    var head := Joined(f.lines) + SEPARATOR;
    var data := head + (f.body + x);
    FrameHeader(codec, f, f.body + x);
    HeaderIsJoined(f.lines);
    assert FrameBytes(f) + x == data;
    assert data[|head|..|head| + |f.body|] == f.body && data[|head| + |f.body|..] == x;
  }

  function FrameStream(frames: seq<Frame>): Bytes {
    if frames == [] then [] else FrameBytes(frames[0]) + FrameStream(frames[1..])
  }

  function Bodies(frames: seq<Frame>): seq<Bytes> {
    if frames == [] then [] else [frames[0].body] + Bodies(frames[1..])
  }

  function Messages<J>(codec: Codec<J>, frames: seq<Frame>): seq<J>
    requires forall k :: 0 <= k < |frames| ==> HasMessage(codec, frames[k])
  {
    if frames == [] then []
    else
      assert HasMessage(codec, frames[0]);
      [codec.decode(frames[0].body).value] + Messages(codec, frames[1..])
  }

  lemma {:induction false} ReaderYieldsBodies<J(!new)>(codec: Codec<J>, frames: seq<Frame>)
    requires Faithful(codec) && forall k :: 0 <= k < |frames| ==> WellFormedFrame(codec, frames[k])
    ensures ReadLoop(codec, FrameStream(frames), []) == Bodies(frames)
  {
    if frames != [] {
      ReaderYieldsBodies(codec, frames[1..]);
      ReadFrame(codec, frames[0], FrameStream(frames[1..]));
    } else {
      assert Find([], LF) == None;
    }
  }

  lemma {:induction false} ParserYieldsMessages<J(!new)>(codec: Codec<J>, frames: seq<Frame>)
    requires Faithful(codec)
    requires forall k :: 0 <= k < |frames| ==> WellFormedFrame(codec, frames[k]) && HasMessage(codec, frames[k])
    ensures Drain(codec, FrameStream(frames)) == Delivery(Messages(codec, frames), [], false)
  {
    if frames != [] {
      ParserYieldsMessages(codec, frames[1..]);
      ParseFrame(codec, frames[0], FrameStream(frames[1..]));
    }
  }

  function DecodeAll<J>(codec: Codec<J>, bodies: seq<Bytes>): seq<Option<J>> {
    if bodies == [] then [] else [codec.decode(bodies[0])] + DecodeAll(codec, bodies[1..])
  }

  function AllSome<J>(messages: seq<J>): seq<Option<J>> {
    if messages == [] then [] else [Some(messages[0])] + AllSome(messages[1..])
  }

  lemma {:induction false} BodiesDecode<J>(codec: Codec<J>, frames: seq<Frame>)
    requires forall k :: 0 <= k < |frames| ==> HasMessage(codec, frames[k])
    ensures DecodeAll(codec, Bodies(frames)) == AllSome(Messages(codec, frames))
  {
    if frames != [] {
      BodiesDecode(codec, frames[1..]);
      var m := codec.decode(frames[0].body).value;
      assert ([frames[0].body] + Bodies(frames[1..]))[1..] == Bodies(frames[1..]);
      assert ([m] + Messages(codec, frames[1..]))[1..] == Messages(codec, frames[1..]);
    }
  }

  /** On every stream of well-formed frames the bodies the line-based reader yields decode to
      exactly the messages that repeated message parsing yields, in the same order. */
  lemma FramersAgree<J(!new)>(codec: Codec<J>, frames: seq<Frame>)
    requires Faithful(codec)
    requires forall k :: 0 <= k < |frames| ==> WellFormedFrame(codec, frames[k]) && HasMessage(codec, frames[k])
    ensures var stream := FrameStream(frames);
            var parsed := Drain(codec, stream);
            DecodeAll(codec, ReadLoop(codec, stream, [])) == AllSome(parsed.messages) &&
            |parsed.messages| == |frames| && parsed.buffer == [] && !parsed.failed
  {
    ReaderYieldsBodies(codec, frames);
    ParserYieldsMessages(codec, frames);
    BodiesDecode(codec, frames);
    MessageCount(codec, frames);
  }

  lemma {:induction false} MessageCount<J>(codec: Codec<J>, frames: seq<Frame>)
    requires forall k :: 0 <= k < |frames| ==> HasMessage(codec, frames[k])
    ensures |Messages(codec, frames)| == |frames|
  {
    if frames != [] {
      MessageCount(codec, frames[1..]);
    }
  }
}
