/** What both framers make of any frame, good or bad, whose header is some lines of text; and what that means for
    the loops. */
module FrameLaws {
  import opened Wrappers
  import opened Sequences
  import opened Decimals
  import opened Framing
  import opened Streams
  import opened StdioReader

  /** Lines of a header: none is empty and none contains a carriage return or line feed. */
  predicate AreLines(lines: seq<Bytes>) {
    lines != [] && forall k :: 0 <= k < |lines| ==> lines[k] != [] && IsPlain(lines[k])
  }

  predicate IsLength(line: Bytes) {
    CONTENT_LENGTH <= line
  }

  /** The number a Content-Length line gives, if it is readable. */
  function LengthIn(line: Bytes): Option<int>
    requires IsLength(line)
  {
    ParseInt(LengthField(line))
  }

  predicate NoLengthIn(lines: seq<Bytes>) {
    forall k :: 0 <= k < |lines| ==> !IsLength(lines[k])
  }

  predicate SomeUnreadable(lines: seq<Bytes>) {
    exists k :: 0 <= k < |lines| && IsLength(lines[k]) && LengthIn(lines[k]) == None
  }

  /** Line k gives this length, and no later line is a Content-Length. */
  predicate LastIs(lines: seq<Bytes>, k: nat, n: int) {
    k < |lines| && IsLength(lines[k]) && LengthIn(lines[k]) == Some(n) &&
    forall j :: k < j < |lines| ==> !IsLength(lines[j])
  }

  predicate FirstIs(lines: seq<Bytes>, k: nat) {
    k < |lines| && IsLength(lines[k]) && forall j :: 0 <= j < k ==> !IsLength(lines[j])
  }

  // ----- which length counts

  lemma {:induction false} LastLengthOfNone(lines: seq<Bytes>, found: Option<int>)
    requires NoLengthIn(lines)
    ensures LastLength(lines, found) == found && FirstLength(lines) == None
  {
    NoLength(lines, found);
  }

  lemma {:induction false} UnreadableLength(lines: seq<Bytes>, found: Option<int>, k: nat)
    requires k < |lines| && IsLength(lines[k]) && LengthIn(lines[k]) == None
    ensures LastLength(lines, found) == None
  {
    if k > 0 {
      UnreadableLength(lines[1..], found, k - 1);
      UnreadableLength(lines[1..], if IsLength(lines[0]) then LengthIn(lines[0]) else found, k - 1);
    }
  }

  lemma {:induction false} LastLengthCounts(lines: seq<Bytes>, found: Option<int>, k: nat, n: int)
    requires !SomeUnreadable(lines) && LastIs(lines, k, n)
    ensures LastLength(lines, found) == Some(n)
  {
    var rest := lines[1..];
    assert forall j :: 0 <= j < |rest| ==> rest[j] == lines[j + 1];
    if k == 0 {
      LastLengthOfNone(rest, Some(n));
    } else {
      assert !SomeUnreadable(rest) && LastIs(rest, k - 1, n);
      var next := if IsLength(lines[0]) then LengthIn(lines[0]) else found;
      LastLengthCounts(rest, next, k - 1, n);
    }
  }

  lemma {:induction false} FirstLengthCounts(lines: seq<Bytes>, more: seq<Bytes>, k: nat)
    requires FirstIs(lines, k)
    ensures FirstLength(lines + more) == LengthIn(lines[k])
  {
    if k > 0 {
      var rest := lines[1..];
      assert forall j :: 0 <= j < |rest| ==> rest[j] == lines[j + 1];
      assert (lines + more)[1..] == rest + more;
      FirstLengthCounts(rest, more, k - 1);
    }
  }

  // ----- the message parser

  lemma HeaderOfLines<J>(codec: Codec<J>, lines: seq<Bytes>, rest: Bytes)
    requires AreLines(lines)
    ensures HeaderOf(codec, Joined(lines) + SEPARATOR + rest) ==
            if !codec.utf8(Joined(lines)) then Invalid
            else match LastLength(lines, None) case None => Invalid case Some(n) => Header(|Joined(lines)| + 4, n)
  {
    var header := Joined(lines);
    SeparatorAfterLines(lines, rest);
    assert (header + SEPARATOR + rest)[..|header|] == header;
    SplitJoined(lines);
  }

  /** A header that is no UTF-8, has no Content-Length or has an unreadable one is an error, whatever follows. */
  lemma BadHeaderIsMalformed<J>(codec: Codec<J>, lines: seq<Bytes>, rest: Bytes)
    requires AreLines(lines) && (!codec.utf8(Joined(lines)) || NoLengthIn(lines) || SomeUnreadable(lines))
    ensures ParseMessage(codec, Joined(lines) + SEPARATOR + rest) == Malformed
    ensures Tame(codec, Joined(lines) + SEPARATOR + rest)
  {
    HeaderOfLines(codec, lines, rest);
    if NoLengthIn(lines) {
      LastLengthOfNone(lines, None);
    } else if SomeUnreadable(lines) {
      var k :| 0 <= k < |lines| && IsLength(lines[k]) && LengthIn(lines[k]) == None;
      UnreadableLength(lines, None, k);
    }
  }

  /** Otherwise the last Content-Length decides how many bytes are the body: too few are waited for, a body that
      does not decode is an error, and a decoded one is the message, unless it is null. */
  lemma LastLengthDecides<J>(codec: Codec<J>, lines: seq<Bytes>, rest: Bytes, k: nat, n: nat)
    requires AreLines(lines) && codec.utf8(Joined(lines)) && !SomeUnreadable(lines) && LastIs(lines, k, n)
    ensures var data := Joined(lines) + SEPARATOR + rest;
            ParseMessage(codec, data) ==
            if |rest| < n then NotYet(data)
            else match codec.decode(rest[..n])
              case None => Malformed
              case Some(message) => if codec.isNull(message) then NotYet(rest[n..]) else Parsed(message, rest[n..])
    ensures n <= |rest| && codec.decode(rest[..n]) == None ==> Tame(codec, Joined(lines) + SEPARATOR + rest)
  {
    var head := Joined(lines) + SEPARATOR;
    GoodHeader(codec, lines, rest, k, n);
    ParseBehindHeader(codec, head, rest, n);
    if n <= |rest| && codec.decode(rest[..n]) == None {
      BodySlice(head, rest, n);
      UndecodableIsTame(codec, head + rest, |head|, n);
    }
  }

  lemma GoodHeader<J>(codec: Codec<J>, lines: seq<Bytes>, rest: Bytes, k: nat, n: nat)
    requires AreLines(lines) && codec.utf8(Joined(lines)) && !SomeUnreadable(lines) && LastIs(lines, k, n)
    ensures HeaderOf(codec, Joined(lines) + SEPARATOR + rest) == Header(|Joined(lines) + SEPARATOR|, n)
  {
    HeaderOfLines(codec, lines, rest);
    LastLengthCounts(lines, None, k, n);
  }

  lemma BodySlice(head: Bytes, rest: Bytes, n: nat)
    requires n <= |rest|
    ensures (head + rest)[|head|..|head| + n] == rest[..n]
  {
  }

  lemma ParseBehindHeader<J>(codec: Codec<J>, head: Bytes, rest: Bytes, n: nat)
    requires HeaderOf(codec, head + rest) == Header(|head|, n)
    ensures ParseMessage(codec, head + rest) ==
            if |rest| < n then NotYet(head + rest)
            else match codec.decode(rest[..n])
              case None => Malformed
              case Some(message) => if codec.isNull(message) then NotYet(rest[n..]) else Parsed(message, rest[n..])
  {
    if n <= |rest| {
      BodyBehind(head, rest, n);
    }
  }

  lemma BodyBehind(head: Bytes, rest: Bytes, n: nat)
    requires n <= |rest|
    ensures var data, end := head + rest, |head| + n;
            Body(data, |head|, end) == rest[..n] && data[Bound(end, |data|)..] == rest[n..]
  {
    var data, end := head + rest, |head| + n;
    assert data[|head|..end] == rest[..n] && data[end..] == rest[n..];
  }

  lemma UndecodableIsTame<J>(codec: Codec<J>, data: Bytes, start: nat, n: nat)
    requires HeaderOf(codec, data) == Header(start, n) && start + n <= |data|
    requires codec.decode(data[start..start + n]) == None
    ensures Tame(codec, data)
  {
  }

  /** A negative length is an error as long as it does not reach back beyond the start of the data. */
  lemma NegativeLengthIsMalformed<J(!new)>(codec: Codec<J>, lines: seq<Bytes>, rest: Bytes, k: nat, n: int)
    requires Faithful(codec) && AreLines(lines) && codec.utf8(Joined(lines)) && !SomeUnreadable(lines)
    requires LastIs(lines, k, n) && -(|Joined(lines)| + 4) <= n < 0
    ensures ParseMessage(codec, Joined(lines) + SEPARATOR + rest) == Malformed
  {
    HeaderOfLines(codec, lines, rest);
    LastLengthCounts(lines, None, k, n);
  }

  // ----- the server's loop

  lemma {:induction false} TameBehind<J(!new)>(codec: Codec<J>, messages: seq<J>, bad: Bytes)
    requires Faithful(codec) && Tame(codec, bad) && forall k :: 0 <= k < |messages| ==> !codec.isNull(messages[k])
    ensures Tame(codec, Stream(codec, messages) + bad)
  {
    if messages == [] {
      assert [] + bad == bad;
    } else {
      TameBehind(codec, messages[1..], bad);
      TameAfterPrinted(codec, messages[0], Stream(codec, messages[1..]) + bad);
      Assoc(ToBytes(codec, messages[0]), Stream(codec, messages[1..]), bad);
    }
  }

  lemma {:induction false} MalformedBehind<J(!new)>(codec: Codec<J>, messages: seq<J>, bad: Bytes)
    requires Faithful(codec) && forall k :: 0 <= k < |messages| ==> !codec.isNull(messages[k])
    requires bad != [] && ParseMessage(codec, bad) == Malformed
    ensures var d := Drain(codec, Stream(codec, messages) + bad); d.messages == messages && d.failed
  {
    if messages == [] {
      assert [] + bad == bad;
    } else {
      MalformedBehind(codec, messages[1..], bad);
      Assoc(ToBytes(codec, messages[0]), Stream(codec, messages[1..]), bad);
      FirstOfStream(codec, messages[0], Stream(codec, messages[1..]) + bad);
      assert messages == [messages[0]] + messages[1..];
    }
  }

  /** However the stream is cut, a malformed frame ends the connection, after the messages before it. */
  lemma MalformedFails<J(!new)>(codec: Codec<J>, messages: seq<J>, bad: Bytes, chunks: seq<Bytes>)
    requires Faithful(codec) && forall k :: 0 <= k < |messages| ==> !codec.isNull(messages[k])
    requires bad != [] && Tame(codec, bad) && ParseMessage(codec, bad) == Malformed
    requires [] !in chunks && Concat(chunks) == Stream(codec, messages) + bad
    ensures Feed(codec, [], chunks).messages == messages && Feed(codec, [], chunks).failed
  {
    TameBehind(codec, messages, bad);
    MalformedBehind(codec, messages, bad);
    assert [] + Concat(chunks) == Concat(chunks);
    ChunkIndependent(codec, [], chunks);
  }

  /** So does a header without a readable Content-Length, whatever follows it. */
  lemma BadHeaderFails<J(!new)>(codec: Codec<J>, messages: seq<J>, lines: seq<Bytes>, rest: Bytes, chunks: seq<Bytes>)
    requires Faithful(codec) && forall k :: 0 <= k < |messages| ==> !codec.isNull(messages[k])
    requires AreLines(lines) && (!codec.utf8(Joined(lines)) || NoLengthIn(lines) || SomeUnreadable(lines))
    requires [] !in chunks && Concat(chunks) == Stream(codec, messages) + (Joined(lines) + SEPARATOR + rest)
    ensures Feed(codec, [], chunks).messages == messages && Feed(codec, [], chunks).failed
  {
    BadHeaderIsMalformed(codec, lines, rest);
    MalformedFails(codec, messages, Joined(lines) + SEPARATOR + rest, chunks);
  }

  /** And a complete body that does not decode. */
  lemma BadBodyFails<J(!new)>(codec: Codec<J>, messages: seq<J>, lines: seq<Bytes>, body: Bytes, rest: Bytes, k: nat,
                              chunks: seq<Bytes>)
    requires Faithful(codec) && forall j :: 0 <= j < |messages| ==> !codec.isNull(messages[j])
    requires AreLines(lines) && codec.utf8(Joined(lines)) && !SomeUnreadable(lines) && LastIs(lines, k, |body|)
    requires codec.decode(body) == None
    requires [] !in chunks && Concat(chunks) == Stream(codec, messages) + (Joined(lines) + SEPARATOR + (body + rest))
    ensures Feed(codec, [], chunks).messages == messages && Feed(codec, [], chunks).failed
  {
    assert (body + rest)[..|body|] == body;
    LastLengthDecides(codec, lines, body + rest, k, |body|);
    MalformedFails(codec, messages, Joined(lines) + SEPARATOR + (body + rest), chunks);
  }

  /** The end of the stream ends the loop: nothing behind it is read. */
  lemma {:induction false} NothingBehindEnd<J(!new)>(codec: Codec<J>, buffer: Bytes, chunks: seq<Bytes>, more: seq<Bytes>)
    requires Faithful(codec)
    ensures Feed(codec, buffer, chunks + [[]] + more) == Feed(codec, buffer, chunks)
    decreases |chunks|
  {
    var all := chunks + [[]] + more;
    if chunks == [] {
      assert all[0] == [];
    } else {
      assert all[0] == chunks[0] && all[1..] == chunks[1..] + [[]] + more;
      if chunks[0] != [] {
        NothingBehindEnd(codec, Drain(codec, buffer + chunks[0]).buffer, chunks[1..], more);
      }
    }
  }

  // ----- the client's loop

  /** What the data parses to once a chunk was read. */
  function ParsedAfter<J>(codec: Codec<J>, data: Bytes, chunks: seq<Bytes>, j: nat): ParseResult<J>
    requires j < |chunks|
  {
    ParseMessage(codec, data + Concat(chunks[..j + 1]))
  }

  lemma ParsedAfterFirst<J>(codec: Codec<J>, data: Bytes, chunks: seq<Bytes>, j: nat)
    requires j < |chunks|
    ensures j == 0 ==> ParsedAfter(codec, data, chunks, j) == ParseMessage(codec, data + chunks[0])
    ensures j > 0 ==> ParsedAfter(codec, data, chunks, j) == ParsedAfter(codec, data + chunks[0], chunks[1..], j - 1)
  {
    var some := chunks[..j + 1];
    assert some[1..] == chunks[1..][..j];
    Assoc(data, chunks[0], Concat(some[1..]));
    assert Concat(some) == chunks[0] + Concat(some[1..]);
    if j == 0 {
      assert Concat(some[1..]) == [] && data + chunks[0] + [] == data + chunks[0];
    }
  }

  /** The client returns the message of the first chunk behind which the data read so far parses as one,
      whatever it parsed to before. */
  lemma {:induction false} FirstResponseExactly<J>(codec: Codec<J>, data: Bytes, chunks: seq<Bytes>) returns (i: nat)
    requires [] !in chunks
    ensures i <= |chunks|
    ensures forall j :: 0 <= j < i ==> !ParsedAfter(codec, data, chunks, j).Parsed?
    ensures i == |chunks| ==> FirstResponse(codec, data, chunks) == None
    ensures i < |chunks| ==>
              var parsed := ParsedAfter(codec, data, chunks, i);
              parsed.Parsed? && FirstResponse(codec, data, chunks) == Some(parsed.message)
    decreases |chunks|
  {
    i := 0;
    if chunks != [] {
      ParsedAfterFirst(codec, data, chunks, 0);
      if !ParseMessage(codec, data + chunks[0]).Parsed? {
        var n := FirstResponseExactly(codec, data + chunks[0], chunks[1..]);
        i := n + 1;
        forall j | 0 < j < |chunks|
          ensures ParsedAfter(codec, data, chunks, j) == ParsedAfter(codec, data + chunks[0], chunks[1..], j - 1)
        {
          ParsedAfterFirst(codec, data, chunks, j);
        }
      }
    }
  }

  lemma {:induction false} NoResponseBehindEnd<J>(codec: Codec<J>, data: Bytes, chunks: seq<Bytes>, more: seq<Bytes>)
    ensures FirstResponse(codec, data, chunks + [[]] + more) == FirstResponse(codec, data, chunks)
    decreases |chunks|
  {
    var all := chunks + [[]] + more;
    if chunks == [] {
      assert all[0] == [];
    } else {
      assert all[0] == chunks[0] && all[1..] == chunks[1..] + [[]] + more;
      if chunks[0] != [] {
        NoResponseBehindEnd(codec, data + chunks[0], chunks[1..], more);
      }
    }
  }

  // ----- the reader of the stdio transport

  /** The lines of a header that the reader has collected, and two empty ones. */
  lemma CollectedLength<J(!new)>(codec: Codec<J>, lines: seq<Bytes>)
    requires Faithful(codec) && AreLines(lines)
    ensures ParseContentLength(codec, HeaderBytes(lines) + CRLF) ==
            if codec.utf8(Joined(lines)) then FirstLength(lines + [[], []]) else None
  {
    HeaderIsJoined(lines);
    assert IsAscii(SEPARATOR);
    SplitJoined(lines + [[], []]);
  }

  lemma ReadToBlankLine<J(!new)>(codec: Codec<J>, lines: seq<Bytes>, rest: Bytes)
    requires Faithful(codec) && AreLines(lines)
    ensures ReadLoop(codec, HeaderBytes(lines) + (CRLF + rest), []) ==
            match ParseContentLength(codec, HeaderBytes(lines) + CRLF)
            case None => ReadLoop(codec, rest, [])
            case Some(n) => if n < 0 || |rest| < n then [] else [rest[..n]] + ReadLoop(codec, rest[n..], [])
  {
    ReadHeaderLines(codec, lines, CRLF + rest, []);
    assert [] + HeaderBytes(lines) == HeaderBytes(lines);
    ReadBlankLine(codec, rest, HeaderBytes(lines));
  }

  lemma ReadBlankLine<J>(codec: Codec<J>, rest: Bytes, buffer: Bytes)
    ensures ReadLoop(codec, CRLF + rest, buffer) ==
            match ParseContentLength(codec, buffer + CRLF)
            case None => ReadLoop(codec, rest, [])
            case Some(n) => if n < 0 || |rest| < n then [] else [rest[..n]] + ReadLoop(codec, rest[n..], [])
  {
    var s := CRLF + rest;
    ReadOneLine([], rest);
    assert [] + s == s && [] + CRLF == CRLF && s[2..] == rest;
  }

  /** The reader skips a header that is no UTF-8 or has no Content-Length, and goes on behind it. */
  lemma BadHeaderIsSkipped<J(!new)>(codec: Codec<J>, lines: seq<Bytes>, rest: Bytes)
    requires Faithful(codec) && AreLines(lines) && (!codec.utf8(Joined(lines)) || NoLengthIn(lines))
    ensures ReadLoop(codec, HeaderBytes(lines) + (CRLF + rest), []) == ReadLoop(codec, rest, [])
  {
    ReadToBlankLine(codec, lines, rest);
    CollectedLength(codec, lines);
    if NoLengthIn(lines) {
      LastLengthOfNone(lines + [[], []], None);
    }
  }

  /** Otherwise the first Content-Length decides: if it is unreadable the header is skipped; if it is negative or
      the stream ends within the body reading ends; else the body is yielded. */
  lemma FirstLengthDecides<J(!new)>(codec: Codec<J>, lines: seq<Bytes>, rest: Bytes, k: nat)
    requires Faithful(codec) && AreLines(lines) && codec.utf8(Joined(lines)) && FirstIs(lines, k)
    ensures ReadLoop(codec, HeaderBytes(lines) + (CRLF + rest), []) ==
            match LengthIn(lines[k])
            case None => ReadLoop(codec, rest, [])
            case Some(n) => if n < 0 || |rest| < n then [] else [rest[..n]] + ReadLoop(codec, rest[n..], [])
  {
    ReadToBlankLine(codec, lines, rest);
    CollectedLength(codec, lines);
    FirstLengthCounts(lines, [[], []], k);
  }
}
