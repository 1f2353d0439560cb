/** Framing over whole streams: what is delivered does not depend on how the stream is cut into
    chunks, and printed messages arrive as they were sent. */
module Streams {
  import opened Wrappers
  import opened Sequences
  import opened Decimals
  import opened Framing

  function Concat(chunks: seq<Bytes>): Bytes {
    if chunks == [] then [] else chunks[0] + Concat(chunks[1..])
  }

  /** No message of the stream has a negative length or a null body. */
  predicate Tame<J>(codec: Codec<J>, data: Bytes)
    decreases |data|
  {
    match HeaderOf(codec, data)
    case Incomplete => true
    case Invalid => true
    case Header(start, length) =>
      length >= 0 &&
      (start + length <= |data| ==>
        match codec.decode(data[start..start + length])
        case None => true
        case Some(message) => !codec.isNull(message) && Tame(codec, data[start + length..]))
  }

  lemma HeaderInLonger<J>(codec: Codec<J>, d: Bytes, x: Bytes)
    requires HeaderOf(codec, d) != Incomplete
    ensures HeaderOf(codec, d + x) == HeaderOf(codec, d)
  {
    FindInLonger(d, x, SEPARATOR);
    var i := Find(d, SEPARATOR).value;
    assert (d + x)[..i] == d[..i];
  }

  /** Once parsing d has succeeded or failed, more bytes do not change that. */
  lemma ParseInLonger<J>(codec: Codec<J>, d: Bytes, x: Bytes)
    requires Tame(codec, d + x)
    ensures match ParseMessage(codec, d)
            case Malformed => ParseMessage(codec, d + x) == Malformed
            case Parsed(m, rest) => ParseMessage(codec, d + x) == Parsed(m, rest + x) && Tame(codec, rest + x)
            case NotYet(rest) => rest == d
  {
    if HeaderOf(codec, d) != Incomplete {
      HeaderInLonger(codec, d, x);
      match HeaderOf(codec, d)
      case Invalid =>
      case Header(start, length) =>
        if start + length <= |d| {
          assert (d + x)[start..start + length] == d[start..start + length];
          assert (d + x)[start + length..] == d[start + length..] + x;
        }
    }
  }

  lemma {:induction false} DrainInLonger<J(!new)>(codec: Codec<J>, d: Bytes, x: Bytes)
    requires Faithful(codec) && Tame(codec, d + x)
    ensures var first := Drain(codec, d);
            if first.failed then Drain(codec, d + x).messages == first.messages && Drain(codec, d + x).failed
            else Tame(codec, first.buffer + x) &&
                 var rest := Drain(codec, first.buffer + x);
                 Drain(codec, d + x) == rest.(messages := first.messages + rest.messages)
    decreases |d|
  {
    if d == [] {
      assert d + x == x == [] + x;
    } else {
      ParseInLonger(codec, d, x);
      match ParseMessage(codec, d)
      case Malformed =>
      case NotYet(rest) =>
      case Parsed(m, remaining) =>
        RemainingIsShorter(codec, d);
        DrainInLonger(codec, remaining, x);
        var first := Drain(codec, remaining);
        if !first.failed {
          Assoc([m], first.messages, Drain(codec, first.buffer + x).messages);
        }
    }
  }

  /** The same messages and the same failure, and the same rest if there was none. */
  ghost predicate SameDelivery<J>(fed: Delivery<J>, whole: Delivery<J>) {
    fed.messages == whole.messages && fed.failed == whole.failed && (!fed.failed ==> fed.buffer == whole.buffer)
  }

  /** However a stream of natural lengths and non-null bodies is cut into chunks, the loop delivers
      what it would deliver from the whole stream at once, and fails exactly when that would. */
  lemma {:induction false} ChunkIndependent<J(!new)>(codec: Codec<J>, buffer: Bytes, chunks: seq<Bytes>)
    requires Faithful(codec) && Tame(codec, buffer + Concat(chunks))
    requires Drain(codec, buffer) == Delivery([], buffer, false)
    requires forall k :: 0 <= k < |chunks| ==> chunks[k] != []
    ensures SameDelivery(Feed(codec, buffer, chunks), Drain(codec, buffer + Concat(chunks)))
    decreases |chunks|
  {
    if chunks == [] {
      assert buffer + Concat(chunks) == buffer;
    } else {
      var start, later := buffer + chunks[0], Concat(chunks[1..]);
      Assoc(buffer, chunks[0], later);
      DrainInLonger(codec, start, later);
      DrainedStaysDrained(codec, start, later);
      var d := Drain(codec, start);
      if !d.failed {
        ChunkIndependent(codec, d.buffer, chunks[1..]);
      }
      FirstChunk(codec, buffer, chunks);
    }
  }

  lemma FirstChunk<J(!new)>(codec: Codec<J>, buffer: Bytes, chunks: seq<Bytes>)
    requires Faithful(codec) && chunks != [] && chunks[0] != []
    requires var first, later := Drain(codec, buffer + chunks[0]), Concat(chunks[1..]);
             var whole := Drain(codec, buffer + chunks[0] + later);
             if first.failed then whole.messages == first.messages && whole.failed
             else SameDelivery(Feed(codec, first.buffer, chunks[1..]), Drain(codec, first.buffer + later)) &&
                  whole == Drain(codec, first.buffer + later).(messages :=
                    first.messages + Drain(codec, first.buffer + later).messages)
    ensures SameDelivery(Feed(codec, buffer, chunks), Drain(codec, buffer + chunks[0] + Concat(chunks[1..])))
  {
  }

  /** What is left in the buffer of a loop that did not fail contains no complete message. */
  lemma {:induction false} DrainedStaysDrained<J(!new)>(codec: Codec<J>, d: Bytes, x: Bytes)
    requires Faithful(codec) && Tame(codec, d + x)
    ensures !Drain(codec, d).failed ==>
              Drain(codec, Drain(codec, d).buffer) == Delivery([], Drain(codec, d).buffer, false)
    decreases |d|
  {
    if d != [] {
      ParseInLonger(codec, d, x);
      match ParseMessage(codec, d)
      case Malformed =>
      case NotYet(rest) =>
      case Parsed(m, remaining) =>
        RemainingIsShorter(codec, d);
        DrainedStaysDrained(codec, remaining, x);
    }
  }

  // ----- streams of printed messages

  function Stream<J>(codec: Codec<J>, messages: seq<J>): Bytes {
    if messages == [] then [] else ToBytes(codec, messages[0]) + Stream(codec, messages[1..])
  }

  lemma {:induction false} StreamDrains<J(!new)>(codec: Codec<J>, messages: seq<J>)
    requires Faithful(codec) && forall k :: 0 <= k < |messages| ==> !codec.isNull(messages[k])
    ensures Tame(codec, Stream(codec, messages))
    ensures Drain(codec, Stream(codec, messages)) == Delivery(messages, [], false)
  {
    if messages == [] {
      assert Find([], SEPARATOR) == None;
    } else {
      var rest := Stream(codec, messages[1..]);
      StreamDrains(codec, messages[1..]);
      TameAfterPrinted(codec, messages[0], rest);
      FirstOfStream(codec, messages[0], rest);
      assert messages == [messages[0]] + messages[1..];
    }
  }

  lemma FirstOfStream<J(!new)>(codec: Codec<J>, message: J, rest: Bytes)
    requires Faithful(codec) && !codec.isNull(message)
    ensures var d := Drain(codec, rest);
            Drain(codec, ToBytes(codec, message) + rest) == d.(messages := [message] + d.messages)
  {
    ParsePrintedMessage(codec, message, rest);
    assert ToBytes(codec, message)[0] == CONTENT_LENGTH[0];
  }

  lemma TameAfterPrinted<J(!new)>(codec: Codec<J>, message: J, rest: Bytes)
    requires Faithful(codec) && !codec.isNull(message) && Tame(codec, rest)
    ensures Tame(codec, ToBytes(codec, message) + rest)
  {
    var body := codec.encode(message);
    var head := CONTENT_LENGTH + Decimal(|body|) + SEPARATOR;
    var data := ToBytes(codec, message) + rest;
    assert data == head + (body + rest);
    PrintedHeader(codec, |body|, body + rest);
    assert data[|head|..|head| + |body|] == body;
    assert data[|head| + |body|..] == rest;
  }

  /** Any list of messages, printed one after another and cut into chunks anywhere, is delivered
      complete, in order, without an error, and leaves an empty buffer. */
  lemma DeliveredAsSent<J(!new)>(codec: Codec<J>, messages: seq<J>, chunks: seq<Bytes>)
    requires Faithful(codec) && forall k :: 0 <= k < |messages| ==> !codec.isNull(messages[k])
    requires forall k :: 0 <= k < |chunks| ==> chunks[k] != []
    requires Concat(chunks) == Stream(codec, messages)
    ensures Feed(codec, [], chunks) == Delivery(messages, [], false)
  {
    StreamDrains(codec, messages);
    assert [] + Concat(chunks) == Concat(chunks);
    ChunkIndependent(codec, [], chunks);
  }

  // ----- null bodies

  lemma {:induction false} StreamStopsAtNull<J(!new)>(codec: Codec<J>, messages: seq<J>, k: nat)
    requires Faithful(codec) && k < |messages| && codec.isNull(messages[k])
    ensures Drain(codec, Stream(codec, messages)).messages != messages
  {
    var message, rest := messages[0], Stream(codec, messages[1..]);
    if codec.isNull(message) {
      NullIsNotDelivered(codec, message, rest);
    } else {
      StreamStopsAtNull(codec, messages[1..], k - 1);
      FirstOfStream(codec, message, rest);
      ConsDiffers(message, Drain(codec, rest).messages, messages);
    }
  }

  lemma ConsDiffers<J>(m: J, a: seq<J>, b: seq<J>)
    requires b != [] && a != b[1..]
    ensures [m] + a != b
  {
    assert ([m] + a)[1..] == a;
  }

  /** A null body is taken for an incomplete message: the loop stops behind it. */
  lemma NullIsNotDelivered<J(!new)>(codec: Codec<J>, message: J, rest: Bytes)
    requires Faithful(codec) && codec.isNull(message)
    ensures Drain(codec, ToBytes(codec, message) + rest) == Delivery([], rest, false)
  {
    var body := codec.encode(message);
    var head := CONTENT_LENGTH + Decimal(|body|) + SEPARATOR;
    var data := ToBytes(codec, message) + rest;
    assert data == head + (body + rest);
    PrintedHeader(codec, |body|, body + rest);
    assert Body(data, |head|, |head| + |body|) == body;
    assert data[|head| + |body|..] == rest;
  }

  /** Printed messages arrive whatever the chunks exactly when none of them is null. */
  lemma DeliveredExactly<J(!new)>(codec: Codec<J>, messages: seq<J>)
    requires Faithful(codec)
    ensures (forall chunks :: Concat(chunks) == Stream(codec, messages) && [] !in chunks ==>
               Feed(codec, [], chunks) == Delivery(messages, [], false))
            <==> forall k :: 0 <= k < |messages| ==> !codec.isNull(messages[k])
  {
    if k :| 0 <= k < |messages| && codec.isNull(messages[k]) {
      StreamStopsAtNull(codec, messages, k);
      var stream := Stream(codec, messages);
      var chunks := [stream];
      assert chunks[1..] == [] && Concat(chunks) == stream + [] == stream;
      assert stream != [] && [] !in chunks;
      assert [] + stream == stream;
      var d := Drain(codec, stream);
      assert Feed(codec, [], chunks).messages == d.messages by {
        assert d.messages + [] == d.messages;
      }
    } else {
      forall chunks | Concat(chunks) == Stream(codec, messages) && [] !in chunks
        ensures Feed(codec, [], chunks) == Delivery(messages, [], false)
      {
        DeliveredAsSent(codec, messages, chunks);
      }
    }
  }

  // ----- the client's reader

  /** The first message found in the growing data; a parse error only means reading on. */
  function FirstResponse<J>(codec: Codec<J>, data: Bytes, chunks: seq<Bytes>): Option<J>
    decreases |chunks|
  {
    if chunks == [] || chunks[0] == [] then None
    else
      var more := data + chunks[0];
      match ParseMessage(codec, more)
      case Parsed(message, _) => Some(message)
      case _ => FirstResponse(codec, more, chunks[1..])
  }

  method ReadResponse<J>(codec: Codec<J>, chunks: seq<Bytes>) returns (response: Option<J>)
    ensures response == FirstResponse(codec, [], chunks)
  {
    var data: Bytes := [];
    var i := 0;
    while i < |chunks| && chunks[i] != []
      invariant i <= |chunks|
      invariant FirstResponse(codec, [], chunks) == FirstResponse(codec, data, chunks[i..])
    {
      assert chunks[i..][1..] == chunks[i + 1..];
      data := data + chunks[i];
      match ParseMessage(codec, data)
      case Parsed(message, _) => return Some(message);
      case _ =>
      i := i + 1;
    }
    response := None;
  }

  /** The client gets exactly the response that was printed, whatever the chunks. */
  lemma {:induction false} ResponseAsSent<J(!new)>(codec: Codec<J>, message: J, data: Bytes, chunks: seq<Bytes>)
    requires Faithful(codec) && !codec.isNull(message)
    requires forall k :: 0 <= k < |chunks| ==> chunks[k] != []
    requires data + Concat(chunks) == ToBytes(codec, message) && chunks != []
    ensures FirstResponse(codec, data, chunks) == Some(message)
    decreases |chunks|
  {
    var more, later := data + chunks[0], Concat(chunks[1..]);
    assert data + Concat(chunks) == more + later;
    assert more + later + [] == more + later;
    ParsePrintedMessage(codec, message, []);
    assert ToBytes(codec, message) + [] == ToBytes(codec, message);
    assert Tame(codec, []) by {
      assert Find([], SEPARATOR) == None;
    }
    TameAfterPrinted(codec, message, []);
    ParseInLonger(codec, more, later);
    assert later == [] ==> more + later == more;
    assert |chunks| == 1 ==> later == [];
    if ParseMessage(codec, more).NotYet? {
      ResponseAsSent(codec, message, more, chunks[1..]);
    }
  }
}
