/** Length-prefixed frames over streams. */
module Protocol {
  import opened Base
  import opened Streams

  const MAX_MESSAGE_SIZE: nat := 1024 * 1024 * 100

  /** A frame is the payload's length in eight little-endian bytes and the payload. */
  function Frame(payload: seq<byte>): seq<byte>
    requires |payload| < U64_LIMIT
  {
    Le64(|payload|) + payload
  }

  /** Writes one frame; a payload at the limit is refused before anything is sent. */
  method WriteLp(writer: SendStream, payload: seq<byte>) returns (r: Outcome<()>)
    requires writer.Valid()
    modifies writer
    ensures writer.Valid() && writer.finished == old(writer.finished)
    ensures |payload| >= MAX_MESSAGE_SIZE ==> r == Err(MessageTooLarge) && writer.sent == old(writer.sent)
    ensures |payload| < MAX_MESSAGE_SIZE ==>
              && writer.sent == Cut(writer.quota, old(writer.sent) + Frame(payload))
              && r == if Fits(writer.quota, old(writer.sent) + Frame(payload)) then Ok(()) else Err(IoFailed)
  {
    if |payload| >= MAX_MESSAGE_SIZE {
      return Err(MessageTooLarge);
    }
    CutMore(writer.quota, writer.sent + Le64(|payload|), payload);
    assert writer.sent + Frame(payload) == writer.sent + Le64(|payload|) + payload;
    var ok := writer.WriteAll(Le64(|payload|));
    if !ok {
      return Err(IoFailed);
    }
    ok := writer.WriteAll(payload);
    return if ok then Ok(()) else Err(IoFailed);
  }

  /** The reading loop of both frame readers: up to `size` bytes are appended to the buffer. */
  method Fill(reader: RecvStream, buffer: BytesMut, size: nat) returns (r: Outcome<()>)
    modifies reader, buffer
    ensures buffer.data == old(buffer.data) + Available(size, old(reader.Pending()))
    ensures reader.Pending() == Behind(size, old(reader.Pending()))
    ensures r == if |old(reader.rest)| < size && reader.ending.Lost? then Err(IoFailed) else Ok(())
  {
    var read := 0;
    ghost var got: seq<byte> := [];
    while read != size
      invariant |got| == read <= size
      invariant old(reader.rest) == got + reader.rest && buffer.data == old(buffer.data) + got
      decreases size - read
    {
      var chunk := reader.Read(size - read);
      if !chunk.Ok? {
        assert got == old(reader.rest);
        return Err(IoFailed);
      }
      buffer.data := buffer.data + chunk.value;
      read := read + |chunk.value|;
      got := got + chunk.value;
      if chunk.value == [] {
        break;
      }
    }
    assert got == Available(size, old(reader.Pending()));
    return Ok(());
  }

  // ---- reading and decoding in place ----

  /** How a frame reader ends: its result, its buffer, and what the stream still holds. */
  datatype LpRead<T> = LpRead(result: Outcome<T>, buffer: seq<byte>, rest: Input)

  /** `read_lp`: None if the stream ends within the length; the payload is decoded from the front of
      the buffer, which panics if the buffer holds fewer bytes than the frame announced. */
  function LpDecoded<T>(buffer: seq<byte>, s: Input, decode: seq<byte> -> Option<T>): LpRead<Option<(T, nat)>> {
    match Exactly(8, s)
    case Ok(prefix) =>
      var size := U64OfLe(prefix);
      var body := Behind(8, s);
      var filled := buffer + Available(size, body);
      var result :=
        if |body.bytes| < size && s.ending.Lost? then Err(IoFailed)
        else if |filled| < size then Panic
        else match decode(filled[..size])
             case Some(message) => Ok(Some((message, size)))
             case None => Err(Malformed);
      LpRead(result, filled, Behind(size, body))
    case _ => LpRead(if s.ending.Lost? then Err(IoFailed) else Ok(None), buffer, Input([], s.ending))
  }

  method ReadLp<T>(reader: RecvStream, buffer: BytesMut, decode: seq<byte> -> Option<T>)
    returns (r: Outcome<Option<(T, nat)>>)
    modifies reader, buffer
    ensures LpRead(r, buffer.data, reader.Pending()) == LpDecoded(old(buffer.data), old(reader.Pending()), decode)
  {
    var prefix := reader.ReadExact(8);
    if !prefix.Ok? {
      return if prefix == Err(UnexpectedEof) then Ok(None) else Err(IoFailed);
    }
    var size := U64OfLe(prefix.value);
    var filled := Fill(reader, buffer, size);
    if !filled.Ok? {
      return Err(IoFailed);
    }
    if |buffer.data| < size {
      return Panic;
    }
    match decode(buffer.data[..size])
    case Some(message) => return Ok(Some((message, size)));
    case None => return Err(Malformed);
  }

  // ---- reading and splitting off ----

  /** `read_lp_data`: the payload is split off the front of the buffer; a stream that ends within the
      length is an error here. */
  function LpSplit(buffer: seq<byte>, s: Input): LpRead<seq<byte>> {
    match Exactly(8, s)
    case Ok(prefix) =>
      var size := U64OfLe(prefix);
      var body := Behind(8, s);
      var filled := buffer + Available(size, body);
      if |body.bytes| < size && s.ending.Lost? then LpRead(Err(IoFailed), filled, Behind(size, body))
      else if |filled| < size then LpRead(Panic, filled, Behind(size, body))
      else LpRead(Ok(filled[..size]), filled[size..], Behind(size, body))
    case failed => LpRead(failed, buffer, Input([], s.ending))
  }

  method ReadSizeData(size: nat, reader: RecvStream, buffer: BytesMut) returns (r: Outcome<seq<byte>>)
    modifies reader, buffer
    ensures reader.Pending() == Behind(size, old(reader.Pending()))
    ensures var filled := old(buffer.data) + Available(size, old(reader.Pending()));
            if |old(reader.rest)| < size && reader.ending.Lost? then r == Err(IoFailed) && buffer.data == filled
            else if |filled| < size then r == Panic && buffer.data == filled
            else r == Ok(filled[..size]) && buffer.data == filled[size..]
  {
    var filled := Fill(reader, buffer, size);
    if !filled.Ok? {
      return Err(IoFailed);
    }
    if |buffer.data| < size {
      return Panic;
    }
    r := Ok(buffer.data[..size]);
    buffer.data := buffer.data[size..];
  }

  method ReadLpData(reader: RecvStream, buffer: BytesMut) returns (r: Outcome<seq<byte>>)
    modifies reader, buffer
    ensures LpRead(r, buffer.data, reader.Pending()) == LpSplit(old(buffer.data), old(reader.Pending()))
  {
    var prefix := reader.ReadExact(8);
    if !prefix.Ok? {
      return prefix;
    }
    r := ReadSizeData(U64OfLe(prefix.value), reader, buffer);
  }

  // ---- what the readers make of frames ----

  lemma FrontOfFrame(payload: seq<byte>, rest: seq<byte>, ending: Ending)
    requires |payload| < U64_LIMIT
    ensures var s := Input(Frame(payload) + rest, ending);
            && Exactly(8, s) == Ok(Le64(|payload|)) && U64OfLe(Le64(|payload|)) == |payload|
            && Behind(8, s) == Input(payload + rest, ending)
            && Available(|payload|, Behind(8, s)) == payload
            && Behind(|payload|, Behind(8, s)) == Input(rest, ending)
  {
    var s := Frame(payload) + rest;
    Le64RoundTrip(|payload|, Le64(|payload|));
    assert s[..8] == Le64(|payload|) && s[8..] == payload + rest;
    assert (payload + rest)[..|payload|] == payload && (payload + rest)[|payload|..] == rest;
  }

  /** A whole frame: the payload comes back, the stream is left right behind the frame, and the buffer
      holds the payload or, when it was split off, nothing. */
  lemma ReadWholeFrame<T>(payload: seq<byte>, rest: seq<byte>, ending: Ending, decode: seq<byte> -> Option<T>)
    requires |payload| < U64_LIMIT
    ensures var s := Input(Frame(payload) + rest, ending);
            && LpSplit([], s) == LpRead(Ok(payload), [], Input(rest, ending))
            && LpDecoded([], s, decode)
               == LpRead(match decode(payload)
                         case Some(message) => Ok(Some((message, |payload|)))
                         case None => Err(Malformed), payload, Input(rest, ending))
  {
    FrontOfFrame(payload, rest, ending);
    assert [] + payload == payload && payload[..|payload|] == payload;
  }

  /** Reads that succeed from an empty buffer consumed exactly one frame with the returned payload. */
  lemma SuccessIsWholeFrame(s: Input)
    requires LpSplit([], s).result.Ok?
    ensures var r := LpSplit([], s);
            && |r.result.value| < U64_LIMIT && s.bytes == Frame(r.result.value) + r.rest.bytes
            && r.rest.ending == s.ending && r.buffer == []
  {
    hide LpSplit, LeValue, LeBytes, Pow256;
    SplitWhole(s);
    var prefix, body := s.bytes[..8], s.bytes[8..];
    var size := U64OfLe(prefix);
    Le64RoundTrip(0, prefix);
    assert s.bytes == prefix + body && body == body[..size] + body[size..];
  }

  lemma SplitWhole(s: Input)
    requires LpSplit([], s).result.Ok?
    ensures |s.bytes| >= 8 && |s.bytes| - 8 >= U64OfLe(s.bytes[..8])
    ensures var size := U64OfLe(s.bytes[..8]);
            LpSplit([], s) == LpRead(Ok(s.bytes[8..][..size]), [], Input(s.bytes[8..][size..], s.ending))
  {
    hide LeValue, Pow256;
    var size := U64OfLe(s.bytes[..8]);
    var body := s.bytes[8..];
    assert Behind(8, s) == Input(body, s.ending);
    assert [] + body[..size] == body[..size] && body[..size][..size] == body[..size];
  }

  /** A frame reader that starts with an empty buffer panics exactly when the stream ends cleanly
      behind a complete length and before the end of the announced payload. */
  predicate EndsInsideBody(s: Input) {
    s.ending.Finished? && |s.bytes| >= 8 && |s.bytes| - 8 < U64OfLe(s.bytes[..8])
  }

  lemma PanicExactly<T>(s: Input, decode: seq<byte> -> Option<T>)
    ensures LpDecoded([], s, decode).result == Panic <==> EndsInsideBody(s)
    ensures LpSplit([], s).result == Panic <==> EndsInsideBody(s)
  {
  }

  /** That is, exactly when all that came is a length and then fewer bytes than it says. */
  lemma PanicsOnShortBody<T>(s: Input, decode: seq<byte> -> Option<T>)
    ensures LpDecoded([], s, decode).result == Panic
            <==> s.ending.Finished? && exists n, body :: IsShortBody(s.bytes, n, body)
    ensures LpSplit([], s).result == Panic
            <==> s.ending.Finished? && exists n, body :: IsShortBody(s.bytes, n, body)
  {
    hide LpDecoded, LpSplit, LeValue, LeBytes;
    PanicExactly(s, decode);
    if EndsInsideBody(s) {
      Le64RoundTrip(0, s.bytes[..8]);
      assert s.bytes == s.bytes[..8] + s.bytes[8..];
      assert IsShortBody(s.bytes, U64OfLe(s.bytes[..8]), s.bytes[8..]);
    }
    if n, body :| IsShortBody(s.bytes, n, body) {
      Le64RoundTrip(n, Le64(n));
      assert s.bytes[..8] == Le64(n);
    }
  }

  predicate IsShortBody(s: seq<byte>, n: u64, body: seq<byte>) {
    s == Le64(n) + body && |body| < n
  }

  /** With bytes left in the buffer a truncated frame need not panic: the stale bytes stand in for the
      missing ones.  The reader panics exactly when even both together are too few. */
  lemma StaleBytesStandIn(buffer: seq<byte>, s: Input)
    requires s.ending.Finished? && |s.bytes| >= 8
    ensures LpSplit(buffer, s).result == Panic <==> |buffer| + |s.bytes| - 8 < U64OfLe(s.bytes[..8])
  {
  }

  // ---- sequences of frames ----

  function Frames(payloads: seq<seq<byte>>): seq<byte>
    requires forall p | p in payloads :: |p| < U64_LIMIT
  {
    if payloads == [] then [] else Frame(payloads[0]) + Frames(payloads[1..])
  }

  /** Reading `n` frames one after the other with one reused buffer. */
  function ReadFrames(n: nat, buffer: seq<byte>, s: Input): LpRead<seq<seq<byte>>> {
    if n == 0 then LpRead(Ok([]), buffer, s)
    else
      var first := LpSplit(buffer, s);
      if !first.result.Ok? then LpRead(first.result.PropagateFailure(), first.buffer, first.rest)
      else
        var others := ReadFrames(n - 1, first.buffer, first.rest);
        if others.result.Ok? then others.(result := Ok([first.result.value] + others.result.value)) else others
  }

  lemma {:induction false} ReadBackFrames(payloads: seq<seq<byte>>, rest: seq<byte>, ending: Ending)
    requires forall p | p in payloads :: |p| < U64_LIMIT
    ensures ReadFrames(|payloads|, [], Input(Frames(payloads) + rest, ending))
         == LpRead(Ok(payloads), [], Input(rest, ending))
  {
    hide LpSplit, LpDecoded;
    if payloads == [] {
      assert Frames(payloads) + rest == rest;
    } else {
      var more := Frames(payloads[1..]) + rest;
      assert Frames(payloads) + rest == Frame(payloads[0]) + more;
      ReadWholeFrame<()>(payloads[0], more, ending, _ => None);
      ReadBackFrames(payloads[1..], rest, ending);
      ReadOneMore(payloads, Input(Frames(payloads) + rest, ending), Input(more, ending), Input(rest, ending));
    }
  }

  lemma ReadOneMore(payloads: seq<seq<byte>>, s: Input, more: Input, rest: Input)
    requires payloads != [] && LpSplit([], s) == LpRead(Ok(payloads[0]), [], more)
    requires ReadFrames(|payloads| - 1, [], more) == LpRead(Ok(payloads[1..]), [], rest)
    ensures ReadFrames(|payloads|, [], s) == LpRead(Ok(payloads), [], rest)
  {
    hide LpSplit;
    assert [payloads[0]] + payloads[1..] == payloads;
  }
}
