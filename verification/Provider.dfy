/** The providing side of one stream: reading the request, and writing the collection and its blobs. */
module Provider {
  import opened Base
  import opened Streams
  import opened Protocol
  import opened Messages
  import opened Blobs
  import opened Bao
  import opened Database

  datatype Event =
    | ClientConnected(connection: u64)
    | RequestReceived(connection: u64, request: u64, hash: Hash)
    | TransferCompleted(connection: u64, request: u64)
    | TransferAborted(connection: u64, aborted: Option<u64>)

  class EventLog {
    var events: seq<Event>

    constructor ()
      ensures events == []
    {
      events := [];
    }

    method Send(event: Event)
      modifies this
      ensures events == old(events) + [event]
    {
      events := events + [event];
    }
  }

  // ---- reading the request ----

  /** The handshake must have this version and the provider's token; its bytes leave the buffer. */
  function HandshakeRead(token: Hash, buffer: seq<byte>, s: Input): LpRead<()> {
    var r := LpDecoded(buffer, s, DecodeHandshake);
    match r.result
    case Ok(Some((handshake, size))) =>
      if handshake.version != VERSION then LpRead(Err(WrongVersion), r.buffer, r.rest)
      else if handshake.token != token then LpRead(Err(WrongToken), r.buffer, r.rest)
      else LpRead(Ok(()), r.buffer[size..], r.rest)
    case Ok(None) => LpRead(Err(NoMessage), r.buffer, r.rest)
    case Err(e) => LpRead(Err(e), r.buffer, r.rest)
    case Panic => LpRead(Panic, r.buffer, r.rest)
  }

  method ReadHandshake(reader: RecvStream, buffer: BytesMut, token: Hash) returns (r: Outcome<()>)
    modifies reader, buffer
    ensures LpRead(r, buffer.data, reader.Pending()) == HandshakeRead(token, old(buffer.data), old(reader.Pending()))
  {
    var message := ReadLp(reader, buffer, DecodeHandshake);
    if !message.Ok? {
      return message.PropagateFailure();
    }
    if message.value.None? {
      return Err(NoMessage);
    }
    var (handshake, size) := message.value.value;
    if handshake.version != VERSION {
      return Err(WrongVersion);
    }
    if handshake.token != token {
      return Err(WrongToken);
    }
    buffer.data := buffer.data[size..];
    return Ok(());
  }

  /** The request must be the last thing on the stream; its bytes stay in the buffer. */
  function RequestRead(buffer: seq<byte>, s: Input): LpRead<Request> {
    var r := LpDecoded(buffer, s, DecodeRequest);
    var result :=
      if !r.result.Ok? then r.result.PropagateFailure()
      else if r.rest.bytes != [] then Err(ExtraData)
      else if s.ending.Lost? then Err(IoFailed)
      else match r.result.value
           case Some((request, _)) => Ok(request)
           case None => Err(NoMessage);
    LpRead(result, r.buffer, r.rest)
  }

  method ReadRequest(reader: RecvStream, buffer: BytesMut) returns (r: Outcome<Request>)
    modifies reader, buffer
    ensures r == RequestRead(old(buffer.data), old(reader.Pending())).result
    ensures buffer.data == RequestRead(old(buffer.data), old(reader.Pending())).buffer
  {
    var request := ReadLp(reader, buffer, DecodeRequest);
    if !request.Ok? {
      return request.PropagateFailure();
    }
    var chunk := reader.ReadChunk(8);
    if !chunk.Ok? {
      return Err(IoFailed);
    }
    if chunk.value.Some? {
      return Err(ExtraData);
    }
    match request.value
    case Some((message, _)) => return Ok(message);
    case None => return Err(NoMessage);
  }

  /** What a provider makes of everything a client sends on a stream. */
  function Reading(token: Hash, s: Input): Outcome<Request> {
    var handshake := HandshakeRead(token, [], s);
    if !handshake.result.Ok? then handshake.result.PropagateFailure()
    else RequestRead(handshake.buffer, handshake.rest).result
  }

  predicate IsExchange(token: Hash, s: seq<byte>, first: seq<byte>, second: seq<byte>, request: Request) {
    && |first| < U64_LIMIT && |second| < U64_LIMIT && s == Frame(first) + Frame(second)
    && DecodeHandshake(first) == Some(Handshake(VERSION, token)) && DecodeRequest(second) == Some(request)
  }

  /** The provider goes on to look up a hash if and only if the whole input is two frames, cleanly
      ended, that decode to a handshake of this version with its token and to that request. */
  lemma Acceptance(token: Hash, s: Input, request: Request)
    ensures Reading(token, s) == Ok(request)
            <==> s.ending.Finished? && exists first, second :: IsExchange(token, s.bytes, first, second, request)
  {
    hide HandshakeRead, RequestRead, DecodeHandshake, DecodeRequest, LeBytes;
    if Reading(token, s) == Ok(request) {
      var first, middle := AcceptedHandshake(token, s);
      var second := AcceptedRequest(middle, request);
      assert IsExchange(token, s.bytes, first, second, request);
    }
    if s.ending.Finished? && exists first, second :: IsExchange(token, s.bytes, first, second, request) {
      var first, second :| IsExchange(token, s.bytes, first, second, request);
      HandshakeIsRead(token, first, Frame(second), s.ending);
      RequestIsRead(second, request);
    }
  }

  lemma HandshakeIsRead(token: Hash, first: seq<byte>, rest: seq<byte>, ending: Ending)
    requires |first| < U64_LIMIT && DecodeHandshake(first) == Some(Handshake(VERSION, token))
    ensures HandshakeRead(token, [], Input(Frame(first) + rest, ending)) == LpRead(Ok(()), [], Input(rest, ending))
  {
    hide LpDecoded;
    ReadWholeFrame(first, rest, ending, DecodeHandshake);
    assert first[|first|..] == [];
  }

  lemma RequestIsRead(second: seq<byte>, request: Request)
    requires |second| < U64_LIMIT && DecodeRequest(second) == Some(request)
    ensures RequestRead([], Input(Frame(second), Finished)) == LpRead(Ok(request), second, Input([], Finished))
  {
    hide LpDecoded;
    assert Frame(second) + [] == Frame(second);
    ReadWholeFrame(second, [], Finished, DecodeRequest);
  }

  lemma AcceptedHandshake(token: Hash, s: Input) returns (first: seq<byte>, middle: Input)
    requires HandshakeRead(token, [], s).result.Ok?
    ensures middle == HandshakeRead(token, [], s).rest && middle.ending == s.ending
    ensures HandshakeRead(token, [], s).buffer == []
    ensures |first| < U64_LIMIT && s.bytes == Frame(first) + middle.bytes
    ensures DecodeHandshake(first) == Some(Handshake(VERSION, token))
  {
    DecodedIsSplit(s, DecodeHandshake);
    SuccessIsWholeFrame(s);
    first, middle := LpSplit([], s).result.value, LpSplit([], s).rest;
  }

  lemma AcceptedRequest(s: Input, request: Request) returns (second: seq<byte>)
    requires RequestRead([], s).result == Ok(request)
    ensures s.ending.Finished? && |second| < U64_LIMIT && s.bytes == Frame(second)
    ensures DecodeRequest(second) == Some(request)
  {
    DecodedIsSplit(s, DecodeRequest);
    SuccessIsWholeFrame(s);
    second := LpSplit([], s).result.value;
    assert Frame(second) + [] == Frame(second);
  }

  /** Both frame readers take the same payload off a stream when they start with an empty buffer. */
  lemma DecodedIsSplit<T>(s: Input, decode: seq<byte> -> Option<T>)
    requires LpDecoded([], s, decode).result.Ok? && LpDecoded([], s, decode).result.value.Some?
    ensures var d := LpDecoded([], s, decode);
            var r := LpSplit([], s);
            && r.result.Ok? && r.rest == d.rest && decode(r.result.value) == Some(d.result.value.value.0)
            && d.result.value.value.1 == |r.result.value| && d.buffer == r.result.value
  {
    hide LeValue, Pow256;
    var size := U64OfLe(s.bytes[..8]);
    var body := Behind(8, s);
    assert [] + Available(size, body) == Available(size, body);
    assert |Available(size, body)| == size;
    assert Available(size, body)[..size] == Available(size, body);
  }

  /** A whole first frame decides why a request is refused: it does not decode, its version is another one,
      whatever the token, or its token is. */
  lemma HandshakeDecided(token: Hash, first: seq<byte>, rest: seq<byte>, ending: Ending)
    requires |first| < U64_LIMIT
    ensures var r := Reading(token, Input(Frame(first) + rest, ending));
            match DecodeHandshake(first)
            case None => r == Err(Malformed)
            case Some(handshake) =>
              if handshake.version != 1 then r == Err(WrongVersion)
              else if handshake.token != token then r == Err(WrongToken)
              else r == Reading(token, Input(Frame(EncodeHandshake(Handshake(1, token))) + rest, ending))
  {
    hide DecodeHandshake, EncodeHandshake, LpDecoded, RequestRead;
    ReadWholeFrame(first, rest, ending, DecodeHandshake);
    var m := Handshake(1, token);
    DeclaredSizes(m, Request(1, token));
    HandshakeRoundTrip(m, []);
    assert EncodeHandshake(m) + [] == EncodeHandshake(m);
    ReadWholeFrame(EncodeHandshake(m), rest, ending, DecodeHandshake);
    assert first[|first|..] == [] && EncodeHandshake(m)[|EncodeHandshake(m)|..] == [];
  }

  /** Behind an accepted handshake a whole second frame does, with what follows it. */
  lemma RequestDecided(token: Hash, first: seq<byte>, second: seq<byte>, rest: seq<byte>, ending: Ending)
    requires |first| < U64_LIMIT && |second| < U64_LIMIT && DecodeHandshake(first) == Some(Handshake(1, token))
    ensures var r := Reading(token, Input(Frame(first) + (Frame(second) + rest), ending));
            match DecodeRequest(second)
            case None => r == Err(Malformed)
            case Some(request) =>
              r == if rest != [] then Err(ExtraData) else if ending.Lost? then Err(IoFailed) else Ok(request)
  {
    hide DecodeHandshake, DecodeRequest, LpDecoded, HandshakeRead;
    HandshakeIsRead(token, first, Frame(second) + rest, ending);
    ReadWholeFrame(second, rest, ending, DecodeRequest);
  }

  /** Where not even a length arrives there is no message, or the connection was lost. */
  lemma NoFrame(token: Hash, first: seq<byte>, s: seq<byte>, ending: Ending)
    requires |s| < 8
    ensures var e := if ending.Lost? then IoFailed else NoMessage;
            && Reading(token, Input(s, ending)) == Err(e)
            && (|first| < U64_LIMIT && DecodeHandshake(first) == Some(Handshake(1, token)) ==>
                  Reading(token, Input(Frame(first) + s, ending)) == Err(e))
  {
    hide DecodeHandshake, DecodeRequest;
    if |first| < U64_LIMIT && DecodeHandshake(first) == Some(Handshake(1, token)) {
      HandshakeIsRead(token, first, s, ending);
    }
  }

  /** An accepted handshake's frame, and behind it one that is cut off. */
  predicate SecondCutOff(token: Hash, s: Input, first: seq<byte>, tail: seq<byte>) {
    && |first| < U64_LIMIT && s.bytes == Frame(first) + tail
    && DecodeHandshake(first) == Some(Handshake(VERSION, token)) && EndsInsideBody(Input(tail, s.ending))
  }

  /** The reading side panics exactly when the first frame is cut off behind its length, or the second is
      behind a first one that is accepted. */
  lemma ReadingPanics(token: Hash, s: Input)
    ensures Reading(token, s) == Panic
            <==> EndsInsideBody(s) || exists first, tail :: SecondCutOff(token, s, first, tail)
  {
    hide LpDecoded, LeBytes, LeValue, DecodeHandshake, DecodeRequest, EndsInsideBody;
    PanicExactly(s, DecodeHandshake);
    if HandshakeRead(token, [], s).result.Ok? {
      var first, middle := AcceptedHandshake(token, s);
      PanicExactly(middle, DecodeRequest);
      assert EndsInsideBody(middle) ==> SecondCutOff(token, s, first, middle.bytes);
    }
    if first, tail :| SecondCutOff(token, s, first, tail) {
      HandshakeIsRead(token, first, tail, s.ending);
      PanicExactly(Input(tail, s.ending), DecodeRequest);
    }
  }

  // ---- what is written ----

  datatype SentStatus = Sent | NotFound

  /** One use of the writer.  `WriteOnce` is a single write, which may take only part of its bytes;
      `Fail` is a local error while content is prepared. */
  datatype Op = WriteAll(bytes: seq<byte>) | WriteOnce(bytes: seq<byte>) | Finish | Fail

  datatype Plan = Plan(ops: seq<Op>, status: SentStatus)

  datatype Sender = Sender(sent: seq<byte>, finished: bool, ok: bool)

  function ExecuteOne(op: Op, w: Sender, quota: Option<nat>, burst: nat): Sender {
    var full := quota.Some? && |w.sent| >= quota.value;
    match op
    case WriteAll(b) => w.(sent := Cut(quota, w.sent + b), ok := Fits(quota, w.sent + b))
    case WriteOnce(b) =>
      if b != [] && full then w.(ok := false) else w.(sent := Cut(quota, w.sent + Accepted(burst, b)))
    case Finish => if full then w.(ok := false) else w.(finished := true)
    case Fail => w.(ok := false)
  }

  /** Runs the operations in order until one fails. */
  function Execute(ops: seq<Op>, w: Sender, quota: Option<nat>, burst: nat): Sender {
    if ops == [] || !w.ok then w else Execute(ops[1..], ExecuteOne(ops[0], w, quota, burst), quota, burst)
  }

  lemma {:induction false} ExecuteAppend(a: seq<Op>, b: seq<Op>, w: Sender, quota: Option<nat>, burst: nat)
    ensures Execute(a + b, w, quota, burst) == Execute(b, Execute(a, w, quota, burst), quota, burst)
  {
    if a == [] {
      assert a + b == b;
    } else if w.ok {
      assert (a + b)[1..] == a[1..] + b;
      ExecuteAppend(a[1..], b, ExecuteOne(a[0], w, quota, burst), quota, burst);
    }
  }

  lemma ExecuteSingle(op: Op, w: Sender, quota: Option<nat>, burst: nat)
    requires w.ok
    ensures Execute([op], w, quota, burst) == ExecuteOne(op, w, quota, burst)
  {
    assert [op][1..] == [];
  }

  /** A response with its length prefix. */
  function ResponseFrame(id: u64, res: Res): (s: seq<byte>)
    ensures 10 <= |s| <= 29
  {
    ResponseFits(Response(id, res));
    Frame(EncodeResponse(Response(id, res)))
  }

  /** The frames byte by byte, for an id of one byte such as a client's 1. */
  lemma FrameBytes(id: byte, total: u64)
    requires id < 128
    ensures ResponseFrame(id, Res.NotFound) == [2, 0, 0, 0, 0, 0, 0, 0, id, 0]
    ensures ResponseFrame(id, Found) == [2, 0, 0, 0, 0, 0, 0, 0, id, 1]
    ensures total < 128 ==> ResponseFrame(id, FoundCollection(total)) == [3, 0, 0, 0, 0, 0, 0, 0, id, 2, total]
    ensures |ResponseFrame(id, FoundCollection(total))| == 10 + |Postcard.Varint(total)|
    ensures ResponseFrame(id, FoundCollection(total))
         == [2 + |Postcard.Varint(total)|, 0, 0, 0, 0, 0, 0, 0, id, 2] + Postcard.Varint(total)
  {
    hide EncodeResponse, LeBytes, Postcard.Varint;
    EncodedResponses(id, total);
    Postcard.SmallVarint(id);
    Postcard.VarintLength(total);
    if total < 128 {
      Postcard.SmallVarint(total);
    }
    SmallLe64(2);
    SmallLe64(2 + |Postcard.Varint(total)|);
  }

  /** The encoded slice of a file; what a file that has become shorter still yields is written before the
      failure, and nothing of one that is gone. */
  function ContentOps(files: Files, path: Path, outboard: seq<byte>, size: nat): seq<Op> {
    if path !in files.content then [Fail]
    else
      var slice := Extract(outboard, files.content[path], size);
      if slice.complete then [WriteAll(slice.bytes)] else [WriteAll(slice.bytes), Fail]
  }

  function BlobPlan(db: Db, files: Files, id: u64, name: Hash): Plan {
    if name in db && db[name].BlobEntry? then
      var BlobEntry(outboard, path, size) := db[name];
      Plan([WriteAll(ResponseFrame(id, Found))] + ContentOps(files, path, outboard, size), Sent)
    else Plan([WriteAll(ResponseFrame(id, Res.NotFound))], SentStatus.NotFound)
  }

  /** After a missing blob a second not-found response follows and the rest is not sent. */
  function BlobsPlan(db: Db, files: Files, id: u64, blobs: seq<Blob>): Plan {
    if blobs == [] then Plan([Finish], Sent)
    else
      var first := BlobPlan(db, files, id, blobs[0].hash);
      if first.status.NotFound? then
        Plan(first.ops + [WriteAll(ResponseFrame(id, Res.NotFound)), Finish], SentStatus.NotFound)
      else
        var others := BlobsPlan(db, files, id, blobs[1..]);
        Plan(first.ops + others.ops, others.status)
  }

  function CollectionOps(id: u64, total: u64, encoded: seq<byte>): seq<Op> {
    [WriteAll(ResponseFrame(id, FoundCollection(total))), WriteOnce(encoded)]
  }

  function TransferPlan(db: Db, files: Files, id: u64, outboard: seq<byte>, data: seq<byte>): Plan {
    var slice := Extract(outboard, data, |data|);
    var c := DecodeCollection(data);
    if !slice.complete || c.None? then Plan([Fail], Sent)
    else
      var blobs := BlobsPlan(db, files, id, c.value.blobs);
      Plan(CollectionOps(id, c.value.totalBlobsSize, slice.bytes) + blobs.ops, blobs.status)
  }

  /** What answers a request whose hash does not name a collection. */
  function MissPlan(id: u64): Plan {
    Plan([WriteAll(ResponseFrame(id, Res.NotFound)), Finish], SentStatus.NotFound)
  }

  function ReplyPlan(db: Db, files: Files, request: Request): Plan {
    if request.name in db && db[request.name].CollectionEntry? then
      TransferPlan(db, files, request.id, db[request.name].outboard, db[request.name].data)
    else MissPlan(request.id)
  }

  // ---- writing ----

  ghost function Writing(writer: SendStream, ok: bool): Sender
    reads writer
  {
    Sender(writer.sent, writer.finished, ok)
  }

  /** Serialises a response into the reused buffer and sends the used part of it as one frame. */
  method WriteResponse(writer: SendStream, buffer: BytesMut, id: u64, res: Res) returns (r: Outcome<()>)
    requires writer.Valid()
    modifies writer, buffer
    ensures writer.Valid() && r != Panic
    ensures Writing(writer, r.Ok?)
         == ExecuteOne(WriteAll(ResponseFrame(id, res)), old(Writing(writer, true)), writer.quota, writer.burst)
    ensures |buffer.data| == if |old(buffer.data)| < 1024 then 1024 else |old(buffer.data)|
  {
    var response := Response(id, res);
    ResponseFits(response);
    if |buffer.data| < 1024 {
      buffer.data := buffer.data + seq(1024 - |buffer.data|, _ => 0);
    }
    var used := Postcard.ToSlice(EncodeResponse(response), |buffer.data|);
    buffer.data := used.value + buffer.data[|used.value|..];
    r := WriteLp(writer, buffer.data[..|used.value|]);
  }

  /** Copies the slice of a file into the writer as far as it can be extracted. */
  method SendContent(files: Files, path: Path, outboard: seq<byte>, size: nat, writer: SendStream) returns (ok: bool)
    requires writer.Valid()
    modifies writer
    ensures writer.Valid()
    ensures Writing(writer, ok)
         == Execute(ContentOps(files, path, outboard, size), old(Writing(writer, true)), writer.quota, writer.burst)
  {
    hide Extract;
    ghost var w := Writing(writer, true);
    if path !in files.content {
      ExecuteSingle(Fail, w, writer.quota, writer.burst);
      return false;
    }
    var slice := Extract(outboard, files.content[path], size);
    ExecuteSingle(WriteAll(slice.bytes), w, writer.quota, writer.burst);
    assert [WriteAll(slice.bytes)] + [Fail] == [WriteAll(slice.bytes), Fail];
    ExecuteAppend([WriteAll(slice.bytes)], [Fail], w, writer.quota, writer.burst);
    ok := writer.WriteAll(slice.bytes);
    if ok {
      ExecuteSingle(Fail, Writing(writer, true), writer.quota, writer.burst);
      ok := slice.complete;
    }
  }

  method SendBlob(db: Db, files: Files, name: Hash, writer: SendStream, buffer: BytesMut, id: u64)
    returns (r: Outcome<SentStatus>)
    requires writer.Valid()
    modifies writer, buffer
    ensures writer.Valid() && r != Panic
    ensures Writing(writer, r.Ok?)
         == Execute(BlobPlan(db, files, id, name).ops, old(Writing(writer, true)), writer.quota, writer.burst)
    ensures r.Ok? ==> r.value == BlobPlan(db, files, id, name).status
  {
    hide ResponseFrame, ContentOps;
    ghost var w := Writing(writer, true);
    if name in db && db[name].BlobEntry? {
      var BlobEntry(outboard, path, size) := db[name];
      var response := WriteResponse(writer, buffer, id, Found);
      ExecuteAppend([WriteAll(ResponseFrame(id, Found))], ContentOps(files, path, outboard, size), w,
                    writer.quota, writer.burst);
      ExecuteSingle(WriteAll(ResponseFrame(id, Found)), w, writer.quota, writer.burst);
      if !response.Ok? {
        return response.PropagateFailure();
      }
      var ok := SendContent(files, path, outboard, size, writer);
      return if ok then Ok(Sent) else Err(IoFailed);
    } else {
      var response := WriteResponse(writer, buffer, id, Res.NotFound);
      ExecuteSingle(WriteAll(ResponseFrame(id, Res.NotFound)), w, writer.quota, writer.burst);
      return if response.Ok? then Ok(SentStatus.NotFound) else response.PropagateFailure();
    }
  }

  /** One blob after the other, then the end of the stream; stops with a second not-found response at the
      first blob that is missing. */
  method SendBlobs(db: Db, files: Files, writer: SendStream, buffer: BytesMut, id: u64, blobs: seq<Blob>)
    returns (r: Outcome<SentStatus>)
    requires writer.Valid()
    modifies writer, buffer
    ensures writer.Valid() && r != Panic
    ensures Writing(writer, r.Ok?)
         == Execute(BlobsPlan(db, files, id, blobs).ops, old(Writing(writer, true)), writer.quota, writer.burst)
    ensures r.Ok? ==> r.value == BlobsPlan(db, files, id, blobs).status
  {
    hide ResponseFrame, Execute, BlobPlan, ExecuteOne;
    ghost var plan := BlobsPlan(db, files, id, blobs);
    ghost var w := Writing(writer, true);
    assert blobs[0..] == blobs;
    for i := 0 to |blobs|
      invariant writer.Valid()
      invariant Execute(plan.ops, w, writer.quota, writer.burst)
             == Execute(BlobsPlan(db, files, id, blobs[i..]).ops, Writing(writer, true), writer.quota, writer.burst)
      invariant plan.status == BlobsPlan(db, files, id, blobs[i..]).status
    {
      ghost var rest := blobs[i..];
      assert rest[0] == blobs[i] && rest[1..] == blobs[i + 1..];
      NextBlob(db, files, id, rest, Writing(writer, true), writer.quota, writer.burst);
      var status := SendBlob(db, files, blobs[i].hash, writer, buffer, id);
      if !status.Ok? {
        return status.PropagateFailure();
      }
      if status.value.NotFound? {
        GiveUp(id, Writing(writer, true), writer.quota, writer.burst);
        var response := WriteResponse(writer, buffer, id, Res.NotFound);
        if !response.Ok? {
          return response.PropagateFailure();
        }
        Close(Writing(writer, true), writer.quota, writer.burst);
        var ok := writer.Finish();
        return if ok then Ok(SentStatus.NotFound) else Err(IoFailed);
      }
    }
    assert blobs[|blobs|..] == [];
    Close(Writing(writer, true), writer.quota, writer.burst);
    var ok := writer.Finish();
    return if ok then Ok(Sent) else Err(IoFailed);
  }

  /** Sends the collection's content in one write, then its blobs. */
  method TransferCollection(db: Db, files: Files, writer: SendStream, buffer: BytesMut, id: u64,
                            outboard: seq<byte>, data: seq<byte>)
    returns (r: Outcome<SentStatus>)
    requires writer.Valid()
    modifies writer, buffer
    ensures writer.Valid() && r != Panic
    ensures Writing(writer, r.Ok?)
         == Execute(TransferPlan(db, files, id, outboard, data).ops, old(Writing(writer, true)),
                    writer.quota, writer.burst)
    ensures r.Ok? ==> r.value == TransferPlan(db, files, id, outboard, data).status
  {
    hide ResponseFrame, Execute, BlobsPlan, ExecuteOne, Extract, DecodeCollection;
    ghost var plan := TransferPlan(db, files, id, outboard, data);
    ghost var w := Writing(writer, true);
    var slice := Extract(outboard, data, |data|);
    var collection := DecodeCollection(data);
    if !slice.complete || collection.None? {
      FailOnly(w, writer.quota, writer.burst);
      return Err(IoFailed);
    }
    var c := collection.value;
    ghost var blobs := BlobsPlan(db, files, id, c.blobs);
    ghost var announce := WriteAll(ResponseFrame(id, FoundCollection(c.totalBlobsSize)));
    ghost var content := WriteOnce(slice.bytes);
    ExecuteTwo(announce, content, blobs.ops, w, writer.quota, writer.burst);
    var response := WriteResponse(writer, buffer, id, FoundCollection(c.totalBlobsSize));
    if !response.Ok? {
      return response.PropagateFailure();
    }
    SingleWrite(slice.bytes, Writing(writer, true), writer.quota, writer.burst);
    var ok := writer.WriteSome(slice.bytes);
    if !ok {
      return Err(IoFailed);
    }
    r := SendBlobs(db, files, writer, buffer, id, c.blobs);
  }

  lemma FailOnly(w: Sender, quota: Option<nat>, burst: nat)
    requires w.ok
    ensures Execute([Fail], w, quota, burst) == w.(ok := false)
  {
    ExecuteSingle(Fail, w, quota, burst);
  }

  lemma ExecuteTwo(a: Op, b: Op, more: seq<Op>, w: Sender, quota: Option<nat>, burst: nat)
    requires w.ok
    ensures var w1 := ExecuteOne(a, w, quota, burst);
            Execute([a, b] + more, w, quota, burst)
            == if !w1.ok then w1 else Execute(more, ExecuteOne(b, w1, quota, burst), quota, burst)
    ensures forall w1: Sender :: !w1.ok ==> Execute(more, w1, quota, burst) == w1
  {
    assert [a, b] + more == [a] + ([b] + more) && ([b] + more)[1..] == more && ([b] + more)[0] == b;
    ExecuteAppend([a], [b] + more, w, quota, burst);
    ExecuteSingle(a, w, quota, burst);
  }

  lemma SingleWrite(b: seq<byte>, w: Sender, quota: Option<nat>, burst: nat)
    requires w.ok && Fits(quota, w.sent)
    ensures ExecuteOne(WriteOnce(b), w, quota, burst)
         == if b != [] && quota.Some? && |w.sent| == quota.value then w.(ok := false)
            else w.(sent := Cut(quota, w.sent + Accepted(burst, b)))
  {
  }

  lemma Close(w: Sender, quota: Option<nat>, burst: nat)
    requires w.ok && Fits(quota, w.sent)
    ensures Execute([Finish], w, quota, burst)
         == if quota.Some? && |w.sent| == quota.value then w.(ok := false) else w.(finished := true)
  {
    ExecuteSingle(Finish, w, quota, burst);
  }

  lemma GiveUp(id: u64, w: Sender, quota: Option<nat>, burst: nat)
    requires w.ok
    ensures var op := WriteAll(ResponseFrame(id, Res.NotFound));
            var w1 := ExecuteOne(op, w, quota, burst);
            Execute([op, Finish], w, quota, burst) == if w1.ok then Execute([Finish], w1, quota, burst) else w1
  {
    var op := WriteAll(ResponseFrame(id, Res.NotFound));
    assert [op, Finish] == [op] + [Finish];
    ExecuteAppend([op], [Finish], w, quota, burst);
    ExecuteSingle(op, w, quota, burst);
  }

  /** One iteration over the blobs. */
  lemma NextBlob(db: Db, files: Files, id: u64, blobs: seq<Blob>, w: Sender, quota: Option<nat>, burst: nat)
    requires blobs != []
    ensures var first := BlobPlan(db, files, id, blobs[0].hash);
            var w1 := Execute(first.ops, w, quota, burst);
            var plan := BlobsPlan(db, files, id, blobs);
            && Execute(plan.ops, w, quota, burst)
               == (if !w1.ok then w1
                   else if first.status.NotFound? then
                     Execute([WriteAll(ResponseFrame(id, Res.NotFound)), Finish], w1, quota, burst)
                   else Execute(BlobsPlan(db, files, id, blobs[1..]).ops, w1, quota, burst))
            && plan.status == if first.status.NotFound? then SentStatus.NotFound
                              else BlobsPlan(db, files, id, blobs[1..]).status
  {
    hide BlobPlan, ResponseFrame, ExecuteOne;
    var first := BlobPlan(db, files, id, blobs[0].hash);
    ExecuteAppend(first.ops, [WriteAll(ResponseFrame(id, Res.NotFound)), Finish], w, quota, burst);
    ExecuteAppend(first.ops, BlobsPlan(db, files, id, blobs[1..]).ops, w, quota, burst);
  }

  // ---- one stream ----

  /** What happens on one stream: the result, the events after the connection's, and the writer. */
  datatype StreamRun = StreamRun(result: Outcome<()>, events: seq<Event>, writer: Sender)

  function Serve(db: Db, files: Files, token: Hash, connection: u64, s: Input,
                 w: Sender, quota: Option<nat>, burst: nat): StreamRun {
    match Reading(token, s)
    case Panic => StreamRun(Panic, [], w)
    case Err(e) => StreamRun(Err(e), [TransferAborted(connection, None)], w)
    case Ok(request) =>
      var plan := ReplyPlan(db, files, request);
      var end := Execute(plan.ops, w, quota, burst);
      StreamRun(if end.ok then Ok(()) else Err(IoFailed),
                [RequestReceived(connection, request.id, request.name),
                 if end.ok && plan.status.Sent? then TransferCompleted(connection, request.id)
                 else TransferAborted(connection, Some(request.id))],
                end)
  }

  method HandleStream(db: Db, files: Files, token: Hash, connection: u64,
                      writer: SendStream, reader: RecvStream, log: EventLog) returns (r: Outcome<()>)
    requires writer.Valid()
    modifies writer, reader, log
    ensures writer.Valid()
    ensures var run := Serve(db, files, token, connection, old(reader.Pending()),
                             old(Writing(writer, true)), writer.quota, writer.burst);
            && (r.Ok? <==> run.result.Ok?) && (r.Panic? <==> run.result.Panic?)
            && log.events == old(log.events) + run.events
            && writer.sent == run.writer.sent && writer.finished == run.writer.finished
  {
    hide Execute, ExecuteOne, TransferPlan, ResponseFrame, RequestRead, HandshakeRead;
    var outBuffer := new BytesMut([]);
    var inBuffer := new BytesMut([]);
    var handshake := ReadHandshake(reader, inBuffer, token);
    if handshake.Panic? {
      return Panic;
    }
    if handshake.Err? {
      log.Send(TransferAborted(connection, None));
      return handshake;
    }
    var message := ReadRequest(reader, inBuffer);
    if message.Panic? {
      return Panic;
    }
    if message.Err? {
      log.Send(TransferAborted(connection, None));
      return Err(message.error);
    }
    var request := message.value;
    log.Send(RequestReceived(connection, request.id, request.name));
    if !(request.name in db && db[request.name].CollectionEntry?) {
      log.Send(TransferAborted(connection, Some(request.id)));
      GiveUp(request.id, Writing(writer, true), writer.quota, writer.burst);
      var response := WriteResponse(writer, outBuffer, request.id, Res.NotFound);
      if !response.Ok? {
        return response;
      }
      Close(Writing(writer, true), writer.quota, writer.burst);
      var ok := writer.Finish();
      return if ok then Ok(()) else Err(IoFailed);
    }
    var CollectionEntry(outboard, data) := db[request.name];
    var status := TransferCollection(db, files, writer, outBuffer, request.id, outboard, data);
    if status.Ok? && status.value.Sent? {
      log.Send(TransferCompleted(connection, request.id));
    } else {
      log.Send(TransferAborted(connection, Some(request.id)));
    }
    return if status.Ok? then Ok(()) else status.PropagateFailure();
  }
}
