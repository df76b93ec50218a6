/** The getting side: sending the request, reading the collection, and handing over its blobs in order. */
module Get {
  import opened Base
  import opened Streams
  import opened Protocol
  import opened Messages
  import opened Blobs
  import opened Bao

  const MAX_DATA_SIZE: u64 := 1024 * 1024 * 1024

  /** How the caller's blob callback treats its verified stream: it reads to a clean end and fails if
      there is none, or it reads at most `limit` bytes and returns the stream whatever happened (a
      stream whose decoder failed is then some further bytes along), or it fails at once. */
  datatype Callback = Drain | Take(limit: nat, stray: nat) | Refuse

  datatype Callbacks = Callbacks(onConnected: bool, onCollection: Collection -> bool, onBlob: nat -> Callback)

  ghost predicate Draining(cbs: Callbacks) {
    && (forall c :: cbs.onCollection(c)) && (forall i :: cbs.onBlob(i).Drain?)
  }

  /** One call of the blob callback and what it read. */
  datatype Delivery = Delivery(hash: Hash, name: seq<byte>, content: seq<byte>)

  /** The loop's variables: the collection's content, the announced and remaining size, the blobs still
      to come, and the calls made so far. */
  datatype Session = Session(data: seq<byte>, total: u64, remaining: u64, todo: seq<Blob>, delivered: seq<Delivery>)

  const NOTHING: Session := Session([], 0, 0, [], [])

  datatype ClientRun = ClientRun(result: Outcome<u64>, session: Session, rest: Input)

  // ---- sending ----

  /** Everything a client sends. */
  function ClientSends(token: Hash, hash: Hash): seq<byte> {
    HandshakeFrame(token) + RequestFrame(hash)
  }

  function HandshakeFrame(token: Hash): seq<byte> {
    DeclaredSizes(Handshake(VERSION, token), Request(1, token));
    Frame(EncodeHandshake(Handshake(VERSION, token)))
  }

  function RequestFrame(hash: Hash): seq<byte> {
    DeclaredSizes(Handshake(VERSION, hash), Request(1, hash));
    Frame(EncodeRequest(Request(1, hash)))
  }

  /** The request byte by byte. */
  lemma ClientBytes(token: Hash, hash: Hash)
    ensures ClientSends(token, hash)
         == [33, 0, 0, 0, 0, 0, 0, 0, 1] + token + [34, 0, 0, 0, 0, 0, 0, 0, 1, 32] + hash
  {
    hide EncodeHandshake, EncodeRequest, LeBytes, Postcard.Varint;
    EncodedRequest(token, hash);
    DeclaredSizes(Handshake(VERSION, token), Request(1, hash));
    SmallLe64(33);
    SmallLe64(34);
  }

  /** Serialises into the reused fixed buffer and sends the used part as one frame. */
  method SendMessage(writer: SendStream, buffer: BytesMut, encoded: seq<byte>) returns (r: Outcome<()>)
    requires writer.Valid() && |encoded| <= |buffer.data| < MAX_MESSAGE_SIZE
    modifies writer, buffer
    ensures writer.Valid() && writer.finished == old(writer.finished) && |buffer.data| == |old(buffer.data)|
    ensures writer.sent == Cut(writer.quota, old(writer.sent) + Frame(encoded))
    ensures r == if Fits(writer.quota, old(writer.sent) + Frame(encoded)) then Ok(()) else Err(IoFailed)
  {
    var used := Postcard.ToSlice(encoded, |buffer.data|);
    buffer.data := used.value + buffer.data[|used.value|..];
    r := WriteLp(writer, buffer.data[..|used.value|]);
  }

  method SendRequest(writer: SendStream, token: Hash, hash: Hash) returns (r: Outcome<()>)
    requires writer.Valid() && writer.sent == [] && !writer.finished
    modifies writer
    ensures writer.Valid() && writer.sent == Cut(writer.quota, ClientSends(token, hash))
    ensures r == (if writer.quota.None? || |ClientSends(token, hash)| < writer.quota.value then Ok(())
                  else Err(IoFailed))
    ensures writer.finished == r.Ok?
  {
    DeclaredSizes(Handshake(VERSION, token), Request(1, hash));
    var size := if REQUEST_MAX_SIZE >= HANDSHAKE_MAX_SIZE then REQUEST_MAX_SIZE else HANDSHAKE_MAX_SIZE;
    var outBuffer := new BytesMut(seq(size, _ => 0));
    CutMore(writer.quota, HandshakeFrame(token), RequestFrame(hash));
    assert [] + HandshakeFrame(token) == HandshakeFrame(token);
    r := SendMessage(writer, outBuffer, EncodeHandshake(Handshake(VERSION, token)));
    if !r.Ok? {
      return;
    }
    r := SendMessage(writer, outBuffer, EncodeRequest(Request(1, hash)));
    if !r.Ok? {
      return;
    }
    var ok := writer.Finish();
    return if ok then Ok(()) else Err(IoFailed);
  }

  // ---- what a client makes of a stream ----

  function Failed(e: Error, st: Session, s: Input): ClientRun {
    ClientRun(Err(e), st, s)
  }

  /** Decoding ended before the content was complete. */
  function DecodeError(status: Status, ending: Ending): Error {
    if status.Corrupt? then VerificationFailed else if ending.Lost? then IoFailed else UnexpectedEof
  }

  function ReadResponse(hs: Hasher, hash: Hash, cbs: Callbacks, s: Input): ClientRun {
    var message := LpSplit([], s);
    match message.result
    case Panic => ClientRun(Panic, NOTHING, message.rest)
    case Err(e) => Failed(e, NOTHING, message.rest)
    case Ok(payload) =>
      match DecodeResponse(payload)
      case None => Failed(Malformed, NOTHING, message.rest)
      case Some(response) =>
        match response.data
        case NotFound => Failed(DataNotFound, NOTHING, message.rest)
        case Found => Failed(UnexpectedMessage, NOTHING, message.rest)
        case FoundCollection(total) =>
          if total > MAX_DATA_SIZE then Failed(SizeTooLarge, NOTHING, message.rest)
          else ReadCollection(hs, hash, cbs, total, message.rest)
  }

  function ReadCollection(hs: Hasher, hash: Hash, cbs: Callbacks, total: u64, s: Input): ClientRun {
    var d := Decode(hs, hash, s.bytes);
    var rest := Input(d.rest, s.ending);
    if !d.status.Complete? then Failed(DecodeError(d.status, s.ending), NOTHING, rest)
    else
      match DecodeCollection(d.data)
      case None => Failed(Malformed, NOTHING, rest)
      case Some(c) =>
        if !cbs.onCollection(c) then Failed(CallbackFailed, NOTHING, rest)
        else ReadBlobs(hs, cbs, Session(d.data, total, total, c.blobs, []), rest)
  }

  /** The loop over the collection's entries, then the check for the end of the stream; data that
      follows is only reported. */
  function ReadBlobs(hs: Hasher, cbs: Callbacks, st: Session, s: Input): ClientRun
    decreases |st.todo|, 3
  {
    if st.todo != [] then ReadBlobResponse(hs, cbs, st, s)
    else if s.bytes == [] && s.ending.Lost? then Failed(IoFailed, st, s)
    else ClientRun(Ok(st.total), st, s)
  }

  function ReadBlobResponse(hs: Hasher, cbs: Callbacks, st: Session, s: Input): ClientRun
    requires st.todo != []
    decreases |st.todo|, 2
  {
    var message := LpSplit([], s);
    match message.result
    case Panic => ClientRun(Panic, st, message.rest)
    case Err(e) => Failed(e, st, message.rest)
    case Ok(payload) =>
      match DecodeResponse(payload)
      case None => Failed(Malformed, st, message.rest)
      case Some(response) =>
        match response.data
        case FoundCollection(_) => Failed(UnexpectedMessage, st, message.rest)
        case NotFound => Failed(DataNotFound, st, message.rest)
        case Found => ReadBlobSize(hs, cbs, st, message.rest)
  }

  function ReadBlobSize(hs: Hasher, cbs: Callbacks, st: Session, s: Input): ClientRun
    requires st.todo != []
    decreases |st.todo|, 1
  {
    match Exactly(8, s)
    case Ok(header) =>
      var size := U64OfLe(header);
      if size > MAX_DATA_SIZE then Failed(SizeTooLarge, st, Behind(8, s))
      else if size > st.remaining then Failed(MoreThanAnnounced, st, Behind(8, s))
      else ReadBlob(hs, cbs, st.(remaining := st.remaining - size), size, Behind(8, s))
    case Err(e) => Failed(e, st, Input([], s.ending))
    case Panic => ClientRun(Panic, st, s)
  }

  function ReadBlob(hs: Hasher, cbs: Callbacks, st: Session, size: u64, s: Input): ClientRun
    requires st.todo != []
    decreases |st.todo|, 0
  {
    var blob := st.todo[0];
    var d := DecodeTree(hs, blob.hash, size, 0, true, s.bytes);
    var rest := Input(d.rest, s.ending);
    match cbs.onBlob(|st.delivered|)
    case Refuse => Failed(CallbackFailed, Handed(st, []), rest)
    case Drain =>
      if d.status.Complete? then ReadBlobs(hs, cbs, Handed(st, d.data).(todo := st.todo[1..]), rest)
      else Failed(DecodeError(d.status, s.ending), Handed(st, d.data), rest)
    case Take(limit, stray) =>
      if limit < |d.data| then Failed(NotFullyRead, Handed(st, d.data[..limit]), rest)
      else
        var next := if d.status.Complete? then rest else Behind(stray, rest);
        ReadBlobs(hs, cbs, Handed(st, d.data).(todo := st.todo[1..]), next)
  }

  /** The session after the callback for the next blob read some content. */
  function Handed(st: Session, content: seq<byte>): Session
    requires st.todo != []
  {
    st.(delivered := st.delivered + [Delivery(st.todo[0].hash, st.todo[0].name, content)])
  }

  // ---- reading ----

  /** The same end; a reader of a stream cannot tell how many bytes it misses. */
  predicate SameEnd(a: Status, b: Status) {
    a == b || (a.Short? && b.Short?)
  }

  /** Reads and checks one subtree unit by unit. */
  method ReadTree(reader: RecvStream, hs: Hasher, h: Hash, n: nat, start: nat, root: bool)
    returns (data: seq<byte>, status: Status)
    modifies reader
    ensures var d := DecodeTree(hs, h, n, start, root, old(reader.rest));
            data == d.data && reader.rest == d.rest && SameEnd(status, d.status)
    decreases n
  {
    hide TreeSize, Subtree, DecodeTree;
    ghost var s := reader.rest;
    ReadUnit(n, start, root, reader.Pending());
    if n <= CHUNK || !Check(hs, h, n, start, root, s).Complete? {
      Single(hs, h, n, start, root, s);
    }
    var unit := reader.ReadExact(Unit(n));
    if !unit.Ok? {
      return [], Short(Unit(n));
    }
    if hs(NodeAt(n, start, root, unit.value)) != h {
      return [], Corrupt;
    }
    if n <= CHUNK {
      return unit.value, Complete;
    }
    ghost var l, r := Halves(hs, h, n, start, root, s);
    var k := LeftLength(n);
    data, status := ReadTree(reader, hs, unit.value[..32], k, start, false);
    if !status.Complete? {
      return;
    }
    var right: seq<byte>;
    right, status := ReadTree(reader, hs, unit.value[32..], n - k, start + k, false);
    data := data + right;
  }

  lemma ReadUnit(n: nat, start: nat, root: bool, s: Input)
    ensures |s.bytes| >= Unit(n) ==>
              && Exactly(Unit(n), s).Ok?
              && NodeAt(n, start, root, Exactly(Unit(n), s).value) == NodeAt(n, start, root, s.bytes)
              && (n > CHUNK ==> s.bytes[..64][..32] == s.bytes[..32] && s.bytes[..64][32..] == s.bytes[32..64])
  {
    if |s.bytes| >= Unit(n) {
      assert s.bytes[..Unit(n)][..Unit(n)] == s.bytes[..Unit(n)];
      if n > CHUNK {
        assert s.bytes[..64][..32] == s.bytes[..32] && s.bytes[..64][32..64] == s.bytes[32..64];
      }
    }
  }

  method ReadBaoEncoded(reader: RecvStream, hs: Hasher, hash: Hash) returns (data: seq<byte>, status: Status)
    modifies reader
    ensures var d := Decode(hs, hash, old(reader.rest));
            data == d.data && reader.rest == d.rest && SameEnd(status, d.status)
  {
    hide DecodeTree;
    var header := reader.ReadExact(8);
    if !header.Ok? {
      return [], Short(8);
    }
    data, status := ReadTree(reader, hs, hash, U64OfLe(header.value), 0, true);
  }

  /** Reads the response in front of a blob. */
  method HandleBlobResponse(reader: RecvStream, buffer: BytesMut) returns (r: Outcome<()>)
    requires buffer.data == []
    modifies reader, buffer
    ensures var message := LpSplit([], old(reader.Pending()));
            && reader.Pending() == message.rest
            && (r.Ok? ==> buffer.data == [])
            && match message.result
               case Panic => r == Panic
               case Err(e) => r == Err(e)
               case Ok(payload) =>
                 match DecodeResponse(payload)
                 case None => r == Err(Malformed)
                 case Some(Response(_, FoundCollection(_))) => r == Err(UnexpectedMessage)
                 case Some(Response(_, NotFound)) => r == Err(DataNotFound)
                 case Some(Response(_, Found)) => r == Ok(())
  {
    var message := ReadLpData(reader, buffer);
    if !message.Ok? {
      return message.PropagateFailure();
    }
    match DecodeResponse(message.value)
    case None => return Err(Malformed);
    case Some(Response(_, FoundCollection(_))) => return Err(UnexpectedMessage);
    case Some(Response(_, NotFound)) => return Err(DataNotFound);
    case Some(Response(_, Found)) =>
      EmptyBuffer(old(reader.Pending()));
      assert buffer.data == [];  // the program's own assertion
      return Ok(());
  }

  lemma EmptyBuffer(s: Input)
    ensures LpSplit([], s).result.Ok? ==> LpSplit([], s).buffer == []
  {
    if LpSplit([], s).result.Ok? {
      SuccessIsWholeFrame(s);
    }
  }

  /** Hands the verified stream of the next blob to the callback. */
  method HandOver(reader: RecvStream, hs: Hasher, cbs: Callbacks, st: Session, size: u64)
    returns (r: Outcome<()>, next: Session)
    requires st.todo != []
    modifies reader
    ensures var run := ReadBlob(hs, cbs, st, size, old(reader.Pending()));
            if r.Ok? then next.todo == st.todo[1..] && run == ReadBlobs(hs, cbs, next, reader.Pending())
            else run.session == next && run.result == r.PropagateFailure()
    ensures next.total == st.total
  {
    hide DecodeTree, ReadBlobs;
    r, next := Ok(()), st;
    var data, status := ReadTree(reader, hs, st.todo[0].hash, size, 0, true);
    match cbs.onBlob(|st.delivered|)
    case Refuse =>
      return Err(CallbackFailed), Handed(st, []);
    case Drain =>
      next := Handed(st, data);
      if !status.Complete? {
        return Err(DecodeError(status, reader.ending)), next;
      }
      next := next.(todo := st.todo[1..]);
    case Take(limit, stray) =>
      if limit < |data| {
        return Err(NotFullyRead), Handed(st, data[..limit]);
      }
      next := Handed(st, data).(todo := st.todo[1..]);
      if !status.Complete? {
        var skipped := reader.ReadExact(stray);
      }
  }

  /** One blob: response, announced size, and the callback with the verified stream. */
  method ReceiveBlob(reader: RecvStream, buffer: BytesMut, hs: Hasher, cbs: Callbacks, st: Session)
    returns (r: Outcome<()>, next: Session)
    requires buffer.data == [] && st.todo != []
    modifies reader, buffer
    ensures var run := ReadBlobResponse(hs, cbs, st, old(reader.Pending()));
            if r.Ok? then next.todo == st.todo[1..] && run == ReadBlobs(hs, cbs, next, reader.Pending())
            else run.session == next && run.result == r.PropagateFailure()
    ensures r.Ok? ==> buffer.data == []
    ensures next.total == st.total
  {
    hide ReadBlob, LpSplit, ReadBlobs, LeValue, DecodeResponse;
    next := st;
    r := HandleBlobResponse(reader, buffer);
    if !r.Ok? {
      return;
    }
    var header := reader.ReadExact(8);
    if !header.Ok? {
      return header.PropagateFailure(), next;
    }
    var size := U64OfLe(header.value);
    if size > MAX_DATA_SIZE {
      return Err(SizeTooLarge), next;
    }
    if size > next.remaining {
      return Err(MoreThanAnnounced), next;
    }
    next := next.(remaining := next.remaining - size);
    r, next := HandOver(reader, hs, cbs, next, size);
  }

  /** The first response announces the size of all blobs, within the limit. */
  method ReceiveTotal(reader: RecvStream, buffer: BytesMut, ghost hs: Hasher, ghost hash: Hash, ghost cbs: Callbacks)
    returns (r: Outcome<u64>)
    requires buffer.data == []
    modifies reader, buffer
    ensures var run := ReadResponse(hs, hash, cbs, old(reader.Pending()));
            if r.Ok? then buffer.data == [] && run == ReadCollection(hs, hash, cbs, r.value, reader.Pending())
            else run.session == NOTHING && run.result == r
  {
    hide LpSplit, ReadCollection;
    EmptyBuffer(reader.Pending());
    var message := ReadLpData(reader, buffer);
    if !message.Ok? {
      return message.PropagateFailure();
    }
    var response := DecodeResponse(message.value);
    if response.None? {
      return Err(Malformed);
    }
    match response.value.data
    case NotFound => return Err(DataNotFound);
    case Found => return Err(UnexpectedMessage);
    case FoundCollection(total) => return if total > MAX_DATA_SIZE then Err(SizeTooLarge) else Ok(total);
  }

  /** The collection itself; the loop's variables start from it. */
  method ReceiveCollection(reader: RecvStream, hs: Hasher, hash: Hash, cbs: Callbacks, total: u64)
    returns (r: Outcome<()>, st: Session)
    modifies reader
    ensures var run := ReadCollection(hs, hash, cbs, total, old(reader.Pending()));
            if r.Ok? then st.total == total && run == ReadBlobs(hs, cbs, st, reader.Pending())
            else run.session == st && run.result == r.PropagateFailure()
  {
    hide Decode, ReadBlobs;
    st := NOTHING;
    var data, status := ReadBaoEncoded(reader, hs, hash);
    if !status.Complete? {
      return Err(DecodeError(status, reader.ending)), st;
    }
    var collection := DecodeCollection(data);
    if collection.None? {
      return Err(Malformed), st;
    }
    if !cbs.onCollection(collection.value) {
      return Err(CallbackFailed), st;
    }
    return Ok(()), Session(data, total, total, collection.value.blobs, []);
  }

  /** The whole exchange from the client's side. */
  method Run(hs: Hasher, hash: Hash, token: Hash, writer: SendStream, reader: RecvStream, cbs: Callbacks)
    returns (r: Outcome<u64>, st: Session)
    requires writer.Valid() && writer.sent == [] && !writer.finished
    modifies writer, reader
    ensures !cbs.onConnected ==> r == Err(CallbackFailed) && writer.sent == []
    ensures cbs.onConnected ==>
              && writer.sent == Cut(writer.quota, ClientSends(token, hash))
              && var run := ReadResponse(hs, hash, cbs, old(reader.Pending()));
                 if writer.finished then r == run.result && st == run.session else r == Err(IoFailed)
    ensures writer.finished
            <==> cbs.onConnected && (writer.quota.None? || |ClientSends(token, hash)| < writer.quota.value)
  {
    hide ReadResponse, ReadCollection, ClientSends, ReadBlobResponse;
    st := NOTHING;
    if !cbs.onConnected {
      return Err(CallbackFailed), st;
    }
    var request := SendRequest(writer, token, hash);
    if !request.Ok? {
      return request.PropagateFailure(), st;
    }
    var inBuffer := new BytesMut([]);
    r := ReceiveTotal(reader, inBuffer, hs, hash, cbs);
    if !r.Ok? {
      return;
    }
    var received: Outcome<()>;
    received, st := ReceiveCollection(reader, hs, hash, cbs, r.value);
    if !received.Ok? {
      return received.PropagateFailure(), st;
    }
    while st.todo != []
      invariant inBuffer.data == [] && r == Ok(st.total)
      invariant ReadResponse(hs, hash, cbs, old(reader.Pending())) == ReadBlobs(hs, cbs, st, reader.Pending())
      modifies reader, inBuffer
      decreases |st.todo|
    {
      received, st := ReceiveBlob(reader, inBuffer, hs, cbs, st);
      if !received.Ok? {
        return received.PropagateFailure(), st;
      }
    }
    var chunk := reader.ReadChunk(8);
    if !chunk.Ok? {
      return Err(IoFailed), st;
    }
  }
}
