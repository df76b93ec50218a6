/** A client reading what a provider of the same collection wrote. */
module EndToEnd {
  import opened Base
  import opened Streams
  import opened Protocol
  import opened Messages
  import opened Blobs
  import opened Bao
  import opened Database
  import opened Provider
  import opened Wire
  import opened Get
  import opened Integrity

  // ---- the client's request reaches the provider ----

  /** What a client sends is accepted by a provider with the same token, as the request it meant. */
  lemma RequestArrives(token: Hash, hash: Hash)
    ensures Reading(token, Input(ClientSends(token, hash), Finished)) == Ok(Request(1, hash))
  {
    hide Reading, DecodeHandshake, DecodeRequest, LeBytes;
    var hello, request := Handshake(VERSION, token), Request(1, hash);
    DeclaredSizes(hello, request);
    HandshakeRoundTrip(hello, []);
    RequestRoundTrip(request, []);
    assert EncodeHandshake(hello) + [] == EncodeHandshake(hello);
    assert EncodeRequest(request) + [] == EncodeRequest(request);
    Acceptance(token, Input(ClientSends(token, hash), Finished), request);
    assert IsExchange(token, ClientSends(token, hash), EncodeHandshake(hello), EncodeRequest(request), request);
  }

  /** A provider with another token refuses what a client sends. */
  lemma RequestRefused(wanted: Hash, token: Hash, hash: Hash)
    requires wanted != token
    ensures Reading(wanted, Input(ClientSends(token, hash), Finished)) == Err(WrongToken)
  {
    hide DecodeHandshake, LpDecoded, LeBytes, RequestRead;
    var hello := Handshake(VERSION, token);
    DeclaredSizes(hello, Request(1, hash));
    HandshakeRoundTrip(hello, []);
    assert EncodeHandshake(hello) + [] == EncodeHandshake(hello);
    ReadWholeFrame(EncodeHandshake(hello), RequestFrame(hash), Finished, DecodeHandshake);
  }

  // ---- one honest blob ----

  lemma FrameArrives(id: u64, res: Res, more: seq<byte>, ending: Ending)
    ensures var message := LpSplit([], Input(ResponseFrame(id, res) + more, ending));
            && message == LpRead(Ok(EncodeResponse(Response(id, res))), [], Input(more, ending))
            && DecodeResponse(message.result.value) == Some(Response(id, res))
  {
    hide LpSplit, LpDecoded, DecodeResponse, EncodeResponse;
    var response := Response(id, res);
    ResponseFits(response);
    ResponseRoundTrip(response, []);
    assert EncodeResponse(response) + [] == EncodeResponse(response);
    ReadWholeFrame<()>(EncodeResponse(response), more, ending, _ => None);
  }

  /** A first response that announces no collection within the limit ends the run, told by its kind, with
      nothing handed over and everything behind the frame unread. */
  lemma FirstResponse(hs: Hasher, hash: Hash, cbs: Callbacks, id: u64, res: Res, more: seq<byte>, ending: Ending)
    ensures var run := ReadResponse(hs, hash, cbs, Input(ResponseFrame(id, res) + more, ending));
            match res
            case NotFound => run == ClientRun(Err(DataNotFound), NOTHING, Input(more, ending))
            case Found => run == ClientRun(Err(UnexpectedMessage), NOTHING, Input(more, ending))
            case FoundCollection(total) =>
              if total > 1024 * 1024 * 1024 then run == ClientRun(Err(SizeTooLarge), NOTHING, Input(more, ending))
              else run == ReadCollection(hs, hash, cbs, total, Input(more, ending))
  {
    hide LpSplit, ResponseFrame, DecodeResponse, ReadCollection;
    FrameArrives(id, res, more, ending);
  }

  /** Behind the announcement: content that does not verify or does not decode fails the run, and so does a
      collection that the callback rejects, all before any blob is read; otherwise the loop begins. */
  lemma CollectionDecided(hs: Hasher, hash: Hash, cbs: Callbacks, id: u64, total: u64, content: seq<byte>,
                          ending: Ending)
    requires total <= MAX_DATA_SIZE
    ensures var run := ReadResponse(hs, hash, cbs,
                                    Input(ResponseFrame(id, FoundCollection(total)) + content, ending));
            var d := Decode(hs, hash, content);
            var rest := Input(d.rest, ending);
            if d.status.Corrupt? then run == ClientRun(Err(VerificationFailed), NOTHING, rest)
            else if d.status.Short? then
              run == ClientRun(Err(if ending.Lost? then IoFailed else UnexpectedEof), NOTHING, rest)
            else if DecodeCollection(d.data).None? then run == ClientRun(Err(Malformed), NOTHING, rest)
            else
              var c := DecodeCollection(d.data).value;
              if !cbs.onCollection(c) then run == ClientRun(Err(CallbackFailed), NOTHING, rest)
              else run == ReadBlobs(hs, cbs, Session(d.data, total, total, c.blobs, []), rest)
  {
    hide ResponseFrame, Decode, DecodeCollection, ReadBlobs, ReadResponse;
    FirstResponse(hs, hash, cbs, id, FoundCollection(total), content, ending);
  }

  /** The same of an honest provider's bytes: a rejected collection ends the run, its blobs unread. */
  lemma RejectedCollection(hs: Hasher, cbs: Callbacks, id: u64, total: u64, data: seq<byte>, more: seq<byte>,
                           ending: Ending)
    requires total <= MAX_DATA_SIZE && |data| < U64_LIMIT
    requires DecodeCollection(data).Some? && !cbs.onCollection(DecodeCollection(data).value)
    ensures ReadResponse(hs, ContentHash(hs, data), cbs,
                         Input(ResponseFrame(id, FoundCollection(total)) + (Encode(hs, data) + more), ending))
         == ClientRun(Err(CallbackFailed), NOTHING, Input(more, ending))
  {
    hide ResponseFrame, Decode, Encode, DecodeCollection, ReadBlobs, ReadResponse, ContentHash;
    CollectionDecided(hs, ContentHash(hs, data), cbs, id, total, Encode(hs, data) + more, ending);
    DecodeOfEncode(hs, data, more);
  }

  /** What stands in front of a blob's content, told by kind: only a found response and a size within the
      limit and what remains of the announced total let the callback be called. */
  lemma FrontOfBlobDecided(hs: Hasher, cbs: Callbacks, st: Session, id: u64, res: Res, n: u64, more: seq<byte>,
                           ending: Ending)
    requires st.todo != []
    ensures var behind := Input(Le64(n) + more, ending);
            var run := ReadBlobs(hs, cbs, st, Input(ResponseFrame(id, res) + (Le64(n) + more), ending));
            match res
            case NotFound => run == ClientRun(Err(DataNotFound), st, behind)
            case FoundCollection(_) => run == ClientRun(Err(UnexpectedMessage), st, behind)
            case Found =>
              if n > 1024 * 1024 * 1024 then run == ClientRun(Err(SizeTooLarge), st, Input(more, ending))
              else if n > st.remaining then run == ClientRun(Err(MoreThanAnnounced), st, Input(more, ending))
              else run == ReadBlob(hs, cbs, st.(remaining := st.remaining - n), n, Input(more, ending))
  {
    hide LpSplit, ReadBlob, ReadBlobSize, ResponseFrame, DecodeResponse, Le64, U64OfLe;
    var s := Input(ResponseFrame(id, res) + (Le64(n) + more), ending);
    FrameArrives(id, res, Le64(n) + more, ending);
    assert ReadBlobs(hs, cbs, st, s) == ReadBlobResponse(hs, cbs, st, s);
    if res.Found? {
      SizeDecided(hs, cbs, st, n, more, ending);
    }
  }

  lemma SizeDecided(hs: Hasher, cbs: Callbacks, st: Session, n: u64, more: seq<byte>, ending: Ending)
    requires st.todo != []
    ensures var run := ReadBlobSize(hs, cbs, st, Input(Le64(n) + more, ending));
            if n > 1024 * 1024 * 1024 then run == ClientRun(Err(SizeTooLarge), st, Input(more, ending))
            else if n > st.remaining then run == ClientRun(Err(MoreThanAnnounced), st, Input(more, ending))
            else run == ReadBlob(hs, cbs, st.(remaining := st.remaining - n), n, Input(more, ending))
  {
    hide ReadBlob, Le64, U64OfLe;
    Le64RoundTrip(n, Le64(n));
    assert (Le64(n) + more)[..8] == Le64(n) && (Le64(n) + more)[8..] == more;
  }

  /** A blob's verified content and the three kinds of callbacks.  One that refuses is given nothing and ends
      the run.  One that reads to a clean end gets all that verifies and ends the run where that is not the
      blob.  One that reads at most `limit` bytes ends the run where more would have verified. */
  lemma CallbackDecides(hs: Hasher, cbs: Callbacks, st: Session, size: u64, s: Input)
    requires st.todo != []
    ensures var blob := st.todo[0];
            var d := DecodeTree(hs, blob.hash, size, 0, true, s.bytes);
            var run := ReadBlob(hs, cbs, st, size, s);
            var seen := content => st.delivered + [Delivery(blob.hash, blob.name, content)];
            var next := st.(todo := st.todo[1..], delivered := seen(d.data));
            match cbs.onBlob(|st.delivered|)
            case Refuse => run.result == Err(CallbackFailed) && run.session == st.(delivered := seen([]))
            case Drain =>
              if d.status.Complete? then run == ReadBlobs(hs, cbs, next, Input(d.rest, s.ending))
              else
                && run.session == st.(delivered := seen(d.data))
                && run.result == Err(if d.status.Corrupt? then VerificationFailed
                                     else if s.ending.Lost? then IoFailed else UnexpectedEof)
            case Take(limit, stray) =>
              if limit < |d.data| then
                run.result == Err(NotFullyRead) && run.session == st.(delivered := seen(d.data[..limit]))
              else
                d.status.Complete? ==> run == ReadBlobs(hs, cbs, next, Input(d.rest, s.ending))
  {
    hide DecodeTree, ReadBlobs;
  }

  lemma BlobArrives(hs: Hasher, cbs: Callbacks, st: Session, id: u64, d: seq<byte>, more: seq<byte>, ending: Ending)
    requires Draining(cbs) && st.todo != [] && ContentHash(hs, d) == st.todo[0].hash
    requires |d| <= st.remaining <= MAX_DATA_SIZE
    ensures ReadBlobs(hs, cbs, st, Input(BlobWire(hs, id, d) + more, ending))
         == ReadBlobs(hs, cbs, st.(todo := st.todo[1..], remaining := st.remaining - |d|,
                                   delivered := st.delivered + [Delivery(st.todo[0].hash, st.todo[0].name, d)]),
                      Input(more, ending))
  {
    hide ReadBlobs, BlobWire, ContentHash;
    BlobHandedOver(hs, cbs, st, id, d, more, ending);
  }

  lemma BlobAnnounced(hs: Hasher, st: Session, id: u64, d: seq<byte>, more: seq<byte>, ending: Ending)
    requires |d| <= st.remaining <= MAX_DATA_SIZE
    ensures var s := Input(BlobWire(hs, id, d) + more, ending);
            && Announces(st, s) && AnnouncedSize(st, s) == |d|
            && Behind(8, LpSplit([], s).rest) == Input(EncodeTree(hs, d, 0) + more, ending)
  {
    hide LpSplit, ResponseFrame, EncodeTree, DecodeResponse, Encode, Behind, EncodeResponse, BlobWire, U64OfLe;
    var content := Encode(hs, d) + more;
    FrontOfWire(hs, id, d, more);
    FrameArrives(id, Found, content, ending);
    SizeComesFirst(hs, d, more, ending);
  }

  lemma FrontOfWire(hs: Hasher, id: u64, d: seq<byte>, more: seq<byte>)
    requires |d| < U64_LIMIT
    ensures BlobWire(hs, id, d) + more == ResponseFrame(id, Found) + (Encode(hs, d) + more)
  {
    hide ResponseFrame, Encode;
  }

  lemma SizeComesFirst(hs: Hasher, d: seq<byte>, more: seq<byte>, ending: Ending)
    requires |d| < U64_LIMIT
    ensures var content := Encode(hs, d) + more;
            && |content| >= 8 && U64OfLe(content[..8]) == |d|
            && Behind(8, Input(content, ending)) == Input(EncodeTree(hs, d, 0) + more, ending)
  {
    hide EncodeTree, LeBytes, LeValue;
    var content := Encode(hs, d) + more;
    Le64RoundTrip(|d|, Le64(|d|));
    assert content[..8] == Le64(|d|) && content[8..] == EncodeTree(hs, d, 0) + more;
  }

  /** A whole blob on the wire, within the limits, and any callback: it is handed over in full, except to a
      callback that refuses, or that reads less than all of it, which ends the run. */
  lemma BlobHandedOver(hs: Hasher, cbs: Callbacks, st: Session, id: u64, d: seq<byte>, more: seq<byte>,
                       ending: Ending)
    requires st.todo != [] && ContentHash(hs, d) == st.todo[0].hash && |d| <= st.remaining <= MAX_DATA_SIZE
    ensures var run := ReadBlobs(hs, cbs, st, Input(BlobWire(hs, id, d) + more, ending));
            var seen := content => st.delivered + [Delivery(st.todo[0].hash, st.todo[0].name, content)];
            var cb := cbs.onBlob(|st.delivered|);
            var rest := Input(more, ending);
            var left := st.remaining - |d|;
            if cb.Refuse? then
              run == ClientRun(Err(CallbackFailed), st.(remaining := left, delivered := seen([])), rest)
            else if cb.Take? && cb.limit < |d| then
              run == ClientRun(Err(NotFullyRead), st.(remaining := left, delivered := seen(d[..cb.limit])), rest)
            else
              run == ReadBlobs(hs, cbs, st.(todo := st.todo[1..], remaining := left, delivered := seen(d)), rest)
  {
    hide ReadBlobs, BlobWire, ContentHash, Announces, AnnouncedSize, EncodeTree, DecodeTree;
    BlobAnnounced(hs, st, id, d, more, ending);
    FrontOfBlob(hs, cbs, st, Input(BlobWire(hs, id, d) + more, ending));
    HashOfContent(hs, d);
    DecodeTreeOfEncode(hs, d, 0, true, more);
  }

  lemma HashOfContent(hs: Hasher, d: seq<byte>)
    ensures ContentHash(hs, d) == Subtree(hs, d, 0, true)
  {
    hide Subtree;
  }

  lemma MissingArrives(hs: Hasher, cbs: Callbacks, st: Session, id: u64, more: seq<byte>, ending: Ending)
    requires st.todo != []
    ensures ReadBlobs(hs, cbs, st, Input(ResponseFrame(id, Res.NotFound) + more, ending))
         == Failed(DataNotFound, st, Input(more, ending))
  {
    hide LpSplit, ReadBlob, ReadBlobSize, ResponseFrame, DecodeResponse;
    var s := Input(ResponseFrame(id, Res.NotFound) + more, ending);
    FrameArrives(id, Res.NotFound, more, ending);
    assert ReadBlobs(hs, cbs, st, s) == ReadBlobResponse(hs, cbs, st, s);
  }

  // ---- the whole list ----

  /** The calls of the blob callback that the database stands for. */
  function Honest(files: Files, db: Db, blobs: seq<Blob>): seq<Delivery> {
    if blobs == [] then []
    else match Held(files, db, blobs[0].hash)
         case Some(d) => [Delivery(blobs[0].hash, blobs[0].name, d)] + Honest(files, db, blobs[1..])
         case None => []
  }

  lemma {:induction false} HonestEntries(files: Files, db: Db, blobs: seq<Blob>)
    ensures |Honest(files, db, blobs)| == FirstMissing(files, db, blobs)
    ensures forall i | 0 <= i < |Honest(files, db, blobs)| ::
              Held(files, db, blobs[i].hash) == Some(Honest(files, db, blobs)[i].content)
              && Honest(files, db, blobs)[i].hash == blobs[i].hash && Honest(files, db, blobs)[i].name == blobs[i].name
  {
    if blobs != [] && Held(files, db, blobs[0].hash).Some? {
      HonestEntries(files, db, blobs[1..]);
    }
  }

  /** The client's loop over what a well-formed database put on the wire: every blob before the first
      missing one is delivered; the run ends well if none is missing and with `DataNotFound` otherwise,
      the second not-found response still unread. */
  lemma {:induction false} LoopReceives(hs: Hasher, cbs: Callbacks, files: Files, db: Db, id: u64, st: Session)
    requires WellFormed(hs, files, db) && Draining(cbs)
    requires Sizes(Honest(files, db, st.todo)) <= st.remaining <= MAX_DATA_SIZE
    ensures var got := Honest(files, db, st.todo);
            var k := FirstMissing(files, db, st.todo);
            ReadBlobs(hs, cbs, st, Input(BlobsWire(hs, files, db, id, st.todo), Finished))
            == ClientRun(if k == |st.todo| then Ok(st.total) else Err(DataNotFound),
                         st.(todo := st.todo[k..], remaining := st.remaining - Sizes(got),
                             delivered := st.delivered + got),
                         Input(if k == |st.todo| then [] else ResponseFrame(id, Res.NotFound), Finished))
    decreases |st.todo|
  {
    hide ReadBlobs, ResponseFrame, BlobWire, Held, Subtree, WellFormed, BlobsWire, Honest, FirstMissing, Sizes;
    if st.todo == [] {
      NoBlobs(hs, files, db, id);
      NoneLeft(hs, cbs, st, Input([], Finished));
      assert st.delivered + [] == st.delivered && st.todo[0..] == [];
    } else if Held(files, db, st.todo[0].hash).None? {
      FirstIsMissing(hs, files, db, id, st.todo);
      MissingArrives(hs, cbs, st, id, ResponseFrame(id, Res.NotFound), Finished);
      assert st.delivered + [] == st.delivered && st.todo[0..] == st.todo;
    } else {
      var d := Held(files, db, st.todo[0].hash).value;
      HeldIsGenuine(hs, files, db, st.todo[0].hash);
      var call := Delivery(st.todo[0].hash, st.todo[0].name, d);
      var more := Honest(files, db, st.todo[1..]);
      FirstIsHeld(hs, files, db, id, st.todo);
      BlobArrives(hs, cbs, st, id, d, BlobsWire(hs, files, db, id, st.todo[1..]), Finished);
      var next := st.(todo := st.todo[1..], remaining := st.remaining - |d|, delivered := st.delivered + [call]);
      LoopReceives(hs, cbs, files, db, id, next);
      assert next.delivered + more == st.delivered + ([call] + more);
      var k := FirstMissing(files, db, st.todo[1..]);
      assert st.todo[1..][k..] == st.todo[k + 1..];
    }
  }

  lemma NoBlobs(hs: Hasher, files: Files, db: Db, id: u64)
    requires WellFormed(hs, files, db)
    ensures BlobsWire(hs, files, db, id, []) == [] && Honest(files, db, []) == [] && FirstMissing(files, db, []) == 0
    ensures Sizes([]) == 0
  {
  }

  lemma FirstIsMissing(hs: Hasher, files: Files, db: Db, id: u64, blobs: seq<Blob>)
    requires WellFormed(hs, files, db) && blobs != [] && Held(files, db, blobs[0].hash).None?
    ensures BlobsWire(hs, files, db, id, blobs) == ResponseFrame(id, Res.NotFound) + ResponseFrame(id, Res.NotFound)
    ensures Honest(files, db, blobs) == [] && FirstMissing(files, db, blobs) == 0 && Sizes([]) == 0
  {
    hide ResponseFrame, Held, WellFormed;
  }

  lemma FirstIsHeld(hs: Hasher, files: Files, db: Db, id: u64, blobs: seq<Blob>)
    requires WellFormed(hs, files, db) && blobs != [] && Held(files, db, blobs[0].hash).Some?
    requires |Held(files, db, blobs[0].hash).value| < U64_LIMIT
    ensures var d := Held(files, db, blobs[0].hash).value;
            var call := Delivery(blobs[0].hash, blobs[0].name, d);
            var more := Honest(files, db, blobs[1..]);
            && BlobsWire(hs, files, db, id, blobs) == BlobWire(hs, id, d) + BlobsWire(hs, files, db, id, blobs[1..])
            && Sizes([call] + more) == |d| + Sizes(more)
            && Honest(files, db, blobs) == [call] + more
    ensures FirstMissing(files, db, blobs) == 1 + FirstMissing(files, db, blobs[1..])
  {
    hide BlobWire, Held, WellFormed;
    var call := Delivery(blobs[0].hash, blobs[0].name, Held(files, db, blobs[0].hash).value);
    var more := Honest(files, db, blobs[1..]);
    assert ([call] + more)[1..] == more;
  }

  /** The client's whole run over what a provider wrote whose single write took all of the collection. */
  lemma ClientReceives(hs: Hasher, cbs: Callbacks, files: Files, db: Db, id: u64, hash: Hash,
                       data: seq<byte>, c: Collection, burst: nat)
    requires WellFormed(hs, files, db) && Draining(cbs) && IsCollection(db, hash, data, c) && |data| < U64_LIMIT
    requires Sizes(Honest(files, db, c.blobs)) <= c.totalBlobsSize <= MAX_DATA_SIZE
    requires burst >= |Encode(hs, data)|
    ensures var got := Honest(files, db, c.blobs);
            var k := FirstMissing(files, db, c.blobs);
            ReadResponse(hs, hash, cbs, Input(TransferWire(hs, files, db, id, data, c, burst), Finished))
            == ClientRun(if k == |c.blobs| then Ok(c.totalBlobsSize) else Err(DataNotFound),
                         Session(data, c.totalBlobsSize, c.totalBlobsSize - Sizes(got), c.blobs[k..], got),
                         Input(if k == |c.blobs| then [] else ResponseFrame(id, Res.NotFound), Finished))
  {
    hide ReadBlobs, ResponseFrame, LpSplit, Decode, DecodeCollection, Encode, Subtree, BlobsWire, Honest,
         FirstMissing, DecodeResponse, Sizes;
    var total := c.totalBlobsSize;
    var blobs := BlobsWire(hs, files, db, id, c.blobs);
    var content := Encode(hs, data) + blobs;
    assert TransferWire(hs, files, db, id, data, c, burst) == ResponseFrame(id, FoundCollection(total)) + content;
    FrameArrives(id, FoundCollection(total), content, Finished);
    assert WellFormedEntry(hs, files, hash, db[hash]);
    DecodeOfEncode(hs, data, blobs);
    LoopReceives(hs, cbs, files, db, id, Session(data, total, total, c.blobs, []));
    assert [] + Honest(files, db, c.blobs) == Honest(files, db, c.blobs);
  }

  // ---- missing blobs ----

  /** A collection of which blob `k` is the first one missing: the provider sends everything before it
      and exactly two not-found responses, finishes the stream and reports the transfer as aborted; the
      client delivers exactly the blobs before it and fails, the second response unread. */
  lemma PartialCollection(hs: Hasher, cbs: Callbacks, files: Files, db: Db, token: Hash, connection: u64,
                          hash: Hash, data: seq<byte>, c: Collection, burst: nat, k: nat)
    requires WellFormed(hs, files, db) && Draining(cbs) && IsCollection(db, hash, data, c)
    requires k == FirstMissing(files, db, c.blobs) < |c.blobs|
    requires Sizes(Honest(files, db, c.blobs)) <= c.totalBlobsSize <= MAX_DATA_SIZE
    requires |data| < U64_LIMIT && burst >= |Encode(hs, data)|
    ensures var run := Serve(db, files, token, connection, Input(ClientSends(token, hash), Finished),
                             FRESH, None, burst);
            var nf := ResponseFrame(1, Res.NotFound);
            && run.events == [RequestReceived(connection, 1, hash), TransferAborted(connection, Some(1))]
            && run.result == Ok(()) && run.writer.finished
            && run.writer.sent == TransferWire(hs, files, db, 1, data, c.(blobs := c.blobs[..k]), burst) + nf + nf
            && var got := ReadResponse(hs, hash, cbs, Input(run.writer.sent, Finished));
               got.result == Err(DataNotFound) && got.session.delivered == Honest(files, db, c.blobs)
               && |got.session.delivered| == k && got.rest == Input(nf, Finished)
    ensures !InDb(db, c.blobs[k].hash)
    ensures forall i | 0 <= i < k ::
              && InDb(db, c.blobs[i].hash) && db[c.blobs[i].hash].path in files.content
              && Honest(files, db, c.blobs)[i]
                 == Delivery(c.blobs[i].hash, c.blobs[i].name, files.content[db[c.blobs[i].hash].path])
  {
    hide Serve, TransferWire, Reading, ReadResponse, Honest, FirstMissing, DecodeCollection, Subtree;
    RequestArrives(token, hash);
    Served(hs, files, db, token, connection, Input(ClientSends(token, hash), Finished), burst,
           Request(1, hash), data, c);
    ClientReceives(hs, cbs, files, db, 1, hash, data, c, burst);
    HonestEntries(files, db, c.blobs);
    MissingExactly(hs, files, db, c.blobs, k);
    WireOfMissing(hs, files, db, 1, c.blobs);
    WireOfPrefix(hs, files, db, data, c, burst, k);
  }

  lemma WireOfPrefix(hs: Hasher, files: Files, db: Db, data: seq<byte>, c: Collection, burst: nat, k: nat)
    requires WellFormed(hs, files, db) && |data| < U64_LIMIT && k <= |c.blobs|
    ensures var nf := ResponseFrame(1, Res.NotFound);
            BlobsWire(hs, files, db, 1, c.blobs) == BlobsWire(hs, files, db, 1, c.blobs[..k]) + nf + nf ==>
              TransferWire(hs, files, db, 1, data, c, burst)
              == TransferWire(hs, files, db, 1, data, c.(blobs := c.blobs[..k]), burst) + nf + nf
  {
    hide BlobsWire, ResponseFrame, Encode;
  }

  lemma {:induction false} WireOfMissing(hs: Hasher, files: Files, db: Db, id: u64, blobs: seq<Blob>)
    requires WellFormed(hs, files, db) && FirstMissing(files, db, blobs) < |blobs|
    ensures var nf := ResponseFrame(id, Res.NotFound);
            BlobsWire(hs, files, db, id, blobs)
            == BlobsWire(hs, files, db, id, blobs[..FirstMissing(files, db, blobs)]) + nf + nf
  {
    hide ResponseFrame, BlobWire, Held, WellFormed;
    var k := FirstMissing(files, db, blobs);
    var nf := ResponseFrame(id, Res.NotFound);
    if k == 0 {
      assert blobs[..0] == [] && nf + nf == [] + nf + nf;
    } else {
      var d := Held(files, db, blobs[0].hash).value;
      HeldIsGenuine(hs, files, db, blobs[0].hash);
      WireOfMissing(hs, files, db, id, blobs[1..]);
      assert blobs[..k][1..] == blobs[1..][..k - 1] && blobs[..k][0] == blobs[0];
      var tail := BlobsWire(hs, files, db, id, blobs[1..][..k - 1]);
      assert BlobWire(hs, id, d) + (tail + nf + nf) == BlobWire(hs, id, d) + tail + nf + nf;
    }
  }
}
