/** What a provider puts on the wire, and what its completion events mean. */
module Wire {
  import opened Base
  import opened Streams
  import opened Messages
  import opened Blobs
  import opened Bao
  import opened Database
  import opened Provider

  const FRESH: Sender := Sender([], false, true)

  function OutputOne(op: Op, burst: nat): seq<byte> {
    match op
    case WriteAll(b) => b
    case WriteOnce(b) => Accepted(burst, b)
    case _ => []
  }

  /** All bytes that some operations write if none fails. */
  function Output(ops: seq<Op>, burst: nat): seq<byte> {
    if ops == [] then [] else OutputOne(ops[0], burst) + Output(ops[1..], burst)
  }

  predicate Clean(ops: seq<Op>) {
    forall i | 0 <= i < |ops| :: !ops[i].Fail?
  }

  predicate Finishes(ops: seq<Op>) {
    ops != [] && ops[|ops| - 1].Finish?
  }

  lemma {:induction false} OutputAppend(a: seq<Op>, b: seq<Op>, burst: nat)
    ensures Output(a + b, burst) == Output(a, burst) + Output(b, burst)
  {
    if a == [] {
      assert a + b == b;
    } else {
      assert (a + b)[1..] == a[1..] + b;
      OutputAppend(a[1..], b, burst);
    }
  }

  /** Without a stop from the peer, clean operations succeed. */
  lemma {:induction false} Unstopped(ops: seq<Op>, w: Sender, burst: nat)
    requires w.ok && Clean(ops)
    ensures Execute(ops, w, None, burst).ok
  {
    if ops != [] {
      Unstopped(ops[1..], ExecuteOne(ops[0], w, None, burst), burst);
    }
  }

  /** A stopped stream cannot be finished. */
  lemma {:induction false} StoppedFails(ops: seq<Op>, w: Sender, quota: Option<nat>, burst: nat)
    requires quota.Some? && |w.sent| == quota.value && Finishes(ops)
    ensures !Execute(ops, w, quota, burst).ok
  {
    if w.ok && |ops| > 1 {
      StoppedFails(ops[1..], ExecuteOne(ops[0], w, quota, burst), quota, burst);
    } else {
      assert |ops| == 1 ==> ops[1..] == [];
    }
  }

  /** If operations that finish the stream succeed, everything they write was taken and the stream is
      finished; a peer that stops it anywhere makes them fail. */
  lemma {:induction false} SuccessWritesAll(ops: seq<Op>, w: Sender, quota: Option<nat>, burst: nat)
    requires w.ok && Fits(quota, w.sent) && Finishes(ops) && Execute(ops, w, quota, burst).ok
    ensures Execute(ops, w, quota, burst) == Sender(w.sent + Output(ops, burst), true, true)
    ensures Clean(ops)
  {
    hide ExecuteOne, OutputOne, Execute, Output;
    var w1 := ExecuteOne(ops[0], w, quota, burst);
    StepTakes(ops[0], w, quota, burst);
    FirstStep(ops, w, quota, burst);
    if |ops| > 1 {
      if quota.Some? && |w1.sent| == quota.value {
        StoppedFails(ops[1..], w1, quota, burst);
      }
      SuccessWritesAll(ops[1..], w1, quota, burst);
      assert forall i | 1 <= i < |ops| :: ops[i] == ops[1..][i - 1];
      assert w.sent + OutputOne(ops[0], burst) + Output(ops[1..], burst)
          == w.sent + (OutputOne(ops[0], burst) + Output(ops[1..], burst));
    }
  }

  lemma FirstStep(ops: seq<Op>, w: Sender, quota: Option<nat>, burst: nat)
    requires w.ok && Finishes(ops)
    ensures var w1 := ExecuteOne(ops[0], w, quota, burst);
            && Execute(ops, w, quota, burst) == (if |ops| == 1 then w1 else Execute(ops[1..], w1, quota, burst))
            && (|ops| > 1 && Execute(ops[1..], w1, quota, burst).ok ==> w1.ok)
    ensures Output(ops, burst) == OutputOne(ops[0], burst) + (if |ops| == 1 then [] else Output(ops[1..], burst))
    ensures |ops| > 1 ==> Finishes(ops[1..])
    ensures |ops| == 1 ==> ops[0].Finish?
  {
    hide ExecuteOne, OutputOne;
    if |ops| == 1 {
      assert ops[1..] == [];
    }
  }

  lemma StepTakes(op: Op, w: Sender, quota: Option<nat>, burst: nat)
    requires w.ok && Fits(quota, w.sent)
    ensures var w1 := ExecuteOne(op, w, quota, burst);
            && (w1.ok ==> !op.Fail?)
            && (w1.ok && !(quota.Some? && |w1.sent| == quota.value) ==>
                  w1.sent == w.sent + OutputOne(op, burst) && Fits(quota, w1.sent))
            && (op.Finish? && w1.ok ==> w1 == Sender(w.sent + OutputOne(op, burst), true, true))
  {
    assert w.sent + [] == w.sent;
  }

  predicate FinishOnlyLast(ops: seq<Op>) {
    forall i | 0 <= i < |ops| - 1 :: !ops[i].Finish?
  }

  lemma {:induction false} BlobsFinishLast(db: Db, files: Files, id: u64, blobs: seq<Blob>)
    ensures FinishOnlyLast(BlobsPlan(db, files, id, blobs).ops) && BlobsPlan(db, files, id, blobs).ops != []
  {
    hide ResponseFrame, Extract;
    if blobs != [] {
      BlobsFinishLast(db, files, id, blobs[1..]);
    }
  }

  lemma PlanFinishesLast(db: Db, files: Files, request: Request)
    ensures FinishOnlyLast(ReplyPlan(db, files, request).ops)
  {
    hide ResponseFrame, Extract, BlobsPlan, DecodeCollection;
    if request.name in db && db[request.name].CollectionEntry? {
      var c := DecodeCollection(db[request.name].data);
      if c.Some? {
        BlobsFinishLast(db, files, request.id, c.value.blobs);
      }
    }
  }

  lemma {:induction false} BlobsPlanFinishes(db: Db, files: Files, id: u64, blobs: seq<Blob>)
    ensures Finishes(BlobsPlan(db, files, id, blobs).ops)
  {
    hide ResponseFrame, Extract;
    if blobs != [] {
      BlobsPlanFinishes(db, files, id, blobs[1..]);
    }
  }

  /** A plan finishes the stream or fails before it writes anything. */
  lemma PlanFinishesOrFails(db: Db, files: Files, request: Request)
    ensures var ops := ReplyPlan(db, files, request).ops; Finishes(ops) || ops == [Fail]
  {
    hide ResponseFrame, Extract, BlobsPlan, DecodeCollection;
    if request.name in db && db[request.name].CollectionEntry? {
      var c := DecodeCollection(db[request.name].data);
      if c.Some? {
        BlobsPlanFinishes(db, files, request.id, c.value.blobs);
      }
    }
  }

  /** What is served either finishes the stream or ends in an error and, at most, an aborted transfer. */
  lemma FinishedOrAborted(db: Db, files: Files, token: Hash, connection: u64, s: Input, burst: nat)
    ensures var run := Serve(db, files, token, connection, s, FRESH, None, burst);
            || (run.result == Ok(()) && run.writer.finished)
            || (!run.result.Ok? && !run.writer.finished
                && (run.events == [] || run.events == [TransferAborted(connection, None)]
                    || (Reading(token, s).Ok?
                        && run.events == [RequestReceived(connection, Reading(token, s).value.id,
                                                          Reading(token, s).value.name),
                                          TransferAborted(connection, Some(Reading(token, s).value.id))])))
  {
    hide Reading, ReplyPlan, Execute;
    if Reading(token, s).Ok? {
      var request := Reading(token, s).value;
      var ops := ReplyPlan(db, files, request).ops;
      PlanFinishesOrFails(db, files, request);
      PlanFinishesLast(db, files, request);
      if ops == [Fail] {
        ExecuteSingle(Fail, FRESH, None, burst);
      } else if Execute(ops, FRESH, None, burst).ok {
        SuccessWritesAll(ops, FRESH, None, burst);
      } else {
        FailsUnfinished(ops, FRESH, burst);
      }
    }
  }

  /** Operations that finish the stream last, if at all, and fail leave it unfinished. */
  lemma {:induction false} FailsUnfinished(ops: seq<Op>, w: Sender, burst: nat)
    requires w.ok && !w.finished && FinishOnlyLast(ops) && !Execute(ops, w, None, burst).ok
    ensures !Execute(ops, w, None, burst).finished
  {
    if ops != [] {
      var w1 := ExecuteOne(ops[0], w, None, burst);
      if |ops| == 1 {
        ExecuteSingle(ops[0], w, None, burst);
        assert ops == [ops[0]];
      } else if w1.ok {
        FailsUnfinished(ops[1..], w1, burst);
      }
    }
  }

  // ---- the wire ----

  /** The content that a database leads to from a blob's hash. */
  function Held(files: Files, db: Db, h: Hash): Option<seq<byte>> {
    if h in db && db[h].BlobEntry? && db[h].path in files.content then Some(files.content[db[h].path]) else None
  }

  /** Position of the first blob that is missing, or the number of blobs. */
  function FirstMissing(files: Files, db: Db, blobs: seq<Blob>): (k: nat)
    ensures k <= |blobs|
    ensures forall i | 0 <= i < k :: Held(files, db, blobs[i].hash).Some?
    ensures k < |blobs| ==> Held(files, db, blobs[k].hash).None?
  {
    if blobs == [] || Held(files, db, blobs[0].hash).None? then 0 else 1 + FirstMissing(files, db, blobs[1..])
  }

  function BlobWire(hs: Hasher, id: u64, d: seq<byte>): seq<byte>
    requires |d| < U64_LIMIT
  {
    ResponseFrame(id, Found) + Encode(hs, d)
  }

  /** Every blob up to the first missing one, which is answered by two not-found responses. */
  function BlobsWire(hs: Hasher, files: Files, db: Db, id: u64, blobs: seq<Blob>): seq<byte>
    requires WellFormed(hs, files, db)
  {
    if blobs == [] then []
    else match Held(files, db, blobs[0].hash)
         case Some(d) => HeldIsGenuine(hs, files, db, blobs[0].hash);
                         BlobWire(hs, id, d) + BlobsWire(hs, files, db, id, blobs[1..])
         case None => ResponseFrame(id, Res.NotFound) + ResponseFrame(id, Res.NotFound)
  }

  lemma HeldIsGenuine(hs: Hasher, files: Files, db: Db, h: Hash)
    requires WellFormed(hs, files, db) && Held(files, db, h).Some?
    ensures var d := Held(files, db, h).value;
            ContentHash(hs, d) == h && |d| < U64_LIMIT && db[h] == BlobEntry(Outboard(hs, d), db[h].path, |d|)
  {
    assert WellFormedEntry(hs, files, h, db[h]);
  }

  /** The operations for a list of blobs write exactly this. */
  lemma {:induction false} BlobsPlanWire(hs: Hasher, files: Files, db: Db, id: u64, blobs: seq<Blob>, burst: nat)
    requires WellFormed(hs, files, db)
    ensures var plan := BlobsPlan(db, files, id, blobs);
            && Output(plan.ops, burst) == BlobsWire(hs, files, db, id, blobs)
            && Clean(plan.ops) && Finishes(plan.ops)
            && (plan.status.Sent? <==> FirstMissing(files, db, blobs) == |blobs|)
  {
    hide BlobsPlan, BlobsWire, FirstMissing, Held, WellFormed, Output, Clean, Finishes;
    if blobs == [] {
      NoBlobsWire(hs, files, db, id, burst);
    } else if Held(files, db, blobs[0].hash).Some? {
      BlobsPlanWire(hs, files, db, id, blobs[1..], burst);
      HeldFirst(hs, files, db, id, blobs, burst);
    } else {
      MissingFirst(hs, files, db, id, blobs, burst);
    }
  }

  lemma NoBlobsWire(hs: Hasher, files: Files, db: Db, id: u64, burst: nat)
    requires WellFormed(hs, files, db)
    ensures PlanWrites(BlobsPlan(db, files, id, []), BlobsWire(hs, files, db, id, []), true, burst)
    ensures FirstMissing(files, db, []) == 0
  {
    assert [Finish][1..] == [];
  }

  /** Operations that write just these bytes and finish the stream, and whether everything is sent by then. */
  predicate PlanWrites(plan: Plan, bytes: seq<byte>, sent: bool, burst: nat) {
    Output(plan.ops, burst) == bytes && Clean(plan.ops) && Finishes(plan.ops) && plan.status.Sent? == sent
  }

  lemma HeldFirst(hs: Hasher, files: Files, db: Db, id: u64, blobs: seq<Blob>, burst: nat)
    requires WellFormed(hs, files, db) && blobs != [] && Held(files, db, blobs[0].hash).Some?
    requires PlanWrites(BlobsPlan(db, files, id, blobs[1..]), BlobsWire(hs, files, db, id, blobs[1..]),
                        FirstMissing(files, db, blobs[1..]) == |blobs| - 1, burst)
    ensures PlanWrites(BlobsPlan(db, files, id, blobs), BlobsWire(hs, files, db, id, blobs),
                       FirstMissing(files, db, blobs) == |blobs|, burst)
  {
    hide ResponseFrame, Encode, Extract, Outboard, Subtree, Output, WellFormed;
    var h := blobs[0].hash;
    var d := Held(files, db, h).value;
    HeldIsGenuine(hs, files, db, h);
    ExtractIsEncode(hs, d, d);
    var found, content := ResponseFrame(id, Found), Encode(hs, d);
    assert BlobPlan(db, files, id, h).ops == [WriteAll(found), WriteAll(content)];
    TwoWrites(found, content, burst);
    OutputAppend([WriteAll(found), WriteAll(content)], BlobsPlan(db, files, id, blobs[1..]).ops, burst);
  }

  lemma MissingFirst(hs: Hasher, files: Files, db: Db, id: u64, blobs: seq<Blob>, burst: nat)
    requires WellFormed(hs, files, db) && blobs != [] && Held(files, db, blobs[0].hash).None?
    ensures PlanWrites(BlobsPlan(db, files, id, blobs), BlobsWire(hs, files, db, id, blobs), false, burst)
    ensures FirstMissing(files, db, blobs) == 0
  {
    hide ResponseFrame, Outboard, Subtree, Extract, Output;
    var h := blobs[0].hash;
    assert h in db ==> WellFormedEntry(hs, files, h, db[h]);
    var nf := ResponseFrame(id, Res.NotFound);
    var plan := BlobsPlan(db, files, id, blobs);
    assert plan.ops == [WriteAll(nf), WriteAll(nf)] + [Finish];
    TwoWrites(nf, nf, burst);
    OutputAppend([WriteAll(nf), WriteAll(nf)], [Finish], burst);
    FinishWritesNothing(burst);
  }

  lemma FinishWritesNothing(burst: nat)
    ensures Output([Finish], burst) == []
  {
    assert [Finish][1..] == [];
  }

  lemma TwoWrites(a: seq<byte>, b: seq<byte>, burst: nat)
    ensures Output([WriteAll(a), WriteAll(b)], burst) == a + b
  {
    var ops := [WriteAll(a), WriteAll(b)];
    assert ops[1..] == [WriteAll(b)] && [WriteAll(b)][1..] == [];
    assert Output([WriteAll(b)], burst) == b + [] == b;
  }

  /** Announcement, as much of the collection's content as a single write takes, and the blobs. */
  function TransferWire(hs: Hasher, files: Files, db: Db, id: u64, data: seq<byte>, c: Collection,
                        burst: nat): seq<byte>
    requires WellFormed(hs, files, db) && |data| < U64_LIMIT
  {
    ResponseFrame(id, FoundCollection(c.totalBlobsSize)) + Accepted(burst, Encode(hs, data))
    + BlobsWire(hs, files, db, id, c.blobs)
  }

  predicate IsCollection(db: Db, h: Hash, data: seq<byte>, c: Collection) {
    h in db && db[h].CollectionEntry? && db[h].data == data && DecodeCollection(data) == Some(c)
  }

  lemma TransferPlanWire(hs: Hasher, files: Files, db: Db, id: u64, h: Hash, data: seq<byte>, c: Collection, burst: nat)
    requires WellFormed(hs, files, db) && IsCollection(db, h, data, c)
    ensures |data| < U64_LIMIT && ContentHash(hs, data) == h
    ensures var plan := TransferPlan(db, files, id, db[h].outboard, data);
            && Output(plan.ops, burst) == TransferWire(hs, files, db, id, data, c, burst)
            && Clean(plan.ops) && Finishes(plan.ops)
            && (plan.status.Sent? <==> FirstMissing(files, db, c.blobs) == |c.blobs|)
  {
    hide ResponseFrame, Encode, Extract, Outboard, BlobsPlan, BlobsWire, FirstMissing, Output, DecodeCollection,
         Subtree, Execute;
    assert WellFormedEntry(hs, files, h, db[h]);
    ExtractIsEncode(hs, data, data);
    BlobsPlanWire(hs, files, db, id, c.blobs, burst);
    var head := CollectionOps(id, c.totalBlobsSize, Encode(hs, data));
    var blobs := BlobsPlan(db, files, id, c.blobs);
    OutputAppend(head, blobs.ops, burst);
    HeadWire(id, c.totalBlobsSize, Encode(hs, data), burst);
  }

  lemma HeadWire(id: u64, total: u64, encoded: seq<byte>, burst: nat)
    ensures Output(CollectionOps(id, total, encoded), burst)
         == ResponseFrame(id, FoundCollection(total)) + Accepted(burst, encoded)
    ensures Clean(CollectionOps(id, total, encoded))
  {
    hide ResponseFrame;
    var head := CollectionOps(id, total, encoded);
    assert head[1..] == [WriteOnce(encoded)] && [WriteOnce(encoded)][1..] == [];
    assert Output([WriteOnce(encoded)], burst) == Accepted(burst, encoded) + [] == Accepted(burst, encoded);
  }

  /** A completed transfer is only reported after the announcement, what a single write took of the
      collection, and every blob of it in full were written and the stream was finished. */
  lemma CompletionMeansWritten(hs: Hasher, files: Files, db: Db, token: Hash, connection: u64, s: Input,
                               quota: Option<nat>, burst: nat, id: u64)
    requires WellFormed(hs, files, db)
    requires TransferCompleted(connection, id) in Serve(db, files, token, connection, s, FRESH, quota, burst).events
    ensures var run := Serve(db, files, token, connection, s, FRESH, quota, burst);
            exists request, data, c ::
              && Reading(token, s) == Ok(request) && request.id == id && IsCollection(db, request.name, data, c)
              && |data| < U64_LIMIT && FirstMissing(files, db, c.blobs) == |c.blobs|
              && run.writer == Sender(TransferWire(hs, files, db, id, data, c, burst), true, true)
  {
    hide TransferPlan, Execute, TransferWire, Reading, DecodeCollection;
    var request := Reading(token, s).value;
    var plan := ReplyPlan(db, files, request);
    var data := db[request.name].data;
    if DecodeCollection(data).None? {
      NotDecodable(db, files, id, db[request.name].outboard, data, quota, burst);
    } else {
      var c := DecodeCollection(data).value;
      TransferPlanWire(hs, files, db, id, request.name, data, c, burst);
      SuccessWritesAll(plan.ops, FRESH, quota, burst);
      assert [] + Output(plan.ops, burst) == Output(plan.ops, burst);
      assert IsCollection(db, request.name, data, c);
    }
  }

  lemma NotDecodable(db: Db, files: Files, id: u64, outboard: seq<byte>, data: seq<byte>, quota: Option<nat>,
                     burst: nat)
    requires DecodeCollection(data).None?
    ensures !Execute(TransferPlan(db, files, id, outboard, data).ops, FRESH, quota, burst).ok
  {
    ExecuteSingle(Fail, FRESH, quota, burst);
  }

  /** Without a stop from the peer, a request for a collection of a well-formed database is served to
      the end: completed if every blob is there, reported as aborted otherwise. */
  lemma Served(hs: Hasher, files: Files, db: Db, token: Hash, connection: u64, s: Input, burst: nat,
               request: Request, data: seq<byte>, c: Collection)
    requires WellFormed(hs, files, db) && Reading(token, s) == Ok(request) && IsCollection(db, request.name, data, c)
    ensures |data| < U64_LIMIT
    ensures Serve(db, files, token, connection, s, FRESH, None, burst)
         == StreamRun(Ok(()),
                      [RequestReceived(connection, request.id, request.name),
                       if FirstMissing(files, db, c.blobs) == |c.blobs| then TransferCompleted(connection, request.id)
                       else TransferAborted(connection, Some(request.id))],
                      Sender(TransferWire(hs, files, db, request.id, data, c, burst), true, true))
  {
    hide TransferPlan, Execute, TransferWire, Reading, FirstMissing, DecodeCollection;
    TransferPlanWire(hs, files, db, request.id, request.name, data, c, burst);
    var plan := ReplyPlan(db, files, request);
    Unstopped(plan.ops, FRESH, burst);
    SuccessWritesAll(plan.ops, FRESH, None, burst);
    assert [] + Output(plan.ops, burst) == Output(plan.ops, burst);
  }

  /** A request whose hash names no collection is answered by one not-found response and the end of the
      stream, and its transfer is reported as aborted; a peer that stops the stream gets a part of that. */
  lemma MissingCollection(db: Db, files: Files, token: Hash, connection: u64, s: Input, w: Sender,
                          quota: Option<nat>, burst: nat, request: Request)
    requires Reading(token, s) == Ok(request) && w.ok && !w.finished && Fits(quota, w.sent)
    requires !(request.name in db && db[request.name].CollectionEntry?)
    ensures var run := Serve(db, files, token, connection, s, w, quota, burst);
            var all := w.sent + ResponseFrame(request.id, Res.NotFound);
            var taken := quota.None? || |all| < quota.value;
            && run.result == (if taken then Ok(()) else Err(IoFailed))
            && run.events == [RequestReceived(connection, request.id, request.name),
                              TransferAborted(connection, Some(request.id))]
            && run.writer == Sender(Cut(quota, all), taken, taken)
  {
    hide Reading, ResponseFrame, Execute;
    GiveUp(request.id, w, quota, burst);
    var w1 := ExecuteOne(WriteAll(ResponseFrame(request.id, Res.NotFound)), w, quota, burst);
    if w1.ok {
      Close(w1, quota, burst);
    }
  }

  /** A collection entry that does not decode: nothing is written and the transfer is reported as aborted. */
  lemma UndecodableCollection(db: Db, files: Files, token: Hash, connection: u64, s: Input, w: Sender,
                              quota: Option<nat>, burst: nat, request: Request)
    requires Reading(token, s) == Ok(request) && w.ok && request.name in db && db[request.name].CollectionEntry?
    requires DecodeCollection(db[request.name].data).None?
    ensures var run := Serve(db, files, token, connection, s, w, quota, burst);
            && run.result == Err(IoFailed) && run.writer == w.(ok := false)
            && run.events == [RequestReceived(connection, request.id, request.name),
                              TransferAborted(connection, Some(request.id))]
  {
    hide Reading, Execute, DecodeCollection;
    FailOnly(w, quota, burst);
  }

  /** An accepted request is always reported, and then its transfer, as completed only if serving succeeded. */
  lemma AcceptedIsReported(db: Db, files: Files, token: Hash, connection: u64, s: Input, w: Sender,
                           quota: Option<nat>, burst: nat, request: Request)
    requires Reading(token, s) == Ok(request)
    ensures var run := Serve(db, files, token, connection, s, w, quota, burst);
            && |run.events| == 2 && run.events[0] == RequestReceived(connection, request.id, request.name)
            && run.events[1] in {TransferCompleted(connection, request.id),
                                 TransferAborted(connection, Some(request.id))}
            && run.result in {Ok(()), Err(IoFailed)}
            && (run.events[1].TransferCompleted? ==> run.result.Ok?)
  {
    hide Reading, Execute, ReplyPlan;
  }

  /** Where no request is accepted nothing is written: the transfer is reported as aborted without an id,
      or nothing is reported at all if reading panicked. */
  lemma NothingServed(db: Db, files: Files, token: Hash, connection: u64, s: Input, w: Sender,
                      quota: Option<nat>, burst: nat)
    requires !Reading(token, s).Ok?
    ensures var run := Serve(db, files, token, connection, s, w, quota, burst);
            && run.writer == w
            && match Reading(token, s)
               case Err(e) => run.result == Err(e) && run.events == [TransferAborted(connection, None)]
               case Panic => run.result == Panic && run.events == []
               case Ok(_) => false
  {
    hide Reading;
  }

  // ---- byte by byte ----

  predicate InDb(db: Db, h: Hash) {
    h in db && db[h].BlobEntry?
  }

  /** The first blob that is not in the database is the first one missing. */
  lemma MissingExactly(hs: Hasher, files: Files, db: Db, blobs: seq<Blob>, k: nat)
    requires WellFormed(hs, files, db) && k <= |blobs|
    ensures FirstMissing(files, db, blobs) == k
            <==> (forall i | 0 <= i < k :: InDb(db, blobs[i].hash)) && (k < |blobs| ==> !InDb(db, blobs[k].hash))
  {
    hide FirstMissing;
    forall i | 0 <= i < |blobs| ensures InDb(db, blobs[i].hash) <==> Held(files, db, blobs[i].hash).Some? {
      if InDb(db, blobs[i].hash) {
        assert WellFormedEntry(hs, files, blobs[i].hash, db[blobs[i].hash]);
      }
    }
    var m := FirstMissing(files, db, blobs);
    assert m < |blobs| ==> !InDb(db, blobs[m].hash);
    assert forall i | 0 <= i < m :: InDb(db, blobs[i].hash);
  }

  lemma {:induction false} BlobsWireParts(hs: Hasher, files: Files, db: Db, id: u64, blobs: seq<Blob>)
    returns (parts: seq<seq<byte>>)
    requires WellFormed(hs, files, db) && FirstMissing(files, db, blobs) == |blobs|
    ensures |parts| == |blobs| && Joined(parts) == BlobsWire(hs, files, db, id, blobs)
    ensures forall i | 0 <= i < |blobs| ::
              && Held(files, db, blobs[i].hash).Some? && |Held(files, db, blobs[i].hash).value| < U64_LIMIT
              && parts[i] == ResponseFrame(id, Found) + Encode(hs, Held(files, db, blobs[i].hash).value)
  {
    hide ResponseFrame, Encode, Held, WellFormed;
    if blobs == [] {
      parts := [];
    } else {
      HeldIsGenuine(hs, files, db, blobs[0].hash);
      var others := BlobsWireParts(hs, files, db, id, blobs[1..]);
      parts := [BlobWire(hs, id, Held(files, db, blobs[0].hash).value)] + others;
      assert parts[1..] == others;
      assert forall i | 1 <= i < |blobs| :: blobs[i] == blobs[1..][i - 1] && parts[i] == others[i - 1];
    }
  }

  /** What a client of a complete collection is sent: the announcement, what the single write took of the
      collection's encoding, and for every blob in order a found response and its file's encoding. */
  lemma WireParts(hs: Hasher, files: Files, db: Db, id: byte, data: seq<byte>, c: Collection, burst: nat)
    returns (parts: seq<seq<byte>>)
    requires WellFormed(hs, files, db) && |data| < U64_LIMIT && id < 128
    requires forall b | b in c.blobs :: InDb(db, b.hash)
    ensures |parts| == |c.blobs|
    ensures forall i | 0 <= i < |c.blobs| ::
              && InDb(db, c.blobs[i].hash) && db[c.blobs[i].hash].path in files.content
              && var d := files.content[db[c.blobs[i].hash].path];
                 |d| < U64_LIMIT && parts[i] == [2, 0, 0, 0, 0, 0, 0, 0, id, 1] + Encode(hs, d)
    ensures var total := Postcard.Varint(c.totalBlobsSize);
            && |total| <= 10
            && TransferWire(hs, files, db, id, data, c, burst)
               == [2 + |total|, 0, 0, 0, 0, 0, 0, 0, id, 2] + total + Accepted(burst, Encode(hs, data)) + Joined(parts)
  {
    hide ResponseFrame, Encode, WellFormed, BlobsWire, FirstMissing, Postcard.Varint;
    MissingExactly(hs, files, db, c.blobs, |c.blobs|);
    parts := BlobsWireParts(hs, files, db, id, c.blobs);
    FrameBytes(id, c.totalBlobsSize);
    Postcard.VarintLength(c.totalBlobsSize);
  }

  // ---- files that have only grown ----

  /** Every file is still there and begins with what it was. */
  predicate Grown(built: Files, files: Files) {
    forall p | p in built.content :: p in files.content && built.content[p] <= files.content[p]
  }

  /** What has been appended to files since the database was built makes no difference to a provider. */
  lemma {:induction false} GrownBlobsPlan(hs: Hasher, built: Files, files: Files, db: Db, id: u64, blobs: seq<Blob>)
    requires WellFormed(hs, built, db) && Grown(built, files)
    ensures BlobsPlan(db, files, id, blobs) == BlobsPlan(db, built, id, blobs)
  {
    hide ResponseFrame, Outboard, Extract, Subtree, Grown, WellFormed;
    if blobs != [] {
      GrownBlobsPlan(hs, built, files, db, id, blobs[1..]);
      GrownBlobPlan(hs, built, files, db, id, blobs[0].hash);
    }
  }

  lemma GrownBlobPlan(hs: Hasher, built: Files, files: Files, db: Db, id: u64, h: Hash)
    requires WellFormed(hs, built, db) && Grown(built, files)
    ensures BlobPlan(db, files, id, h) == BlobPlan(db, built, id, h)
  {
    hide ResponseFrame, Outboard, Extract, Subtree;
    if h in db && db[h].BlobEntry? {
      assert WellFormedEntry(hs, built, h, db[h]);
      var d := built.content[db[h].path];
      ExtractIsEncode(hs, d, d);
      ExtractIsEncode(hs, d, files.content[db[h].path]);
    }
  }

  lemma GrownServesAlike(hs: Hasher, built: Files, files: Files, db: Db, token: Hash, connection: u64, s: Input,
                         w: Sender, quota: Option<nat>, burst: nat)
    requires WellFormed(hs, built, db) && Grown(built, files)
    ensures Serve(db, files, token, connection, s, w, quota, burst)
         == Serve(db, built, token, connection, s, w, quota, burst)
  {
    hide BlobsPlan, Execute, Extract, DecodeCollection, Reading, WellFormed, Grown;
    if Reading(token, s).Ok? {
      var request := Reading(token, s).value;
      if request.name in db && db[request.name].CollectionEntry? {
        var c := DecodeCollection(db[request.name].data);
        if c.Some? {
          GrownBlobsPlan(hs, built, files, db, request.id, c.value.blobs);
        }
      }
    }
  }
}
