/**
 Requests that a provider does not answer to the end: a wrong token, a collection entry that does not
 decode, a file that has vanished or become shorter since the database was built.
 */
module Refusals {
  import opened Base
  import opened Streams
  import Protocol
  import opened Messages
  import opened Blobs
  import opened Bao
  import opened Database
  import opened Provider
  import opened Wire
  import opened Get
  import opened Integrity
  import EndToEnd
  import opened Transfer
  import opened Task
  import opened Interleaving
  import opened System

  // ---- when a provider answers to the end ----

  /** The blob's file is there and no shorter than recorded. */
  predicate Ready(files: Files, e: Entry)
    requires e.BlobEntry?
  {
    e.path in files.content && |files.content[e.path]| >= e.size
  }

  /** All blobs before the first one that is not in the database are ready. */
  predicate AllReady(files: Files, db: Db, blobs: seq<Blob>) {
    blobs == [] || !(blobs[0].hash in db && db[blobs[0].hash].BlobEntry?)
    || (Ready(files, db[blobs[0].hash]) && AllReady(files, db, blobs[1..]))
  }

  /** One blob of a database built from `built`, sent while the files are `files`. */
  lemma BlobExecutes(hs: Hasher, built: Files, files: Files, db: Db, h: Hash, w: Sender, burst: nat)
    requires WellFormed(hs, built, db) && h in db && db[h].BlobEntry? && w.ok
    ensures var plan := BlobPlan(db, files, 1, h);
            var w1 := Execute(plan.ops, w, None, burst);
            && plan.status.Sent? && w1.ok == Ready(files, db[h]) && w1.finished == w.finished
            && (if w1.ok then |w1.sent| == |w.sent| + 10 + EncodedSize(db[h].size)
                else |w1.sent| < |w.sent| + 10 + EncodedSize(db[h].size))
  {
    hide ResponseFrame, Outboard, Extract, Subtree, TreeSize, Execute, ContentOps;
    assert WellFormedEntry(hs, built, h, db[h]);
    var BlobEntry(outboard, path, size) := db[h];
    FoundLength();
    ExecuteAppend([WriteAll(ResponseFrame(1, Found))], ContentOps(files, path, outboard, size), w, None, burst);
    ExecuteSingle(WriteAll(ResponseFrame(1, Found)), w, None, burst);
    ContentExecutes(hs, built.content[path], files, path, w.(sent := w.sent + ResponseFrame(1, Found)), burst);
  }

  lemma ContentExecutes(hs: Hasher, d: seq<byte>, files: Files, path: Path, w: Sender, burst: nat)
    requires |d| < U64_LIMIT && w.ok
    ensures var w1 := Execute(ContentOps(files, path, Outboard(hs, d), |d|), w, None, burst);
            && w1.ok == (path in files.content && |files.content[path]| >= |d|) && w1.finished == w.finished
            && (if w1.ok then |w1.sent| == |w.sent| + EncodedSize(|d|) else |w1.sent| < |w.sent| + EncodedSize(|d|))
  {
    hide Outboard, Extract, TreeSize, Execute;
    if path !in files.content {
      FailOnly(w, None, burst);
    } else {
      ExtractFits(hs, d, files.content[path]);
      var b := Extract(Outboard(hs, d), files.content[path], |d|).bytes;
      ExecuteSingle(WriteAll(b), w, None, burst);
      assert [WriteAll(b)] + [Fail] == [WriteAll(b), Fail];
      ExecuteAppend([WriteAll(b)], [Fail], w, None, burst);
      FailOnly(w.(sent := w.sent + b), None, burst);
    }
  }

  /** A missing blob ends the plan without a failure. */
  lemma MissingExecutes(db: Db, files: Files, blobs: seq<Blob>, w: Sender, burst: nat)
    requires w.ok && blobs != [] && !(blobs[0].hash in db && db[blobs[0].hash].BlobEntry?)
    ensures Execute(BlobsPlan(db, files, 1, blobs).ops, w, None, burst).ok
  {
    hide ResponseFrame, Execute;
    Unstopped(BlobsPlan(db, files, 1, blobs).ops, w, burst);
  }

  lemma {:induction false} BlobsExecute(hs: Hasher, built: Files, files: Files, db: Db, blobs: seq<Blob>,
                                        w: Sender, burst: nat)
    requires WellFormed(hs, built, db) && w.ok
    ensures Execute(BlobsPlan(db, files, 1, blobs).ops, w, None, burst).ok <==> AllReady(files, db, blobs)
  {
    hide Execute, BlobPlan, BlobsPlan, WellFormed, Ready;
    if blobs == [] {
      NoBlobsPlan(db, files, w, burst);
    } else if blobs[0].hash in db && db[blobs[0].hash].BlobEntry? {
      NextBlob(db, files, 1, blobs, w, None, burst);
      BlobExecutes(hs, built, files, db, blobs[0].hash, w, burst);
      var w1 := Execute(BlobPlan(db, files, 1, blobs[0].hash).ops, w, None, burst);
      if w1.ok {
        BlobsExecute(hs, built, files, db, blobs[1..], w1, burst);
      }
    } else {
      MissingExecutes(db, files, blobs, w, burst);
    }
  }

  lemma NoBlobsPlan(db: Db, files: Files, w: Sender, burst: nat)
    requires w.ok
    ensures Execute(BlobsPlan(db, files, 1, []).ops, w, None, burst) == w.(finished := true)
  {
    ExecuteSingle(Finish, w, None, burst);
  }

  /** What a provider with a database built from `built` makes of an accepted request, up to the blobs. */
  lemma CollectionExecutes(hs: Hasher, built: Files, files: Files, db: Db, h: Hash, data: seq<byte>, c: Collection,
                           burst: nat)
    requires WellFormed(hs, built, db) && IsCollection(db, h, data, c)
    ensures |data| < U64_LIMIT && ContentHash(hs, data) == h
    ensures var frame := ResponseFrame(1, FoundCollection(c.totalBlobsSize));
            var w := Sender(frame + Accepted(burst, Encode(hs, data)), false, true);
            Execute(ReplyPlan(db, files, Request(1, h)).ops, FRESH, None, burst)
            == Execute(BlobsPlan(db, files, 1, c.blobs).ops, w, None, burst)
  {
    hide ResponseFrame, Encode, Extract, Outboard, BlobsPlan, DecodeCollection, Subtree, Execute;
    assert WellFormedEntry(hs, built, h, db[h]);
    ExtractIsEncode(hs, data, data);
    var announce, content := WriteAll(ResponseFrame(1, FoundCollection(c.totalBlobsSize))), WriteOnce(Encode(hs, data));
    ExecuteTwo(announce, content, BlobsPlan(db, files, 1, c.blobs).ops, FRESH, None, burst);
    var frame := ResponseFrame(1, FoundCollection(c.totalBlobsSize));
    assert [] + frame == frame;
  }

  /** What can be looked at beforehand: the token is right, and if the hash names a collection it decodes
      and the files of its blobs are ready up to the first one that is not in the database. */
  predicate Answerable(net: Net) {
    var db := net.env.db;
    && net.token == net.env.token
    && (net.hash in db && db[net.hash].CollectionEntry? ==>
          var c := DecodeCollection(db[net.hash].data);
          c.Some? && AllReady(net.env.files, db, c.value.blobs))
  }

  /** The provider answers a client to the end of the stream exactly then. */
  lemma AnswersExactly(net: Net, built: Files)
    requires WellFormed(net.hs, built, net.env.db)
    ensures Answers(net) <==> Answerable(net)
  {
    hide Serve, Execute, ReplyPlan, Reading, DecodeCollection, AllReady, WellFormed, Answers, Uploaded;
    var env := net.env;
    InOneGo(net);
    if env.token == net.token {
      OneGoExecutes(net);
      if net.hash in env.db && env.db[net.hash].CollectionEntry? {
        var data := env.db[net.hash].data;
        if DecodeCollection(data).Some? {
          var c := DecodeCollection(data).value;
          CollectionExecutes(net.hs, built, env.files, env.db, net.hash, data, c, env.burst);
          BlobsExecute(net.hs, built, env.files, env.db, c.blobs,
                       Sender(ResponseFrame(1, FoundCollection(c.totalBlobsSize))
                              + Accepted(env.burst, Encode(net.hs, data)),
                              false, true), env.burst);
        } else {
          UndecodableExecutes(env, net.hash);
        }
      } else {
        MissExecutes(env, net.hash);
      }
    } else {
      RefusedServe(net);
    }
  }

  lemma OneGoExecutes(net: Net)
    requires Reading(net.env.token, Uploaded(net)) == Ok(Request(1, net.hash))
    ensures var env := net.env;
            var end := Execute(ReplyPlan(env.db, env.files, Request(1, net.hash)).ops, FRESH, None, env.burst);
            var run := Serve(env.db, env.files, env.token, env.connection, Uploaded(net), FRESH, None, env.burst);
            (run.result == Ok(()) <==> end.ok) && run.writer == end
  {
    hide Execute, ReplyPlan, Reading, Uploaded;
  }

  lemma UndecodableExecutes(env: Env, h: Hash)
    requires h in env.db && env.db[h].CollectionEntry? && DecodeCollection(env.db[h].data).None?
    ensures Execute(ReplyPlan(env.db, env.files, Request(1, h)).ops, FRESH, None, env.burst) == FRESH.(ok := false)
  {
    hide Execute;
    FailOnly(FRESH, None, env.burst);
  }

  lemma MissExecutes(env: Env, h: Hash)
    requires !(h in env.db && env.db[h].CollectionEntry?)
    ensures Execute(ReplyPlan(env.db, env.files, Request(1, h)).ops, FRESH, None, env.burst).ok
  {
    hide Execute, ResponseFrame;
    Unstopped(ReplyPlan(env.db, env.files, Request(1, h)).ops, FRESH, env.burst);
  }

  lemma RefusedServe(net: Net)
    requires Reading(net.env.token, Uploaded(net)) == Err(WrongToken)
    ensures var env := net.env;
            Serve(env.db, env.files, env.token, env.connection, Uploaded(net), FRESH, None, env.burst)
            == StreamRun(Err(WrongToken), [TransferAborted(env.connection, None)], FRESH)
  {
    hide Reading, Uploaded;
  }

  // ---- a wrong token ----

  lemma NothingArrives(hs: Hasher, hash: Hash, cbs: Callbacks, ending: Ending)
    ensures var got := ReadResponse(hs, hash, cbs, Input([], ending));
            got.result == Err(if ending.Lost? then IoFailed else UnexpectedEof) && got.session == NOTHING
  {
  }

  /** Under every schedule a client with a wrong token fails without having been given anything, and the
      provider has logged a refusal and written nothing. */
  lemma RefusedNeverOk(net: Net, pick: (nat, World) -> Move)
    requires net.window >= 1 && net.token != net.env.token
    ensures Inv(net, Begin(net))
    ensures var end := Settle(net, Begin(net), pick, 0);
            && end.client.Done? && end.client.verdict.result.Err? && end.client.verdict.session == NOTHING
            && Refused(net.env, end.task.log) && end.task.sent == []
  {
    hide Settle, Inv, Begin, Serve, Reading, ReadResponse, Uploaded, CleanSuccess;
    EveryScheduleEnds(net, pick);
    InOneGo(net);
    RefusedServe(net);
    NothingArrives(net.hs, net.hash, net.cbs, LastEnding(net));
  }

  // ---- a failure on the way ----

  /** A content that was built into the database has the same hash as a delivered one only if it is that. */
  predicate Known(hs: Hasher, built: Files, ds: seq<Delivery>) {
    forall p, i | p in built.content && 0 <= i < |ds| ::
      ContentHash(hs, built.content[p]) == ContentHash(hs, ds[i].content) ==> built.content[p] == ds[i].content
  }

  /** A plan that fails has written less than the wire of any deliveries that match the list. */
  lemma {:induction false} FailsShort(hs: Hasher, built: Files, files: Files, db: Db, blobs: seq<Blob>,
                                      ds: seq<Delivery>, w: Sender, burst: nat)
    requires WellFormed(hs, built, db) && Matches(hs, ds, blobs) && Known(hs, built, ds)
    requires w.ok && !Execute(BlobsPlan(db, files, 1, blobs).ops, w, None, burst).ok
    ensures var sent := Execute(BlobsPlan(db, files, 1, blobs).ops, w, None, burst).sent;
            |sent| < |w.sent| + WireSize(ds)
  {
    hide Execute, BlobPlan, BlobsPlan, WellFormed, Subtree, TreeSize;
    if blobs == [] {
      NoBlobsPlan(db, files, w, burst);
    } else if blobs[0].hash in db && db[blobs[0].hash].BlobEntry? {
      var h := blobs[0].hash;
      BuiltContent(hs, built, db, h);
      NextBlob(db, files, 1, blobs, w, None, burst);
      BlobExecutes(hs, built, files, db, h, w, burst);
      var w1 := Execute(BlobPlan(db, files, 1, h).ops, w, None, burst);
      assert ds[0].content == built.content[db[h].path];
      if w1.ok {
        FailsShort(hs, built, files, db, blobs[1..], ds[1..], w1, burst);
      }
    } else {
      MissingExecutes(db, files, blobs, w, burst);
    }
  }

  lemma BuiltContent(hs: Hasher, built: Files, db: Db, h: Hash)
    requires WellFormed(hs, built, db) && h in db && db[h].BlobEntry?
    ensures db[h].path in built.content && |built.content[db[h].path]| == db[h].size
    ensures ContentHash(hs, built.content[db[h].path]) == h
  {
    assert WellFormedEntry(hs, built, h, db[h]);
  }

  lemma {:induction false} ExecuteExtends(ops: seq<Op>, w: Sender, burst: nat)
    ensures w.sent <= Execute(ops, w, None, burst).sent
  {
    if ops != [] && w.ok {
      ExecuteExtends(ops[1..], ExecuteOne(ops[0], w, None, burst), burst);
    }
  }

  /** A client cannot end well on what a failing plan has written: that is too short. */
  lemma FailedIsTooShort(hs: Hasher, built: Files, files: Files, db: Db, hash: Hash, data: seq<byte>, c: Collection,
                         burst: nat, cbs: Callbacks, ending: Ending)
    requires WellFormed(hs, built, db) && IsCollection(db, hash, data, c) && |data| < U64_LIMIT && Draining(cbs)
    requires !Execute(ReplyPlan(db, files, Request(1, hash)).ops, FRESH, None, burst).ok
    requires var sent := Execute(ReplyPlan(db, files, Request(1, hash)).ops, FRESH, None, burst).sent;
             var got := ReadResponse(hs, hash, cbs, Input(sent, ending));
             Known(hs, built, got.session.delivered) && Distinct(hs, {data, got.session.data})
    ensures var sent := Execute(ReplyPlan(db, files, Request(1, hash)).ops, FRESH, None, burst).sent;
            !ReadResponse(hs, hash, cbs, Input(sent, ending)).result.Ok?
  {
    hide ReadResponse, Execute, BlobsPlan, ReplyPlan, Encode, ResponseFrame, Known, Matches, WellFormed,
         DecodeCollection,
         Protocol.LpSplit, Decode, ReadBlobs, TreeSize, Subtree, WireSize, DecodeResponse;
    CollectionExecutes(hs, built, files, db, hash, data, c, burst);
    var frame := ResponseFrame(1, FoundCollection(c.totalBlobsSize));
    var w := Sender(frame + Accepted(burst, Encode(hs, data)), false, true);
    var ops := BlobsPlan(db, files, 1, c.blobs).ops;
    var sent := Execute(ops, w, None, burst).sent;
    ExecuteExtends(ops, w, burst);
    var content := sent[|frame|..];
    assert sent == frame + content;
    var s := Input(sent, ending);
    if ReadResponse(hs, hash, cbs, s).result.Ok? {
      EndToEnd.FrameArrives(1, FoundCollection(c.totalBlobsSize), content, ending);
      RunIntegrity(hs, hash, cbs, s);
      var c', total, rest := UpToLoop(hs, hash, cbs, s);
      var data' := Decode(hs, hash, content).data;
      var news := BlobsIntegrity(hs, cbs, Session(data', total, total, c'.blobs, []), rest);
      assert [] + news == news;
      DecodeOfEncode(hs, data, []);
      FailsShort(hs, built, files, db, c.blobs, news, w, burst);
    }
  }

  /** The contents in play when a client reads `s` for a hash of a database built from `built`. */
  function InPlay(hs: Hasher, built: Files, db: Db, hash: Hash, cbs: Callbacks, s: Input): set<seq<byte>> {
    (set p | p in built.content :: built.content[p])
    + (if hash in db && db[hash].CollectionEntry? then {db[hash].data} else {})
    + Received(ReadResponse(hs, hash, cbs, s))
  }

  /** What is written where the provider does not answer to the end, and what is logged. */
  lemma Unanswered(net: Net, built: Files)
    requires WellFormed(net.hs, built, net.env.db) && !Answers(net) && Draining(net.cbs)
    requires Distinct(net.hs, InPlay(net.hs, built, net.env.db, net.hash, net.cbs, Input(Ends(net).sent, net.dropped)))
    ensures !Conclusion(net).result.Ok?
    ensures Refused(net.env, Ends(net).log) || Answered(net.env, Ends(net).log, false)
  {
    hide Serve, Execute, ReplyPlan, Reading, DecodeCollection, WellFormed, Uploaded, ReadResponse, InPlay, Distinct;
    var env := net.env;
    InOneGo(net);
    FinishedOrAborted(env.db, env.files, env.token, env.connection, Uploaded(net), env.burst);
    NothingArrives(net.hs, net.hash, net.cbs, net.dropped);
    if env.token != net.token {
      RefusedServe(net);
    } else {
      OneGoExecutes(net);
      AcceptedIsReported(env.db, env.files, env.token, env.connection, Uploaded(net), FRESH, None, env.burst,
                         Request(1, net.hash));
      if !(net.hash in env.db && env.db[net.hash].CollectionEntry?) {
        MissExecutes(env, net.hash);
      } else if DecodeCollection(env.db[net.hash].data).None? {
        UndecodableExecutes(env, net.hash);
      } else {
        var data := env.db[net.hash].data;
        var c := DecodeCollection(data).value;
        var s := Input(Ends(net).sent, net.dropped);
        CollectionExecutes(net.hs, built, env.files, env.db, net.hash, data, c, env.burst);
        KnownInPlay(net.hs, built, env.db, net.hash, net.cbs, s);
        FailedIsTooShort(net.hs, built, env.files, env.db, net.hash, data, c, env.burst, net.cbs, net.dropped);
      }
    }
  }

  lemma KnownInPlay(hs: Hasher, built: Files, db: Db, hash: Hash, cbs: Callbacks, s: Input)
    requires Distinct(hs, InPlay(hs, built, db, hash, cbs, s)) && hash in db && db[hash].CollectionEntry?
    ensures var got := ReadResponse(hs, hash, cbs, s);
            Known(hs, built, got.session.delivered) && Distinct(hs, {db[hash].data, got.session.data})
  {
    hide ReadResponse, ContentHash;
    var got := ReadResponse(hs, hash, cbs, s);
    forall p, i | p in built.content && 0 <= i < |got.session.delivered|
      ensures ContentHash(hs, built.content[p]) == ContentHash(hs, got.session.delivered[i].content) ==>
                built.content[p] == got.session.delivered[i].content
    {
      assert built.content[p] in InPlay(hs, built, db, hash, cbs, s);
      assert got.session.delivered[i].content in InPlay(hs, built, db, hash, cbs, s);
    }
  }

  /** Under every schedule, where the provider does not answer to the end, whether for the token, for a
      collection that does not decode or for a file that has vanished or become shorter: the client
      does not end well, unless contents in play collide, and the provider has logged a refusal or an
      aborted transfer. */
  lemma UnansweredNeverOk(net: Net, built: Files, pick: (nat, World) -> Move)
    requires net.window >= 1 && WellFormed(net.hs, built, net.env.db) && !Answerable(net) && Draining(net.cbs)
    requires Distinct(net.hs, InPlay(net.hs, built, net.env.db, net.hash, net.cbs, Input(Ends(net).sent, net.dropped)))
    ensures Inv(net, Begin(net))
    ensures var end := Settle(net, Begin(net), pick, 0);
            && end.client.Done? && !end.client.verdict.result.Ok? && !end.task.finished
            && (Refused(net.env, end.task.log) || Answered(net.env, end.task.log, false))
  {
    hide Settle, Inv, Begin, Serve, Reading, ReadResponse, Uploaded, CleanSuccess, Answerable, WellFormed, Distinct,
         InPlay;
    AnswersExactly(net, built);
    EveryScheduleEnds(net, pick);
    InOneGo(net);
    Unanswered(net, built);
  }
}
