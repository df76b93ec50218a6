/**
 Files that have become shorter or have vanished since the database was built: how far a transfer comes
 that meets one.
 */
module Shortened {
  import opened Base
  import opened Streams
  import opened Messages
  import opened Blobs
  import opened Bao
  import opened Database
  import opened Provider
  import opened Wire
  import opened Get
  import opened Integrity
  import opened EndToEnd
  import opened Interleaving
  import opened System
  import opened Refusals

  /** Blobs before `k` are in the database and their files only grown at most; so is blob `k`, but its file
      has lost some of its end or is gone. */
  predicate BreaksAt(built: Files, files: Files, db: Db, blobs: seq<Blob>, k: nat) {
    && k < |blobs|
    && (forall i | 0 <= i <= k :: InDb(db, blobs[i].hash) && db[blobs[i].hash].path in built.content)
    && (forall i | 0 <= i < k ::
          var p := db[blobs[i].hash].path; p in files.content && built.content[p] <= files.content[p])
    && var p := db[blobs[k].hash].path; p in files.content ==> files.content[p] < built.content[p]
  }

  /** The callback for the blob whose file is shorter gets the full chunks that are left; for one whose file
      is gone it is not called. */
  function LastCall(built: Files, files: Files, db: Db, b: Blob): seq<Delivery>
    requires InDb(db, b.hash) && db[b.hash].path in built.content
  {
    var p := db[b.hash].path;
    if p in files.content && |files.content[p]| <= |built.content[p]| then
      [Delivery(b.hash, b.name, built.content[p][..FullChunks(|files.content[p]|)])]
    else []
  }

  /** What ends early on the wire. */
  function EarlyEnd(ending: Ending): Error {
    if ending.Lost? then IoFailed else UnexpectedEof
  }

  /** The blob at which it breaks: what is written, and what the client makes of it. */
  lemma BlobBreaks(hs: Hasher, cbs: Callbacks, built: Files, files: Files, db: Db, st: Session, w: Sender,
                   burst: nat, ending: Ending)
    returns (tail: seq<byte>)
    requires WellFormed(hs, built, db) && Draining(cbs) && BreaksAt(built, files, db, st.todo, 0) && w.ok
    requires |built.content[db[st.todo[0].hash].path]| <= st.remaining <= MAX_DATA_SIZE
    ensures Execute(BlobPlan(db, files, 1, st.todo[0].hash).ops, w, None, burst)
         == Sender(w.sent + tail, w.finished, false)
    ensures var run := ReadBlobs(hs, cbs, st, Input(tail, ending));
            && run.result == Err(EarlyEnd(ending)) && run.session.data == st.data
            && run.session.delivered == st.delivered + LastCall(built, files, db, st.todo[0])
  {
    hide ResponseFrame, Outboard, Extract, Subtree, ReadBlobs, Execute, ContentHash, Encode;
    var h := st.todo[0].hash;
    assert WellFormedEntry(hs, built, h, db[h]);
    var BlobEntry(outboard, path, size) := db[h];
    var d := built.content[path];
    var found := ResponseFrame(1, Found);
    var w1 := w.(sent := w.sent + found);
    ExecuteAppend([WriteAll(found)], ContentOps(files, path, outboard, size), w, None, burst);
    ExecuteSingle(WriteAll(found), w, None, burst);
    if path !in files.content {
      FailOnly(w1, None, burst);
      tail := found;
      NoSize(hs, cbs, st, ending);
      assert st.delivered + [] == st.delivered;
    } else {
      var b := Extract(outboard, files.content[path], size).bytes;
      ExtractFits(hs, d, files.content[path]);
      ExecuteSingle(WriteAll(b), w1, None, burst);
      assert [WriteAll(b)] + [Fail] == [WriteAll(b), Fail];
      ExecuteAppend([WriteAll(b)], [Fail], w1, None, burst);
      FailOnly(w1.(sent := w1.sent + b), None, burst);
      tail := found + b;
      assert w.sent + found + b == w.sent + tail;
      ShortBlob(hs, cbs, st, d, files.content[path], ending);
    }
  }

  /** A found response and nothing else. */
  lemma NoSize(hs: Hasher, cbs: Callbacks, st: Session, ending: Ending)
    requires st.todo != []
    ensures var run := ReadBlobs(hs, cbs, st, Input(ResponseFrame(1, Found), ending));
            run.result == Err(EarlyEnd(ending)) && run.session == st
  {
    hide ResponseFrame, Protocol.LpSplit, DecodeResponse, ReadBlob;
    var s := Input(ResponseFrame(1, Found), ending);
    assert ResponseFrame(1, Found) + [] == ResponseFrame(1, Found);
    FrameArrives(1, Found, [], ending);
    assert ReadBlobs(hs, cbs, st, s) == ReadBlobResponse(hs, cbs, st, s);
    assert ReadBlobResponse(hs, cbs, st, s) == ReadBlobSize(hs, cbs, st, Input([], ending));
  }

  /** A found response and what a shorter file yields. */
  lemma ShortBlob(hs: Hasher, cbs: Callbacks, st: Session, d: seq<byte>, file: seq<byte>, ending: Ending)
    requires Draining(cbs) && st.todo != [] && ContentHash(hs, d) == st.todo[0].hash
    requires file < d && |d| <= st.remaining <= MAX_DATA_SIZE
    ensures var b := Extract(Outboard(hs, d), file, |d|).bytes;
            var run := ReadBlobs(hs, cbs, st, Input(ResponseFrame(1, Found) + b, ending));
            && run.result == Err(EarlyEnd(ending)) && run.session.data == st.data
            && run.session.delivered
               == st.delivered + [Delivery(st.todo[0].hash, st.todo[0].name, d[..FullChunks(|file|)])]
  {
    hide ResponseFrame, OutboardTree, ExtractTree, Subtree, ReadBlobs, ReadBlob, Le64, EncodeTree, DecodeTree;
    ExtractTreeShort(hs, d, 0, true, file, []);
    assert OutboardTree(hs, d, 0) + [] == OutboardTree(hs, d, 0);
    var out := Outboard(hs, d);
    assert out[..8] == Le64(|d|) && out[8..] == OutboardTree(hs, d, 0);
    var tree := ExtractTree(OutboardTree(hs, d, 0), file, |d|).bytes;
    FrontOfBlobDecided(hs, cbs, st, 1, Found, |d|, tree, ending);
    CallbackDecides(hs, cbs, st.(remaining := st.remaining - |d|), |d|, Input(tree, ending));
  }

  /** The loop up to the blob at which it breaks. */
  lemma {:induction false} LoopBreaks(hs: Hasher, cbs: Callbacks, built: Files, files: Files, db: Db, st: Session,
                                      k: nat, w: Sender, burst: nat, ending: Ending)
    returns (tail: seq<byte>)
    requires WellFormed(hs, built, db) && Draining(cbs) && BreaksAt(built, files, db, st.todo, k) && w.ok
    requires Sizes(Honest(built, db, st.todo)) <= st.remaining <= MAX_DATA_SIZE
    ensures Execute(BlobsPlan(db, files, 1, st.todo).ops, w, None, burst) == Sender(w.sent + tail, w.finished, false)
    ensures |Honest(built, db, st.todo)| > k
    ensures var run := ReadBlobs(hs, cbs, st, Input(tail, ending));
            && run.result == Err(EarlyEnd(ending)) && run.session.data == st.data
            && run.session.delivered
               == st.delivered + Honest(built, db, st.todo)[..k] + LastCall(built, files, db, st.todo[k])
    decreases k
  {
    hide ReadBlobs, Execute, BlobsPlan, BlobPlan, Honest, Sizes, WellFormed, BlobWire, ContentHash, ContentOps,
         LastCall;
    var h := st.todo[0].hash;
    HeldIsBuilt(hs, built, db, h);
    var d := built.content[db[h].path];
    FirstIsHeld(hs, built, db, 1, st.todo);
    NextBlob(db, files, 1, st.todo, w, None, burst);
    BlobStatus(db, files, h);
    if k == 0 {
      tail := BlobBreaks(hs, cbs, built, files, db, st, w, burst, ending);
      assert st.delivered + Honest(built, db, st.todo)[..0] == st.delivered;
    } else {
      var call := Delivery(h, st.todo[0].name, d);
      var next := st.(todo := st.todo[1..], remaining := st.remaining - |d|, delivered := st.delivered + [call]);
      BlobGoesOn(hs, built, files, db, h, w, burst);
      var w1 := w.(sent := w.sent + BlobWire(hs, 1, d));
      var more := LoopBreaks(hs, cbs, built, files, db, next, k - 1, w1, burst, ending);
      tail := BlobWire(hs, 1, d) + more;
      assert w1.sent + more == w.sent + tail;
      BlobArrives(hs, cbs, st, 1, d, more, ending);
      var others := Honest(built, db, st.todo[1..]);
      assert ([call] + others)[..k] == [call] + others[..k - 1];
      assert st.delivered + [call] + others[..k - 1] == st.delivered + ([call] + others[..k - 1]);
    }
  }

  lemma HeldIsBuilt(hs: Hasher, built: Files, db: Db, h: Hash)
    requires WellFormed(hs, built, db) && InDb(db, h) && db[h].path in built.content
    ensures Held(built, db, h) == Some(built.content[db[h].path])
    ensures var d := built.content[db[h].path]; |d| < U64_LIMIT && ContentHash(hs, d) == h
  {
    hide ContentHash, Outboard;
    assert WellFormedEntry(hs, built, h, db[h]);
  }

  lemma BlobStatus(db: Db, files: Files, h: Hash)
    requires InDb(db, h)
    ensures BlobPlan(db, files, 1, h).status.Sent?
  {
  }

  /** A blob whose file has only grown at most is sent as if it had not. */
  lemma BlobGoesOn(hs: Hasher, built: Files, files: Files, db: Db, h: Hash, w: Sender, burst: nat)
    requires WellFormed(hs, built, db) && InDb(db, h) && w.ok && db[h].path in built.content
    requires db[h].path in files.content && built.content[db[h].path] <= files.content[db[h].path]
    requires |built.content[db[h].path]| < U64_LIMIT
    ensures Execute(BlobPlan(db, files, 1, h).ops, w, None, burst)
         == w.(sent := w.sent + BlobWire(hs, 1, built.content[db[h].path]))
  {
    hide ResponseFrame, Outboard, Extract, Encode, Execute, ContentHash;
    assert WellFormedEntry(hs, built, h, db[h]);
    var d := built.content[db[h].path];
    ExtractIsEncode(hs, d, files.content[db[h].path]);
    var found, content := ResponseFrame(1, Found), Encode(hs, d);
    assert [WriteAll(found)] + [WriteAll(content)] == BlobPlan(db, files, 1, h).ops;
    ExecuteAppend([WriteAll(found)], [WriteAll(content)], w, None, burst);
    ExecuteSingle(WriteAll(found), w, None, burst);
    ExecuteSingle(WriteAll(content), w.(sent := w.sent + found), None, burst);
    assert w.sent + found + content == w.sent + (found + content);
  }

  // ---- the whole transfer ----

  /** A request for a collection one of whose files breaks off: what is meant to be where. */
  predicate Breaking(net: Net, built: Files, data: seq<byte>, c: Collection, k: nat) {
    var db := net.env.db;
    && WellFormed(net.hs, built, db) && IsCollection(db, net.hash, data, c) && |data| < U64_LIMIT
    && net.token == net.env.token && BreaksAt(built, net.env.files, db, c.blobs, k)
    && Sizes(Honest(built, db, c.blobs)) <= c.totalBlobsSize <= MAX_DATA_SIZE
    && |Encode(net.hs, data)| <= net.env.burst
  }

  /** In one go: the provider's log and what the client comes to. */
  lemma TransferBreaks(net: Net, built: Files, data: seq<byte>, c: Collection, k: nat)
    requires Breaking(net, built, data, c, k) && Draining(net.cbs)
    ensures |Honest(built, net.env.db, c.blobs)| > k && !Answers(net) && Ends(net).sent != []
    ensures Ends(net).log == [ClientConnected(net.env.connection), RequestReceived(net.env.connection, 1, net.hash),
                              TransferAborted(net.env.connection, Some(1))]
    ensures var verdict := Conclusion(net);
            && verdict.result == Err(EarlyEnd(net.dropped))
            && verdict.session.delivered == Honest(built, net.env.db, c.blobs)[..k]
                                            + LastCall(built, net.env.files, net.env.db, c.blobs[k])
  {
    hide ResponseFrame, Encode, Decode, DecodeCollection, ReadBlobs, ReadResponse, WellFormed, Honest, LastCall,
         BreaksAt, Sizes, ContentHash, Serve, Execute, ReplyPlan, BlobsPlan, Reading, Uploaded;
    var env := net.env;
    InOneGo(net);
    OneGoExecutes(net);
    CollectionExecutes(net.hs, built, env.files, env.db, net.hash, data, c, env.burst);
    var total := c.totalBlobsSize;
    var frame, content := ResponseFrame(1, FoundCollection(total)), Encode(net.hs, data);
    var st := Session(data, total, total, c.blobs, []);
    var w := Sender(frame + content, false, true);
    var tail := LoopBreaks(net.hs, net.cbs, built, env.files, env.db, st, k, w, env.burst, net.dropped);
    AcceptedIsReported(env.db, env.files, env.token, env.connection, Uploaded(net), FRESH, None, env.burst,
                       Request(1, net.hash));
    assert Ends(net).sent == frame + (content + tail);
    CollectionDecided(net.hs, net.hash, net.cbs, 1, total, content + tail, net.dropped);
    DecodeOfEncode(net.hs, data, tail);
    assert [] + Honest(built, env.db, c.blobs)[..k] == Honest(built, env.db, c.blobs)[..k];
  }

  /** A collection whose blob `k` has a file that has lost some of its end or is gone, under every schedule:
      the client hands over exactly the blobs before it and, of that one, the full chunks that are left, and
      fails where its stream ends; the provider logs an aborted transfer. */
  lemma EveryScheduleBreaks(net: Net, built: Files, data: seq<byte>, c: Collection, k: nat,
                            pick: (nat, World) -> Move)
    requires net.window >= 1 && Breaking(net, built, data, c, k) && Draining(net.cbs)
    ensures Inv(net, Begin(net)) && |Honest(built, net.env.db, c.blobs)| > k
    ensures var end := Settle(net, Begin(net), pick, 0);
            && end.client.Done? && end.client.verdict.result == Err(EarlyEnd(net.dropped))
            && end.client.verdict.session.delivered == Honest(built, net.env.db, c.blobs)[..k]
                                                       + LastCall(built, net.env.files, net.env.db, c.blobs[k])
            && end.task.log == [ClientConnected(net.env.connection), RequestReceived(net.env.connection, 1, net.hash),
                                TransferAborted(net.env.connection, Some(1))]
  {
    hide Settle, Inv, Begin, Ends, Conclusion, Answered, Refused, CleanSuccess, Breaking, BreaksAt, Honest, LastCall,
         Draining;
    TransferBreaks(net, built, data, c, k);
    EveryScheduleEnds(net, pick);
    AbortedLog(net.env, Settle(net, Begin(net), pick, 0).task.log, Ends(net).log, 1, net.hash);
  }
}
