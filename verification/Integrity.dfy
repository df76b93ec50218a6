/** What a client can rely on whatever bytes the provider sends. */
module Integrity {
  import opened Base
  import opened Streams
  import opened Protocol
  import opened Messages
  import opened Blobs
  import opened Bao
  import opened Get

  /** The calls of the blob callback are the collection's entries, in order, each with content that
      hashes to its entry. */
  predicate Matches(hs: Hasher, ds: seq<Delivery>, blobs: seq<Blob>) {
    && |ds| == |blobs|
    && forall i | 0 <= i < |ds| ::
         ds[i].hash == blobs[i].hash && ds[i].name == blobs[i].name && ContentHash(hs, ds[i].content) == blobs[i].hash
  }

  function Sizes(ds: seq<Delivery>): nat {
    if ds == [] then 0 else |ds[0].content| + Sizes(ds[1..])
  }

  /** The least number of bytes these deliveries take on the wire: a length, a response of two bytes,
      and the encoded content. */
  function WireSize(ds: seq<Delivery>): nat {
    if ds == [] then 0 else 10 + EncodedSize(|ds[0].content|) + WireSize(ds[1..])
  }

  /** What must be in front of a blob's content: a found response and a size within both limits. */
  predicate Announces(st: Session, s: Input) {
    var message := LpSplit([], s);
    && message.result.Ok? && DecodeResponse(message.result.value).Some?
    && DecodeResponse(message.result.value).value.data.Found?
    && |message.rest.bytes| >= 8
    && U64OfLe(message.rest.bytes[..8]) <= MAX_DATA_SIZE && U64OfLe(message.rest.bytes[..8]) <= st.remaining
  }

  function AnnouncedSize(st: Session, s: Input): u64
    requires Announces(st, s)
  {
    U64OfLe(LpSplit([], s).rest.bytes[..8])
  }

  lemma FrontOfBlob(hs: Hasher, cbs: Callbacks, st: Session, s: Input)
    requires st.todo != []
    ensures Announces(st, s) ==>
              var size := AnnouncedSize(st, s);
              ReadBlobs(hs, cbs, st, s)
              == ReadBlob(hs, cbs, st.(remaining := st.remaining - size), size, Behind(8, LpSplit([], s).rest))
    ensures !Announces(st, s) ==> ReadBlobs(hs, cbs, st, s).session == st && !ReadBlobs(hs, cbs, st, s).result.Ok?
  {
    hide LpSplit, ReadBlob, DecodeResponse, LeValue, Behind;
    assert ReadBlobs(hs, cbs, st, s) == ReadBlobResponse(hs, cbs, st, s);
    var message := LpSplit([], s);
    if message.result.Ok? && DecodeResponse(message.result.value).Some?
       && DecodeResponse(message.result.value).value.data.Found? {
      assert ReadBlobResponse(hs, cbs, st, s) == ReadBlobSize(hs, cbs, st, message.rest);
    }
  }

  /** One round of the loop in a run that ends well. */
  lemma OneBlob(hs: Hasher, cbs: Callbacks, st: Session, s: Input) returns (d: Delivery, next: Session, rest: Input)
    requires Draining(cbs) && st.todo != [] && ReadBlobs(hs, cbs, st, s).result.Ok?
    ensures ReadBlobs(hs, cbs, st, s) == ReadBlobs(hs, cbs, next, rest)
    ensures next == st.(todo := st.todo[1..], delivered := st.delivered + [d], remaining := next.remaining)
    ensures d.hash == st.todo[0].hash && d.name == st.todo[0].name && ContentHash(hs, d.content) == d.hash
    ensures next.remaining + |d.content| == st.remaining && |d.content| <= MAX_DATA_SIZE
    ensures |s.bytes| >= |rest.bytes| + 10 + EncodedSize(|d.content|) && rest.ending == s.ending
  {
    hide LpSplit, DecodeTree, TreeSize, Subtree, ReadBlobs;
    FrontOfBlob(hs, cbs, st, s);
    SuccessIsWholeFrame(s);
    var size := AnnouncedSize(st, s);
    var content := Behind(8, LpSplit([], s).rest);
    var blob := st.todo[0];
    var tree := DecodeTree(hs, blob.hash, size, 0, true, content.bytes);
    DecodeTreeSound(hs, blob.hash, size, 0, true, content.bytes);
    d := Delivery(blob.hash, blob.name, tree.data);
    next := st.(todo := st.todo[1..], delivered := st.delivered + [d], remaining := st.remaining - size);
    rest := Input(tree.rest, s.ending);
  }

  /** The loop from any point on, in a run that ends well. */
  lemma {:induction false} BlobsIntegrity(hs: Hasher, cbs: Callbacks, st: Session, s: Input)
    returns (news: seq<Delivery>)
    requires Draining(cbs) && ReadBlobs(hs, cbs, st, s).result.Ok?
    ensures var r := ReadBlobs(hs, cbs, st, s);
            && r.session == Session(st.data, st.total, r.session.remaining, [], st.delivered + news)
            && r.result == Ok(st.total) && Matches(hs, news, st.todo)
            && Sizes(news) + r.session.remaining == st.remaining
            && |s.bytes| >= |r.rest.bytes| + WireSize(news)
    decreases |st.todo|
  {
    hide ReadBlobs, TreeSize, Subtree;
    if st.todo == [] {
      NoneLeft(hs, cbs, st, s);
      news := [];
      assert st.delivered + [] == st.delivered;
    } else {
      var d, next, rest := OneBlob(hs, cbs, st, s);
      var others := BlobsIntegrity(hs, cbs, next, rest);
      news := [d] + others;
      assert news[1..] == others;
      assert st.delivered + [d] + others == st.delivered + news;
    }
  }

  lemma NoneLeft(hs: Hasher, cbs: Callbacks, st: Session, s: Input)
    requires st.todo == []
    ensures ReadBlobs(hs, cbs, st, s)
         == if s.bytes == [] && s.ending.Lost? then Failed(IoFailed, st, s) else ClientRun(Ok(st.total), st, s)
  {
  }

  /** The run up to the loop, if it ends well. */
  lemma UpToLoop(hs: Hasher, hash: Hash, cbs: Callbacks, s: Input) returns (c: Collection, total: u64, rest: Input)
    requires ReadResponse(hs, hash, cbs, s).result.Ok?
    ensures var r := ReadResponse(hs, hash, cbs, s);
            var data := Decode(hs, hash, LpSplit([], s).rest.bytes).data;
            && LpSplit([], s).result.Ok? && DecodeCollection(data) == Some(c) && ContentHash(hs, data) == hash
            && cbs.onCollection(c) && total <= MAX_DATA_SIZE
            && DecodeResponse(LpSplit([], s).result.value).Some?
            && DecodeResponse(LpSplit([], s).result.value).value.data == FoundCollection(total)
            && r == ReadBlobs(hs, cbs, Session(data, total, total, c.blobs, []), rest)
            && |LpSplit([], s).rest.bytes| == EncodedSize(|data|) + |rest.bytes| && rest.ending == s.ending
  {
    hide LpSplit, Decode, TreeSize, Subtree, ReadBlobs;
    var message := LpSplit([], s);
    total := DecodeResponse(message.result.value).value.data.totalBlobsSize;
    DecodeSound(hs, hash, message.rest.bytes);
    SuccessIsWholeFrame(s);
    var d := Decode(hs, hash, message.rest.bytes);
    c := DecodeCollection(d.data).value;
    rest := Input(d.rest, s.ending);
  }

  /** In every run that ends well, with callbacks that read to a clean end: the collection hashes to the
      requested hash, the callback was called once for every entry in order with content that hashes to
      the entry, and the delivered sizes and what remains add up to the announced total within the limit. */
  lemma RunIntegrity(hs: Hasher, hash: Hash, cbs: Callbacks, s: Input)
    requires Draining(cbs) && ReadResponse(hs, hash, cbs, s).result.Ok?
    ensures var r := ReadResponse(hs, hash, cbs, s);
            var st := r.session;
            && ContentHash(hs, st.data) == hash && DecodeCollection(st.data).Some?
            && Matches(hs, st.delivered, DecodeCollection(st.data).value.blobs)
            && Sizes(st.delivered) + st.remaining == st.total <= MAX_DATA_SIZE && r.result == Ok(st.total)
  {
    hide ReadResponse, ReadBlobs;
    var c, total, rest := UpToLoop(hs, hash, cbs, s);
    var data := Decode(hs, hash, LpSplit([], s).rest.bytes).data;
    var news := BlobsIntegrity(hs, cbs, Session(data, total, total, c.blobs, []), rest);
    assert [] + news == news;
  }

  // ---- what a run that ends well says of the callbacks ----

  /** The calls from the first one on went to callbacks that did not refuse and whose reads reached the end
      of what the decoder released; each was for its entry. */
  predicate CallsAccepted(cbs: Callbacks, ds: seq<Delivery>, first: nat, blobs: seq<Blob>) {
    && |ds| == first + |blobs|
    && forall i | 0 <= i < |blobs| ::
         && ds[first + i].hash == blobs[i].hash && ds[first + i].name == blobs[i].name
         && match cbs.onBlob(first + i)
            case Refuse => false
            case Drain => true
            case Take(limit, _) => |ds[first + i].content| <= limit
  }

  lemma {:induction false} LoopAccepted(hs: Hasher, cbs: Callbacks, st: Session, s: Input)
    requires ReadBlobs(hs, cbs, st, s).result.Ok?
    ensures var r := ReadBlobs(hs, cbs, st, s);
            && st.delivered <= r.session.delivered && r.session.data == st.data && r.rest.ending == s.ending
            && CallsAccepted(cbs, r.session.delivered, |st.delivered|, st.todo)
            && r.result == Ok(st.total) && r.session.total == st.total
            && (r.rest.bytes == [] ==> s.ending.Finished?)
    decreases |st.todo|
  {
    hide LpSplit, DecodeTree, ReadBlobs;
    if st.todo == [] {
      NoneLeft(hs, cbs, st, s);
    } else {
      FrontOfBlob(hs, cbs, st, s);
      LpSplitSuffix(s);
      var size := AnnouncedSize(st, s);
      var st' := st.(remaining := st.remaining - size);
      var content := Behind(8, LpSplit([], s).rest);
      var next, rest := BlobAccepted(hs, cbs, st', size, content);
      LoopAccepted(hs, cbs, next, rest);
    }
  }

  lemma BlobAccepted(hs: Hasher, cbs: Callbacks, st: Session, size: u64, s: Input) returns (next: Session, rest: Input)
    requires st.todo != [] && ReadBlob(hs, cbs, st, size, s).result.Ok?
    ensures ReadBlob(hs, cbs, st, size, s) == ReadBlobs(hs, cbs, next, rest) && rest.ending == s.ending
    ensures next.todo == st.todo[1..] && next.data == st.data && next.total == st.total
    ensures |next.delivered| == |st.delivered| + 1 && st.delivered <= next.delivered
    ensures CallsAccepted(cbs, next.delivered, |st.delivered|, st.todo[..1])
  {
    hide DecodeTree, ReadBlobs;
    var d := DecodeTree(hs, st.todo[0].hash, size, 0, true, s.bytes);
    next := Handed(st, d.data).(todo := st.todo[1..]);
    rest := Input(d.rest, s.ending);
    var cb := cbs.onBlob(|st.delivered|);
    if cb.Take? && !d.status.Complete? {
      rest := Behind(cb.stray, rest);
    }
  }

  /** Every run that ends well, with any callbacks and on any input: the collection callback accepted the
      collection that was decoded, each blob callback was called once, for its entry and in order, and none
      refused or left released content unread; the result is the announced total; and if nothing is left
      over the stream has ended cleanly. */
  lemma OkMeansAccepted(hs: Hasher, hash: Hash, cbs: Callbacks, s: Input)
    requires ReadResponse(hs, hash, cbs, s).result.Ok?
    ensures var r := ReadResponse(hs, hash, cbs, s);
            && r.result == Ok(r.session.total) && r.session.total <= MAX_DATA_SIZE
            && (r.rest.bytes == [] ==> s.ending.Finished?)
            && DecodeCollection(r.session.data).Some? && ContentHash(hs, r.session.data) == hash
            && var c := DecodeCollection(r.session.data).value;
               cbs.onCollection(c) && CallsAccepted(cbs, r.session.delivered, 0, c.blobs)
  {
    hide ReadResponse, ReadBlobs, LpSplit, Decode, Subtree, DecodeCollection, DecodeResponse;
    var c, total, rest := UpToLoop(hs, hash, cbs, s);
    var data := Decode(hs, hash, LpSplit([], s).rest.bytes).data;
    LoopAccepted(hs, cbs, Session(data, total, total, c.blobs, []), rest);
  }

  // ---- nothing forged reaches a callback ----

  predicate Suffix(a: seq<byte>, b: seq<byte>) {
    |a| <= |b| && a == b[|b| - |a|..]
  }

  lemma SuffixTrans(a: seq<byte>, b: seq<byte>, c: seq<byte>)
    requires Suffix(a, b) && Suffix(b, c)
    ensures Suffix(a, c)
  {
    assert b[|b| - |a|..] == c[|c| - |b|..][|b| - |a|..] == c[|c| - |a|..];
  }

  lemma {:induction false} DecodeTreeSuffix(hs: Hasher, h: Hash, n: nat, start: nat, root: bool, s: seq<byte>)
    ensures Suffix(DecodeTree(hs, h, n, start, root, s).rest, s)
    decreases n
  {
    hide DecodeTree, Subtree, TreeSize;
    if n <= CHUNK || !Check(hs, h, n, start, root, s).Complete? {
      Single(hs, h, n, start, root, s);
    } else {
      var k := LeftLength(n);
      var left, right := Halves(hs, h, n, start, root, s);
      DecodeTreeSuffix(hs, s[..32], k, start, false, s[64..]);
      SuffixTrans(left.rest, s[64..], s);
      DecodeTreeSuffix(hs, s[32..64], n - k, start + k, false, left.rest);
      SuffixTrans(right.rest, left.rest, s);
    }
  }

  /** A call's content was released by a decoder for its hash that ran on some rest of the input. */
  predicate ReleasedFrom(hs: Hasher, d: Delivery, n: nat, t: seq<byte>, input: seq<byte>) {
    Suffix(t, input) && d.content <= DecodeTree(hs, d.hash, n, 0, true, t).data
  }

  lemma LpSplitSuffix(s: Input)
    ensures Suffix(LpSplit([], s).rest.bytes, s.bytes) && LpSplit([], s).rest.ending == s.ending
  {
  }

  lemma BehindSuffix(n: nat, s: Input)
    ensures Suffix(Behind(n, s).bytes, s.bytes)
  {
  }

  /** Any further calls of the loop, whether the run ends well or not. */
  lemma {:induction false} LoopReleases(hs: Hasher, cbs: Callbacks, st: Session, s: Input, i: nat)
    returns (n: nat, t: seq<byte>)
    requires |st.delivered| <= i < |ReadBlobs(hs, cbs, st, s).session.delivered|
    ensures ReleasedFrom(hs, ReadBlobs(hs, cbs, st, s).session.delivered[i], n, t, s.bytes)
    decreases |st.todo|
  {
    hide LpSplit, DecodeTree, ReadBlobs, ReadBlob;
    if st.todo == [] {
      NoneLeft(hs, cbs, st, s);
    }
    FrontOfBlob(hs, cbs, st, s);
    var message := LpSplit([], s);
    LpSplitSuffix(s);
    var size := AnnouncedSize(st, s);
    var content := Behind(8, message.rest);
    BehindSuffix(8, message.rest);
    SuffixTrans(content.bytes, message.rest.bytes, s.bytes);
    n, t := BlobReleases(hs, cbs, st.(remaining := st.remaining - size), size, content, i);
    SuffixTrans(t, content.bytes, s.bytes);
  }

  lemma {:induction false} BlobReleases(hs: Hasher, cbs: Callbacks, st: Session, size: u64, s: Input, i: nat)
    returns (n: nat, t: seq<byte>)
    requires st.todo != [] && |st.delivered| <= i < |ReadBlob(hs, cbs, st, size, s).session.delivered|
    ensures ReleasedFrom(hs, ReadBlob(hs, cbs, st, size, s).session.delivered[i], n, t, s.bytes)
    decreases |st.todo|, 0
  {
    hide DecodeTree, ReadBlobs;
    var run := ReadBlob(hs, cbs, st, size, s);
    var d := DecodeTree(hs, st.todo[0].hash, size, 0, true, s.bytes);
    DecodeTreeSuffix(hs, st.todo[0].hash, size, 0, true, s.bytes);
    var rest := Input(d.rest, s.ending);
    var cb := cbs.onBlob(|st.delivered|);
    var next := if cb.Take? && !d.status.Complete? then Behind(cb.stray, rest) else rest;
    var all := Handed(st, d.data).(todo := st.todo[1..]);
    if run == ReadBlobs(hs, cbs, all, next) {
      KeepsDelivered(hs, cbs, all, next);
      if i > |st.delivered| {
        n, t := LoopReleases(hs, cbs, all, next, i);
        BehindSuffix(if cb.Take? then cb.stray else 0, rest);
        SuffixTrans(next.bytes, d.rest, s.bytes);
        SuffixTrans(t, next.bytes, s.bytes);
        return;
      }
      assert run.session.delivered[i] == all.delivered[i];
    }
    n, t := size, s.bytes;
  }

  lemma {:induction false} KeepsDelivered(hs: Hasher, cbs: Callbacks, st: Session, s: Input)
    ensures st.delivered <= ReadBlobs(hs, cbs, st, s).session.delivered
    decreases |st.todo|
  {
    hide LpSplit, DecodeTree, ReadBlobs, ReadBlob;
    if st.todo == [] {
      NoneLeft(hs, cbs, st, s);
    } else {
      FrontOfBlob(hs, cbs, st, s);
      if Announces(st, s) {
        var size := AnnouncedSize(st, s);
        BlobKeepsDelivered(hs, cbs, st.(remaining := st.remaining - size), size, Behind(8, LpSplit([], s).rest));
      }
    }
  }

  lemma {:induction false} BlobKeepsDelivered(hs: Hasher, cbs: Callbacks, st: Session, size: u64, s: Input)
    requires st.todo != []
    ensures st.delivered <= ReadBlob(hs, cbs, st, size, s).session.delivered
    decreases |st.todo|, 0
  {
    hide DecodeTree, ReadBlobs;
    var run := ReadBlob(hs, cbs, st, size, s);
    var d := DecodeTree(hs, st.todo[0].hash, size, 0, true, s.bytes);
    var rest := Input(d.rest, s.ending);
    var cb := cbs.onBlob(|st.delivered|);
    var next := if cb.Take? && !d.status.Complete? then Behind(cb.stray, rest) else rest;
    var all := Handed(st, d.data).(todo := st.todo[1..]);
    if run == ReadBlobs(hs, cbs, all, next) {
      KeepsDelivered(hs, cbs, all, next);
    }
  }

  /** Whatever the provider sends, however the callbacks read, and however the run ends: what a callback
      got to see is a prefix of the content that stands behind the blob's hash, as long as the hash does
      not collide between that content and the pieces checked by the decoder that released it. */
  lemma NothingForged(hs: Hasher, hash: Hash, cbs: Callbacks, s: Input, i: nat) returns (n: nat, t: seq<byte>)
    requires i < |ReadResponse(hs, hash, cbs, s).session.delivered|
    ensures ReleasedFrom(hs, ReadResponse(hs, hash, cbs, s).session.delivered[i], n, t, s.bytes)
    ensures var d := ReadResponse(hs, hash, cbs, s).session.delivered[i];
            forall genuine | ContentHash(hs, genuine) == d.hash
              && CollisionFree(hs, Nodes(hs, genuine, 0, true) + Checks(hs, d.hash, n, 0, true, t)) ::
              d.content <= genuine
  {
    var d := ReadResponse(hs, hash, cbs, s).session.delivered[i];
    n, t := RunReleases(hs, hash, cbs, s, i);
    forall genuine | ContentHash(hs, genuine) == d.hash
      && CollisionFree(hs, Nodes(hs, genuine, 0, true) + Checks(hs, d.hash, n, 0, true, t))
      ensures d.content <= genuine
    {
      VerifiedPrefix(hs, genuine, n, 0, true, t);
    }
  }

  lemma RunReleases(hs: Hasher, hash: Hash, cbs: Callbacks, s: Input, i: nat) returns (n: nat, t: seq<byte>)
    requires i < |ReadResponse(hs, hash, cbs, s).session.delivered|
    ensures ReleasedFrom(hs, ReadResponse(hs, hash, cbs, s).session.delivered[i], n, t, s.bytes)
  {
    hide LpSplit, Decode, ReadBlobs;
    var message := LpSplit([], s);
    LpSplitSuffix(s);
    var total := DecodeResponse(message.result.value).value.data.totalBlobsSize;
    var d := Decode(hs, hash, message.rest.bytes);
    DecodeSuffix(hs, hash, message.rest.bytes);
    var c := DecodeCollection(d.data).value;
    var rest := Input(d.rest, s.ending);
    var st := Session(d.data, total, total, c.blobs, []);
    assert ReadResponse(hs, hash, cbs, s) == ReadBlobs(hs, cbs, st, rest);
    n, t := LoopReleases(hs, cbs, st, rest, i);
    SuffixTrans(rest.bytes, message.rest.bytes, s.bytes);
    SuffixTrans(t, rest.bytes, s.bytes);
  }

  lemma DecodeSuffix(hs: Hasher, h: Hash, s: seq<byte>)
    ensures Suffix(Decode(hs, h, s).rest, s)
  {
    if |s| >= 8 {
      DecodeTreeSuffix(hs, h, U64OfLe(s[..8]), 0, true, s[8..]);
      SuffixTrans(Decode(hs, h, s).rest, s[8..], s);
    }
  }
}
