/** The whole transfer: from a list of files through the provider's stream to the client's callbacks. */
module Transfer {
  import opened Base
  import Postcard
  import opened Streams
  import opened Protocol
  import opened Messages
  import opened Blobs
  import opened Bao
  import opened Database
  import opened Provider
  import opened Wire
  import opened Get
  import opened Integrity
  import opened EndToEnd

  // ---- the contents in play ----

  /** No two different ones of these contents have the same hash. */
  predicate Distinct(hs: Hasher, contents: set<seq<byte>>) {
    forall a, b | a in contents && b in contents :: ContentHash(hs, a) == ContentHash(hs, b) ==> a == b
  }

  function Contents(files: Files, sources: seq<DataSource>): set<seq<byte>>
    requires Readable(files, sources)
  {
    set i | 0 <= i < |sources| :: ContentOf(files, sources[i])
  }

  /** What a client decoded in a run: a collection and blobs. */
  function Received(run: ClientRun): set<seq<byte>> {
    {run.session.data} + set i | 0 <= i < |run.session.delivered| :: run.session.delivered[i].content
  }

  /** The calls of the blob callback that a list of files stands for. */
  function Expected(hs: Hasher, files: Files, sources: seq<DataSource>): (ds: seq<Delivery>)
    requires Readable(files, sources)
    ensures |ds| == |sources|
    ensures forall i | 0 <= i < |sources| ::
              ds[i] == Delivery(ContentHash(hs, ContentOf(files, sources[i])), NameOf(files, sources[i]),
                                ContentOf(files, sources[i]))
  {
    if sources == [] then []
    else
      var last := sources[|sources| - 1];
      var d := ContentOf(files, last);
      Expected(hs, files, sources[..|sources| - 1]) + [Delivery(ContentHash(hs, d), NameOf(files, last), d)]
  }

  lemma {:induction false} SizesAppend(a: seq<Delivery>, d: Delivery)
    ensures Sizes(a + [d]) == Sizes(a) + |d.content|
  {
    if a == [] {
      assert ([] + [d])[1..] == [];
    } else {
      assert (a + [d])[1..] == a[1..] + [d];
      SizesAppend(a[1..], d);
    }
  }

  lemma {:induction false} ExpectedSizes(hs: Hasher, files: Files, sources: seq<DataSource>)
    requires Readable(files, sources)
    ensures Sizes(Expected(hs, files, sources)) == TotalSize(files, sources)
  {
    if sources != [] {
      var n := |sources| - 1;
      ExpectedSizes(hs, files, sources[..n]);
      SizesAppend(Expected(hs, files, sources[..n]), Expected(hs, files, sources)[n]);
    }
  }

  // ---- a created database stands for its files ----

  lemma HeldContent(hs: Hasher, files: Files, sources: seq<DataSource>, i: nat)
    requires Creatable(hs, files, sources) && Separate(hs, files, sources)
    requires Distinct(hs, Contents(files, sources)) && i < |sources|
    ensures Held(files, Created(hs, files, sources).0, ContentHash(hs, ContentOf(files, sources[i])))
         == Some(ContentOf(files, sources[i]))
  {
    hide Subtree, EncodeCollection, Outboard, BlobsDb;
    var k := ContentHash(hs, ContentOf(files, sources[i]));
    BlobsDbEntries(hs, files, sources, k);
    assert HasHash(hs, files, sources[i], k);
    var j := LastWith(hs, files, sources, k);
    assert ContentOf(files, sources[i]) in Contents(files, sources);
    assert ContentOf(files, sources[j]) in Contents(files, sources);
  }

  lemma HonestIsExpected(hs: Hasher, files: Files, sources: seq<DataSource>)
    requires Creatable(hs, files, sources) && Separate(hs, files, sources) && Distinct(hs, Contents(files, sources))
    ensures var db := Created(hs, files, sources).0;
            var blobs := CollectionOf(hs, files, sources).blobs;
            && FirstMissing(files, db, blobs) == |blobs|
            && Honest(files, db, blobs) == Expected(hs, files, sources)
  {
    hide Held, Honest, FirstMissing, Created, ContentHash, Expected, Listing;
    var db := Created(hs, files, sources).0;
    var blobs := CollectionOf(hs, files, sources).blobs;
    forall i | 0 <= i < |blobs|
      ensures Held(files, db, blobs[i].hash) == Some(ContentOf(files, sources[i]))
    {
      HeldContent(hs, files, sources, i);
    }
    HonestEntries(files, db, blobs);
  }

  lemma CollectionInDb(hs: Hasher, files: Files, sources: seq<DataSource>)
    requires Creatable(hs, files, sources)
    ensures var (db, hash) := Created(hs, files, sources);
            var c := CollectionOf(hs, files, sources);
            && WellFormed(hs, files, db) && IsCollection(db, hash, DataOf(hs, files, sources), c)
            && ContentHash(hs, DataOf(hs, files, sources)) == hash
  {
    CreatedDatabase(hs, files, sources);
  }

  /** What a provider of a created collection writes in answer to a client's request. */
  function CreatedWire(hs: Hasher, files: Files, sources: seq<DataSource>, burst: nat): seq<byte>
    requires Creatable(hs, files, sources)
  {
    CollectionInDb(hs, files, sources);
    TransferWire(hs, files, Created(hs, files, sources).0, 1, DataOf(hs, files, sources),
                 CollectionOf(hs, files, sources), burst)
  }

  /** Every source once and in order: its name as given or else the path's file name, and its content. */
  predicate DeliversSources(hs: Hasher, files: Files, sources: seq<DataSource>, ds: seq<Delivery>) {
    && |ds| == |sources|
    && forall i | 0 <= i < |sources| ::
         && sources[i].path in files.content && ds[i].content == files.content[sources[i].path]
         && ds[i].hash == ContentHash(hs, ds[i].content)
         && ds[i].name == if sources[i].NamedFile? then sources[i].name else files.fileName(sources[i].path)
  }

  lemma ExpectedIsSources(hs: Hasher, files: Files, sources: seq<DataSource>)
    requires Readable(files, sources)
    ensures DeliversSources(hs, files, sources, Expected(hs, files, sources))
  {
    hide Expected, ContentHash;
    forall i | 0 <= i < |sources| ensures sources[i].path in files.content {
      assert sources[i] in sources;
    }
  }

  // ---- the main results ----

  /** For every list of files from which a collection can be created: a client that asks a provider with
      its token gets every file once, in order, under its name and hash; the announced total is the sum of
      the sizes, nothing of it remains and no byte is left over; the provider reports completion. */
  lemma EndToEndDelivery(hs: Hasher, files: Files, sources: seq<DataSource>, cbs: Callbacks, token: Hash,
                         connection: u64, burst: nat)
    requires Creatable(hs, files, sources) && Separate(hs, files, sources) && Distinct(hs, Contents(files, sources))
    requires Draining(cbs) && TotalSize(files, sources) <= MAX_DATA_SIZE
    requires burst >= |Encode(hs, DataOf(hs, files, sources))|
    ensures var (db, hash) := Created(hs, files, sources);
            var run := Serve(db, files, token, connection, Input(ClientSends(token, hash), Finished),
                             FRESH, None, burst);
            && run.result == Ok(()) && run.writer == Sender(CreatedWire(hs, files, sources, burst), true, true)
            && run.events == [RequestReceived(connection, 1, hash), TransferCompleted(connection, 1)]
            && var got := ReadResponse(hs, hash, cbs, Input(run.writer.sent, Finished));
               && got.result == Ok(TotalSize(files, sources))
               && got.session.delivered == Expected(hs, files, sources)
               && got.session.remaining == 0 && got.rest == Input([], Finished)
               && DeliversSources(hs, files, sources, got.session.delivered)
  {
    hide Serve, ReadResponse, TransferWire, Reading, Encode, DataOf, Listing, Expected, Honest,
         FirstMissing, DecodeCollection, Subtree, TotalSize, WellFormed, Sizes;
    var (db, hash) := Created(hs, files, sources);
    var c := CollectionOf(hs, files, sources);
    CollectionInDb(hs, files, sources);
    RequestArrives(token, hash);
    Served(hs, files, db, token, connection, Input(ClientSends(token, hash), Finished), burst,
           Request(1, hash), DataOf(hs, files, sources), c);
    HonestIsExpected(hs, files, sources);
    ExpectedSizes(hs, files, sources);
    ExpectedIsSources(hs, files, sources);
    ClientReceives(hs, cbs, files, db, 1, hash, DataOf(hs, files, sources), c, burst);
  }

  /** Whoever answers: a run that ends well for the hash of a created collection delivered exactly the
      files it was created from, unless two different contents in play have the same hash. */
  lemma AuthenticDelivery(hs: Hasher, files: Files, sources: seq<DataSource>, cbs: Callbacks, s: Input)
    requires Creatable(hs, files, sources) && Draining(cbs)
    requires ReadResponse(hs, Created(hs, files, sources).1, cbs, s).result.Ok?
    requires Distinct(hs, Contents(files, sources) + {DataOf(hs, files, sources)}
                          + Received(ReadResponse(hs, Created(hs, files, sources).1, cbs, s)))
    ensures var got := ReadResponse(hs, Created(hs, files, sources).1, cbs, s);
            && got.session.data == DataOf(hs, files, sources)
            && got.session.delivered == Expected(hs, files, sources)
  {
    hide ReadResponse, DataOf, DecodeCollection, Subtree, Expected, Listing, WellFormed, ContentHash;
    var (db, hash) := Created(hs, files, sources);
    var c := CollectionOf(hs, files, sources);
    var got := ReadResponse(hs, hash, cbs, s);
    CollectionInDb(hs, files, sources);
    RunIntegrity(hs, hash, cbs, s);
    assert got.session.data in Received(got);
    var ds := got.session.delivered;
    forall i | 0 <= i < |ds| ensures ds[i] == Expected(hs, files, sources)[i] {
      assert ds[i].content in Received(got) && ContentOf(files, sources[i]) in Contents(files, sources);
    }
  }

  // ---- the single write of the collection ----

  lemma {:induction false} WireLength(hs: Hasher, files: Files, db: Db, blobs: seq<Blob>)
    requires WellFormed(hs, files, db) && FirstMissing(files, db, blobs) == |blobs|
    ensures |BlobsWire(hs, files, db, 1, blobs)| == WireSize(Honest(files, db, blobs))
  {
    hide ResponseFrame, Held, WellFormed, Encode, TreeSize;
    if blobs != [] {
      var d := Held(files, db, blobs[0].hash).value;
      HeldIsGenuine(hs, files, db, blobs[0].hash);
      FoundLength();
      DecodeOfEncode(hs, d, []);
      WireLength(hs, files, db, blobs[1..]);
      assert Honest(files, db, blobs)[1..] == Honest(files, db, blobs[1..]);
    }
  }

  lemma FoundLength()
    ensures |ResponseFrame(1, Found)| == 10
  {
    Postcard.VarintLength(1);
  }

  /** The client's run on what a provider wrote ends well exactly when the total is within the limit and
      the single write took the collection whole.  A shorter write leaves too few bytes on the wire for
      any run to end well without a collision. */
  lemma DeliveryExactly(hs: Hasher, files: Files, sources: seq<DataSource>, cbs: Callbacks, burst: nat)
    requires Creatable(hs, files, sources) && Separate(hs, files, sources) && Draining(cbs)
    requires Distinct(hs, Contents(files, sources) + {DataOf(hs, files, sources)}
                          + Received(ReadResponse(hs, Created(hs, files, sources).1, cbs,
                                                  Input(CreatedWire(hs, files, sources, burst), Finished))))
    ensures ReadResponse(hs, Created(hs, files, sources).1, cbs,
                         Input(CreatedWire(hs, files, sources, burst), Finished)).result.Ok?
            <==> TotalSize(files, sources) <= MAX_DATA_SIZE && |Encode(hs, DataOf(hs, files, sources))| <= burst
  {
    hide ReadResponse, TransferWire, Encode, Listing, Expected, Honest, FirstMissing, Subtree,
         TotalSize, WellFormed, DecodeCollection, Sizes, ContentHash, DataOf;
    var (db, hash) := Created(hs, files, sources);
    var c := CollectionOf(hs, files, sources);
    var data := DataOf(hs, files, sources);
    var s := Input(CreatedWire(hs, files, sources, burst), Finished);
    CollectionInDb(hs, files, sources);
    FewerContents(hs, Contents(files, sources), {data} + Received(ReadResponse(hs, hash, cbs, s)));
    HonestIsExpected(hs, files, sources);
    ExpectedSizes(hs, files, sources);
    if |Encode(hs, data)| <= burst && TotalSize(files, sources) <= MAX_DATA_SIZE {
      ClientReceives(hs, cbs, files, db, 1, hash, data, c, burst);
    }
    if ReadResponse(hs, hash, cbs, s).result.Ok? {
      AuthenticDelivery(hs, files, sources, cbs, s);
      TruncatedIsTooShort(hs, files, db, cbs, hash, data, c, burst);
    }
  }

  lemma FewerContents(hs: Hasher, some: set<seq<byte>>, more: set<seq<byte>>)
    requires Distinct(hs, some + more)
    ensures Distinct(hs, some)
  {
  }

  /** Counting bytes: a run that ends well with this collection and these blobs needs all of them. */
  lemma TruncatedIsTooShort(hs: Hasher, files: Files, db: Db, cbs: Callbacks, hash: Hash, data: seq<byte>,
                            c: Collection, burst: nat)
    requires WellFormed(hs, files, db) && Draining(cbs) && |data| < U64_LIMIT
    requires FirstMissing(files, db, c.blobs) == |c.blobs| && DecodeCollection(data) == Some(c)
    requires var got := ReadResponse(hs, hash, cbs, Input(TransferWire(hs, files, db, 1, data, c, burst), Finished));
             got.result.Ok? && got.session.data == data && got.session.delivered == Honest(files, db, c.blobs)
    ensures c.totalBlobsSize <= MAX_DATA_SIZE && |Encode(hs, data)| <= burst
  {
    hide ReadResponse, ReadBlobs, LpSplit, Decode, DecodeCollection, DecodeResponse, Encode, Subtree, Honest,
         FirstMissing, BlobsWire, ResponseFrame, TreeSize, WireSize, WellFormed, Matches;
    var blobs := BlobsWire(hs, files, db, 1, c.blobs);
    var content := Accepted(burst, Encode(hs, data)) + blobs;
    var s := Input(TransferWire(hs, files, db, 1, data, c, burst), Finished);
    assert s.bytes == ResponseFrame(1, FoundCollection(c.totalBlobsSize)) + content;
    FrameArrives(1, FoundCollection(c.totalBlobsSize), content, Finished);
    var c', total, rest := UpToLoop(hs, hash, cbs, s);
    assert total == c.totalBlobsSize;
    var data' := Decode(hs, hash, content).data;
    var news := BlobsIntegrity(hs, cbs, Session(data', total, total, c'.blobs, []), rest);
    assert data' == data && [] + news == news;
    WireLength(hs, files, db, c.blobs);
    DecodeOfEncode(hs, data, []);
  }

  // ---- the hypotheses are met ----

  const LEAF: Hash := LeBytes(1, 32)
  const LISTED: Hash := LeBytes(2, 32)
  const NOTHING_AT_ALL: Hash := LeBytes(3, 32)
  const OTHER: Hash := LeBytes(4, 32)

  function WholePath(p: Path): seq<byte> {
    p
  }

  /** One file of one byte, and the collection that lists it. */
  const ONE_FILE: Files := Files(map[[97] := [7]], WholePath)
  const ONE_SOURCE: seq<DataSource> := [File([97])]
  const LISTING: Collection := Collection(COLLECTION_NAME, [Blob([97], LEAF)], 1)

  /** A hash that tells that file, that collection and the empty content from each other and all else. */
  function Telling(n: Node): Hash {
    if n == LeafNode([7], 0, true) then LEAF
    else if n == LeafNode(EncodeCollection(LISTING), 0, true) then LISTED
    else if n == LeafNode([], 0, true) then NOTHING_AT_ALL
    else OTHER
  }

  lemma TellsApart()
    ensures LEAF[0] == 1 && LISTED[0] == 2 && NOTHING_AT_ALL[0] == 3 && OTHER[0] == 4
  {
    hide LeBytes;
    FirstByte(1, 32);
    FirstByte(2, 32);
    FirstByte(3, 32);
    FirstByte(4, 32);
  }

  lemma FirstByte(n: byte, k: nat)
    requires k > 0
    ensures LeBytes(n, k)[0] == n
  {
  }

  lemma OneFile()
    ensures Sound(ONE_FILE, ONE_SOURCE) && Readable(ONE_FILE, ONE_SOURCE) && TotalSize(ONE_FILE, ONE_SOURCE) == 1
    ensures ContentOf(ONE_FILE, ONE_SOURCE[0]) == [7] && NameOf(ONE_FILE, ONE_SOURCE[0]) == [97]
  {
    hide Postcard.ValidUtf8;
    assert ONE_SOURCE[..0] == [];
    AsciiIsUtf8([97]);
    assert NameOf(ONE_FILE, ONE_SOURCE[0]) == [97];
    assert NameBytes(ONE_FILE, ONE_SOURCE) == NameBytes(ONE_FILE, []) + 1;
    assert TotalSize(ONE_FILE, ONE_SOURCE) == TotalSize(ONE_FILE, []) + 1;
  }

  /** How long the collection is and how it ends. */
  lemma ListingLength()
    ensures var data := EncodeCollection(LISTING); |data| == 48 && data[47] == 1
  {
    hide Postcard.Varint;
    BlobsLength(LISTING.blobs);
    assert LISTING.blobs[1..] == [];
    assert Overhead(LISTING.blobs[1..]) == 0 && Estimate(LISTING.blobs[1..]) == 0;
    Postcard.VarintLength(1);
    Postcard.VarintLength(10);
    OneIsOneByte();
  }

  lemma OneIsOneByte()
    ensures Postcard.Varint(1) == [1]
  {
  }

  lemma ListingIsCollection()
    ensures Readable(ONE_FILE, ONE_SOURCE) && TotalSize(ONE_FILE, ONE_SOURCE) == 1
    ensures CollectionOf(Telling, ONE_FILE, ONE_SOURCE) == LISTING
    ensures Creatable(Telling, ONE_FILE, ONE_SOURCE)
    ensures DataOf(Telling, ONE_FILE, ONE_SOURCE) == EncodeCollection(LISTING)
    ensures ContentHash(Telling, EncodeCollection(LISTING)) == LISTED && ContentHash(Telling, [7]) == LEAF
    ensures ContentHash(Telling, []) == NOTHING_AT_ALL && Created(Telling, ONE_FILE, ONE_SOURCE).1 == LISTED
  {
    hide EncodeCollection, Subtree, Sound, LeBytes;
    OneFile();
    ListingLength();
    SubtreeOfChunk(Telling, [7], 0, true);
    SubtreeOfChunk(Telling, [], 0, true);
    SubtreeOfChunk(Telling, EncodeCollection(LISTING), 0, true);
  }

  /** The theorems above apply to it. */
  lemma Deliverable()
    ensures Creatable(Telling, ONE_FILE, ONE_SOURCE) && Separate(Telling, ONE_FILE, ONE_SOURCE)
    ensures Distinct(Telling, Contents(ONE_FILE, ONE_SOURCE)) && |ONE_SOURCE| == 1
    ensures TotalSize(ONE_FILE, ONE_SOURCE) == 1 <= MAX_DATA_SIZE
  {
    hide EncodeCollection, Subtree, Sound;
    OneFile();
    ListingIsCollection();
    TellsApart();
  }

  /** The encoding of the collection. */
  lemma ListingEncoded()
    ensures var data := EncodeCollection(LISTING);
            |data| == 48 && Encode(Telling, data) == Le64(48) + data && |Encode(Telling, data)| == 56
  {
    hide EncodeCollection, Subtree, LeBytes;
    ListingLength();
    Split(Telling, EncodeCollection(LISTING), 0);
  }

  /** A single write that is one byte short: the hypotheses of `DeliveryExactly` hold and the client's run
      does not end well. */
  lemma OneByteShort(cbs: Callbacks)
    requires Draining(cbs)
    ensures Creatable(Telling, ONE_FILE, ONE_SOURCE) && Separate(Telling, ONE_FILE, ONE_SOURCE)
    ensures var data := DataOf(Telling, ONE_FILE, ONE_SOURCE);
            var burst := |Encode(Telling, data)| - 1;
            var got := ReadResponse(Telling, Created(Telling, ONE_FILE, ONE_SOURCE).1, cbs,
                                    Input(CreatedWire(Telling, ONE_FILE, ONE_SOURCE, burst), Finished));
            && Distinct(Telling, Contents(ONE_FILE, ONE_SOURCE) + {data} + Received(got))
            && !got.result.Ok?
  {
    hide ReadResponse, CreatedWire, Encode, EncodeCollection, Subtree, Sound, Separate, Distinct, Contents, Received,
         LeBytes, Created, DataOf, Creatable, Telling;
    Deliverable();
    ListingIsCollection();
    ListingEncoded();
    var more := ShortWire();
    ShortDistinct(cbs, CreatedWire(Telling, ONE_FILE, ONE_SOURCE, 55), more);
    DeliveryExactly(Telling, ONE_FILE, ONE_SOURCE, cbs, 55);
  }

  /** The announcement, a size of 48, and 48 bytes of which the last is the first of the next response. */
  predicate IsShort(s: seq<byte>, more: seq<byte>) {
    |more| >= 49 && more[47] == 2 && s == ResponseFrame(1, FoundCollection(1)) + (Le64(48) + more)
  }

  lemma ShortWire() returns (more: seq<byte>)
    requires Creatable(Telling, ONE_FILE, ONE_SOURCE)
    ensures IsShort(CreatedWire(Telling, ONE_FILE, ONE_SOURCE, 55), more)
  {
    hide EncodeCollection, Subtree, ResponseFrame, Le64, WellFormed, BlobsWire, Created, CreatedWire, Creatable,
         Telling, Encode, IsShort;
    var data := EncodeCollection(LISTING);
    var db := Created(Telling, ONE_FILE, ONE_SOURCE).0;
    ListingLength();
    WireOfListing(db);
    FirstBlobWire(db);
    var blobs := BlobsWire(Telling, ONE_FILE, db, 1, LISTING.blobs);
    more := data[..47] + blobs;
    ShortOf(data, blobs, CreatedWire(Telling, ONE_FILE, ONE_SOURCE, 55));
  }

  lemma ShortOf(data: seq<byte>, blobs: seq<byte>, s: seq<byte>)
    requires |data| == 48 && |blobs| >= 2 && blobs[0] == 2
    requires s == ResponseFrame(1, FoundCollection(1)) + (Le64(48) + data[..47]) + blobs
    ensures IsShort(s, data[..47] + blobs)
  {
    hide ResponseFrame, Le64;
    var frame, more := ResponseFrame(1, FoundCollection(1)), data[..47] + blobs;
    assert more[47] == blobs[0];
    assert frame + (Le64(48) + data[..47]) + blobs == frame + (Le64(48) + more);
  }

  lemma CreatedWireIs(hs: Hasher, files: Files, sources: seq<DataSource>, burst: nat)
    requires Creatable(hs, files, sources)
    ensures WellFormed(hs, files, Created(hs, files, sources).0)
    ensures var c := CollectionOf(hs, files, sources);
            CreatedWire(hs, files, sources, burst)
            == ResponseFrame(1, FoundCollection(c.totalBlobsSize))
              + Accepted(burst, Encode(hs, DataOf(hs, files, sources)))
               + BlobsWire(hs, files, Created(hs, files, sources).0, 1, c.blobs)
  {
    hide Subtree, ResponseFrame, WellFormed, BlobsWire, Created, DataOf, Encode, CollectionOf;
    CollectionInDb(hs, files, sources);
  }

  lemma WireOfListing(db: Db)
    requires Creatable(Telling, ONE_FILE, ONE_SOURCE) && db == Created(Telling, ONE_FILE, ONE_SOURCE).0
    ensures WellFormed(Telling, ONE_FILE, db) && |EncodeCollection(LISTING)| == 48
    ensures CreatedWire(Telling, ONE_FILE, ONE_SOURCE, 55)
         == ResponseFrame(1, FoundCollection(1)) + (Le64(48) + EncodeCollection(LISTING)[..47])
            + BlobsWire(Telling, ONE_FILE, db, 1, LISTING.blobs)
  {
    hide EncodeCollection, Subtree, ResponseFrame, Le64, WellFormed, BlobsWire, Created, DataOf, Encode, Creatable,
         Telling, CreatedWire, CollectionOf, TransferWire, Sound, Readable, TotalSize;
    ListingIsCollection();
    ListingEncoded();
    CreatedWireIs(Telling, ONE_FILE, ONE_SOURCE, 55);
    var data := EncodeCollection(LISTING);
    assert (Le64(48) + data)[..55] == Le64(48) + data[..47];
  }

  lemma FirstBlobWire(db: Db)
    requires Creatable(Telling, ONE_FILE, ONE_SOURCE) && db == Created(Telling, ONE_FILE, ONE_SOURCE).0
    requires WellFormed(Telling, ONE_FILE, db)
    ensures var blobs := BlobsWire(Telling, ONE_FILE, db, 1, LISTING.blobs);
            |blobs| >= 2 && blobs[0] == 2
  {
    hide EncodeCollection, Subtree, Sound, ResponseFrame, WellFormed, BlobsWire, Created, Encode, Held, LeBytes;
    Deliverable();
    ListingIsCollection();
    OneFile();
    HeldContent(Telling, ONE_FILE, ONE_SOURCE, 0);
    FirstIsHeld(Telling, ONE_FILE, db, 1, LISTING.blobs);
    FoundStarts();
  }

  lemma FoundStarts()
    ensures ResponseFrame(1, Found)[0] == 2
  {
    Postcard.VarintLength(1);
    assert |EncodeResponse(Response(1, Found))| == 2;
    assert Le64(2)[0] == 2;
  }

  lemma ShortRun(cbs: Callbacks, s: seq<byte>, more: seq<byte>)
    requires IsShort(s, more)
    ensures ReadResponse(Telling, LISTED, cbs, Input(s, Finished)).session == NOTHING
  {
    hide LpSplit, DecodeResponse, ResponseFrame, EncodeCollection, LeValue, LeBytes, DecodeTree, Telling, ReadBlobs;
    var content := Le64(48) + more;
    FrameArrives(1, FoundCollection(1), content, Finished);
    Le64RoundTrip(48, Le64(48));
    assert content[..8] == Le64(48) && content[8..] == more;
    ShortIsCorrupt(more);
  }

  lemma ShortIsCorrupt(more: seq<byte>)
    requires |more| >= 49 && more[47] == 2
    ensures DecodeTree(Telling, LISTED, 48, 0, true, more).status.Corrupt?
  {
    hide EncodeCollection, DecodeTree;
    ListingLength();
    TellsApart();
    assert more[..48][47] == 2;
    Single(Telling, LISTED, 48, 0, true, more);
  }

  lemma ShortDistinct(cbs: Callbacks, s: seq<byte>, more: seq<byte>)
    requires Creatable(Telling, ONE_FILE, ONE_SOURCE) && IsShort(s, more)
    ensures Distinct(Telling, Contents(ONE_FILE, ONE_SOURCE) + {EncodeCollection(LISTING)}
                              + Received(ReadResponse(Telling, LISTED, cbs, Input(s, Finished))))
  {
    hide EncodeCollection, Subtree, Creatable, ReadResponse, Telling, IsShort, Distinct;
    ShortRun(cbs, s, more);
    OneFile();
    ThreeDistinct();
    assert Received(ReadResponse(Telling, LISTED, cbs, Input(s, Finished))) == {[]};
    assert Contents(ONE_FILE, ONE_SOURCE) == {[7]};
  }

  lemma ThreeDistinct()
    ensures var none: seq<byte> := []; Distinct(Telling, {[7]} + {EncodeCollection(LISTING)} + {none})
  {
    hide EncodeCollection, ContentHash, Telling, LeBytes, Creatable, DataOf, Created;
    ListingIsCollection();
    TellsApart();
  }
}
