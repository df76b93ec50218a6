/** The content-addressed database and how it is built from a list of files. */
module Database {
  import opened Base
  import opened Postcard
  import opened Blobs
  import opened Bao

  type Path = seq<byte>

  /** The files as they are while a provider runs, and the name a path ends in (empty if it has none). */
  datatype Files = Files(content: map<Path, seq<byte>>, fileName: Path -> seq<byte>)

  datatype DataSource = File(path: Path) | NamedFile(path: Path, name: seq<byte>)

  datatype Entry =
    | BlobEntry(outboard: seq<byte>, path: Path, size: u64)
    | CollectionEntry(outboard: seq<byte>, data: seq<byte>)

  type Db = map<Hash, Entry>

  // "collection"
  const COLLECTION_NAME: seq<byte> := [99, 111, 108, 108, 101, 99, 116, 105, 111, 110]

  function NameOf(files: Files, source: DataSource): seq<byte> {
    match source
    case File(path) => files.fileName(path)
    case NamedFile(_, name) => name
  }

  /** File lengths are 64-bit numbers. */
  predicate LengthsFit(files: Files) {
    forall p | p in files.content :: |files.content[p]| < U64_LIMIT
  }

  function NameBytes(files: Files, sources: seq<DataSource>): nat {
    if sources == [] then 0
    else NameBytes(files, sources[..|sources| - 1]) + |NameOf(files, sources[|sources| - 1])|
  }

  /** What the types of the program say of its inputs: names are strings that are in memory together,
      and lengths fit 64 bits. */
  predicate Sound(files: Files, sources: seq<DataSource>) {
    && |sources| < U64_LIMIT && NameBytes(files, sources) < U64_LIMIT / 2
    && (forall s | s in sources :: ValidUtf8(NameOf(files, s)) && |NameOf(files, s)| < U64_LIMIT)
    && LengthsFit(files)
  }

  predicate Readable(files: Files, sources: seq<DataSource>) {
    forall s | s in sources :: s.path in files.content
  }

  // ---- what is built ----

  function ContentOf(files: Files, source: DataSource): seq<byte>
    requires source.path in files.content
  {
    files.content[source.path]
  }

  function Listing(hs: Hasher, files: Files, sources: seq<DataSource>): (blobs: seq<Blob>)
    requires Readable(files, sources)
    ensures |blobs| == |sources|
    ensures forall i | 0 <= i < |sources| ::
              blobs[i] == Blob(NameOf(files, sources[i]), ContentHash(hs, ContentOf(files, sources[i])))
  {
    if sources == [] then []
    else
      var last := sources[|sources| - 1];
      Listing(hs, files, sources[..|sources| - 1])
      + [Blob(NameOf(files, last), ContentHash(hs, ContentOf(files, last)))]
  }

  function TotalSize(files: Files, sources: seq<DataSource>): nat
    requires Readable(files, sources)
  {
    if sources == [] then 0
    else TotalSize(files, sources[..|sources| - 1]) + |ContentOf(files, sources[|sources| - 1])|
  }

  function BlobFor(hs: Hasher, files: Files, source: DataSource): Entry
    requires source.path in files.content && |ContentOf(files, source)| < U64_LIMIT
  {
    var d := ContentOf(files, source);
    BlobEntry(Outboard(hs, d), source.path, |d|)
  }

  /** The map after inserting the sources in order; a later source replaces an earlier equal key. */
  function BlobsDb(hs: Hasher, files: Files, sources: seq<DataSource>): Db
    requires Readable(files, sources) && LengthsFit(files)
  {
    if sources == [] then map[]
    else
      var last := sources[|sources| - 1];
      BlobsDb(hs, files, sources[..|sources| - 1])[ContentHash(hs, ContentOf(files, last)) := BlobFor(hs, files, last)]
  }

  function CollectionOf(hs: Hasher, files: Files, sources: seq<DataSource>): (c: Collection)
    requires Readable(files, sources) && TotalSize(files, sources) < U64_LIMIT
  {
    Collection(COLLECTION_NAME, Listing(hs, files, sources), TotalSize(files, sources))
  }

  lemma CollectionIsValid(hs: Hasher, files: Files, sources: seq<DataSource>)
    requires Readable(files, sources) && Sound(files, sources) && TotalSize(files, sources) < U64_LIMIT
    ensures CollectionOf(hs, files, sources).Valid()
  {
    hide ValidUtf8, ScalarLength;
    AsciiIsUtf8(COLLECTION_NAME);
  }

  lemma {:induction false} AsciiIsUtf8(s: seq<byte>)
    requires forall i | 0 <= i < |s| :: s[i] < 128
    ensures ValidUtf8(s)
  {
    if s != [] {
      assert ScalarLength(s) == 1;
      AsciiIsUtf8(s[1..]);
    }
  }

  // ---- building ----

  datatype Hashed = Hashed(path: Path, name: Option<seq<byte>>, hash: Hash, outboard: seq<byte>)

  /** Hash and outboard of one file; only files can be offered. */
  function ComputeOutboard(hs: Hasher, files: Files, path: Path, name: Option<seq<byte>>): Outcome<Hashed> {
    if path !in files.content || |files.content[path]| >= U64_LIMIT then Err(NotAFile)
    else Ok(Hashed(path, name, ContentHash(hs, files.content[path]), Outboard(hs, files.content[path])))
  }

  function HashedOf(hs: Hasher, files: Files, source: DataSource): Outcome<Hashed> {
    ComputeOutboard(hs, files, source.path, if source.NamedFile? then Some(source.name) else None)
  }

  method ComputeOutboards(hs: Hasher, files: Files, sources: seq<DataSource>) returns (r: Outcome<seq<Hashed>>)
    requires Sound(files, sources)
    ensures r.Ok? <==> Readable(files, sources)
    ensures !r.Ok? ==> r == Err(NotAFile)
    ensures r.Ok? ==> |r.value| == |sources|
                      && forall i | 0 <= i < |sources| :: HashedOf(hs, files, sources[i]) == Ok(r.value[i])
  {
    var all: seq<Hashed> := [];
    for i := 0 to |sources|
      invariant |all| == i
      invariant forall j | 0 <= j < i ::
                  HashedOf(hs, files, sources[j]) == Ok(all[j]) && sources[j].path in files.content
    {
      var one := HashedOf(hs, files, sources[i]);
      if !one.Ok? {
        assert sources[i] in sources;
        return Err(NotAFile);
      }
      all := all + [one.value];
    }
    return Ok(all);
  }

  /** The loop over the hashed files: fills the map, the list, the total and the size estimate. */
  method InsertBlobs(hs: Hasher, files: Files, sources: seq<DataSource>, outboards: seq<Hashed>)
    returns (r: Outcome<()>, db: Db, blobs: seq<Blob>, total: u64, estimate: nat)
    requires Sound(files, sources) && Readable(files, sources) && |outboards| == |sources|
    requires forall i | 0 <= i < |sources| :: HashedOf(hs, files, sources[i]) == Ok(outboards[i])
    ensures r == if TotalSize(files, sources) < U64_LIMIT then Ok(()) else Panic
    ensures r.Ok? ==>
              && db == BlobsDb(hs, files, sources) && blobs == Listing(hs, files, sources)
              && total == TotalSize(files, sources) && estimate == Estimate(blobs)
              && ListsSources(hs, files, sources, blobs)
  {
    hide BlobsDb, Listing, TotalSize, Estimate, ContentHash, OutboardTree, ListsSources;
    r, db, blobs, total, estimate := Ok(()), map[], [], 0, 0;
    NoneYet(hs, files, sources);
    for i := 0 to |sources|
      invariant r.Ok?
      invariant db == BlobsDb(hs, files, sources[..i])
      invariant blobs == Listing(hs, files, sources[..i])
      invariant total == TotalSize(files, sources[..i])
      invariant estimate == Estimate(blobs)
    {
      OneMore(hs, files, sources, i);
      var Hashed(path, name, hash, outboard) := outboards[i];
      OutboardSize(hs, ContentOf(files, sources[i]));
      var size := U64OfLe(outboard[..8]);
      db := db[hash := BlobEntry(outboard, path, size)];
      if total + size >= U64_LIMIT {
        TotalGrows(files, sources, i + 1);
        return Panic, db, blobs, total, estimate;
      }
      total := total + size;
      var name' := if name.Some? then name.value else files.fileName(path);
      EstimateAppend(blobs, Blob(name', hash));
      estimate := estimate + |name'| + 32;
      blobs := blobs + [Blob(name', hash)];
    }
    assert sources[..|sources|] == sources;
    SourcesListed(hs, files, sources);
  }

  lemma NoneYet(hs: Hasher, files: Files, sources: seq<DataSource>)
    requires Readable(files, sources) && LengthsFit(files)
    ensures BlobsDb(hs, files, sources[..0]) == map[] && Listing(hs, files, sources[..0]) == []
    ensures TotalSize(files, sources[..0]) == 0 && Estimate([]) == 0
  {
  }

  lemma OneMore(hs: Hasher, files: Files, sources: seq<DataSource>, i: nat)
    requires Sound(files, sources) && Readable(files, sources) && i < |sources|
    ensures var s := sources[i];
            var h := ContentHash(hs, ContentOf(files, s));
            && s in sources
            && BlobsDb(hs, files, sources[..i + 1]) == BlobsDb(hs, files, sources[..i])[h := BlobFor(hs, files, s)]
            && Listing(hs, files, sources[..i + 1]) == Listing(hs, files, sources[..i]) + [Blob(NameOf(files, s), h)]
            && TotalSize(files, sources[..i + 1]) == TotalSize(files, sources[..i]) + |ContentOf(files, s)|
  {
    hide ContentHash, NameBytes, NameOf, Outboard;
    var more := sources[..i + 1];
    assert |more| == i + 1 && more[i] == sources[i] && more[..i] == sources[..i];
    NextListed(hs, files, more);
  }

  lemma NextListed(hs: Hasher, files: Files, more: seq<DataSource>)
    requires Readable(files, more) && more != []
    ensures var s := more[|more| - 1];
            Listing(hs, files, more)
            == Listing(hs, files, more[..|more| - 1]) + [Blob(NameOf(files, s), ContentHash(hs, ContentOf(files, s)))]
  {
  }

  lemma OutboardSize(hs: Hasher, d: seq<byte>)
    requires |d| < U64_LIMIT
    ensures U64OfLe(Outboard(hs, d)[..8]) == |d|
  {
    assert Outboard(hs, d)[..8] == Le64(|d|);
    Le64RoundTrip(|d|, Le64(|d|));
  }

  /** Builds the database of the given files together with the collection that lists them. */
  method CreateCollection(hs: Hasher, files: Files, sources: seq<DataSource>) returns (r: Outcome<(Db, Hash)>)
    requires Sound(files, sources)
    ensures r == Err(NotAFile) <==> !Readable(files, sources)
    ensures Readable(files, sources) ==> (r == Panic <==> TotalSize(files, sources) >= U64_LIMIT)
    ensures Readable(files, sources) && TotalSize(files, sources) < U64_LIMIT ==>
              r == if Creatable(hs, files, sources) then Ok(Created(hs, files, sources)) else Err(BufferFull)
    ensures r.Ok? ==> Lists(hs, files, sources, r.value.0, r.value.1)
  {
    var outboards := ComputeOutboards(hs, files, sources);
    if !outboards.Ok? {
      return Err(NotAFile);
    }
    var inserted, db, blobs, total, estimate := InsertBlobs(hs, files, sources, outboards.value);
    if !inserted.Ok? {
      return Panic;
    }
    var c := Collection(COLLECTION_NAME, blobs, total);
    estimate := estimate + |c.name|;
    var data := ToSlice(EncodeCollection(c), estimate + 1024);
    if !data.Ok? {
      return Err(BufferFull);
    }
    FittingIsShort(hs, files, sources);
    var hash := ContentHash(hs, data.value);
    db := db[hash := CollectionEntry(Outboard(hs, data.value), data.value)];
    CreatedLists(hs, files, sources);
    return Ok((db, hash));
  }

  lemma {:induction false} TotalGrows(files: Files, sources: seq<DataSource>, n: nat)
    requires Readable(files, sources) && n <= |sources|
    ensures TotalSize(files, sources[..n]) <= TotalSize(files, sources)
    decreases |sources| - n
  {
    if n == |sources| {
      assert sources[..n] == sources;
    } else {
      assert sources[..n + 1][..n] == sources[..n];
      TotalGrows(files, sources, n + 1);
    }
  }

  lemma {:induction false} EstimateAppend(blobs: seq<Blob>, b: Blob)
    ensures Estimate(blobs + [b]) == Estimate(blobs) + |b.name| + 32
  {
    if blobs != [] {
      assert (blobs + [b])[1..] == blobs[1..] + [b];
      EstimateAppend(blobs[1..], b);
    }
  }

  // ---- what a database promises ----

  /** Every key is the hash of what its entry leads to. */
  predicate WellFormed(hs: Hasher, files: Files, db: Db) {
    forall k | k in db :: WellFormedEntry(hs, files, k, db[k])
  }

  predicate WellFormedEntry(hs: Hasher, files: Files, k: Hash, e: Entry) {
    match e
    case BlobEntry(outboard, path, size) =>
      && path in files.content && |files.content[path]| == size
      && ContentHash(hs, files.content[path]) == k && outboard == Outboard(hs, files.content[path])
    case CollectionEntry(outboard, data) =>
      && |data| < U64_LIMIT && ContentHash(hs, data) == k && outboard == Outboard(hs, data)
  }

  predicate HasHash(hs: Hasher, files: Files, source: DataSource, k: Hash)
    requires source.path in files.content
  {
    ContentHash(hs, ContentOf(files, source)) == k
  }

  /** Position of the last source with the given hash, -1 if there is none. */
  function LastWith(hs: Hasher, files: Files, sources: seq<DataSource>, k: Hash): (i: int)
    requires Readable(files, sources)
    ensures -1 <= i < |sources|
    ensures i >= 0 ==> HasHash(hs, files, sources[i], k)
    ensures forall j | i < j < |sources| :: !HasHash(hs, files, sources[j], k)
  {
    if sources == [] then -1
    else if HasHash(hs, files, sources[|sources| - 1], k) then |sources| - 1
    else LastWith(hs, files, sources[..|sources| - 1], k)
  }

  /** An inserted key leads to the last of the sources that have this hash; nothing else is inserted. */
  lemma {:induction false} BlobsDbEntries(hs: Hasher, files: Files, sources: seq<DataSource>, k: Hash)
    requires Readable(files, sources) && LengthsFit(files)
    ensures k in BlobsDb(hs, files, sources) <==> LastWith(hs, files, sources, k) >= 0
    ensures k in BlobsDb(hs, files, sources) ==>
              BlobsDb(hs, files, sources)[k] == BlobFor(hs, files, sources[LastWith(hs, files, sources, k)])
  {
    if sources != [] {
      BlobsDbEntries(hs, files, sources[..|sources| - 1], k);
    }
  }

  /** The content of the collection's own entry. */
  function DataOf(hs: Hasher, files: Files, sources: seq<DataSource>): (data: seq<byte>)
    requires Creatable(hs, files, sources)
    ensures |data| < U64_LIMIT
  {
    FittingIsShort(hs, files, sources);
    EncodeCollection(CollectionOf(hs, files, sources))
  }

  /** The database that a successful `CreateCollection` returns. */
  function Created(hs: Hasher, files: Files, sources: seq<DataSource>): (Db, Hash)
    requires Creatable(hs, files, sources)
  {
    var data := DataOf(hs, files, sources);
    var hash := ContentHash(hs, data);
    (BlobsDb(hs, files, sources)[hash := CollectionEntry(Outboard(hs, data), data)], hash)
  }

  /** When `CreateCollection` succeeds. */
  predicate Creatable(hs: Hasher, files: Files, sources: seq<DataSource>) {
    && Sound(files, sources) && Readable(files, sources) && TotalSize(files, sources) < U64_LIMIT
    && |EncodeCollection(CollectionOf(hs, files, sources))| <= BufferSize(CollectionOf(hs, files, sources))
  }

  lemma FittingIsShort(hs: Hasher, files: Files, sources: seq<DataSource>)
    requires Sound(files, sources) && Readable(files, sources) && TotalSize(files, sources) < U64_LIMIT
    requires |EncodeCollection(CollectionOf(hs, files, sources))| <= BufferSize(CollectionOf(hs, files, sources))
    ensures |EncodeCollection(CollectionOf(hs, files, sources))| < U64_LIMIT
  {
    BufferBound(CollectionOf(hs, files, sources));
    EstimateOfListing(hs, files, sources);
  }

  lemma {:induction false} EstimateOfListing(hs: Hasher, files: Files, sources: seq<DataSource>)
    requires Readable(files, sources)
    ensures Estimate(Listing(hs, files, sources)) == NameBytes(files, sources) + 32 * |sources|
  {
    if sources != [] {
      var n := |sources| - 1;
      EstimateOfListing(hs, files, sources[..n]);
      EstimateAppend(Listing(hs, files, sources[..n]), Listing(hs, files, sources)[n]);
      assert Listing(hs, files, sources) == Listing(hs, files, sources[..n]) + [Listing(hs, files, sources)[n]];
    }
  }

  /** The collection's own key does not coincide with a listed blob's. */
  predicate Separate(hs: Hasher, files: Files, sources: seq<DataSource>)
    requires Creatable(hs, files, sources)
  {
    forall i | 0 <= i < |sources| ::
      ContentHash(hs, ContentOf(files, sources[i])) != Created(hs, files, sources).1
  }

  lemma BlobIsWellFormed(hs: Hasher, files: Files, source: DataSource, k: Hash)
    requires source.path in files.content && HasHash(hs, files, source, k) && |ContentOf(files, source)| < U64_LIMIT
    ensures WellFormedEntry(hs, files, k, BlobFor(hs, files, source))
  {
  }

  /** A created database is well formed, holds the collection under the returned hash, and leads from
      every listed hash to a blob with that hash unless the collection's entry replaced it. */
  lemma CreatedDatabase(hs: Hasher, files: Files, sources: seq<DataSource>)
    requires Creatable(hs, files, sources)
    ensures var (db, hash) := Created(hs, files, sources);
            var c := CollectionOf(hs, files, sources);
            && WellFormed(hs, files, db)
            && hash in db
            && db[hash] == CollectionEntry(Outboard(hs, DataOf(hs, files, sources)), DataOf(hs, files, sources))
            && DecodeCollection(db[hash].data) == Some(c)
            && (forall i | 0 <= i < |c.blobs| ::
                  c.blobs[i].hash in db && (db[c.blobs[i].hash].BlobEntry? <==> c.blobs[i].hash != hash))
  {
    var (db, hash) := Created(hs, files, sources);
    var c := CollectionOf(hs, files, sources);
    CollectionIsValid(hs, files, sources);
    CollectionRoundTrip(c, []);
    assert EncodeCollection(c) + [] == EncodeCollection(c);
    FittingIsShort(hs, files, sources);
    forall k | k in db ensures WellFormedEntry(hs, files, k, db[k]) && (db[k].BlobEntry? <==> k != hash) {
      if k != hash {
        BlobsDbEntries(hs, files, sources, k);
        BlobIsWellFormed(hs, files, sources[LastWith(hs, files, sources, k)], k);
      }
    }
    forall i | 0 <= i < |c.blobs| ensures c.blobs[i].hash in db {
      assert HasHash(hs, files, sources[i], c.blobs[i].hash);
      BlobsDbEntries(hs, files, sources, c.blobs[i].hash);
    }
  }

  /** The collection under `hash` is called "collection" and lists every source in order: under the name it
      was given or else the path's file name, and with the hash of the file's content; its total is the sum
      of the lengths. */
  predicate Lists(hs: Hasher, files: Files, sources: seq<DataSource>, db: Db, hash: Hash) {
    && hash in db && db[hash].CollectionEntry? && DecodeCollection(db[hash].data).Some?
    && var c := DecodeCollection(db[hash].data).value;
       && IsWord(c.name, "collection") && ListsSources(hs, files, sources, c.blobs)
       && c.totalBlobsSize == SumOfLengths(files, sources)
  }

  predicate ListsSources(hs: Hasher, files: Files, sources: seq<DataSource>, blobs: seq<Blob>) {
    && |blobs| == |sources|
    && forall i | 0 <= i < |sources| ::
         && sources[i].path in files.content
         && blobs[i].hash == ContentHash(hs, files.content[sources[i].path])
         && blobs[i].name == if sources[i].NamedFile? then sources[i].name else files.fileName(sources[i].path)
  }

  lemma SourcesListed(hs: Hasher, files: Files, sources: seq<DataSource>)
    requires Readable(files, sources)
    ensures ListsSources(hs, files, sources, Listing(hs, files, sources))
  {
    hide ContentHash;
    forall i | 0 <= i < |sources| ensures sources[i].path in files.content {
      assert sources[i] in sources;
    }
  }

  /** These bytes spell an ASCII word. */
  predicate IsWord(b: seq<byte>, word: string) {
    |b| == |word| && forall i | 0 <= i < |b| :: b[i] == word[i] as int
  }

  function SumOfLengths(files: Files, sources: seq<DataSource>): nat {
    if sources == [] then 0
    else (if sources[0].path in files.content then |files.content[sources[0].path]| else 0)
         + SumOfLengths(files, sources[1..])
  }

  lemma {:induction false} SumAppend(files: Files, sources: seq<DataSource>, s: DataSource)
    ensures SumOfLengths(files, sources + [s])
         == SumOfLengths(files, sources) + if s.path in files.content then |files.content[s.path]| else 0
  {
    if sources == [] {
      assert ([] + [s])[1..] == [];
    } else {
      assert (sources + [s])[1..] == sources[1..] + [s];
      SumAppend(files, sources[1..], s);
    }
  }

  lemma {:induction false} TotalIsSum(files: Files, sources: seq<DataSource>)
    requires Readable(files, sources)
    ensures TotalSize(files, sources) == SumOfLengths(files, sources)
  {
    if sources != [] {
      var n := |sources| - 1;
      TotalIsSum(files, sources[..n]);
      SumAppend(files, sources[..n], sources[n]);
      assert sources[..n] + [sources[n]] == sources && sources[n] in sources;
    }
  }

  lemma CreatedLists(hs: Hasher, files: Files, sources: seq<DataSource>)
    requires Creatable(hs, files, sources)
    ensures Lists(hs, files, sources, Created(hs, files, sources).0, Created(hs, files, sources).1)
  {
    hide Outboard, BlobsDb, DecodeCollection, Subtree, DataOf, WellFormed;
    CreatedDatabase(hs, files, sources);
    TotalIsSum(files, sources);
    SourcesListed(hs, files, sources);
  }
}
