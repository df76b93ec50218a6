/** Collections of blobs and their encoding. */
module Blobs {
  import opened Base
  import opened Postcard

  datatype Blob = Blob(name: seq<byte>, hash: Hash) {
    /** The name is a string of the program: UTF-8 of a length that fits a `usize`. */
    predicate Valid() {
      ValidUtf8(name) && |name| < U64_LIMIT
    }
  }

  datatype Collection = Collection(name: seq<byte>, blobs: seq<Blob>, totalBlobsSize: u64) {
    predicate Valid() {
      && ValidUtf8(name) && |name| < U64_LIMIT
      && |blobs| < U64_LIMIT
      && forall i :: 0 <= i < |blobs| ==> blobs[i].Valid()
    }
  }

  function EncodeBlob(b: Blob): (s: seq<byte>)
    ensures |s| == |Varint(|b.name|)| + |b.name| + 33
  {
    TakeHashOf(b.hash, []);
    PutBytes(b.name) + PutBytes(b.hash)
  }

  function EncodeBlobs(bs: seq<Blob>): seq<byte> {
    if bs == [] then [] else EncodeBlob(bs[0]) + EncodeBlobs(bs[1..])
  }

  function EncodeCollection(c: Collection): seq<byte> {
    PutBytes(c.name) + Varint(|c.blobs|) + EncodeBlobs(c.blobs) + Varint(c.totalBlobsSize)
  }

  function TakeBlob(s: seq<byte>): Option<(Blob, seq<byte>)> {
    var (name, rest) :- TakeString(s);
    var (hash, rest) :- TakeHash(rest);
    Some((Blob(name, hash), rest))
  }

  function TakeBlobs(s: seq<byte>, n: nat): (r: Option<(seq<Blob>, seq<byte>)>)
    ensures r.Some? ==> |r.value.0| == n
  {
    if n == 0 then Some(([], s))
    else
      var (b, rest) :- TakeBlob(s);
      var (bs, rest) :- TakeBlobs(rest, n - 1);
      Some(([b] + bs, rest))
  }

  /** `Collection::from_bytes`; bytes after the collection are ignored. */
  function DecodeCollection(s: seq<byte>): Option<Collection> {
    var (name, rest) :- TakeString(s);
    var (n, rest) :- TakeU64(rest);
    var (blobs, rest) :- TakeBlobs(rest, n);
    var (total, _) :- TakeU64(rest);
    Some(Collection(name, blobs, total))
  }

  lemma TakeStringOf(b: seq<byte>, rest: seq<byte>)
    requires ValidUtf8(b) && |b| < U64_LIMIT
    ensures TakeString(PutBytes(b) + rest) == Some((b, rest))
  {
    TakeBytesOf(b, rest);
  }

  lemma TakeBlobOf(b: Blob, rest: seq<byte>)
    requires b.Valid()
    ensures TakeBlob(EncodeBlob(b) + rest) == Some((b, rest))
  {
    assert EncodeBlob(b) + rest == PutBytes(b.name) + (PutBytes(b.hash) + rest);
    TakeStringOf(b.name, PutBytes(b.hash) + rest);
    TakeHashOf(b.hash, rest);
  }

  lemma {:induction false} TakeBlobsOf(bs: seq<Blob>, rest: seq<byte>)
    requires forall i :: 0 <= i < |bs| ==> bs[i].Valid()
    ensures TakeBlobs(EncodeBlobs(bs) + rest, |bs|) == Some((bs, rest))
  {
    hide TakeBlob, EncodeBlob, ValidUtf8;
    if bs == [] {
      assert EncodeBlobs(bs) + rest == rest;
    } else {
      var tail := EncodeBlobs(bs[1..]) + rest;
      assert EncodeBlobs(bs) + rest == EncodeBlob(bs[0]) + tail;
      TakeBlobOf(bs[0], tail);
      TakeBlobsOf(bs[1..], rest);
      TakeBlobsStep(EncodeBlobs(bs) + rest, bs, tail, rest);
    }
  }

  lemma TakeBlobsStep(s: seq<byte>, bs: seq<Blob>, tail: seq<byte>, rest: seq<byte>)
    requires bs != [] && TakeBlob(s) == Some((bs[0], tail))
    requires TakeBlobs(tail, |bs| - 1) == Some((bs[1..], rest))
    ensures TakeBlobs(s, |bs|) == Some((bs, rest))
  {
    hide TakeBlob;
    assert [bs[0]] + bs[1..] == bs;
  }

  /** Decoding undoes encoding whatever bytes follow, through nested strings, hashes and lengths. */
  lemma CollectionRoundTrip(c: Collection, rest: seq<byte>)
    requires c.Valid()
    ensures DecodeCollection(EncodeCollection(c) + rest) == Some(c)
  {
    var total := Varint(c.totalBlobsSize) + rest;
    var blobs := EncodeBlobs(c.blobs) + total;
    var count := Varint(|c.blobs|) + blobs;
    assert EncodeCollection(c) + rest == PutBytes(c.name) + count;
    TakeStringOf(c.name, count);
    IntegersRoundTrip(|c.blobs|, blobs);
    TakeBlobsOf(c.blobs, total);
    IntegersRoundTrip(c.totalBlobsSize, rest);
  }

  /** No collection's encoding begins another's: two that share a stretch of bytes are equal. */
  lemma EncodingsDiffer(a: Collection, b: Collection, rest: seq<byte>)
    requires a.Valid() && b.Valid() && EncodeCollection(a) == EncodeCollection(b) + rest
    ensures a == b && rest == []
  {
    CollectionRoundTrip(a, []);
    CollectionRoundTrip(b, rest);
    assert EncodeCollection(a) + [] == EncodeCollection(a);
  }

  /** The bytes of a collection of two short-named blobs: fields and entries in order, each name and hash
      behind its length, the number of entries in front of them, the total last. */
  lemma CollectionBytes(name: seq<byte>, a: Blob, b: Blob, total: u64)
    requires |name| < 128 && |a.name| < 128 && |b.name| < 128
    ensures EncodeCollection(Collection(name, [a, b], total))
         == [|name|] + name + [2] + [|a.name|] + a.name + [32] + a.hash + [|b.name|] + b.name + [32] + b.hash
            + Varint(total)
  {
    hide Varint, EncodeBlob;
    SmallVarint(|name|);
    BlobBytes(a);
    BlobBytes(b);
    SmallVarint(2);
    TwoBlobs(a, b);
    assert PutBytes(name) == [|name|] + name;
  }

  lemma TwoBlobs(a: Blob, b: Blob)
    ensures EncodeBlobs([a, b]) == EncodeBlob(a) + EncodeBlob(b)
  {
    hide EncodeBlob;
    assert [a, b][1..] == [b] && [b][1..] == [];
    assert EncodeBlobs([b]) == EncodeBlob(b) + [] == EncodeBlob(b);
  }

  lemma BlobBytes(b: Blob)
    requires |b.name| < 128
    ensures EncodeBlob(b) == [|b.name|] + b.name + [32] + b.hash
  {
    hide Varint;
    SmallVarint(|b.name|);
    SmallVarint(32);
  }

  /** Whatever is decoded, names are strings and lengths fit 64 bits. */
  lemma {:induction false} TakenAreValid(s: seq<byte>, n: nat)
    requires TakeBlobs(s, n).Some?
    ensures forall i | 0 <= i < n :: TakeBlobs(s, n).value.0[i].Valid()
    decreases n
  {
    hide TakeBlob;
    if n > 0 {
      TakenIsValid(s);
      TakenAreValid(TakeBlob(s).value.1, n - 1);
    }
  }

  lemma TakenIsValid(s: seq<byte>)
    requires TakeBlob(s).Some?
    ensures TakeBlob(s).value.0.Valid()
  {
    TakenStringIsValid(s);
  }

  lemma TakenStringIsValid(s: seq<byte>)
    requires TakeString(s).Some?
    ensures ValidUtf8(TakeString(s).value.0) && |TakeString(s).value.0| < U64_LIMIT
  {
  }

  lemma DecodedIsValid(s: seq<byte>)
    requires DecodeCollection(s).Some?
    ensures DecodeCollection(s).value.Valid()
  {
    hide TakeString, TakeBlobs, ValidUtf8;
    TakenStringIsValid(s);
    var rest := TakeString(s).value.1;
    var (n, blobs) := TakeU64(rest).value;
    TakenAreValid(blobs, n);
  }

  // ---- truncated collections ----

  lemma TakeBlobExtends(s: seq<byte>, more: seq<byte>)
    requires TakeBlob(s).Some?
    ensures TakeBlob(s + more) == Some((TakeBlob(s).value.0, TakeBlob(s).value.1 + more))
  {
    hide TakeBytes, ValidUtf8;
    TakeBytesExtends(s, more);
    TakeBytesExtends(TakeString(s).value.1, more);
  }

  lemma {:induction false} TakeBlobsExtends(s: seq<byte>, n: nat, more: seq<byte>)
    requires TakeBlobs(s, n).Some?
    ensures TakeBlobs(s + more, n) == Some((TakeBlobs(s, n).value.0, TakeBlobs(s, n).value.1 + more))
    decreases n
  {
    hide TakeBlob;
    if n > 0 {
      TakeBlobExtends(s, more);
      TakeBlobsExtends(TakeBlob(s).value.1, n - 1, more);
    }
  }

  /** What is left behind a collection. */
  function BehindCollection(s: seq<byte>): seq<byte>
    requires DecodeCollection(s).Some?
  {
    var rest := TakeString(s).value.1;
    var (n, rest) := TakeU64(rest).value;
    var rest := TakeBlobs(rest, n).value.1;
    TakeU64(rest).value.1
  }

  lemma CollectionExtends(s: seq<byte>, more: seq<byte>)
    requires DecodeCollection(s).Some?
    ensures DecodeCollection(s + more) == DecodeCollection(s)
    ensures BehindCollection(s + more) == BehindCollection(s) + more
  {
    hide TakeBytes, ValidUtf8, TakeU64, TakeBlobs;
    TakeBytesExtends(s, more);
    var rest := TakeString(s).value.1;
    TakeU64Extends(rest, more);
    var (n, blobs) := TakeU64(rest).value;
    TakeBlobsExtends(blobs, n, more);
    TakeU64Extends(TakeBlobs(blobs, n).value.1, more);
  }

  /** No proper front part of a collection's encoding decodes to anything. */
  lemma TruncatedCollection(c: Collection, k: nat)
    requires c.Valid() && k < |EncodeCollection(c)|
    ensures DecodeCollection(EncodeCollection(c)[..k]).None?
  {
    hide EncodeCollection, DecodeCollection, BehindCollection;
    var s := EncodeCollection(c);
    if DecodeCollection(s[..k]).Some? {
      CollectionExtends(s[..k], s[k..]);
      assert s[..k] + s[k..] == s;
      NothingBehind(c);
    }
  }

  lemma NothingBehind(c: Collection)
    requires c.Valid()
    ensures DecodeCollection(EncodeCollection(c)) == Some(c) && BehindCollection(EncodeCollection(c)) == []
  {
    hide TakeString, TakeU64, TakeBlobs, EncodeBlobs, Varint;
    var total := Varint(c.totalBlobsSize);
    var blobs := EncodeBlobs(c.blobs) + total;
    var count := Varint(|c.blobs|) + blobs;
    assert EncodeCollection(c) == PutBytes(c.name) + count && total + [] == total;
    TakeStringOf(c.name, count);
    IntegersRoundTrip(|c.blobs|, blobs);
    TakeBlobsOf(c.blobs, total);
    IntegersRoundTrip(c.totalBlobsSize, []);
  }

  // ---- the serialisation buffer ----

  /** The estimate that sizes the buffer: names and raw hashes, the collection's own name, and 1024. */
  function BufferSize(c: Collection): nat {
    Estimate(c.blobs) + |c.name| + 1024
  }

  function Estimate(bs: seq<Blob>): nat {
    if bs == [] then 0 else |bs[0].name| + 32 + Estimate(bs[1..])
  }

  /** What encoding the names costs beyond the estimate: a length for each name and for each hash. */
  function Overhead(bs: seq<Blob>): nat {
    if bs == [] then 0 else |Varint(|bs[0].name|)| + 1 + Overhead(bs[1..])
  }

  lemma {:induction false} BlobsLength(bs: seq<Blob>)
    ensures |EncodeBlobs(bs)| == Estimate(bs) + Overhead(bs)
  {
    if bs != [] {
      BlobsLength(bs[1..]);
    }
  }

  lemma {:induction false} OverheadBounds(bs: seq<Blob>)
    ensures Overhead(bs) >= 2 * |bs|
    ensures (forall i :: 0 <= i < |bs| ==> |bs[i].name| < 128) ==> Overhead(bs) == 2 * |bs|
  {
    if bs != [] {
      OverheadBounds(bs[1..]);
      VarintLength(|bs[0].name|);
    }
  }

  /** The collection fits its buffer exactly when lengths, count and total take at most 1024 bytes:
      always for at most 505 short names, never for 511 or more sources. */
  lemma BufferBound(c: Collection)
    requires |c.name| < 128 && |c.blobs| < U64_LIMIT
    ensures |EncodeCollection(c)| <= BufferSize(c)
            <==> 1 + |Varint(|c.blobs|)| + |Varint(c.totalBlobsSize)| + Overhead(c.blobs) <= 1024
    ensures |c.blobs| <= 505 && (forall i :: 0 <= i < |c.blobs| ==> |c.blobs[i].name| < 128)
            ==> |EncodeCollection(c)| <= BufferSize(c)
    ensures |c.blobs| >= 511 ==> |EncodeCollection(c)| > BufferSize(c)
  {
    BlobsLength(c.blobs);
    OverheadBounds(c.blobs);
    VarintLength(|c.name|);
    VarintLength(|c.blobs|);
    VarintLength(c.totalBlobsSize);
  }
}
