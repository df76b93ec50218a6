/**
 The verified encoding that content travels in.  The encoder and decoder are external to the program;
 what the program relies on is stated here for the pre-order tree of the Bao specification ("Combined
 Encoding Format"): an 8-byte length, then for every subtree longer than a chunk the hashes of its two
 halves followed by the halves.  The hash is a parameter, so every statement holds for any hash.
 */
module Bao {
  import opened Base

  const CHUNK: nat := 1024

  /** One call of the hash: on a chunk at its position, or on the hashes of two halves; the flag marks
      the root of the tree. */
  datatype Node =
    | LeafNode(data: seq<byte>, start: nat, root: bool)
    | ParentNode(left: Hash, right: Hash, root: bool)

  type Hasher = Node -> Hash

  /** The left half is the largest power-of-two number of chunks that leaves something for the right. */
  function LeftLength(n: nat): (m: nat)
    requires n > CHUNK
    ensures CHUNK <= m < n <= 2 * m
  {
    Widest(CHUNK, n)
  }

  function Widest(m: nat, n: nat): (r: nat)
    requires 0 < m < n
    ensures m <= r < n <= 2 * r
    decreases n - m
  {
    if 2 * m < n then Widest(2 * m, n) else m
  }

  lemma {:induction false} WidestDoubles(m: nat, n: nat) returns (k: nat)
    requires 0 < m < n
    ensures Widest(m, n) == m * Pow2(k)
    decreases n - m
  {
    if 2 * m < n {
      var j := WidestDoubles(2 * m, n);
      k := j + 1;
      assert 2 * m * Pow2(j) == m * (2 * Pow2(j));
    } else {
      k := 0;
    }
  }

  /** A power of two of chunks, less than everything and at least half of it. */
  lemma LeftIsPower(n: nat) returns (k: nat)
    requires n > CHUNK
    ensures LeftLength(n) == CHUNK * Pow2(k) < n <= 2 * (CHUNK * Pow2(k))
  {
    k := WidestDoubles(CHUNK, n);
  }

  // ---- hashing and encoding ----

  function Subtree(hs: Hasher, d: seq<byte>, start: nat, root: bool): Hash
    decreases |d|
  {
    if |d| <= CHUNK then hs(LeafNode(d, start, root))
    else
      var k := LeftLength(|d|);
      hs(ParentNode(Subtree(hs, d[..k], start, false), Subtree(hs, d[k..], start + k, false), root))
  }

  /** The hash of some content. */
  function ContentHash(hs: Hasher, d: seq<byte>): Hash {
    Subtree(hs, d, 0, true)
  }

  function EncodeTree(hs: Hasher, d: seq<byte>, start: nat): seq<byte>
    decreases |d|
  {
    if |d| <= CHUNK then d
    else
      var k := LeftLength(|d|);
      var next := start + k;
      Subtree(hs, d[..k], start, false) + Subtree(hs, d[k..], next, false)
      + EncodeTree(hs, d[..k], start) + EncodeTree(hs, d[k..], next)
  }

  function Encode(hs: Hasher, d: seq<byte>): seq<byte>
    requires |d| < U64_LIMIT
  {
    Le64(|d|) + EncodeTree(hs, d, 0)
  }

  /** The length of an encoded subtree depends on the content's length alone. */
  function TreeSize(n: nat): (size: nat)
    ensures size >= n
  {
    if n <= CHUNK then n else 64 + TreeSize(LeftLength(n)) + TreeSize(n - LeftLength(n))
  }

  function EncodedSize(n: nat): nat {
    8 + TreeSize(n)
  }

  lemma {:induction false} EncodeTreeLength(hs: Hasher, d: seq<byte>, start: nat)
    ensures |EncodeTree(hs, d, start)| == TreeSize(|d|)
    decreases |d|
  {
    hide Subtree, EncodeTree, TreeSize;
    Split(hs, d, start);
    if |d| > CHUNK {
      var k := LeftLength(|d|);
      EncodeTreeLength(hs, d[..k], start);
      EncodeTreeLength(hs, d[k..], start + k);
    }
  }

  /** One level of the encoding. */
  lemma Split(hs: Hasher, d: seq<byte>, start: nat)
    ensures |d| <= CHUNK ==> EncodeTree(hs, d, start) == d && TreeSize(|d|) == |d|
    ensures |d| > CHUNK ==>
              var k := LeftLength(|d|);
              && EncodeTree(hs, d, start)
                 == Subtree(hs, d[..k], start, false) + Subtree(hs, d[k..], start + k, false)
                    + EncodeTree(hs, d[..k], start) + EncodeTree(hs, d[k..], start + k)
              && TreeSize(|d|) == 64 + TreeSize(k) + TreeSize(|d| - k)
  {
  }

  // ---- the outboard form: the encoding without the content ----

  function OutboardTree(hs: Hasher, d: seq<byte>, start: nat): seq<byte>
    decreases |d|
  {
    if |d| <= CHUNK then []
    else
      var k := LeftLength(|d|);
      var next := start + k;
      Subtree(hs, d[..k], start, false) + Subtree(hs, d[k..], next, false)
      + OutboardTree(hs, d[..k], start) + OutboardTree(hs, d[k..], next)
  }

  function Outboard(hs: Hasher, d: seq<byte>): (s: seq<byte>)
    requires |d| < U64_LIMIT
    ensures |s| >= 8
  {
    Le64(|d|) + OutboardTree(hs, d, 0)
  }

  /** What could be extracted, whether that is all of it, and what is left of the outboard. */
  datatype Extracted = Extracted(bytes: seq<byte>, complete: bool, outboard: seq<byte>)

  /** Interleaves an outboard with the first `n` bytes of a file again, chunk by chunk; stops at the first
      chunk that the file does not have in full. */
  function ExtractTree(outboard: seq<byte>, file: seq<byte>, n: nat): (r: Extracted)
    ensures r.complete ==> |file| >= n
    decreases n
  {
    if n <= CHUNK then
      if |file| >= n then Extracted(file[..n], true, outboard) else Extracted([], false, outboard)
    else if |outboard| < 64 then Extracted([], false, outboard)
    else
      var k := LeftLength(n);
      var left := ExtractTree(outboard[64..], file, k);
      if !left.complete then left.(bytes := outboard[..64] + left.bytes)
      else
        var right := ExtractTree(left.outboard, file[k..], n - k);
        right.(bytes := outboard[..64] + left.bytes + right.bytes)
  }

  /** The slice that starts at 0 and is `size` bytes long; what a file has behind them is not looked at. */
  function Extract(outboard: seq<byte>, file: seq<byte>, size: nat): Extracted {
    if |outboard| < 8 then Extracted([], false, outboard)
    else
      var tree := ExtractTree(outboard[8..], file, size);
      tree.(bytes := outboard[..8] + tree.bytes)
  }

  /** An outboard fits every file that is long enough, and the extracted length does not depend on what is
      in it; a file that begins with the content gives the content's encoding; a shorter one gives less. */
  lemma {:induction false} ExtractTreeFits(hs: Hasher, d: seq<byte>, start: nat, file: seq<byte>, more: seq<byte>)
    ensures var r := ExtractTree(OutboardTree(hs, d, start) + more, file, |d|);
            && (|file| >= |d| ==> r.complete && |r.bytes| == TreeSize(|d|) && r.outboard == more)
            && (|file| < |d| ==> !r.complete && |r.bytes| < TreeSize(|d|))
            && (d <= file ==> r.bytes == EncodeTree(hs, d, start))
    decreases |d|
  {
    hide Subtree, TreeSize, OutboardTree, ExtractTree, EncodeTree;
    OutboardSplits(hs, d, start);
    Split(hs, d, start);
    var out := OutboardTree(hs, d, start) + more;
    if |d| <= CHUNK {
      assert out == more;
      ExtractChunk(out, file, |d|);
    } else {
      var k := LeftLength(|d|);
      var right := OutboardTree(hs, d[k..], start + k) + more;
      var left := OutboardTree(hs, d[..k], start) + right;
      var l: seq<byte>, r: seq<byte> := Subtree(hs, d[..k], start, false), Subtree(hs, d[k..], start + k, false);
      assert out == l + r + left && out[64..] == left && out[..64] == l + r;
      ExtractTreeFits(hs, d[..k], start, file, right);
      if |file| >= k {
        ExtractTreeFits(hs, d[k..], start + k, file[k..], more);
        if d <= file {
          assert d[k..] <= file[k..];
        }
      }
      ExtractHalves(out, file, |d|);
    }
  }

  lemma OutboardSplits(hs: Hasher, d: seq<byte>, start: nat)
    ensures |d| <= CHUNK ==> OutboardTree(hs, d, start) == [] && TreeSize(|d|) == |d|
    ensures |d| > CHUNK ==>
              var k := LeftLength(|d|);
              && OutboardTree(hs, d, start)
                 == Subtree(hs, d[..k], start, false) + Subtree(hs, d[k..], start + k, false)
                    + OutboardTree(hs, d[..k], start) + OutboardTree(hs, d[k..], start + k)
              && TreeSize(|d|) == 64 + TreeSize(k) + TreeSize(|d| - k)
  {
    hide Subtree;
  }

  lemma ExtractChunk(outboard: seq<byte>, file: seq<byte>, n: nat)
    requires n <= CHUNK
    ensures ExtractTree(outboard, file, n)
         == if |file| >= n then Extracted(file[..n], true, outboard) else Extracted([], false, outboard)
  {
  }

  lemma ExtractHalves(outboard: seq<byte>, file: seq<byte>, n: nat)
    requires n > CHUNK && |outboard| >= 64
    ensures var left := ExtractTree(outboard[64..], file, LeftLength(n));
            ExtractTree(outboard, file, n)
            == if !left.complete then left.(bytes := outboard[..64] + left.bytes)
               else var right := ExtractTree(left.outboard, file[LeftLength(n)..], n - LeftLength(n));
                    right.(bytes := outboard[..64] + left.bytes + right.bytes)
  {
  }

  /** A slice can be extracted exactly from a file that has at least the recorded length, and is then as
      long as the encoding; from a shorter file less is extracted. */
  lemma ExtractFits(hs: Hasher, d: seq<byte>, file: seq<byte>)
    requires |d| < U64_LIMIT
    ensures var r := Extract(Outboard(hs, d), file, |d|);
            && (r.complete <==> |file| >= |d|)
            && (if r.complete then |r.bytes| == EncodedSize(|d|) else |r.bytes| < EncodedSize(|d|))
  {
    hide TreeSize, OutboardTree, ExtractTree;
    ExtractTreeFits(hs, d, 0, file, []);
    assert Outboard(hs, d)[8..] == OutboardTree(hs, d, 0) + [];
  }

  /** Extracting the slice of some content from its outboard and a file that begins with it, whatever has
      been appended, gives the content's encoding. */
  lemma ExtractIsEncode(hs: Hasher, d: seq<byte>, file: seq<byte>)
    requires |d| < U64_LIMIT && d <= file
    ensures Extract(Outboard(hs, d), file, |d|).complete && Extract(Outboard(hs, d), file, |d|).bytes == Encode(hs, d)
  {
    hide TreeSize, OutboardTree, ExtractTree, EncodeTree;
    var out := Outboard(hs, d);
    ExtractTreeFits(hs, d, 0, file, []);
    assert out[..8] == Le64(|d|) && out[8..] == OutboardTree(hs, d, 0) + [];
  }

  /** Three chunks: which hash is made of what, at which position and with which mark, and what comes first
      in the encoding. */
  lemma ThreeChunks(hs: Hasher, a: seq<byte>, b: seq<byte>, c: seq<byte>)
    requires |a| == |b| == 1024 && 0 < |c| <= 1024
    ensures var d := a + b + c;
            var ha, hb, hc := hs(LeafNode(a, 0, false)), hs(LeafNode(b, 1024, false)), hs(LeafNode(c, 2048, false));
            var hab := hs(ParentNode(ha, hb, false));
            && ContentHash(hs, d) == hs(ParentNode(hab, hc, true))
            && Encode(hs, d) == Le64(|d|) + hab + hc + ha + hb + a + b + c
            && Outboard(hs, d) == Le64(|d|) + hab + hc + ha + hb
            && ContentHash(hs, c) == hs(LeafNode(c, 0, true))
            && Encode(hs, c) == Le64(|c|) + c && Outboard(hs, c) == Le64(|c|)
  {
    hide LeftLength, Le64, Subtree, EncodeTree, OutboardTree;
    OneChunk(hs, a, 0);
    OneChunk(hs, b, 1024);
    OneChunk(hs, c, 2048);
    OneChunk(hs, c, 0);
    LeftOfTwo();
    LeftOfThree(2048 + |c|);
    JoinsAll(hs, a, b, 0, false);
    JoinsAll(hs, a + b, c, 0, true);
  }

  /** What two halves make. */
  lemma JoinsAll(hs: Hasher, x: seq<byte>, y: seq<byte>, start: nat, root: bool)
    requires |x| + |y| > CHUNK && |x| == LeftLength(|x| + |y|)
    ensures var hx, hy := Subtree(hs, x, start, false), Subtree(hs, y, start + |x|, false);
            && Subtree(hs, x + y, start, root) == hs(ParentNode(hx, hy, root))
            && EncodeTree(hs, x + y, start) == hx + hy + EncodeTree(hs, x, start) + EncodeTree(hs, y, start + |x|)
            && OutboardTree(hs, x + y, start)
               == hx + hy + OutboardTree(hs, x, start) + OutboardTree(hs, y, start + |x|)
  {
    hide Subtree, EncodeTree, OutboardTree;
    var d := x + y;
    assert d[..|x|] == x && d[|x|..] == y;
    Split(hs, d, start);
    OutboardSplits(hs, d, start);
    SubtreeJoins(hs, x, y, start, root);
  }

  lemma OneChunk(hs: Hasher, d: seq<byte>, start: nat)
    requires |d| <= 1024
    ensures Subtree(hs, d, start, true) == hs(LeafNode(d, start, true))
    ensures Subtree(hs, d, start, false) == hs(LeafNode(d, start, false))
    ensures EncodeTree(hs, d, start) == d && OutboardTree(hs, d, start) == []
  {
  }

  lemma LeftOfTwo()
    ensures LeftLength(2048) == 1024
  {
  }

  lemma LeftOfThree(n: nat)
    requires 2048 < n <= 3072
    ensures LeftLength(n) == 2048
  {
    assert Widest(2048, n) == 2048;
  }

  // ---- decoding ----

  /** Short says how many bytes the decoder still misses before its next check. */
  datatype Status = Complete | Corrupt | Short(missing: nat)

  /** The content verified so far, how decoding ended, and the input that is left. */
  datatype Decoded = Decoded(data: seq<byte>, status: Status, rest: seq<byte>)

  /** The input of the next check: a chunk, or the two hashes above the halves. */
  function Unit(n: nat): nat {
    if n <= CHUNK then n else 64
  }

  function NodeAt(n: nat, start: nat, root: bool, s: seq<byte>): Node
    requires |s| >= Unit(n)
  {
    if n <= CHUNK then LeafNode(s[..n], start, root) else ParentNode(s[..32], s[32..64], root)
  }

  function Check(hs: Hasher, h: Hash, n: nat, start: nat, root: bool, s: seq<byte>): Status {
    if |s| < Unit(n) then Short(Unit(n) - |s|)
    else if hs(NodeAt(n, start, root, s)) == h then Complete
    else Corrupt
  }

  function DecodeTree(hs: Hasher, h: Hash, n: nat, start: nat, root: bool, s: seq<byte>): Decoded
    decreases n
  {
    var check := Check(hs, h, n, start, root, s);
    if check.Short? then Decoded([], check, [])
    else if check.Corrupt? then Decoded([], check, s[Unit(n)..])
    else if n <= CHUNK then Decoded(s[..n], Complete, s[n..])
    else
      var left := DecodeTree(hs, s[..32], LeftLength(n), start, false, s[64..]);
      if !left.status.Complete? then left
      else
        var right := DecodeTree(hs, s[32..64], n - LeftLength(n), start + LeftLength(n), false, left.rest);
        Decoded(left.data + right.data, right.status, right.rest)
  }

  function Decode(hs: Hasher, h: Hash, s: seq<byte>): Decoded {
    if |s| < 8 then Decoded([], Short(8 - |s|), [])
    else DecodeTree(hs, h, U64OfLe(s[..8]), 0, true, s[8..])
  }

  /** Decoding the encoding of `d` under its own hash returns `d` and stops right behind it. */
  lemma {:induction false} DecodeTreeOfEncode(hs: Hasher, d: seq<byte>, start: nat, root: bool, rest: seq<byte>)
    ensures DecodeTree(hs, Subtree(hs, d, start, root), |d|, start, root, EncodeTree(hs, d, start) + rest)
         == Decoded(d, Complete, rest)
    decreases |d|
  {
    hide DecodeTree, Subtree, EncodeTree, TreeSize;
    var s := EncodeTree(hs, d, start) + rest;
    var h := Subtree(hs, d, start, root);
    Split(hs, d, start);
    if |d| <= CHUNK {
      assert s[..|d|] == d && s[|d|..] == rest;
      SubtreeOfChunk(hs, d, start, root);
      Single(hs, h, |d|, start, root, s);
    } else {
      var k := LeftLength(|d|);
      var l: seq<byte>, r: seq<byte> := Subtree(hs, d[..k], start, false), Subtree(hs, d[k..], start + k, false);
      var right := EncodeTree(hs, d[k..], start + k) + rest;
      var left := EncodeTree(hs, d[..k], start) + right;
      assert s == l + r + left;
      assert s[..32] == l && s[32..64] == r && s[64..] == left;
      assert d[..k] + d[k..] == d;
      SubtreeJoins(hs, d[..k], d[k..], start, root);
      var a, b := Halves(hs, h, |d|, start, root, s);
      DecodeTreeOfEncode(hs, d[..k], start, false, right);
      DecodeTreeOfEncode(hs, d[k..], start + k, false, rest);
    }
  }

  lemma SubtreeOfChunk(hs: Hasher, d: seq<byte>, start: nat, root: bool)
    requires |d| <= CHUNK
    ensures Subtree(hs, d, start, root) == hs(LeafNode(d, start, root))
  {
  }

  lemma DecodeOfEncode(hs: Hasher, d: seq<byte>, rest: seq<byte>)
    requires |d| < U64_LIMIT
    ensures Decode(hs, ContentHash(hs, d), Encode(hs, d) + rest) == Decoded(d, Complete, rest)
    ensures |Encode(hs, d)| == EncodedSize(|d|)
  {
    var s := Encode(hs, d) + rest;
    assert s[..8] == Le64(|d|) && s[8..] == EncodeTree(hs, d, 0) + rest;
    Le64RoundTrip(|d|, Le64(|d|));
    DecodeTreeOfEncode(hs, d, 0, true, rest);
    EncodeTreeLength(hs, d, 0);
  }

  /** A complete decoding has the announced length, hashes to the expected hash, and consumed
      exactly the encoded size of that length. */
  lemma {:induction false} DecodeTreeSound(hs: Hasher, h: Hash, n: nat, start: nat, root: bool, s: seq<byte>)
    requires DecodeTree(hs, h, n, start, root, s).status.Complete?
    ensures |DecodeTree(hs, h, n, start, root, s).data| == n
    ensures Subtree(hs, DecodeTree(hs, h, n, start, root, s).data, start, root) == h
    ensures |s| == TreeSize(n) + |DecodeTree(hs, h, n, start, root, s).rest|
    decreases n
  {
    hide DecodeTree, Subtree, TreeSize;
    if n <= CHUNK || !Check(hs, h, n, start, root, s).Complete? {
      Single(hs, h, n, start, root, s);
    } else {
      var k := LeftLength(n);
      var left, right := Halves(hs, h, n, start, root, s);
      DecodeTreeSound(hs, s[..32], k, start, false, s[64..]);
      DecodeTreeSound(hs, s[32..64], n - k, start + k, false, left.rest);
      SubtreeJoins(hs, left.data, right.data, start, root);
    }
  }

  /** The cases of decoding that do not descend. */
  lemma Single(hs: Hasher, h: Hash, n: nat, start: nat, root: bool, s: seq<byte>)
    requires n <= CHUNK || !Check(hs, h, n, start, root, s).Complete?
    ensures var check := Check(hs, h, n, start, root, s);
            DecodeTree(hs, h, n, start, root, s)
            == Decoded(if check.Complete? then s[..n] else [], check, if check.Short? then [] else s[Unit(n)..])
    ensures Check(hs, h, n, start, root, s).Complete? ==> Subtree(hs, s[..n], start, root) == h && TreeSize(n) == n
  {
  }

  /** How decoding a subtree with two halves is made up of decoding the halves. */
  lemma Halves(hs: Hasher, h: Hash, n: nat, start: nat, root: bool, s: seq<byte>)
    returns (left: Decoded, right: Decoded)
    requires n > CHUNK && Check(hs, h, n, start, root, s).Complete?
    ensures var k := LeftLength(n);
            && left == DecodeTree(hs, s[..32], k, start, false, s[64..])
            && right == DecodeTree(hs, s[32..64], n - k, start + k, false, left.rest)
    ensures DecodeTree(hs, h, n, start, root, s)
         == if left.status.Complete? then Decoded(left.data + right.data, right.status, right.rest) else left
    ensures TreeSize(n) == 64 + TreeSize(LeftLength(n)) + TreeSize(n - LeftLength(n))
  {
    var k := LeftLength(n);
    left := DecodeTree(hs, s[..32], k, start, false, s[64..]);
    right := DecodeTree(hs, s[32..64], n - k, start + k, false, left.rest);
  }

  lemma SubtreeJoins(hs: Hasher, a: seq<byte>, b: seq<byte>, start: nat, root: bool)
    requires |a| + |b| > CHUNK && |a| == LeftLength(|a| + |b|)
    ensures Subtree(hs, a + b, start, root)
         == hs(ParentNode(Subtree(hs, a, start, false), Subtree(hs, b, start + |a|, false), root))
  {
    assert (a + b)[..|a|] == a && (a + b)[|a|..] == b;
  }

  lemma DecodeSound(hs: Hasher, h: Hash, s: seq<byte>)
    ensures var r := Decode(hs, h, s);
            r.status.Complete? ==>
              ContentHash(hs, r.data) == h && |s| == EncodedSize(|r.data|) + |r.rest|
  {
    if |s| >= 8 && Decode(hs, h, s).status.Complete? {
      DecodeTreeSound(hs, h, U64OfLe(s[..8]), 0, true, s[8..]);
    }
  }

  // ---- files that have become shorter ----

  /** How much of a file is in full chunks, and the chunk of the content that comes behind these. */
  function FullChunks(n: nat): (m: nat)
    ensures m <= n < m + CHUNK && m % CHUNK == 0
  {
    n / CHUNK * CHUNK
  }

  function NextChunk(d: seq<byte>, m: nat): seq<byte>
    requires m <= |d|
  {
    d[m..Min(m + CHUNK, |d|)]
  }

  /** A front part of an encoding that ends right before the chunk at `m`. */
  predicate EndsBefore(hs: Hasher, d: seq<byte>, start: nat, root: bool, m: nat, b: seq<byte>)
    requires m <= |d|
  {
    && b + NextChunk(d, m) <= EncodeTree(hs, d, start)
    && DecodeTree(hs, Subtree(hs, d, start, root), |d|, start, root, b)
       == Decoded(d[..m], Short(|NextChunk(d, m)|), [])
  }

  /** From a file that has been cut short, what is extracted is the encoding up to the first chunk that is
      not there in full; it decodes to the full chunks, and the decoder waits for the next one. */
  lemma {:induction false} ExtractTreeShort(hs: Hasher, d: seq<byte>, start: nat, root: bool, file: seq<byte>,
                                            more: seq<byte>)
    requires file < d
    ensures EndsBefore(hs, d, start, root, FullChunks(|file|),
                       ExtractTree(OutboardTree(hs, d, start) + more, file, |d|).bytes)
    decreases |d|
  {
    hide Subtree, TreeSize, OutboardTree, ExtractTree, EncodeTree, EndsBefore;
    var out := OutboardTree(hs, d, start) + more;
    OutboardSplits(hs, d, start);
    if |d| <= CHUNK {
      assert out == more;
      ExtractChunk(out, file, |d|);
      EndsBeforeChunk(hs, d, start, root, |file|);
    } else {
      var k := LeftLength(|d|);
      var right := OutboardTree(hs, d[k..], start + k) + more;
      var left := OutboardTree(hs, d[..k], start) + right;
      var l: seq<byte>, r: seq<byte> := Subtree(hs, d[..k], start, false), Subtree(hs, d[k..], start + k, false);
      assert out == l + r + left && out[64..] == left && out[..64] == l + r;
      ExtractHalves(out, file, |d|);
      if |file| < k {
        ExtractTreeFits(hs, d[..k], start, file, right);
        ExtractTreeShort(hs, d[..k], start, false, file, right);
        assert file < d[..k];
        EndsInLeft(hs, d, start, root, FullChunks(|file|), ExtractTree(left, file, k).bytes);
      } else {
        assert d[..k] <= file && file[k..] < d[k..];
        ExtractTreeFits(hs, d[..k], start, file, right);
        ExtractTreeShort(hs, d[k..], start + k, false, file[k..], more);
        ChunksBehind(|d|, |file|);
        var b := ExtractTree(right, file[k..], |d| - k).bytes;
        EndsInRight(hs, d, start, root, FullChunks(|file|), b);
        assert l + r + EncodeTree(hs, d[..k], start) + b == l + r + (EncodeTree(hs, d[..k], start) + b);
      }
    }
  }

  lemma EndsBeforeChunk(hs: Hasher, d: seq<byte>, start: nat, root: bool, n: nat)
    requires n < |d| <= CHUNK
    ensures FullChunks(n) == 0 && EndsBefore(hs, d, start, root, 0, [])
  {
    hide Subtree;
    Split(hs, d, start);
    assert d[..0] == [] && d[0..|d|] == d && [] + d == d;
    Single(hs, Subtree(hs, d, start, root), |d|, start, root, []);
  }

  lemma LeftAligned(n: nat)
    requires n > CHUNK
    ensures LeftLength(n) % CHUNK == 0
  {
    var k := LeftIsPower(n);
    assert CHUNK * Pow2(k) % CHUNK == 0;
  }

  lemma ChunksBehind(n: nat, m: nat)
    requires n > CHUNK && m >= LeftLength(n)
    ensures FullChunks(m - LeftLength(n)) == FullChunks(m) - LeftLength(n)
  {
    LeftAligned(n);
  }

  lemma EndsInLeft(hs: Hasher, d: seq<byte>, start: nat, root: bool, m: nat, b: seq<byte>)
    requires |d| > CHUNK && m < LeftLength(|d|) && m % CHUNK == 0
    requires EndsBefore(hs, d[..LeftLength(|d|)], start, false, m, b)
    ensures var k := LeftLength(|d|);
            EndsBefore(hs, d, start, root, m,
                       Subtree(hs, d[..k], start, false) + Subtree(hs, d[k..], start + k, false) + b)
  {
    hide Subtree, EncodeTree, DecodeTree;
    var k := LeftLength(|d|);
    var l: seq<byte>, r: seq<byte> := Subtree(hs, d[..k], start, false), Subtree(hs, d[k..], start + k, false);
    LeftAligned(|d|);
    assert NextChunk(d[..k], m) == NextChunk(d, m) && d[..k][..m] == d[..m];
    Split(hs, d, start);
    HashesFirst(hs, d, start, root, b);
  }

  lemma EndsInRight(hs: Hasher, d: seq<byte>, start: nat, root: bool, m: nat, b: seq<byte>)
    requires |d| > CHUNK && LeftLength(|d|) <= m <= |d|
    requires EndsBefore(hs, d[LeftLength(|d|)..], start + LeftLength(|d|), false, m - LeftLength(|d|), b)
    ensures var k := LeftLength(|d|);
            EndsBefore(hs, d, start, root, m,
                       Subtree(hs, d[..k], start, false) + Subtree(hs, d[k..], start + k, false)
                       + (EncodeTree(hs, d[..k], start) + b))
  {
    hide Subtree, EncodeTree, DecodeTree, NextChunk, LeftLength;
    var k := LeftLength(|d|);
    var l: seq<byte>, r: seq<byte> := Subtree(hs, d[..k], start, false), Subtree(hs, d[k..], start + k, false);
    var e := EncodeTree(hs, d[..k], start);
    ChunkBehind(d, k, m);
    Split(hs, d, start);
    FrontPart(l + r + e, b + NextChunk(d, m), EncodeTree(hs, d[k..], start + k));
    assert l + r + (e + b) + NextChunk(d, m) == l + r + e + (b + NextChunk(d, m));
    HashesFirst(hs, d, start, root, e + b);
    DecodeTreeOfEncode(hs, d[..k], start, false, b);
  }

  lemma ChunkBehind(d: seq<byte>, k: nat, m: nat)
    requires k <= m <= |d|
    ensures NextChunk(d[k..], m - k) == NextChunk(d, m) && d[..k] + d[k..][..m - k] == d[..m]
  {
  }

  lemma FrontPart(a: seq<byte>, b: seq<byte>, c: seq<byte>)
    requires b <= c
    ensures a + b <= a + c
  {
  }

  /** Decoding behind the two hashes of a content's halves. */
  lemma HashesFirst(hs: Hasher, d: seq<byte>, start: nat, root: bool, b: seq<byte>)
    requires |d| > CHUNK
    ensures var k := LeftLength(|d|);
            var l: seq<byte>, r: seq<byte> := Subtree(hs, d[..k], start, false), Subtree(hs, d[k..], start + k, false);
            var left := DecodeTree(hs, l, k, start, false, b);
            var right := DecodeTree(hs, r, |d| - k, start + k, false, left.rest);
            DecodeTree(hs, Subtree(hs, d, start, root), |d|, start, root, l + r + b)
            == if left.status.Complete? then Decoded(left.data + right.data, right.status, right.rest) else left
  {
    hide Subtree, DecodeTree;
    var k := LeftLength(|d|);
    var l: seq<byte>, r: seq<byte> := Subtree(hs, d[..k], start, false), Subtree(hs, d[k..], start + k, false);
    var s := l + r + b;
    assert s[..32] == l && s[32..64] == r && s[64..] == b;
    assert d[..k] + d[k..] == d;
    SubtreeJoins(hs, d[..k], d[k..], start, root);
    var left, right := Halves(hs, Subtree(hs, d, start, root), |d|, start, root, s);
  }

  /** The same of the whole encoding, with its length in front. */
  lemma ShortFile(hs: Hasher, d: seq<byte>, file: seq<byte>)
    requires file < d && |d| < U64_LIMIT
    ensures var b := Extract(Outboard(hs, d), file, |d|).bytes;
            var chunk := NextChunk(d, FullChunks(|file|));
            && b + chunk <= Encode(hs, d)
            && Decode(hs, ContentHash(hs, d), b) == Decoded(d[..FullChunks(|file|)], Short(|chunk|), [])
  {
    hide TreeSize, OutboardTree, ExtractTree, EncodeTree, Subtree, DecodeTree;
    ExtractTreeShort(hs, d, 0, true, file, []);
    var tree := ExtractTree(OutboardTree(hs, d, 0), file, |d|).bytes;
    assert OutboardTree(hs, d, 0) + [] == OutboardTree(hs, d, 0);
    assert Outboard(hs, d)[..8] == Le64(|d|) && Outboard(hs, d)[8..] == OutboardTree(hs, d, 0);
    var b := Le64(|d|) + tree;
    Le64RoundTrip(|d|, Le64(|d|));
    assert b[..8] == Le64(|d|) && b[8..] == tree;
    DecodeOfLong(hs, ContentHash(hs, d), b);
  }

  /** More input does not change a decision. */
  lemma {:induction false} DecodeTreeExtends(hs: Hasher, h: Hash, n: nat, start: nat, root: bool,
                                             s: seq<byte>, more: seq<byte>)
    requires !DecodeTree(hs, h, n, start, root, s).status.Short?
    ensures var r := DecodeTree(hs, h, n, start, root, s);
            DecodeTree(hs, h, n, start, root, s + more) == r.(rest := r.rest + more)
    decreases n
  {
    hide DecodeTree, Subtree, TreeSize;
    if n <= CHUNK || !Check(hs, h, n, start, root, s).Complete? {
      Single(hs, h, n, start, root, s);
      NodePrefix(n, start, root, s, more);
      Single(hs, h, n, start, root, s + more);
    } else {
      var k := LeftLength(n);
      NodePrefix(n, start, root, s, more);
      var left, right := Halves(hs, h, n, start, root, s);
      var left', right' := Halves(hs, h, n, start, root, s + more);
      DecodeTreeExtends(hs, s[..32], k, start, false, s[64..], more);
      if left.status.Complete? {
        DecodeTreeExtends(hs, s[32..64], n - k, start + k, false, left.rest, more);
      }
    }
  }

  lemma NodePrefix(n: nat, start: nat, root: bool, s: seq<byte>, more: seq<byte>)
    requires |s| >= Unit(n)
    ensures NodeAt(n, start, root, s + more) == NodeAt(n, start, root, s)
    ensures (s + more)[Unit(n)..] == s[Unit(n)..] + more
    ensures n <= CHUNK ==> (s + more)[..n] == s[..n]
    ensures n > CHUNK ==> (s + more)[..32] == s[..32] && (s + more)[32..64] == s[32..64]
  {
    var t := s + more;
    assert t[..Unit(n)] == s[..Unit(n)];
    if n > CHUNK {
      assert t[..32] == s[..32] && t[32..64] == s[32..64];
    }
  }

  /** Input that the decoder asked for is all used. */
  lemma {:induction false} DecodeTreeUses(hs: Hasher, h: Hash, n: nat, start: nat, root: bool,
                                          s: seq<byte>, more: seq<byte>)
    requires DecodeTree(hs, h, n, start, root, s).status.Short?
    requires |more| <= DecodeTree(hs, h, n, start, root, s).status.missing
    ensures DecodeTree(hs, h, n, start, root, s).status.missing >= 1
    ensures DecodeTree(hs, h, n, start, root, s + more).rest == []
    decreases n
  {
    hide DecodeTree, Subtree, TreeSize;
    var t := s + more;
    if n <= CHUNK || !Check(hs, h, n, start, root, s).Complete? {
      Single(hs, h, n, start, root, s);
      if |t| < Unit(n) {
        Single(hs, h, n, start, root, t);
      } else {
        AllRead(hs, h, n, start, root, t);
      }
    } else {
      var k := LeftLength(n);
      NodePrefix(n, start, root, s, more);
      var left, right := Halves(hs, h, n, start, root, s);
      var left', right' := Halves(hs, h, n, start, root, t);
      if left.status.Complete? {
        DecodeTreeExtends(hs, s[..32], k, start, false, s[64..], more);
        DecodeTreeUses(hs, s[32..64], n - k, start + k, false, left.rest, more);
      } else {
        DecodeTreeUses(hs, s[..32], k, start, false, s[64..], more);
        if left'.status.Complete? {
          NeedsInput(hs, t[32..64], n - k, start + k);
        }
      }
    }
  }

  /** More input never takes back what has been verified. */
  lemma {:induction false} DecodeTreeGrows(hs: Hasher, h: Hash, n: nat, start: nat, root: bool,
                                           s: seq<byte>, more: seq<byte>)
    ensures DecodeTree(hs, h, n, start, root, s).data <= DecodeTree(hs, h, n, start, root, s + more).data
    decreases n
  {
    hide DecodeTree, Subtree, TreeSize;
    if !DecodeTree(hs, h, n, start, root, s).status.Short? {
      DecodeTreeExtends(hs, h, n, start, root, s, more);
    } else if n <= CHUNK || !Check(hs, h, n, start, root, s).Complete? {
      Single(hs, h, n, start, root, s);
    } else {
      var k := LeftLength(n);
      NodePrefix(n, start, root, s, more);
      var left, right := Halves(hs, h, n, start, root, s);
      var left', right' := Halves(hs, h, n, start, root, s + more);
      DecodeTreeGrows(hs, s[..32], k, start, false, s[64..], more);
      if left.status.Complete? {
        DecodeTreeExtends(hs, s[..32], k, start, false, s[64..], more);
        DecodeTreeGrows(hs, s[32..64], n - k, start + k, false, left.rest, more);
      }
    }
  }

  lemma AllRead(hs: Hasher, h: Hash, n: nat, start: nat, root: bool, s: seq<byte>)
    requires |s| == Unit(n)
    ensures DecodeTree(hs, h, n, start, root, s).rest == []
  {
    if n > CHUNK && Check(hs, h, n, start, root, s).Complete? {
      var left, right := Halves(hs, h, n, start, root, s);
      NeedsInput(hs, s[..32], LeftLength(n), start);
    }
  }

  /** Without input a decoder neither completes a nonempty subtree nor leaves anything behind. */
  lemma NeedsInput(hs: Hasher, h: Hash, n: nat, start: nat)
    requires n > 0
    ensures DecodeTree(hs, h, n, start, false, []).status.Short?
    ensures DecodeTree(hs, h, n, start, false, []).rest == []
  {
  }

  lemma DecodeExtends(hs: Hasher, h: Hash, s: seq<byte>, more: seq<byte>)
    requires !Decode(hs, h, s).status.Short?
    ensures var r := Decode(hs, h, s); Decode(hs, h, s + more) == r.(rest := r.rest + more)
  {
    assert (s + more)[..8] == s[..8] && (s + more)[8..] == s[8..] + more;
    DecodeTreeExtends(hs, h, U64OfLe(s[..8]), 0, true, s[8..], more);
  }

  lemma DecodeUses(hs: Hasher, h: Hash, s: seq<byte>, more: seq<byte>)
    requires Decode(hs, h, s).status.Short? && |more| <= Decode(hs, h, s).status.missing
    ensures Decode(hs, h, s).status.missing >= 1
    ensures Decode(hs, h, s + more).rest == []
  {
    var t := s + more;
    if |s| >= 8 {
      assert t[..8] == s[..8] && t[8..] == s[8..] + more;
      DecodeTreeUses(hs, h, U64OfLe(s[..8]), 0, true, s[8..], more);
    } else if |t| >= 8 {
      assert t[8..] == [];
      NothingLeft(hs, h, U64OfLe(t[..8]));
    }
  }

  lemma NothingLeft(hs: Hasher, h: Hash, n: nat)
    ensures DecodeTree(hs, h, n, 0, true, []).rest == []
  {
  }

  /** The size of a tree is enough to decide it. */
  lemma {:induction false} DecodeTreeDecides(hs: Hasher, h: Hash, n: nat, start: nat, root: bool, s: seq<byte>)
    requires |s| >= TreeSize(n)
    ensures !DecodeTree(hs, h, n, start, root, s).status.Short?
    decreases n
  {
    hide DecodeTree, Subtree, TreeSize;
    EnoughForUnit(n);
    if n <= CHUNK || !Check(hs, h, n, start, root, s).Complete? {
      Single(hs, h, n, start, root, s);
    } else {
      var k := LeftLength(n);
      var left, right := Halves(hs, h, n, start, root, s);
      DecodeTreeDecides(hs, s[..32], k, start, false, s[64..]);
      if left.status.Complete? {
        DecodeTreeSound(hs, s[..32], k, start, false, s[64..]);
        DecodeTreeDecides(hs, s[32..64], n - k, start + k, false, left.rest);
      }
    }
  }

  lemma EnoughForUnit(n: nat)
    ensures TreeSize(n) >= Unit(n)
    ensures n > CHUNK ==> TreeSize(n) == 64 + TreeSize(LeftLength(n)) + TreeSize(n - LeftLength(n))
  {
  }

  /** Input that does not verify is told from input that ends too early: what is cut off an encoding is
      always missed, and a tree that is all there is never. */
  lemma DecodeTells(hs: Hasher, d: seq<byte>, k: nat, h: Hash, s: seq<byte>)
    requires |d| < U64_LIMIT
    ensures k < |Encode(hs, d)| ==> Decode(hs, ContentHash(hs, d), Encode(hs, d)[..k]).status.Short?
    ensures |s| >= 8 && |s| >= EncodedSize(U64OfLe(s[..8])) ==> !Decode(hs, h, s).status.Short?
  {
    hide DecodeTree, Subtree, TreeSize, EncodeTree, Decode;
    if k < |Encode(hs, d)| {
      var e := Encode(hs, d);
      DecodeOfEncode(hs, d, []);
      assert e[..k] + e[k..] == e && e + [] == e;
      if !Decode(hs, ContentHash(hs, d), e[..k]).status.Short? {
        DecodeExtends(hs, ContentHash(hs, d), e[..k], e[k..]);
      }
    }
    if |s| >= 8 && |s| >= EncodedSize(U64OfLe(s[..8])) {
      DecodeTreeDecides(hs, h, U64OfLe(s[..8]), 0, true, s[8..]);
      DecodeOfLong(hs, h, s);
    }
  }

  lemma DecodeOfLong(hs: Hasher, h: Hash, s: seq<byte>)
    requires |s| >= 8
    ensures Decode(hs, h, s) == DecodeTree(hs, h, U64OfLe(s[..8]), 0, true, s[8..])
  {
  }

  // ---- verified prefixes ----

  /** The calls made to hash `d`. */
  function Nodes(hs: Hasher, d: seq<byte>, start: nat, root: bool): set<Node>
    decreases |d|
  {
    if |d| <= CHUNK then {LeafNode(d, start, root)}
    else
      var k := LeftLength(|d|);
      var next := start + k;
      {ParentNode(Subtree(hs, d[..k], start, false), Subtree(hs, d[k..], next, false), root)}
      + Nodes(hs, d[..k], start, false) + Nodes(hs, d[k..], next, false)
  }

  /** The calls a decoder makes on some input. */
  function Checks(hs: Hasher, h: Hash, n: nat, start: nat, root: bool, s: seq<byte>): set<Node>
    decreases n
  {
    if |s| < Unit(n) then {}
    else if n <= CHUNK || !Check(hs, h, n, start, root, s).Complete? then {NodeAt(n, start, root, s)}
    else
      var k := LeftLength(n);
      var left := DecodeTree(hs, s[..32], k, start, false, s[64..]);
      {NodeAt(n, start, root, s)}
      + Checks(hs, s[..32], k, start, false, s[64..])
      + if left.status.Complete? then Checks(hs, s[32..64], n - k, start + k, false, left.rest) else {}
  }

  /** Among these calls no two different ones agree. */
  predicate CollisionFree(hs: Hasher, nodes: set<Node>) {
    forall a, b | a in nodes && b in nodes :: hs(a) == hs(b) ==> a == b
  }

  /** However the input goes on after it, what a decoder has released so far is a prefix of the content
      that the hash stands for, and all of it once decoding is complete. */
  lemma {:induction false} VerifiedPrefix(hs: Hasher, d: seq<byte>, n: nat, start: nat, root: bool, s: seq<byte>)
    requires CollisionFree(hs, Nodes(hs, d, start, root)
                               + Checks(hs, Subtree(hs, d, start, root), n, start, root, s))
    ensures DecodeTree(hs, Subtree(hs, d, start, root), n, start, root, s).data <= d
    ensures DecodeTree(hs, Subtree(hs, d, start, root), n, start, root, s).status.Complete? ==>
              DecodeTree(hs, Subtree(hs, d, start, root), n, start, root, s).data == d
    decreases n
  {
    hide DecodeTree, Subtree, Checks, Nodes, TreeSize;
    var h := Subtree(hs, d, start, root);
    var top := TopNode(hs, d, start, root);
    if n <= CHUNK || !Check(hs, h, n, start, root, s).Complete? {
      Single(hs, h, n, start, root, s);
    }
    if Check(hs, h, n, start, root, s).Complete? {
      TopCheck(hs, h, n, start, root, s);
      assert NodeAt(n, start, root, s) == top;
      if n > CHUNK {
        var j, k := LeftLength(|d|), LeftLength(n);
        var left, right := Halves(hs, h, n, start, root, s);
        LeftChecks(hs, d, n, start, root, s);
        VerifiedPrefix(hs, d[..j], k, start, false, s[64..]);
        if left.status.Complete? {
          DecodeTreeSound(hs, s[..32], k, start, false, s[64..]);
          RightChecks(hs, d, n, start, root, s);
          VerifiedPrefix(hs, d[k..], n - k, start + k, false, left.rest);
          assert d == d[..k] + d[k..];
        } else {
          assert left.data <= d[..j] && d[..j] <= d;
        }
      }
    }
  }

  lemma TopCheck(hs: Hasher, h: Hash, n: nat, start: nat, root: bool, s: seq<byte>)
    requires Check(hs, h, n, start, root, s).Complete?
    ensures NodeAt(n, start, root, s) in Checks(hs, h, n, start, root, s)
  {
  }

  /** The call whose result is the subtree's hash. */
  lemma TopNode(hs: Hasher, d: seq<byte>, start: nat, root: bool) returns (node: Node)
    ensures node in Nodes(hs, d, start, root) && hs(node) == Subtree(hs, d, start, root)
    ensures if |d| <= CHUNK then node == LeafNode(d, start, root)
            else node == ParentNode(Subtree(hs, d[..LeftLength(|d|)], start, false),
                                    Subtree(hs, d[LeftLength(|d|)..], start + LeftLength(|d|), false), root)
  {
    if |d| <= CHUNK {
      node := LeafNode(d, start, root);
    } else {
      var k := LeftLength(|d|);
      node := ParentNode(Subtree(hs, d[..k], start, false), Subtree(hs, d[k..], start + k, false), root);
    }
  }

  lemma LeftChecks(hs: Hasher, d: seq<byte>, n: nat, start: nat, root: bool, s: seq<byte>)
    requires n > CHUNK && |d| > CHUNK
    requires Check(hs, Subtree(hs, d, start, root), n, start, root, s).Complete?
    ensures Nodes(hs, d[..LeftLength(|d|)], start, false) <= Nodes(hs, d, start, root)
    ensures Checks(hs, s[..32], LeftLength(n), start, false, s[64..])
         <= Checks(hs, Subtree(hs, d, start, root), n, start, root, s)
  {
    hide DecodeTree, Subtree;
  }

  lemma RightChecks(hs: Hasher, d: seq<byte>, n: nat, start: nat, root: bool, s: seq<byte>)
    requires n > CHUNK && |d| > CHUNK
    requires Check(hs, Subtree(hs, d, start, root), n, start, root, s).Complete?
    requires DecodeTree(hs, s[..32], LeftLength(n), start, false, s[64..]).status.Complete?
    ensures Nodes(hs, d[LeftLength(|d|)..], start + LeftLength(|d|), false) <= Nodes(hs, d, start, root)
    ensures Checks(hs, s[32..64], n - LeftLength(n), start + LeftLength(n), false,
                   DecodeTree(hs, s[..32], LeftLength(n), start, false, s[64..]).rest)
         <= Checks(hs, Subtree(hs, d, start, root), n, start, root, s)
  {
    hide DecodeTree, Subtree;
  }
}
