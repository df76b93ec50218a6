/**
 The part of the postcard wire format that the messages use: base-128 integers, raw byte arrays,
 length-prefixed bytes and length-prefixed UTF-8 strings.  A `Take` function reads one item from the
 front of its input and returns the item with what follows it; None stands for any decoding error.
 */
module Postcard {
  import opened Base

  // ---- integers ----

  function Varint(n: nat): (s: seq<byte>)
    ensures |s| >= 1
  {
    if n < 128 then [n] else [n % 128 + 128] + Varint(n / 128)
  }

  /** Reads at most `k` bytes; `last` bounds the final one so that the value cannot overflow. */
  function TakeVarint(s: seq<byte>, k: nat, last: byte): (r: Option<(nat, seq<byte>)>)
    ensures r.Some? ==> |r.value.1| < |s| && r.value.1 == s[|s| - |r.value.1|..]
  {
    if k == 0 || s == [] then None
    else if s[0] < 128 then
      if k == 1 && s[0] > last then None else Some((s[0], s[1..]))
    else
      var (high, rest) :- TakeVarint(s[1..], k - 1, last);
      Some((s[0] - 128 + 128 * high, rest))
  }

  /** How many values `k` bytes can carry. */
  function Capacity(k: nat, last: byte): nat {
    if k == 0 then 0 else if k == 1 then last + 1 else 128 * Capacity(k - 1, last)
  }

  lemma {:induction false} TakeVarintBelowCapacity(s: seq<byte>, k: nat, last: byte)
    requires last < 128 && TakeVarint(s, k, last).Some?
    ensures TakeVarint(s, k, last).value.0 < Capacity(k, last)
  {
    if s[0] < 128 {
      CapacityAtLeast(k, last);
    } else {
      TakeVarintBelowCapacity(s[1..], k - 1, last);
    }
  }

  lemma {:induction false} CapacityAtLeast(k: nat, last: byte)
    requires last < 128
    ensures k >= 1 ==> Capacity(k, last) >= 1
    ensures k >= 2 ==> Capacity(k, last) >= 128
  {
    if k >= 2 {
      CapacityAtLeast(k - 1, last);
    }
  }

  lemma CapacityStep(n: nat, k: nat, last: byte)
    requires last < 128 <= n < Capacity(k, last)
    ensures k >= 2 && n / 128 < Capacity(k - 1, last)
  {
    hide Capacity;
    CapacityUnfolds(k, last);
  }

  lemma CapacityUnfolds(k: nat, last: byte)
    ensures Capacity(k, last) == if k == 0 then 0 else if k == 1 then last + 1 else 128 * Capacity(k - 1, last)
  {
  }

  /** One byte that is not the last. */
  lemma TakeVarintStep(n: nat, k: nat, last: byte, rest: seq<byte>)
    requires n >= 128 && k >= 2
    requires TakeVarint(Varint(n / 128) + rest, k - 1, last) == Some((n / 128, rest))
    ensures TakeVarint(Varint(n) + rest, k, last) == Some((n, rest))
  {
    hide TakeVarint, Varint;
    var s := Varint(n) + rest;
    VarintOfTwo(n);
    assert s[0] == n % 128 + 128 && s[1..] == Varint(n / 128) + rest;
    TakeVarintOfTwo(s, k, last);
  }

  lemma VarintOfTwo(n: nat)
    requires n >= 128
    ensures Varint(n) == [n % 128 + 128] + Varint(n / 128)
  {
  }

  lemma TakeVarintOfTwo(s: seq<byte>, k: nat, last: byte)
    requires k > 0 && s != [] && s[0] >= 128 && TakeVarint(s[1..], k - 1, last).Some?
    ensures var (high, rest) := TakeVarint(s[1..], k - 1, last).value;
            TakeVarint(s, k, last) == Some((s[0] - 128 + 128 * high, rest))
  {
  }

  lemma {:induction false} TakeVarintOfVarint(n: nat, k: nat, last: byte, rest: seq<byte>)
    requires last < 128 && n < Capacity(k, last)
    ensures TakeVarint(Varint(n) + rest, k, last) == Some((n, rest))
  {
    if n < 128 {
      assert (Varint(n) + rest)[1..] == rest;
    } else {
      CapacityStep(n, k, last);
      TakeVarintOfVarint(n / 128, k - 1, last, rest);
      TakeVarintStep(n, k, last, rest);
    }
  }

  /** A `u64` or `usize` takes ten bytes at most, the tenth of which carries one bit. */
  function TakeU64(s: seq<byte>): (r: Option<(u64, seq<byte>)>)
    ensures r.Some? ==> |r.value.1| < |s| && r.value.1 == s[|s| - |r.value.1|..]
  {
    var (n, rest) :- TakeVarint(s, 10, 1);
    TakeVarintBelowCapacity(s, 10, 1);
    CapacityOf64();
    Some((n, rest))
  }

  /** An enumeration's variant index is a `u32`. */
  function TakeU32(s: seq<byte>): (r: Option<(nat, seq<byte>)>)
    ensures r.Some? ==> |r.value.1| < |s| && r.value.1 == s[|s| - |r.value.1|..]
  {
    TakeVarint(s, 5, 15)
  }

  /** A `u16` takes three bytes at most. */
  function TakeU16(s: seq<byte>): (r: Option<(nat, seq<byte>)>)
    ensures r.Some? ==> r.value.0 < 0x1_0000
    ensures r.Some? ==> |r.value.1| < |s| && r.value.1 == s[|s| - |r.value.1|..]
  {
    var (n, rest) :- TakeVarint(s, 3, 3);
    TakeVarintBelowCapacity(s, 3, 3);
    assert Capacity(3, 3) == 0x1_0000;
    Some((n, rest))
  }

  lemma CapacityOf64()
    ensures Capacity(10, 1) == U64_LIMIT
    ensures Capacity(5, 15) == 0x1_0000_0000
  {
    assert Capacity(5, 1) == 0x2000_0000;
    assert Capacity(10, 1) == 128 * 128 * 128 * 128 * 128 * Capacity(5, 1);
  }

  lemma IntegersRoundTrip(n: nat, rest: seq<byte>)
    ensures n < U64_LIMIT ==> TakeU64(Varint(n) + rest) == Some((n, rest))
    ensures n < 0x1_0000_0000 ==> TakeU32(Varint(n) + rest) == Some((n, rest))
    ensures n < 0x1_0000 ==> TakeU16(Varint(n) + rest) == Some((n, rest))
  {
    CapacityOf64();
    assert Capacity(3, 3) == 0x1_0000;
    if n < U64_LIMIT {
      TakeVarintOfVarint(n, 10, 1, rest);
    }
    if n < 0x1_0000_0000 {
      TakeVarintOfVarint(n, 5, 15, rest);
    }
    if n < 0x1_0000 {
      TakeVarintOfVarint(n, 3, 3, rest);
    }
  }

  /** The encoded length grows by one byte for every seven bits. */
  lemma VarintLength(n: nat)
    ensures |Varint(n)| == 1 <==> n < 128
    ensures |Varint(n)| <= 2 <==> n < 16384
    ensures |Varint(n)| <= 9 <==> n < 0x8000_0000_0000_0000
    ensures n < U64_LIMIT ==> |Varint(n)| <= 10
  {
    LengthWithin(n, 2);
    LengthWithin(n, 9);
    LengthWithin(n, 10);
    assert Power128(2) == 16384;
    assert Power128(9) == 0x8000_0000_0000_0000;
    assert Power128(10) == 128 * Power128(9);
  }

  function Power128(k: nat): nat {
    if k == 0 then 1 else 128 * Power128(k - 1)
  }

  lemma {:induction false} LengthWithin(n: nat, k: nat)
    requires k >= 1
    ensures |Varint(n)| <= k <==> n < Power128(k)
  {
    if k == 1 {
      assert Power128(1) == 128;
    } else if n >= 128 {
      LengthWithin(n / 128, k - 1);
    } else {
      PowerAtLeast(k);
    }
  }

  lemma {:induction false} PowerAtLeast(k: nat)
    requires k >= 1
    ensures Power128(k) >= 128
  {
    if k > 1 {
      PowerAtLeast(k - 1);
    }
  }

  lemma SmallVarint(n: nat)
    requires n < 128
    ensures Varint(n) == [n]
  {
  }

  /** Byte `i` carries seven bits of weight 128 to the power of `i`; all but the last have the highest bit. */
  lemma {:induction false} VarintAt(n: nat, i: nat)
    requires i < |Varint(n)|
    ensures Power128(i) > 0
    ensures Varint(n)[i] == n / Power128(i) % 128 + if i < |Varint(n)| - 1 then 128 else 0
  {
    hide Power128, Varint;
    PowerStep(i);
    if n < 128 {
      SmallVarint(n);
    } else {
      VarintOfTwo(n);
      if i > 0 {
        VarintAt(n / 128, i - 1);
        DivByProduct(n, 128, Power128(i - 1));
      }
    }
  }

  lemma PowerStep(k: nat)
    ensures Power128(k) == if k == 0 then 1 else 128 * Power128(k - 1)
  {
  }

  /** The value of some bytes whose highest bits are only marks. */
  function Base128(s: seq<byte>): nat {
    if s == [] then 0 else Base128(s[..|s| - 1]) + s[|s| - 1] % 128 * Power128(|s| - 1)
  }

  lemma {:induction false} Base128First(s: seq<byte>)
    requires s != []
    ensures Base128(s) == s[0] % 128 + 128 * Base128(s[1..])
  {
    var n := |s| - 1;
    if n == 0 {
      assert s[..0] == [] && s[1..] == [];
    } else {
      Base128First(s[..n]);
      assert s[..n][1..] == s[1..][..n - 1] && s[1..][n - 1] == s[n];
      assert s[n] % 128 * Power128(n) == 128 * (s[n] % 128 * Power128(n - 1));
    }
  }

  /** An integer ends at the first byte without the highest bit.  It is read if that is among the first `k`
      bytes and, as the last of these, within its bound; then its value and the bytes behind it are returned. */
  lemma {:induction false} TakeVarintExactly(s: seq<byte>, k: nat, last: byte, m: nat)
    requires m <= |s| && m <= k && forall i | 0 <= i < m :: s[i] >= 128
    ensures m == k || m == |s| ==> TakeVarint(s, k, last) == None
    ensures m < k && m < |s| && s[m] < 128 ==>
              TakeVarint(s, k, last)
              == if m == k - 1 && s[m] > last then None else Some((Base128(s[..m + 1]), s[m + 1..]))
  {
    hide Power128, Base128;
    if m > 0 {
      TakeVarintExactly(s[1..], k - 1, last, m - 1);
      if m < k && m < |s| && s[m] < 128 {
        Base128First(s[..m + 1]);
        assert s[..m + 1][1..] == s[1..][..m] && s[1..][m..] == s[m + 1..];
      }
    } else if m < |s| && s[m] < 128 {
      OneByteValue(s[0]);
      assert s[..1] == [s[0]];
    }
  }

  lemma OneByteValue(b: byte)
    requires b < 128
    ensures Base128([b]) == b
  {
    assert [b][..0] == [];
  }

  /** How a client or a provider reads the three widths: at most ten, five or three bytes. */
  lemma IntegersExactly(s: seq<byte>, m: nat)
    requires m < |s| && s[m] < 128 && forall i | 0 <= i < m :: s[i] >= 128
    ensures var value := (Base128(s[..m + 1]), s[m + 1..]);
            && TakeU64(s) == (if m < 9 || (m == 9 && s[9] <= 1) then Some(value) else None)
            && TakeU32(s) == (if m < 4 || (m == 4 && s[4] <= 15) then Some(value) else None)
            && TakeU16(s) == (if m < 2 || (m == 2 && s[2] <= 3) then Some(value) else None)
  {
    hide TakeVarint, Base128;
    TakeVarintExactly(s, 10, 1, if m <= 10 then m else 10);
    TakeVarintExactly(s, 5, 15, if m <= 5 then m else 5);
    TakeVarintExactly(s, 3, 3, if m <= 3 then m else 3);
  }

  // ---- bytes ----

  function TakeRaw(s: seq<byte>, n: nat): (r: Option<(seq<byte>, seq<byte>)>)
    ensures r.Some? ==> s == r.value.0 + r.value.1 && |r.value.0| == n
  {
    if n <= |s| then Some((s[..n], s[n..])) else None
  }

  lemma TakeRawOf(b: seq<byte>, rest: seq<byte>)
    ensures TakeRaw(b + rest, |b|) == Some((b, rest))
  {
    assert (b + rest)[..|b|] == b && (b + rest)[|b|..] == rest;
  }

  function PutBytes(b: seq<byte>): seq<byte> {
    Varint(|b|) + b
  }

  function TakeBytes(s: seq<byte>): (r: Option<(seq<byte>, seq<byte>)>)
    ensures r.Some? ==> |r.value.1| < |s| && r.value.1 == s[|s| - |r.value.1|..]
  {
    var (n, rest) :- TakeU64(s);
    TakeRaw(rest, n)
  }

  lemma TakeBytesOf(b: seq<byte>, rest: seq<byte>)
    requires |b| < U64_LIMIT
    ensures TakeBytes(PutBytes(b) + rest) == Some((b, rest))
  {
    assert PutBytes(b) + rest == Varint(|b|) + (b + rest);
    IntegersRoundTrip(|b|, b + rest);
    TakeRawOf(b, rest);
  }

  /** A hash goes through the format's byte-string rule, so it carries a length. */
  function TakeHash(s: seq<byte>): (r: Option<(Hash, seq<byte>)>)
    ensures r.Some? ==> |r.value.1| < |s| && r.value.1 == s[|s| - |r.value.1|..]
  {
    var (b, rest) :- TakeBytes(s);
    if |b| == 32 then Some((b, rest)) else None
  }

  lemma TakeHashOf(h: Hash, rest: seq<byte>)
    ensures TakeHash(PutBytes(h) + rest) == Some((h, rest))
    ensures |PutBytes(h)| == 33
  {
    TakeBytesOf(h, rest);
  }

  // ---- text ----

  /** Length of the well-formed UTF-8 sequence at the front of `s`; 0 if there is none. */
  function ScalarLength(s: seq<byte>): (n: nat)
    ensures n <= |s|
  {
    if s == [] then 0
    else if s[0] < 0x80 then 1
    else if |s| >= 2 && 0xC2 <= s[0] <= 0xDF && 0x80 <= s[1] <= 0xBF then 2
    else if |s| >= 3 && 0xE0 <= s[0] <= 0xEF && 0x80 <= s[2] <= 0xBF
            && (if s[0] == 0xE0 then 0xA0 else 0x80) <= s[1] <= (if s[0] == 0xED then 0x9F else 0xBF) then 3
    else if |s| >= 4 && 0xF0 <= s[0] <= 0xF4 && 0x80 <= s[2] <= 0xBF && 0x80 <= s[3] <= 0xBF
            && (if s[0] == 0xF0 then 0x90 else 0x80) <= s[1] <= (if s[0] == 0xF4 then 0x8F else 0xBF) then 4
    else 0
  }

  predicate ValidUtf8(s: seq<byte>) {
    s == [] || (ScalarLength(s) > 0 && ValidUtf8(s[ScalarLength(s)..]))
  }

  /** A Unicode scalar value: a code point that is not a surrogate. */
  type Scalar = c: nat | c < 0xD800 || 0xE000 <= c < 0x110000

  /** Its encoding (section 3 of RFC 3629). */
  function Utf8(c: Scalar): (s: seq<byte>)
    ensures 1 <= |s| <= 4
  {
    if c < 0x80 then [c]
    else if c < 0x800 then [0xC0 + c / 64, 0x80 + c % 64]
    else if c < 0x1_0000 then [0xE0 + c / 4096, 0x80 + c / 64 % 64, 0x80 + c % 64]
    else [0xF0 + c / 262144, 0x80 + c / 4096 % 64, 0x80 + c / 64 % 64, 0x80 + c % 64]
  }

  function Utf8Text(cs: seq<Scalar>): seq<byte> {
    if cs == [] then [] else Utf8(cs[0]) + Utf8Text(cs[1..])
  }

  lemma TwoTaken(c: Scalar, s: seq<byte>)
    requires 0x80 <= c < 0x800 && Utf8(c) <= s
    ensures ScalarLength(s) == 2
  {
    assert s[0] == Utf8(c)[0] && s[1] == Utf8(c)[1];
  }

  lemma ThreeTaken(c: Scalar, s: seq<byte>)
    requires 0x800 <= c < 0x1_0000 && Utf8(c) <= s
    ensures ScalarLength(s) == 3
  {
    assert s[0] == Utf8(c)[0] && s[1] == Utf8(c)[1] && s[2] == Utf8(c)[2];
  }

  lemma FourTaken(c: Scalar, s: seq<byte>)
    requires 0x1_0000 <= c && Utf8(c) <= s
    ensures ScalarLength(s) == 4
  {
    assert s[0] == Utf8(c)[0] && s[1] == Utf8(c)[1] && s[2] == Utf8(c)[2] && s[3] == Utf8(c)[3];
  }

  lemma ScalarIsTaken(c: Scalar, rest: seq<byte>)
    ensures ScalarLength(Utf8(c) + rest) == |Utf8(c)|
  {
    var s := Utf8(c) + rest;
    if c < 0x80 {
      assert s[0] == c;
    } else if c < 0x800 {
      TwoTaken(c, s);
    } else if c < 0x1_0000 {
      ThreeTaken(c, s);
    } else {
      FourTaken(c, s);
    }
  }

  lemma Sextet(high: nat, low: nat)
    requires low < 64
    ensures (64 * high + low) / 64 == high && (64 * high + low) % 64 == low
  {
  }

  lemma Sextets(h: nat, x: nat, y: nat, z: nat) returns (c: nat)
    requires x < 64 && y < 64 && z < 64
    ensures c == 262144 * h + 4096 * x + 64 * y + z
    ensures c / 262144 == h && c / 4096 == 64 * h + x && c / 64 == 4096 * h + 64 * x + y
    ensures c / 4096 % 64 == x && c / 64 % 64 == y && c % 64 == z
  {
    c := 64 * (64 * (64 * h + x) + y) + z;
    Sextet(64 * (64 * h + x) + y, z);
    Sextet(64 * h + x, y);
    Sextet(h, x);
    DivByProduct(c, 64, 64);
    DivByProduct(c, 4096, 64);
  }

  lemma TwoBytes(s: seq<byte>) returns (c: Scalar)
    requires ScalarLength(s) == 2
    ensures s[..2] == Utf8(c)
  {
    var v := Sextets(0, 0, s[0] as int - 0xC0, s[1] as int - 0x80);
    c := v;
  }

  lemma ThreeBytes(s: seq<byte>) returns (c: Scalar)
    requires ScalarLength(s) == 3
    ensures s[..3] == Utf8(c)
  {
    var v := Sextets(0, s[0] as int - 0xE0, s[1] as int - 0x80, s[2] as int - 0x80);
    c := v;
  }

  lemma FourBytes(s: seq<byte>) returns (c: Scalar)
    requires ScalarLength(s) == 4
    ensures s[..4] == Utf8(c)
  {
    var v := Sextets(s[0] as int - 0xF0, s[1] as int - 0x80, s[2] as int - 0x80, s[3] as int - 0x80);
    c := v;
  }

  lemma TakenIsScalar(s: seq<byte>) returns (c: Scalar)
    requires ScalarLength(s) > 0
    ensures s[..ScalarLength(s)] == Utf8(c)
  {
    match ScalarLength(s)
    case 1 => c := s[0];
    case 2 => c := TwoBytes(s);
    case 3 => c := ThreeBytes(s);
    case 4 => c := FourBytes(s);
  }

  lemma {:induction false} TextIsValid(cs: seq<Scalar>)
    ensures ValidUtf8(Utf8Text(cs))
  {
    hide Utf8, ScalarLength;
    if cs != [] {
      ScalarIsTaken(cs[0], Utf8Text(cs[1..]));
      TextIsValid(cs[1..]);
      assert Utf8Text(cs)[|Utf8(cs[0])|..] == Utf8Text(cs[1..]);
    }
  }

  lemma {:induction false} ValidIsText(s: seq<byte>) returns (cs: seq<Scalar>)
    requires ValidUtf8(s)
    ensures s == Utf8Text(cs)
  {
    hide Utf8, ScalarLength;
    if s == [] {
      cs := [];
    } else {
      var n := ScalarLength(s);
      var c := TakenIsScalar(s);
      var others := ValidIsText(s[n..]);
      cs := [c] + others;
      assert cs[1..] == others && s == s[..n] + s[n..];
    }
  }

  /** The valid byte strings are the encodings of sequences of scalar values. */
  lemma ValidUtf8Exactly(s: seq<byte>)
    ensures ValidUtf8(s) <==> exists cs: seq<Scalar> :: s == Utf8Text(cs)
  {
    hide ValidUtf8, Utf8Text;
    if ValidUtf8(s) {
      var cs := ValidIsText(s);
    }
    if cs: seq<Scalar> :| s == Utf8Text(cs) {
      TextIsValid(cs);
    }
  }

  function TakeString(s: seq<byte>): (r: Option<(seq<byte>, seq<byte>)>)
    ensures r.Some? ==> |r.value.1| < |s| && r.value.1 == s[|s| - |r.value.1|..]
  {
    var (b, rest) :- TakeBytes(s);
    if ValidUtf8(b) then Some((b, rest)) else None
  }

  /** A hash is only read from 32 bytes and a string only from valid UTF-8. */
  lemma ItemsExactly(b: seq<byte>, rest: seq<byte>)
    requires |b| < U64_LIMIT
    ensures TakeHash(PutBytes(b) + rest) == if |b| == 32 then Some((b, rest)) else None
    ensures TakeString(PutBytes(b) + rest) == if ValidUtf8(b) then Some((b, rest)) else None
    ensures |b| < 128 ==> PutBytes(b) == [|b|] + b
  {
    TakeBytesOf(b, rest);
  }

  /** Reading an item does not look behind it. */
  lemma {:induction false} TakeVarintExtends(s: seq<byte>, k: nat, last: byte, more: seq<byte>)
    requires TakeVarint(s, k, last).Some?
    ensures var (n, rest) := TakeVarint(s, k, last).value;
            TakeVarint(s + more, k, last) == Some((n, rest + more))
  {
    assert (s + more)[1..] == s[1..] + more;
    if s[0] >= 128 {
      TakeVarintExtends(s[1..], k - 1, last, more);
    }
  }

  lemma TakeU64Extends(s: seq<byte>, more: seq<byte>)
    requires TakeU64(s).Some?
    ensures TakeU64(s + more) == Some((TakeU64(s).value.0, TakeU64(s).value.1 + more))
  {
    TakeVarintExtends(s, 10, 1, more);
  }

  lemma TakeBytesExtends(s: seq<byte>, more: seq<byte>)
    requires TakeBytes(s).Some?
    ensures TakeBytes(s + more) == Some((TakeBytes(s).value.0, TakeBytes(s).value.1 + more))
  {
    hide TakeU64;
    TakeU64Extends(s, more);
    var (n, rest) := TakeU64(s).value;
    assert (rest + more)[..n] == rest[..n] && (rest + more)[n..] == rest[n..] + more;
  }

  // ---- writing into a slice ----

  /** `to_slice`: the used part of a buffer of the given size, or an error when it does not fit. */
  function ToSlice(encoded: seq<byte>, size: nat): Outcome<seq<byte>> {
    if |encoded| <= size then Ok(encoded) else Err(BufferFull)
  }
}
