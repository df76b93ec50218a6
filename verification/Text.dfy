/** Bytes as text: unpadded base64 for URLs and unpadded base32 (sections 5 and 6 of RFC 4648). */
module Text {
  import opened Base

  // ---- bits ----

  /** The lowest `k` bits, the highest of them first. */
  function Bits(n: nat, k: nat): (b: seq<bool>)
    ensures |b| == k
  {
    if k == 0 then [] else Bits(n / 2, k - 1) + [n % 2 == 1]
  }

  function Value(b: seq<bool>): (n: nat)
    ensures n < Pow2(|b|)
  {
    if b == [] then 0 else 2 * Value(b[..|b| - 1]) + if b[|b| - 1] then 1 else 0
  }

  lemma {:induction false} ValueOfBits(n: nat, k: nat)
    requires n < Pow2(k)
    ensures Value(Bits(n, k)) == n
  {
    if k > 0 {
      ValueOfBits(n / 2, k - 1);
      assert Bits(n, k)[..k - 1] == Bits(n / 2, k - 1);
    }
  }

  lemma {:induction false} BitsOfValue(b: seq<bool>)
    ensures Bits(Value(b), |b|) == b
  {
    hide Pow2;
    if b != [] {
      var n := |b| - 1;
      BitsOfValue(b[..n]);
      Halved(Value(b[..n]), if b[n] then 1 else 0);
      assert b == b[..n] + [b[n]];
    }
  }

  lemma Halved(n: nat, bit: nat)
    requires bit < 2
    ensures (2 * n + bit) / 2 == n && (2 * n + bit) % 2 == bit
  {
  }

  /** All digits of `k` bits each, one after the other. */
  function Spread(digits: seq<nat>, k: nat): (b: seq<bool>)
    ensures |b| == k * |digits|
  {
    if digits == [] then [] else Bits(digits[0], k) + Spread(digits[1..], k)
  }

  /** The bits in groups of `k`. */
  function Group(b: seq<bool>, k: nat): (digits: seq<nat>)
    requires k > 0 && |b| % k == 0
    ensures |b| == k * |digits|
    ensures forall i | 0 <= i < |digits| :: digits[i] < Pow2(k)
  {
    if b == [] then [] else
      GroupsLeft(|b|, k);
      [Value(b[..k])] + Group(b[k..], k)
  }

  lemma GroupsLeft(n: nat, k: nat)
    requires k > 0 && n > 0 && n % k == 0
    ensures n >= k && (n - k) % k == 0
  {
    assert n == k * (n / k);
    assert n - k == k * (n / k - 1);
    Multiple(n / k - 1, k);
  }

  lemma Multiple(q: int, k: nat)
    requires k > 0
    ensures k * q % k == 0
  {
    var p, r := k * q / k, k * q % k;
    assert k * q == k * p + r;
    assert k * (q - p) == r;
    if q - p >= 1 {
      AtLeastOnce(k, q - p);
    } else if q - p <= -1 {
      AtLeastOnce(k, p - q);
    }
  }

  lemma {:induction false} SpreadOfGroup(b: seq<bool>, k: nat)
    requires k > 0 && |b| % k == 0
    ensures Spread(Group(b, k), k) == b
  {
    if b != [] {
      GroupsLeft(|b|, k);
      SpreadOfGroup(b[k..], k);
      BitsOfValue(b[..k]);
      assert b == b[..k] + b[k..];
    }
  }

  lemma {:induction false} GroupOfSpread(digits: seq<nat>, k: nat)
    requires k > 0 && forall i | 0 <= i < |digits| :: digits[i] < Pow2(k)
    ensures |Spread(digits, k)| % k == 0 && Group(Spread(digits, k), k) == digits
  {
    Multiple(|digits|, k);
    if digits != [] {
      GroupOfSpread(digits[1..], k);
      ValueOfBits(digits[0], k);
      var b := Spread(digits, k);
      assert b[..k] == Bits(digits[0], k) && b[k..] == Spread(digits[1..], k);
    }
  }

  // ---- alphabets ----

  datatype Alphabet = Base64Url | Base32 {
    /** How many bits a symbol stands for. */
    function Width(): nat {
      if Base64Url? then 6 else 5
    }

    function Symbol(d: nat): byte
      requires d < Pow2(Width())
    {
      Sizes();
      if Base64Url? then
        if d < 26 then 65 + d else if d < 52 then 71 + d else if d < 62 then d - 4 else if d == 62 then 45 else 95
      else if d < 26 then 65 + d else 24 + d
    }

    function Digit(c: byte): (r: Option<nat>)
      ensures r.Some? ==> r.value < Pow2(Width())
    {
      Sizes();
      if 65 <= c <= 90 then Some(c - 65)
      else if Base64Url? then
        if 97 <= c <= 122 then Some(c - 71)
        else if 48 <= c <= 57 then Some(c + 4)
        else if c == 45 then Some(62)
        else if c == 95 then Some(63)
        else None
      else if 50 <= c <= 55 then Some(c - 24)
      else None
    }

    lemma Sizes()
      ensures Pow2(Width()) == if Base64Url? then 64 else 32
    {
      assert Pow2(5) == 32;
    }

    /** Symbols and digits determine each other. */
    lemma SymbolsMatch(c: byte, d: nat)
      requires d < Pow2(Width())
      ensures Digit(c) == Some(d) <==> c == Symbol(d)
    {
      Sizes();
    }
  }

  function Symbols(a: Alphabet, digits: seq<nat>): (s: seq<byte>)
    requires forall i | 0 <= i < |digits| :: digits[i] < Pow2(a.Width())
    ensures |s| == |digits| && forall i | 0 <= i < |s| :: s[i] == a.Symbol(digits[i])
  {
    seq(|digits|, i requires 0 <= i < |digits| => a.Symbol(digits[i]))
  }

  function Digits(a: Alphabet, s: seq<byte>): (r: Option<seq<nat>>)
    ensures r.Some? ==> |r.value| == |s| && forall i | 0 <= i < |s| :: a.Digit(s[i]) == Some(r.value[i])
    ensures r.None? ==> exists i | 0 <= i < |s| :: a.Digit(s[i]).None?
  {
    if s == [] then Some([])
    else match (a.Digit(s[0]), Digits(a, s[1..]))
         case (Some(d), Some(ds)) => Some([d] + ds)
         case _ => None
  }

  // ---- encoding and decoding ----

  function Zeros(n: nat): (b: seq<bool>)
    ensures |b| == n
  {
    seq(n, _ => false)
  }

  /** The bits of the bytes in groups, the last one filled up with zeros. */
  function Encode(a: Alphabet, bytes: seq<byte>): seq<byte> {
    var b := Spread(bytes, 8);
    Fills(|b|, a);
    Symbols(a, Group(b + Zeros(Padding(|b|, a.Width())), a.Width()))
  }

  function Padding(n: nat, k: nat): nat
    requires k > 0
  {
    (k - n % k) % k
  }

  lemma Fills(n: nat, a: Alphabet)
    ensures var k := a.Width(); (n + Padding(n, k)) % k == 0 && Padding(n, k) < k
  {
    hide Pow2;
    if a.Base64Url? {
      FillsSix(n);
    } else {
      FillsFive(n);
    }
  }

  lemma FillsSix(n: nat)
    ensures (n + Padding(n, 6)) % 6 == 0
  {
    var q, r := n / 6, n % 6;
    assert n + Padding(n, 6) == if r == 0 then 6 * q else 6 * (q + 1);
  }

  lemma FillsFive(n: nat)
    ensures (n + Padding(n, 5)) % 5 == 0
  {
    var q, r := n / 5, n % 5;
    assert n + Padding(n, 5) == if r == 0 then 5 * q else 5 * (q + 1);
  }

  /** Whole bytes only, and what is left over must be less than a symbol and zero. */
  function Decode(a: Alphabet, s: seq<byte>): Option<seq<byte>> {
    var digits :- Digits(a, s);
    var b := Spread(digits, a.Width());
    var whole := Whole(|b|);
    if |b| - whole < a.Width() && b[whole..] == Zeros(|b| - whole) then Some(AsBytes(b[..whole])) else None
  }

  /** How many of the bits make up whole bytes. */
  function Whole(n: nat): (w: nat)
    ensures w <= n < w + 8 && w % 8 == 0
  {
    n - n % 8
  }

  function AsBytes(b: seq<bool>): (bytes: seq<byte>)
    requires |b| % 8 == 0
    ensures bytes == Group(b, 8)
  {
    assert Pow2(8) == 256;
    var digits := Group(b, 8);
    seq(|digits|, i requires 0 <= i < |digits| => digits[i])
  }

  lemma {:induction false} DigitsOfSymbols(a: Alphabet, digits: seq<nat>)
    requires forall i | 0 <= i < |digits| :: digits[i] < Pow2(a.Width())
    ensures Digits(a, Symbols(a, digits)) == Some(digits)
  {
    if digits != [] {
      DigitsOfSymbols(a, digits[1..]);
      a.SymbolsMatch(a.Symbol(digits[0]), digits[0]);
      assert Symbols(a, digits)[1..] == Symbols(a, digits[1..]);
      assert [digits[0]] + digits[1..] == digits;
    }
  }

  /** Decoding undoes encoding for byte strings of every length. */
  lemma RoundTrip(a: Alphabet, bytes: seq<byte>)
    ensures Decode(a, Encode(a, bytes)) == Some(bytes)
  {
    hide Spread, Group, Symbols, Digits, Zeros, Padding, Whole;
    var k := a.Width();
    var b := Spread(bytes, 8);
    var pad := Padding(|b|, k);
    var all := b + Zeros(pad);
    Fills(|b|, a);
    DigitsOfSymbols(a, Group(all, k));
    SpreadOfGroup(all, k);
    BytesOfSpread(bytes);
    WholeBytes(|bytes|, pad);
    assert all[..|b|] == b && all[|b|..] == Zeros(pad);
  }

  lemma BytesOfSpread(bytes: seq<byte>)
    ensures |Spread(bytes, 8)| % 8 == 0 && AsBytes(Spread(bytes, 8)) == bytes
  {
    assert Pow2(8) == 256;
    GroupOfSpread(bytes, 8);
  }

  lemma WholeBytes(n: nat, pad: nat)
    requires pad < 8
    ensures Whole(8 * n + pad) == 8 * n
  {
  }

  /** Every text that decodes is the encoding of what it decodes to: there is one text for each byte string. */
  lemma Canonical(a: Alphabet, s: seq<byte>, bytes: seq<byte>)
    ensures Decode(a, s) == Some(bytes) <==> s == Encode(a, bytes)
  {
    RoundTrip(a, bytes);
    if Decode(a, s) == Some(bytes) {
      DecodedIsEncoded(a, s);
    }
  }

  lemma DecodedIsEncoded(a: Alphabet, s: seq<byte>)
    requires Decode(a, s).Some?
    ensures Encode(a, Decode(a, s).value) == s
  {
    hide Spread, Group, Symbols, Digits, Zeros, Padding, Whole;
    var k := a.Width();
    var digits := Digits(a, s).value;
    var b := Spread(digits, k);
    var whole := Whole(|b|);
    SpreadOfGroup(b[..whole], 8);
    Fills(whole, a);
    SamePadding(whole, |b| - whole, a, |s|);
    assert b == b[..whole] + Zeros(|b| - whole);
    SymbolsOfDigits(a, s);
    GroupOfSpread(digits, k);
  }

  lemma SymbolsOfDigits(a: Alphabet, s: seq<byte>)
    requires Digits(a, s).Some?
    ensures forall i | 0 <= i < |s| :: Digits(a, s).value[i] < Pow2(a.Width())
    ensures Symbols(a, Digits(a, s).value) == s
  {
    forall i | 0 <= i < |s|
      ensures Digits(a, s).value[i] < Pow2(a.Width()) && s[i] == a.Symbol(Digits(a, s).value[i])
    {
      a.SymbolsMatch(s[i], Digits(a, s).value[i]);
    }
  }

  lemma SamePadding(whole: nat, rest: nat, a: Alphabet, n: nat)
    requires whole + rest == a.Width() * n && rest < a.Width()
    ensures Padding(whole, a.Width()) == rest
  {
    hide Pow2;
    if a.Base64Url? {
      PadsSix(n, rest);
    } else {
      PadsFive(n, rest);
    }
  }

  lemma PadsSix(n: nat, rest: nat)
    requires rest < 6 && rest <= 6 * n
    ensures Padding(6 * n - rest, 6) == rest
  {
    if rest > 0 {
      assert 6 * n - rest == 6 * (n - 1) + (6 - rest);
    }
  }

  lemma PadsFive(n: nat, rest: nat)
    requires rest < 5 && rest <= 5 * n
    ensures Padding(5 * n - rest, 5) == rest
  {
    if rest > 0 {
      assert 5 * n - rest == 5 * (n - 1) + (5 - rest);
    }
  }

  /** How long the text is. */
  lemma EncodedLength(a: Alphabet, bytes: seq<byte>)
    ensures |Encode(a, bytes)| == (8 * |bytes| + a.Width() - 1) / a.Width()
  {
    Fills(8 * |bytes|, a);
  }

  lemma Base32Text(bytes: seq<byte>)
    ensures forall i | 0 <= i < |Encode(Base32, bytes)| ::
              65 <= Encode(Base32, bytes)[i] <= 90 || 50 <= Encode(Base32, bytes)[i] <= 55
  {
    hide Spread, Group, Padding, Zeros;
    Base32.Sizes();
    Fills(8 * |bytes|, Base32);
  }

  // ---- what a text stands for ----

  /** The symbols are those of the two alphabets, in order. */
  lemma SymbolsAreListed(d: nat)
    ensures d < Pow2(Base64Url.Width()) <==> d < 64
    ensures d < Pow2(Base32.Width()) <==> d < 32
    ensures d < 26 ==> Base64Url.Symbol(d) == Base32.Symbol(d) == 'A' as int + d
    ensures 26 <= d < 52 ==> Base64Url.Symbol(d) == 'a' as int + d - 26
    ensures 52 <= d < 62 ==> Base64Url.Symbol(d) == '0' as int + d - 52
    ensures Base64Url.Symbol(62) == '-' as int && Base64Url.Symbol(63) == '_' as int
    ensures 26 <= d < 32 ==> Base32.Symbol(d) == '2' as int + d - 26
  {
    Base64Url.Sizes();
    Base32.Sizes();
  }

  /** The number that some digits stand for, the first one being the most significant. */
  function Number(digits: seq<nat>, base: nat): nat {
    if digits == [] then 0 else Number(digits[..|digits| - 1], base) * base + digits[|digits| - 1]
  }

  lemma {:induction false} ValueAppend(x: seq<bool>, y: seq<bool>)
    ensures Value(x + y) == Value(x) * Pow2(|y|) + Value(y)
  {
    hide Value, Pow2;
    NoBits();
    if y == [] {
      assert x + y == x;
    } else {
      var n := |y| - 1;
      ValueAppend(x, y[..n]);
      OneBit(x + y);
      OneBit(y);
      assert (x + y)[..|x| + n] == x + y[..n] && (x + y)[|x| + n] == y[n];
      Doubled(Value(x), n);
    }
  }

  lemma NoBits()
    ensures Value([]) == 0 && Pow2(0) == 1
  {
  }

  lemma OneBit(b: seq<bool>)
    requires b != []
    ensures Value(b) == 2 * Value(b[..|b| - 1]) + if b[|b| - 1] then 1 else 0
  {
  }

  lemma Doubled(v: nat, n: nat)
    ensures 2 * (v * Pow2(n)) == v * Pow2(n + 1)
  {
  }

  lemma {:induction false} SpreadAppend(digits: seq<nat>, d: nat, k: nat)
    ensures Spread(digits + [d], k) == Spread(digits, k) + Bits(d, k)
  {
    hide Bits, Spread;
    SpreadStep(digits, k);
    SpreadStep(digits + [d], k);
    if digits == [] {
      assert ([] + [d])[1..] == [];
      SpreadStep([], k);
    } else {
      SpreadAppend(digits[1..], d, k);
      assert (digits + [d])[1..] == digits[1..] + [d];
    }
  }

  lemma SpreadStep(digits: seq<nat>, k: nat)
    ensures Spread(digits, k) == if digits == [] then [] else Bits(digits[0], k) + Spread(digits[1..], k)
  {
  }

  lemma {:induction false} ValueOfSpread(digits: seq<nat>, k: nat)
    requires forall i | 0 <= i < |digits| :: digits[i] < Pow2(k)
    ensures Value(Spread(digits, k)) == Number(digits, Pow2(k))
  {
    hide Pow2, Bits;
    if digits != [] {
      var n := |digits| - 1;
      ValueOfSpread(digits[..n], k);
      SpreadAppend(digits[..n], digits[n], k);
      assert digits[..n] + [digits[n]] == digits;
      ValueAppend(Spread(digits[..n], k), Bits(digits[n], k));
      ValueOfBits(digits[n], k);
    }
  }

  lemma {:induction false} ValueOfZeros(n: nat)
    ensures Value(Zeros(n)) == 0
  {
    if n > 0 {
      ValueOfZeros(n - 1);
      assert Zeros(n)[..n - 1] == Zeros(n - 1);
    }
  }

  /** A text is the number of its bytes, shifted left by less than a symbol to fill the last one. */
  predicate StandsFor(a: Alphabet, s: seq<byte>, bytes: seq<byte>) {
    var digits := Digits(a, s);
    var bits := a.Width() * |s|;
    && digits.Some? && 8 * |bytes| <= bits < 8 * |bytes| + a.Width()
    && Number(digits.value, Pow2(a.Width())) == Number(bytes, 256) * Pow2(bits - 8 * |bytes|)
  }

  lemma EncodingStandsFor(a: Alphabet, bytes: seq<byte>)
    ensures StandsFor(a, Encode(a, bytes), bytes)
  {
    hide Spread, Group, Symbols, Digits, Zeros, Padding, Value, Number;
    var k := a.Width();
    var b := Spread(bytes, 8);
    var pad := Padding(|b|, k);
    var all := b + Zeros(pad);
    Fills(|b|, a);
    DigitsOfSymbols(a, Group(all, k));
    SpreadOfGroup(all, k);
    ValueOfSpread(Group(all, k), k);
    ValueAppend(b, Zeros(pad));
    ValueOfZeros(pad);
    assert Pow2(8) == 256;
    ValueOfSpread(bytes, 8);
  }

  lemma {:induction false} NumberDetermines(x: seq<nat>, y: seq<nat>, base: nat)
    requires |x| == |y| && Number(x, base) == Number(y, base)
    requires forall i | 0 <= i < |x| :: x[i] < base && y[i] < base
    ensures x == y
  {
    if x != [] {
      var n := |x| - 1;
      var p, q := Number(x[..n], base), Number(y[..n], base);
      OnlyLast(p, x[n], q, y[n], base);
      NumberDetermines(x[..n], y[..n], base);
      assert x == x[..n] + [x[n]] && y == y[..n] + [y[n]];
    }
  }

  lemma OnlyLast(p: nat, d: nat, q: nat, e: nat, base: nat)
    requires p * base + d == q * base + e && d < base && e < base
    ensures p == q && d == e
  {
    assert (p - q) * base == e - d && (q - p) * base == d - e;
    if p > q {
      AtLeastOnce(base, p - q);
    } else if p < q {
      AtLeastOnce(base, q - p);
    }
  }

  /** A text decodes to some bytes exactly if it stands for them. */
  lemma DecodesExactly(a: Alphabet, s: seq<byte>, bytes: seq<byte>)
    ensures Decode(a, s) == Some(bytes) <==> StandsFor(a, s, bytes)
  {
    hide Encode, Decode, Digits, Number, Pow2;
    EncodingStandsFor(a, bytes);
    Canonical(a, s, bytes);
    if StandsFor(a, s, bytes) {
      var e := Encode(a, bytes);
      SameLength(a, |s|, |e|, 8 * |bytes|);
      DigitsBelow(a, s);
      DigitsBelow(a, e);
      NumberDetermines(Digits(a, s).value, Digits(a, e).value, Pow2(a.Width()));
      SymbolsOfDigits(a, s);
      SymbolsOfDigits(a, e);
    }
  }

  lemma SameLength(a: Alphabet, m: nat, n: nat, bits: nat)
    requires bits <= a.Width() * m < bits + a.Width() && bits <= a.Width() * n < bits + a.Width()
    ensures m == n
  {
  }

  lemma DigitsBelow(a: Alphabet, s: seq<byte>)
    requires Digits(a, s).Some?
    ensures forall i | 0 <= i < |s| :: Digits(a, s).value[i] < Pow2(a.Width())
  {
    SymbolsOfDigits(a, s);
  }

  /** The bits that fill the last symbol are zero. */
  lemma FilledWithZeros(a: Alphabet, s: seq<byte>)
    requires Decode(a, s).Some? && s != []
    ensures var pad := a.Width() * |s| - 8 * |Decode(a, s).value|;
            && 0 <= pad < a.Width() && Digits(a, s).Some?
            && Digits(a, s).value[|s| - 1] % Pow2(pad) == 0
  {
    hide Decode, Digits, Number;
    var bytes := Decode(a, s).value;
    DecodesExactly(a, s, bytes);
    var digits := Digits(a, s).value;
    var n := |s| - 1;
    var k := a.Width();
    var pad := k * |s| - 8 * |bytes|;
    LastOfNumber(digits, Pow2(k));
    PowSplits(pad, k - pad);
    LastIsMultiple(Number(bytes, 256), Number(digits[..n], Pow2(k)), Pow2(pad), Pow2(k - pad), digits[n]);
  }

  lemma LastOfNumber(digits: seq<nat>, base: nat)
    requires digits != []
    ensures Number(digits, base) == Number(digits[..|digits| - 1], base) * base + digits[|digits| - 1]
  {
  }

  lemma {:induction false} PowSplits(m: nat, n: nat)
    ensures Pow2(m + n) == Pow2(m) * Pow2(n) && Pow2(m) > 0
  {
    hide Pow2;
    PowStep(m);
    PowStep(m + n);
    if m > 0 {
      PowSplits(m - 1, n);
      TimesTwo(Pow2(m - 1), Pow2(n));
    }
  }

  lemma PowStep(k: nat)
    ensures Pow2(k) == if k == 0 then 1 else 2 * Pow2(k - 1)
  {
  }

  lemma TimesTwo(a: nat, b: nat)
    ensures 2 * (a * b) == 2 * a * b
  {
  }

  lemma LastIsMultiple(number: nat, front: nat, p: nat, q: nat, last: nat)
    requires p > 0 && number * p == front * (p * q) + last
    ensures last % p == 0
  {
    assert front * (p * q) == p * (front * q);
    assert last == p * (number - front * q);
    Multiple(number - front * q, p);
  }

  // ---- hashes and tokens ----

  function PrintDigest(h: Hash): seq<byte> {
    Encode(Base64Url, h)
  }

  datatype ParseError = InvalidEncoding | InvalidLength(length: nat)

  datatype Parsed<+T> = Parsed(value: T) | Failed(error: ParseError)

  function ParsedDigest(s: seq<byte>): Parsed<Hash> {
    match Decode(Base64Url, s)
    case None => Failed(InvalidEncoding)
    case Some(b) => if |b| == 32 then Parsed(b) else Failed(InvalidLength(|b|))
  }

  /** Decodes into a fixed array of 32 bytes. */
  method ParseDigest(s: seq<byte>) returns (r: Parsed<Hash>)
    ensures r == ParsedDigest(s)
  {
    var arr := new byte[32](_ => 0);
    var val := Decode(Base64Url, s);
    if val.None? {
      return Failed(InvalidEncoding);
    }
    if |val.value| != 32 {
      return Failed(InvalidLength(|val.value|));
    }
    for i := 0 to 32
      invariant arr[..i] == val.value[..i]
    {
      arr[i] := val.value[i];
    }
    assert arr[..] == arr[..32] && val.value == val.value[..32];
    return Parsed(arr[..]);
  }

  /** A hash or token is parsed from exactly one text, its 43 printed characters. */
  lemma DigestText(s: seq<byte>, h: Hash)
    ensures ParsedDigest(s) == Parsed(h) <==> s == PrintDigest(h)
    ensures |PrintDigest(h)| == 43
  {
    Canonical(Base64Url, s, h);
    EncodedLength(Base64Url, h);
  }

  /** What is wrong with any other text: it is no encoding, or it encodes another number of bytes. */
  lemma DigestErrors(s: seq<byte>)
    ensures ParsedDigest(s) == Failed(InvalidEncoding) <==> forall bytes :: s != Encode(Base64Url, bytes)
    ensures forall bytes | |bytes| != 32 :: ParsedDigest(Encode(Base64Url, bytes)) == Failed(InvalidLength(|bytes|))
  {
    hide Encode, Decode;
    if Decode(Base64Url, s).Some? {
      Canonical(Base64Url, s, Decode(Base64Url, s).value);
    }
    forall bytes: seq<byte>
      ensures Decode(Base64Url, Encode(Base64Url, bytes)) == Some(bytes)
    {
      RoundTrip(Base64Url, bytes);
    }
  }
}
