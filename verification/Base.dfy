/** Bytes, optional values and outcomes shared by every part of the model. */
module Base {
  type byte = b: int | 0 <= b < 256

  const U64_LIMIT: nat := 0x1_0000_0000_0000_0000

  type u16 = n: int | 0 <= n < 0x1_0000

  type u64 = n: int | 0 <= n < 0x1_0000_0000_0000_0000

  /** A 32-byte digest, token or key. */
  type Hash = h: seq<byte> | |h| == 32 witness seq(32, _ => 0)

  datatype Option<+T> = None | Some(value: T) {
    predicate IsFailure() {
      None?
    }

    function PropagateFailure<U>(): Option<U>
      requires None?
    {
      None
    }

    function Extract(): T
      requires Some?
    {
      value
    }
  }

  /** Why an operation of the program returned an error. */
  datatype Error =
    | IoFailed
    | UnexpectedEof
    | Malformed
    | BufferFull
    | MessageTooLarge
    | WrongVersion
    | WrongToken
    | NoMessage
    | ExtraData
    | DataNotFound
    | UnexpectedMessage
    | SizeTooLarge
    | MoreThanAnnounced
    | VerificationFailed
    | CallbackFailed
    | NotFullyRead
    | NotAFile

  /** The result of an operation that can also panic. */
  datatype Outcome<+T> = Ok(value: T) | Err(error: Error) | Panic {
    predicate IsFailure() {
      !Ok?
    }

    function PropagateFailure<U>(): Outcome<U>
      requires !Ok?
    {
      if Err? then Err(error) else Panic
    }

    function Extract(): T
      requires Ok?
    {
      value
    }
  }

  function Min(a: int, b: int): int {
    if a <= b then a else b
  }

  lemma AtLeastOnce(a: nat, k: int)
    requires k >= 1
    ensures a * k >= a
  {
  }

  function Joined(parts: seq<seq<byte>>): seq<byte> {
    if parts == [] then [] else parts[0] + Joined(parts[1..])
  }

  function Pow2(k: nat): nat {
    if k == 0 then 1 else 2 * Pow2(k - 1)
  }

  // ---- little-endian integers of a fixed width ----

  function Pow256(k: nat): nat {
    if k == 0 then 1 else 256 * Pow256(k - 1)
  }

  function LeBytes(n: nat, k: nat): (s: seq<byte>)
    ensures |s| == k
  {
    if k == 0 then [] else [n % 256] + LeBytes(n / 256, k - 1)
  }

  function LeValue(s: seq<byte>): (n: nat)
    ensures n < Pow256(|s|)
  {
    if s == [] then 0 else s[0] + 256 * LeValue(s[1..])
  }

  lemma {:induction false} LeValueOfBytes(n: nat, k: nat)
    requires n < Pow256(k)
    ensures LeValue(LeBytes(n, k)) == n
  {
    if k > 0 {
      LeValueOfBytes(n / 256, k - 1);
      assert LeBytes(n, k)[1..] == LeBytes(n / 256, k - 1);
    }
  }

  lemma {:induction false} LeBytesOfValue(s: seq<byte>)
    ensures LeBytes(LeValue(s), |s|) == s
  {
    if s != [] {
      LeBytesOfValue(s[1..]);
      assert LeValue(s) % 256 == s[0] && LeValue(s) / 256 == LeValue(s[1..]);
    }
  }

  lemma DivByProduct(n: nat, a: nat, b: nat)
    requires a > 0 && b > 0
    ensures a * b > 0 && n / a / b == n / (a * b)
  {
    var q, r := n / a, n % a;
    var p, t := q / b, q % b;
    InnerDigit(a, b, t, r);
    calc {
      n;
      a * q + r;
      a * (b * p + t) + r;
      a * b * p + (a * t + r);
    }
    Quotient(n, a * b, p, a * t + r);
  }

  lemma InnerDigit(a: nat, b: nat, t: nat, r: nat)
    requires t < b && r < a
    ensures a * t + r < a * b
  {
    AtLeastOnce(a, b - t);
    assert a * (b - t) == a * b - a * t;
  }

  lemma Quotient(n: nat, d: nat, q: nat, r: nat)
    requires n == d * q + r && r < d
    ensures n / d == q
  {
    var p, t := n / d, n % d;
    assert d * (p - q) == r - t && d * (q - p) == t - r;
    if p > q {
      AtLeastOnce(d, p - q);
    } else if p < q {
      AtLeastOnce(d, q - p);
    }
  }

  /** Byte `i` is the digit of weight 256 to the power of `i`: the least significant one comes first. */
  lemma {:induction false} LeBytesAt(n: nat, k: nat, i: nat)
    requires i < k
    ensures Pow256(i) > 0 && LeBytes(n, k)[i] == n / Pow256(i) % 256
  {
    if i > 0 {
      LeBytesAt(n / 256, k - 1, i - 1);
      DivByProduct(n, 256, Pow256(i - 1));
    }
  }

  function Le64(n: u64): (s: seq<byte>)
    ensures |s| == 8
  {
    LeBytes(n, 8)
  }

  function U64OfLe(s: seq<byte>): (n: u64)
    requires |s| == 8
  {
    assert Pow256(8) == 0x1_0000_0000_0000_0000;
    LeValue(s)
  }

  lemma SmallLe64(n: byte)
    ensures Le64(n) == [n, 0, 0, 0, 0, 0, 0, 0]
  {
    assert LeBytes(0, 3) == [0, 0, 0];
    assert LeBytes(0, 5) == [0, 0] + LeBytes(0, 3);
    assert LeBytes(0, 7) == [0, 0] + LeBytes(0, 5);
  }

  /** The fixed-width prefix determines the size and the size determines the prefix. */
  lemma Le64RoundTrip(n: u64, s: seq<byte>)
    requires |s| == 8
    ensures U64OfLe(Le64(n)) == n
    ensures Le64(U64OfLe(s)) == s
  {
    assert Pow256(8) == 0x1_0000_0000_0000_0000;
    LeValueOfBytes(n, 8);
    LeBytesOfValue(s);
  }
}
