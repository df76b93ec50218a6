/** The content identifier of a BLAKE3 hash and its base32 text, in place on fixed arrays. */
module Cid {
  import opened Base
  import opened Text

  // version 1, raw content, BLAKE3, 32 bytes
  const CID_PREFIX: seq<byte> := [0x01, 0x55, 0x1e, 0x20]

  const LETTER_B: byte := 98

  // ---- ASCII case ----

  function LowerByte(c: byte): byte {
    if 65 <= c <= 90 then c + 32 else c
  }

  function UpperByte(c: byte): byte {
    if 97 <= c <= 122 then c - 32 else c
  }

  /** Capital letters and small ones correspond in order; nothing else is changed. */
  lemma CaseOf(c: byte, i: nat)
    requires i < 26
    ensures LowerByte('A' as int + i) == 'a' as int + i && UpperByte('a' as int + i) == 'A' as int + i
    ensures !('A' as int <= c <= 'Z' as int) ==> LowerByte(c) == c
    ensures !('a' as int <= c <= 'z' as int) ==> UpperByte(c) == c
  {
  }

  function Lower(s: seq<byte>): (t: seq<byte>)
    ensures |t| == |s| && forall i | 0 <= i < |s| :: t[i] == LowerByte(s[i])
  {
    seq(|s|, i requires 0 <= i < |s| => LowerByte(s[i]))
  }

  function Upper(s: seq<byte>): (t: seq<byte>)
    ensures |t| == |s| && forall i | 0 <= i < |s| :: t[i] == UpperByte(s[i])
  {
    seq(|s|, i requires 0 <= i < |s| => UpperByte(s[i]))
  }

  method MakeLowercase(t: array<byte>)
    modifies t
    ensures t[..] == Lower(old(t[..]))
  {
    for i := 0 to t.Length
      invariant forall j | 0 <= j < i :: t[j] == LowerByte(old(t[j]))
      invariant forall j | i <= j < t.Length :: t[j] == old(t[j])
    {
      t[i] := LowerByte(t[i]);
    }
  }

  method MakeUppercase(t: array<byte>)
    modifies t
    ensures t[..] == Upper(old(t[..]))
  {
    for i := 0 to t.Length
      invariant forall j | 0 <= j < i :: t[j] == UpperByte(old(t[j]))
      invariant forall j | i <= j < t.Length :: t[j] == old(t[j])
    {
      t[i] := UpperByte(t[i]);
    }
  }

  // ---- binary form ----

  /** `copy_from_slice` into a stretch of an array. */
  method CopyInto(res: array<byte>, at: nat, source: seq<byte>)
    requires at + |source| <= res.Length
    modifies res
    ensures res[..] == old(res[..at]) + source + old(res[at + |source|..])
  {
    forall i | 0 <= i < |source| {
      res[at + i] := source[i];
    }
  }

  method ToBytes(hash: Hash) returns (res: array<byte>)
    ensures fresh(res) && res[..] == CID_PREFIX + hash
  {
    res := new byte[36](_ => 0);
    CopyInto(res, 0, CID_PREFIX);
    CopyInto(res, 4, hash);
    assert res[..4] == CID_PREFIX;
  }

  datatype CidError = WrongLength(length: nat) | WrongPrefix | BadBase32 | BadMultibase

  datatype CidResult = Cid(hash: Hash) | Bad(error: CidError)

  function OfBytes(bytes: seq<byte>): CidResult {
    if |bytes| != 36 then Bad(WrongLength(|bytes|))
    else if bytes[..4] != CID_PREFIX then Bad(WrongPrefix)
    else Cid(bytes[4..36])
  }

  // ---- text form ----

  function Printed(hash: Hash): seq<byte> {
    [LETTER_B] + Lower(Encode(Base32, CID_PREFIX + hash))
  }

  lemma Encoded58(hash: Hash)
    ensures |Encode(Base32, CID_PREFIX + hash)| == 58
  {
    EncodedLength(Base32, CID_PREFIX + hash);
  }

  /** Fills a fixed array with the letter and the upper-case encoding, then lowers all of it. */
  method Print(hash: Hash) returns (text: seq<byte>)
    ensures text == Printed(hash) && |text| == 59
  {
    hide Encode;
    var res := new byte[59](_ => LETTER_B);
    Encoded58(hash);
    var bytes := ToBytes(hash);
    CopyInto(res, 1, Encode(Base32, bytes[..]));
    assert res[..] == [LETTER_B] + Encode(Base32, CID_PREFIX + hash);
    MakeLowercase(res);
    text := res[..];
    assert text == Printed(hash);
  }

  /** How a text is read; `multibase` stands for the general decoder that other texts are passed to. */
  function Read(multibase: seq<byte> -> Option<seq<byte>>, s: seq<byte>): CidResult {
    if |s| == 59 && s[0] == LETTER_B then
      match Decode(Base32, Upper(s[1..]))
      case None => Bad(BadBase32)
      case Some(bytes) => OfBytes(bytes)
    else
      match multibase(s)
      case None => Bad(BadMultibase)
      case Some(bytes) => OfBytes(bytes)
  }

  method Parse(multibase: seq<byte> -> Option<seq<byte>>, s: seq<byte>) returns (r: CidResult)
    ensures r == Read(multibase, s)
  {
    hide Decode, OfBytes;
    if |s| == 59 && s[0] == LETTER_B {
      var t := new byte[58](_ => 0);
      CopyInto(t, 0, s[1..]);
      MakeUppercase(t);
      assert t[..] == Upper(s[1..]);
      var decoded := Decode(Base32, t[..]);
      if decoded.None? {
        return Bad(BadBase32);
      }
      DecodedLength(t[..]);
      var res := new byte[36](_ => 0);
      CopyInto(res, 0, decoded.value);
      assert res[..] == decoded.value;
      return OfBytes(res[..]);
    }
    var bytes := multibase(s);
    return if bytes.None? then Bad(BadMultibase) else OfBytes(bytes.value);
  }

  /** 58 symbols that decode are 36 bytes, which is what the fixed array holds. */
  lemma DecodedLength(t: seq<byte>)
    requires |t| == 58 && Decode(Base32, t).Some?
    ensures |Decode(Base32, t).value| == 36
  {
    Canonical(Base32, t, Decode(Base32, t).value);
    EncodedLength(Base32, Decode(Base32, t).value);
  }

  lemma EncodingIsUpper(bytes: seq<byte>)
    ensures Upper(Encode(Base32, bytes)) == Encode(Base32, bytes)
  {
    hide Encode;
    Base32Text(bytes);
  }

  /** A 59-character text that starts with the letter is read as a hash if and only if, in lower case, it
      is that hash's printed form; in particular every printed form is read back. */
  lemma ReadExactly(multibase: seq<byte> -> Option<seq<byte>>, s: seq<byte>, hash: Hash)
    requires |s| == 59 && s[0] == LETTER_B
    ensures Read(multibase, s) == Cid(hash) <==> Lower(s) == Printed(hash)
  {
    hide Encode, Decode, Read;
    var e := Encode(Base32, CID_PREFIX + hash);
    Encoded58(hash);
    EncodingIsUpper(CID_PREFIX + hash);
    Canonical(Base32, Upper(s[1..]), CID_PREFIX + hash);
    SameLetters(s[1..], e);
    assert Lower(s) == [LETTER_B] + Lower(s[1..]);
    ReadIs(multibase, s, hash);
    assert Lower(s)[1..] == Lower(s[1..]) && Printed(hash)[1..] == Lower(e);
  }

  lemma ReadIs(multibase: seq<byte> -> Option<seq<byte>>, s: seq<byte>, hash: Hash)
    requires |s| == 59 && s[0] == LETTER_B
    ensures Read(multibase, s) == Cid(hash) <==> Decode(Base32, Upper(s[1..])) == Some(CID_PREFIX + hash)
  {
    hide Decode, Upper;
    assert (CID_PREFIX + hash)[..4] == CID_PREFIX && (CID_PREFIX + hash)[4..36] == hash;
    var d := Decode(Base32, Upper(s[1..]));
    if d.Some? && |d.value| == 36 {
      assert d.value == d.value[..4] + d.value[4..36];
    }
  }

  /** Two texts are the same letters up to case. */
  lemma SameLetters(s: seq<byte>, e: seq<byte>)
    requires Upper(e) == e
    ensures Upper(s) == e <==> Lower(s) == Lower(e)
  {
    assert Upper(Lower(s)) == Upper(s) && Upper(Lower(e)) == Upper(e) && Lower(Upper(s)) == Lower(s);
  }

  lemma PrintedIsRead(multibase: seq<byte> -> Option<seq<byte>>, hash: Hash)
    ensures |Printed(hash)| == 59 && Printed(hash)[0] == LETTER_B && Read(multibase, Printed(hash)) == Cid(hash)
  {
    Encoded58(hash);
    assert Lower(Printed(hash)) == Printed(hash);
    ReadExactly(multibase, Printed(hash), hash);
  }

  /** The printed form is the letter and, in lower case, the text that stands for version 1, raw content,
      BLAKE3, the length 32 and the hash. */
  lemma PrintedStandsFor(hash: Hash)
    ensures Printed(hash) != [] && Printed(hash)[0] == 'b' as int
    ensures StandsFor(Base32, Upper(Printed(hash)[1..]), [0x01, 0x55, 0x1e, 0x20] + hash)
    ensures forall i | 0 <= i < |Printed(hash)| ::
              'a' as int <= Printed(hash)[i] <= 'z' as int || '2' as int <= Printed(hash)[i] <= '7' as int
  {
    hide Encode, StandsFor;
    Base32Text(CID_PREFIX + hash);
    var e := Encode(Base32, CID_PREFIX + hash);
    EncodingStandsFor(Base32, CID_PREFIX + hash);
    EncodingIsUpper(CID_PREFIX + hash);
    assert Printed(hash)[1..] == Lower(e) && Upper(Lower(e)) == Upper(e);
  }

  /** What other texts are read as, through the general decoder, and what is wrong with a text: it is no
      encoding, or not one of 36 bytes, or these do not start as they must. */
  lemma ReadDecided(multibase: seq<byte> -> Option<seq<byte>>, s: seq<byte>, bytes: seq<byte>)
    ensures var direct := |s| == 59 && s[0] == 'b' as int;
            var decoded := if direct then Decode(Base32, Upper(s[1..])) else multibase(s);
            && (decoded == None ==> Read(multibase, s) == Bad(if direct then BadBase32 else BadMultibase))
            && (decoded == Some(bytes) ==>
                  match Read(multibase, s)
                  case Cid(hash) => bytes == [0x01, 0x55, 0x1e, 0x20] + hash
                  case Bad(e) => e == if |bytes| != 36 then WrongLength(|bytes|) else WrongPrefix)
            && (forall hash: Hash ::
                  decoded == Some([0x01, 0x55, 0x1e, 0x20] + hash) <==> Read(multibase, s) == Cid(hash))
  {
    hide Decode, Upper;
    forall hash: Hash ensures OfBytes(CID_PREFIX + hash) == Cid(hash) {
      assert (CID_PREFIX + hash)[..4] == CID_PREFIX && (CID_PREFIX + hash)[4..36] == hash;
    }
    forall b: seq<byte> | OfBytes(b).Cid? ensures b == CID_PREFIX + OfBytes(b).hash {
      assert b == b[..4] + b[4..36];
    }
  }
}
