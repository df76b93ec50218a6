/** Tickets: everything needed to ask a provider, in one line of text. */
module Tickets {
  import opened Base
  import opened Postcard
  import opened Text

  /** An IPv6 address also has a flow label and a scope, which are not part of its encoding. */
  datatype SocketAddr =
    | V4(octets: seq<byte>, port: u16)
    | V6(octets: seq<byte>, port: u16, flow: nat, scope: nat)
  {
    predicate Valid() {
      |octets| == if V4? then 4 else 16
    }

    function WithoutScope(): SocketAddr {
      if V4? then this else V6(octets, port, 0, 0)
    }
  }

  datatype Ticket = Ticket(hash: Hash, peer: Hash, addr: SocketAddr, token: Hash)

  function EncodeAddr(a: SocketAddr): seq<byte> {
    Varint(if a.V4? then 0 else 1) + a.octets + Varint(a.port)
  }

  function TakeAddr(s: seq<byte>): Option<(SocketAddr, seq<byte>)> {
    var (variant, rest) :- TakeU32(s);
    if variant > 1 then None
    else
      var (octets, rest) :- TakeRaw(rest, if variant == 0 then 4 else 16);
      var (port, rest) :- TakeU16(rest);
      Some((if variant == 0 then V4(octets, port) else V6(octets, port, 0, 0), rest))
  }

  function EncodeTicket(t: Ticket): seq<byte> {
    PutBytes(t.hash) + PutBytes(t.peer) + EncodeAddr(t.addr) + t.token
  }

  /** `isKey` says which 32 bytes are a public key; bytes behind the ticket are ignored. */
  function DecodeTicket(isKey: Hash -> bool, s: seq<byte>): Option<Ticket> {
    var (hash, rest) :- TakeHash(s);
    var (peer, rest) :- TakeHash(rest);
    if !isKey(peer) then None
    else
      var (addr, rest) :- TakeAddr(rest);
      var (token, _) :- TakeRaw(rest, 32);
      Some(Ticket(hash, peer, addr, token))
  }

  function PrintTicket(t: Ticket): seq<byte> {
    Encode(Base64Url, EncodeTicket(t))
  }

  function ParseTicket(isKey: Hash -> bool, s: seq<byte>): Option<Ticket> {
    var bytes :- Decode(Base64Url, s);
    DecodeTicket(isKey, bytes)
  }

  lemma TakeAddrOf(a: SocketAddr, rest: seq<byte>)
    requires a.Valid()
    ensures TakeAddr(EncodeAddr(a) + rest) == Some((a.WithoutScope(), rest))
  {
    hide Varint;
    var port := Varint(a.port) + rest;
    assert EncodeAddr(a) + rest == Varint(if a.V4? then 0 else 1) + (a.octets + port);
    IntegersRoundTrip(if a.V4? then 0 else 1, a.octets + port);
    TakeRawOf(a.octets, port);
    IntegersRoundTrip(a.port, rest);
  }

  /** A ticket survives its binary form, whatever bytes follow, up to the flow label and scope of an IPv6
      address; it survives whole exactly when there are none. */
  lemma TicketRoundTrip(isKey: Hash -> bool, t: Ticket, rest: seq<byte>)
    requires t.addr.Valid() && isKey(t.peer)
    ensures DecodeTicket(isKey, EncodeTicket(t) + rest) == Some(t.(addr := t.addr.WithoutScope()))
    ensures DecodeTicket(isKey, EncodeTicket(t) + rest) == Some(t)
            <==> t.addr.V4? || (t.addr.flow == 0 && t.addr.scope == 0)
  {
    var token := t.token + rest;
    var addr := EncodeAddr(t.addr) + token;
    var peer := PutBytes(t.peer) + addr;
    assert EncodeTicket(t) + rest == PutBytes(t.hash) + peer;
    TakeHashOf(t.hash, peer);
    TakeHashOf(t.peer, addr);
    TakeAddrOf(t.addr, token);
    TakeRawOf(t.token, rest);
  }

  /** The bytes: both hashes behind their length, the address behind its variant, its port, the bare token. */
  lemma TicketBytes(t: Ticket)
    ensures EncodeTicket(t)
         == [32] + t.hash + [32] + t.peer + [if t.addr.V4? then 0 else 1] + t.addr.octets + Varint(t.addr.port)
            + t.token
  {
    hide Varint;
    SmallVarint(32);
    SmallVarint(0);
    SmallVarint(1);
  }

  /** A ticket is refused if its peer is no key, if a hash has another length, or if its address is of
      another kind. */
  lemma RefusedTicket(isKey: Hash -> bool, hash: seq<byte>, peer: seq<byte>, kind: byte, rest: seq<byte>)
    requires |hash| < U64_LIMIT && |peer| < U64_LIMIT && kind < 128
    requires |hash| != 32 || |peer| != 32 || !isKey(peer) || kind > 1
    ensures DecodeTicket(isKey, PutBytes(hash) + (PutBytes(peer) + ([kind] + rest))) == None
  {
    hide TakeHash, PutBytes;
    ItemsExactly(hash, PutBytes(peer) + ([kind] + rest));
    ItemsExactly(peer, [kind] + rest);
    SmallVarint(kind);
    IntegersRoundTrip(kind, rest);
  }

  /** The same through text, which is the base64url text that stands for those bytes. */
  lemma TicketText(isKey: Hash -> bool, t: Ticket)
    requires t.addr.Valid() && isKey(t.peer)
    ensures ParseTicket(isKey, PrintTicket(t)) == Some(t.(addr := t.addr.WithoutScope()))
    ensures StandsFor(Base64Url, PrintTicket(t), EncodeTicket(t))
  {
    hide EncodeTicket, DecodeTicket, Encode, Decode, StandsFor;
    RoundTrip(Base64Url, EncodeTicket(t));
    EncodingStandsFor(Base64Url, EncodeTicket(t));
    TicketRoundTrip(isKey, t, []);
    assert EncodeTicket(t) + [] == EncodeTicket(t);
  }

  /** A text is a ticket exactly if the bytes it stands for are. */
  lemma ParsedExactly(isKey: Hash -> bool, s: seq<byte>, bytes: seq<byte>)
    ensures StandsFor(Base64Url, s, bytes) ==> ParseTicket(isKey, s) == DecodeTicket(isKey, bytes)
    ensures (forall b :: !StandsFor(Base64Url, s, b)) ==> ParseTicket(isKey, s) == None
  {
    hide DecodeTicket, Decode, StandsFor;
    DecodesExactly(Base64Url, s, bytes);
    if Decode(Base64Url, s).Some? {
      DecodesExactly(Base64Url, s, Decode(Base64Url, s).value);
    }
  }
}
