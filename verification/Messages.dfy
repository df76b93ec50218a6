/** The messages of the transfer protocol and their encodings. */
module Messages {
  import opened Base
  import opened Postcard

  const VERSION: u64 := 1

  datatype Handshake = Handshake(version: u64, token: Hash)

  datatype Request = Request(id: u64, name: Hash)

  datatype Res =
    | NotFound
    | Found
    | FoundCollection(totalBlobsSize: u64)

  datatype Response = Response(id: u64, data: Res)

  function EncodeHandshake(m: Handshake): seq<byte> {
    Varint(m.version) + m.token
  }

  function DecodeHandshake(s: seq<byte>): Option<Handshake> {
    var (version, rest) :- TakeU64(s);
    var (token, _) :- TakeRaw(rest, 32);
    Some(Handshake(version, token))
  }

  function EncodeRequest(m: Request): seq<byte> {
    Varint(m.id) + PutBytes(m.name)
  }

  function DecodeRequest(s: seq<byte>): Option<Request> {
    var (id, rest) :- TakeU64(s);
    var (name, _) :- TakeHash(rest);
    Some(Request(id, name))
  }

  function EncodeRes(data: Res): (s: seq<byte>)
    ensures |s| >= 1
  {
    match data
    case NotFound => Varint(0)
    case Found => Varint(1)
    case FoundCollection(total) => Varint(2) + Varint(total)
  }

  function EncodeResponse(m: Response): (s: seq<byte>)
    ensures |s| >= 2
  {
    Varint(m.id) + EncodeRes(m.data)
  }

  function DecodeRes(s: seq<byte>): (r: Option<Res>)
    ensures r.Some? ==> s != []
  {
    var (variant, rest) :- TakeU32(s);
    match variant
    case 0 => Some(NotFound)
    case 1 => Some(Found)
    case 2 =>
      var (total, _) :- TakeU64(rest);
      Some(FoundCollection(total))
    case _ => None
  }

  function DecodeResponse(s: seq<byte>): (r: Option<Response>)
    ensures r.Some? ==> |s| >= 2
  {
    var (id, rest) :- TakeU64(s);
    var data :- DecodeRes(rest);
    Some(Response(id, data))
  }

  lemma HandshakeRoundTrip(m: Handshake, rest: seq<byte>)
    ensures DecodeHandshake(EncodeHandshake(m) + rest) == Some(m)
  {
    assert EncodeHandshake(m) + rest == Varint(m.version) + (m.token + rest);
    IntegersRoundTrip(m.version, m.token + rest);
    TakeRawOf(m.token, rest);
  }

  lemma RequestRoundTrip(m: Request, rest: seq<byte>)
    ensures DecodeRequest(EncodeRequest(m) + rest) == Some(m)
  {
    assert EncodeRequest(m) + rest == Varint(m.id) + (PutBytes(m.name) + rest);
    IntegersRoundTrip(m.id, PutBytes(m.name) + rest);
    TakeHashOf(m.name, rest);
  }

  lemma ResponseRoundTrip(m: Response, rest: seq<byte>)
    ensures DecodeResponse(EncodeResponse(m) + rest) == Some(m)
  {
    assert EncodeResponse(m) + rest == Varint(m.id) + (EncodeRes(m.data) + rest);
    IntegersRoundTrip(m.id, EncodeRes(m.data) + rest);
    ResRoundTrip(m.data, rest);
  }

  lemma ResRoundTrip(data: Res, rest: seq<byte>)
    ensures DecodeRes(EncodeRes(data) + rest) == Some(data)
  {
    match data
    case NotFound =>
      IntegersRoundTrip(0, rest);
    case Found =>
      IntegersRoundTrip(1, rest);
    case FoundCollection(total) =>
      assert EncodeRes(data) + rest == Varint(2) + (Varint(total) + rest);
      IntegersRoundTrip(2, Varint(total) + rest);
      IntegersRoundTrip(total, rest);
  }

  // ---- what is on the wire ----

  /** A client's two messages byte by byte. */
  lemma EncodedRequest(token: Hash, hash: Hash)
    ensures EncodeHandshake(Handshake(VERSION, token)) == [1] + token
    ensures EncodeRequest(Request(1, hash)) == [1, 32] + hash
  {
    assert PutBytes(hash) == [32] + hash;
  }

  /** A response is its id, the number of its variant, which is 0, 1 or 2, and the total if it has one. */
  lemma EncodedResponses(id: u64, total: u64)
    ensures EncodeResponse(Response(id, NotFound)) == Varint(id) + [0]
    ensures EncodeResponse(Response(id, Found)) == Varint(id) + [1]
    ensures EncodeResponse(Response(id, FoundCollection(total))) == Varint(id) + [2] + Varint(total)
  {
    hide Varint;
    SmallVarint(0);
    SmallVarint(1);
    SmallVarint(2);
    assert Varint(id) + ([2] + Varint(total)) == Varint(id) + [2] + Varint(total);
  }

  /** A response is told by the number of its variant, and there are no others. */
  lemma VariantsTold(s: seq<byte>)
    ensures var variant := TakeU32(s);
            && (DecodeRes(s) == Some(NotFound) <==> variant.Some? && variant.value.0 == 0)
            && (DecodeRes(s) == Some(Found) <==> variant.Some? && variant.value.0 == 1)
            && (forall total :: DecodeRes(s) == Some(FoundCollection(total))
                                <==> variant.Some? && variant.value.0 == 2 && TakeU64(variant.value.1).Some?
                                     && TakeU64(variant.value.1).value.0 == total)
  {
  }

  // ---- declared sizes ----

  /** The declared maximum sizes of the two messages a client sends; a hash is declared as 32 bytes. */
  const HANDSHAKE_MAX_SIZE: nat := 10 + 32
  const REQUEST_MAX_SIZE: nat := 10 + 32

  /** A handshake always fits the declared size; a request does exactly when its id leaves room
      for the length byte that the hash's encoding has and its declared size forgets. */
  lemma DeclaredSizes(h: Handshake, r: Request)
    ensures |EncodeHandshake(h)| <= HANDSHAKE_MAX_SIZE
    ensures |EncodeRequest(r)| <= REQUEST_MAX_SIZE <==> r.id < 0x8000_0000_0000_0000
  {
    VarintLength(h.version);
    VarintLength(r.id);
    TakeHashOf(r.name, []);
  }

  /** A response fits the 1024-byte buffer it is written into. */
  lemma ResponseFits(m: Response)
    ensures 2 <= |EncodeResponse(m)| <= 21
  {
    VarintLength(m.id);
    VarintLength(0);
    VarintLength(1);
    VarintLength(2);
    if m.data.FoundCollection? {
      VarintLength(m.data.totalBlobsSize);
    }
  }
}
