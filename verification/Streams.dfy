/**
 The two halves of a transport stream and the growable byte buffer.  A stream is a reliable ordered
 byte sequence: the receiving half sees some bytes and then either a clean end or a lost connection;
 the sending half takes bytes until the peer stops it.
 */
module Streams {
  import opened Base

  datatype Ending = Finished | Lost

  /** All that a receiving half will still deliver. */
  datatype Input = Input(bytes: seq<byte>, ending: Ending)

  class BytesMut {
    var data: seq<byte>

    constructor (data: seq<byte>)
      ensures this.data == data
    {
      this.data := data;
    }
  }

  class RecvStream {
    var rest: seq<byte>
    const ending: Ending

    constructor (input: Input)
      ensures Pending() == input
    {
      rest, ending := input.bytes, input.ending;
    }

    function Pending(): Input
      reads this
    {
      Input(rest, ending)
    }

    /** One read of at most `limit` bytes; how many arrive is up to the network. */
    method Read(limit: nat) returns (r: Outcome<seq<byte>>)
      modifies this
      ensures r.Ok? ==> old(rest) == r.value + rest && |r.value| <= limit
      ensures r.Ok? && r.value == [] ==> limit == 0 || (rest == [] && ending.Finished?)
      ensures !r.Ok? ==> r == Err(IoFailed) && limit > 0 && old(rest) == rest == [] && ending.Lost?
    {
      if limit == 0 {
        return Ok([]);
      }
      if rest == [] {
        return if ending.Finished? then Ok([]) else Err(IoFailed);
      }
      var n :| 1 <= n <= limit && n <= |rest|;
      r := Ok(rest[..n]);
      rest := rest[n..];
    }

    /** Reads until `n` bytes have arrived; whatever came before a premature end is gone. */
    method ReadExact(n: nat) returns (r: Outcome<seq<byte>>)
      modifies this
      ensures r == Exactly(n, old(Pending()))
      ensures rest == old(rest)[|Available(n, old(Pending()))|..]
    {
      var got: seq<byte> := [];
      while |got| != n
        invariant |got| <= n && old(rest) == got + rest
        decreases n - |got|
      {
        var chunk := Read(n - |got|);
        if !chunk.Ok? {
          return Err(IoFailed);
        }
        got := got + chunk.value;
        if chunk.value == [] {
          return Err(UnexpectedEof);
        }
      }
      assert got == old(rest)[..n];
      return Ok(got);
    }

    /** `read_chunk`: nothing at a clean end, otherwise up to `limit` bytes. */
    method ReadChunk(limit: nat) returns (r: Outcome<Option<seq<byte>>>)
      requires limit > 0
      modifies this
      ensures match r
              case Ok(None) => old(rest) == rest == [] && ending.Finished?
              case Ok(Some(chunk)) => chunk != [] && old(rest) == chunk + rest
              case Err(e) => e == IoFailed && old(rest) == rest == [] && ending.Lost?
              case Panic => false
    {
      var chunk := Read(limit);
      match chunk
      case Ok(bytes) => r := Ok(if bytes == [] then None else Some(bytes));
      case Err(e) => r := Err(e);
      case Panic => r := Panic;
    }
  }

  /** What arrives when `n` bytes are asked for. */
  function Available(n: nat, s: Input): (b: seq<byte>)
    ensures b <= s.bytes && |b| <= n
    ensures |b| == n <==> |s.bytes| >= n
  {
    if |s.bytes| >= n then s.bytes[..n] else s.bytes
  }

  function Exactly(n: nat, s: Input): Outcome<seq<byte>> {
    if |s.bytes| >= n then Ok(s.bytes[..n])
    else if s.ending.Lost? then Err(IoFailed)
    else Err(UnexpectedEof)
  }

  /** What is left behind `n` bytes. */
  function Behind(n: nat, s: Input): Input {
    Input(s.bytes[|Available(n, s)|..], s.ending)
  }

  // ---- sending ----

  /** The part of some output that a peer takes which stops the stream after `quota` bytes. */
  function Cut(quota: Option<nat>, bytes: seq<byte>): (b: seq<byte>)
    ensures b <= bytes
  {
    if Fits(quota, bytes) then bytes else bytes[..quota.value]
  }

  predicate Fits(quota: Option<nat>, bytes: seq<byte>) {
    quota.None? || |bytes| <= quota.value
  }

  /** Sending on after a failure changes nothing. */
  lemma CutMore(quota: Option<nat>, bytes: seq<byte>, more: seq<byte>)
    ensures !Fits(quota, bytes) ==> !Fits(quota, bytes + more) && Cut(quota, bytes + more) == Cut(quota, bytes)
    ensures Fits(quota, bytes + more) ==> Fits(quota, bytes)
  {
  }

  class SendStream {
    var sent: seq<byte>
    var finished: bool
    const quota: Option<nat>  // after how many bytes the peer stops the stream, if it does
    const burst: nat          // how much a single write can accept

    ghost predicate Valid()
      reads this
    {
      burst >= 1 && Fits(quota, sent)
    }

    constructor (quota: Option<nat>, burst: nat)
      requires burst >= 1
      ensures Valid() && sent == [] && !finished && this.quota == quota && this.burst == burst
    {
      sent, finished := [], false;
      this.quota, this.burst := quota, burst;
    }

    method WriteAll(data: seq<byte>) returns (ok: bool)
      requires Valid()
      modifies this
      ensures Valid() && finished == old(finished)
      ensures sent == Cut(quota, old(sent) + data)
      ensures ok <==> Fits(quota, old(sent) + data)
    {
      ok := Fits(quota, sent + data);
      sent := Cut(quota, sent + data);
    }

    /** A single write: it accepts what there is room for and reports success; the caller is not told
        by this model how much that was, as the program does not look. */
    method WriteSome(data: seq<byte>) returns (ok: bool)
      requires Valid()
      modifies this
      ensures Valid() && finished == old(finished)
      ensures sent == Cut(quota, old(sent) + Accepted(burst, data))
      ensures data != [] && quota.Some? && |old(sent)| == quota.value <==> !ok
    {
      if data != [] && quota.Some? && |sent| == quota.value {
        return false;
      }
      sent := Cut(quota, sent + Accepted(burst, data));
      ok := true;
    }

    method Finish() returns (ok: bool)
      requires Valid()
      modifies this
      ensures Valid() && sent == old(sent)
      ensures ok <==> !(quota.Some? && |sent| == quota.value)
      ensures finished == (old(finished) || ok)
    {
      ok := !(quota.Some? && |sent| == quota.value);
      finished := finished || ok;
    }
  }

  /** What a single write accepts of some data. */
  function Accepted(burst: nat, data: seq<byte>): seq<byte> {
    if |data| <= burst then data else data[..burst]
  }
}
