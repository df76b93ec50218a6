/** The client as a machine of small steps, the size of each read and write being up to the outside. */
module Getter {
  import opened Base
  import opened Streams
  import opened Protocol
  import opened Messages
  import opened Blobs
  import opened Bao
  import opened Get
  import opened Task

  /** How a client ends; `extra` says that a run ended well with bytes left on the stream, which it reports. */
  datatype Verdict = Verdict(result: Outcome<u64>, session: Session, extra: bool)

  /** Where a client is; `acc` holds what it has read of the current frame, header or encoded content, and
      `left` is how far a stream that its callback gave back with a failed decoder is still to be passed over. */
  datatype Phase =
    | Sending(pending: seq<byte>)
    | Responding(acc: seq<byte>)
    | Collecting(total: u64, acc: seq<byte>)
    | BlobResponding(st: Session, acc: seq<byte>)
    | Sizing(st: Session, acc: seq<byte>)
    | Receiving(st: Session, size: u64, acc: seq<byte>)
    | Skipping(st: Session, left: nat)
    | Finishing(st: Session)
    | Done(verdict: Verdict)

  predicate Reads(p: Phase) {
    p.Responding? || p.Collecting? || p.BlobResponding? || p.Sizing? || p.Receiving? || p.Skipping?
  }

  /** How many bytes are missing to the next check of the current item; 0 when it is decided. */
  function Needs(hs: Hasher, hash: Hash, cbs: Callbacks, p: Phase): nat {
    match p
    case Responding(acc) => FrameWants(acc)
    case BlobResponding(_, acc) => FrameWants(acc)
    case Collecting(_, acc) => var d := Decode(hs, hash, acc); if d.status.Short? then d.status.missing else 0
    case Sizing(_, acc) => if |acc| < 8 then 8 - |acc| else 0
    case Receiving(st, size, acc) =>
      if st.todo == [] then 0
      else
        var d := DecodeTree(hs, st.todo[0].hash, size, 0, true, acc);
        if d.status.Short? && !Settled(cbs, st, d.data) then d.status.missing else 0
    case Skipping(_, left) => left
    case _ => 0
  }

  /** The callback for the next blob does not wait for more than this content. */
  predicate Settled(cbs: Callbacks, st: Session, content: seq<byte>) {
    match cbs.onBlob(|st.delivered|)
    case Refuse => true
    case Drain => false
    case Take(limit, _) => |content| > limit
  }

  function FeedClient(p: Phase, c: seq<byte>): Phase {
    match p
    case Responding(acc) => Responding(acc + c)
    case Collecting(total, acc) => Collecting(total, acc + c)
    case BlobResponding(st, acc) => BlobResponding(st, acc + c)
    case Sizing(st, acc) => Sizing(st, acc + c)
    case Receiving(st, size, acc) => Receiving(st, size, acc + c)
    case Skipping(st, left) => if |c| <= left then Skipping(st, left - |c|) else p
    case _ => p
  }

  function Fails(e: Error, st: Session): Phase {
    Done(Verdict(Err(e), st, false))
  }

  /** The top of the loop over the blobs. */
  function NextItem(st: Session): Phase {
    if st.todo == [] then Finishing(st) else BlobResponding(st, [])
  }

  /** The current item is decided. */
  function AdvanceClient(hs: Hasher, hash: Hash, cbs: Callbacks, p: Phase): Phase
    requires Reads(p) && Needs(hs, hash, cbs, p) == 0
  {
    match p
    case Responding(acc) =>
      (match DecodeResponse(acc[8..])
       case None => Fails(Malformed, NOTHING)
       case Some(Response(_, NotFound)) => Fails(DataNotFound, NOTHING)
       case Some(Response(_, Found)) => Fails(UnexpectedMessage, NOTHING)
       case Some(Response(_, FoundCollection(total))) =>
         if total > MAX_DATA_SIZE then Fails(SizeTooLarge, NOTHING) else Collecting(total, []))
    case Collecting(total, acc) =>
      var d := Decode(hs, hash, acc);
      if !d.status.Complete? then Fails(VerificationFailed, NOTHING)
      else (match DecodeCollection(d.data)
            case None => Fails(Malformed, NOTHING)
            case Some(c) =>
              if !cbs.onCollection(c) then Fails(CallbackFailed, NOTHING)
              else NextItem(Session(d.data, total, total, c.blobs, [])))
    case BlobResponding(st, acc) =>
      (match DecodeResponse(acc[8..])
       case None => Fails(Malformed, st)
       case Some(Response(_, FoundCollection(_))) => Fails(UnexpectedMessage, st)
       case Some(Response(_, NotFound)) => Fails(DataNotFound, st)
       case Some(Response(_, Found)) => Sizing(st, []))
    case Sizing(st, acc) =>
      var size := U64OfLe(acc[..8]);
      if size > MAX_DATA_SIZE then Fails(SizeTooLarge, st)
      else if size > st.remaining then Fails(MoreThanAnnounced, st)
      else Receiving(st.(remaining := st.remaining - size), size, [])
    case Receiving(st, size, acc) =>
      if st.todo == [] then Finishing(st)
      else
        BlobDecided(cbs, st, DecodeTree(hs, st.todo[0].hash, size, 0, true, acc))
    case Skipping(st, _) => NextItem(st)
  }

  /** What a decided blob leads to. */
  function BlobDecided(cbs: Callbacks, st: Session, d: Decoded): Phase
    requires st.todo != []
  {
    var next := Handed(st, d.data).(todo := st.todo[1..]);
    match cbs.onBlob(|st.delivered|)
    case Refuse => Fails(CallbackFailed, Handed(st, []))
    case Drain => if d.status.Complete? then NextItem(next) else Fails(VerificationFailed, Handed(st, d.data))
    case Take(limit, stray) =>
      if limit < |d.data| then Fails(NotFullyRead, Handed(st, d.data[..limit]))
      else if d.status.Complete? then NextItem(next)
      else Skipping(next, stray)
  }

  /** The stream ends while the client waits for more. */
  function ClientAtEnd(hs: Hasher, hash: Hash, cbs: Callbacks, p: Phase, ending: Ending): Phase
    requires (Reads(p) && Needs(hs, hash, cbs, p) > 0) || p.Finishing?
  {
    var e := if ending.Lost? then IoFailed else UnexpectedEof;
    match p
    case Responding(acc) => CutOffFrame(acc, e, NOTHING)
    case Collecting(_, _) => Fails(e, NOTHING)
    case BlobResponding(st, acc) => CutOffFrame(acc, e, st)
    case Sizing(st, _) => Fails(e, st)
    case Receiving(st, size, acc) =>
      var d := DecodeTree(hs, st.todo[0].hash, size, 0, true, acc);
      if cbs.onBlob(|st.delivered|).Drain? then Fails(e, Handed(st, d.data))
      else NextItem(Handed(st, d.data).(todo := st.todo[1..]))
    case Skipping(st, _) => NextItem(st)
    case Finishing(st) => if ending.Lost? then Fails(IoFailed, st) else EndsWell(st, false)
  }

  /** A frame whose body is cut off by a clean end makes its reader panic. */
  function CutOffFrame(acc: seq<byte>, e: Error, st: Session): Phase {
    Done(Verdict(if |acc| >= 8 && e == UnexpectedEof then Panic else Err(e), st, false))
  }

  /** The end of a run that ends well; data still on the stream is only reported. */
  function EndsWell(st: Session, extra: bool): Phase {
    Done(Verdict(Ok(st.total), st, extra))
  }

  // ---- where a client is heading ----

  function VerdictOf(run: ClientRun): Verdict {
    Verdict(run.result, run.session, run.result.Ok? && run.rest.bytes != [])
  }

  /** What the client will conclude if exactly this is still to come. */
  function Meaning(hs: Hasher, hash: Hash, cbs: Callbacks, p: Phase, s: Input): Verdict
    requires Tidy(hs, hash, cbs, p)
  {
    match p
    case Sending(_) => VerdictOf(ReadResponse(hs, hash, cbs, s))
    case Responding(acc) => VerdictOf(ReadResponse(hs, hash, cbs, After(acc, s)))
    case Collecting(total, acc) => VerdictOf(ReadCollection(hs, hash, cbs, total, After(acc, s)))
    case BlobResponding(st, acc) => VerdictOf(ReadBlobResponse(hs, cbs, st, After(acc, s)))
    case Sizing(st, acc) => VerdictOf(ReadBlobSize(hs, cbs, st, After(acc, s)))
    case Receiving(st, size, acc) => VerdictOf(ReadBlob(hs, cbs, st, size, After(acc, s)))
    case Skipping(st, left) => VerdictOf(ReadBlobs(hs, cbs, st, Behind(left, s)))
    case Finishing(st) =>
      if s.bytes == [] && s.ending.Lost? then Verdict(Err(IoFailed), st, false)
      else Verdict(Ok(st.total), st, s.bytes != [])
    case Done(verdict) => verdict
  }

  /** Some bytes and then what is still to come. */
  function After(acc: seq<byte>, s: Input): Input {
    Input(acc + s.bytes, s.ending)
  }

  /** Nothing beyond the current item has been read, and the loop's phases have a current blob. */
  predicate Tidy(hs: Hasher, hash: Hash, cbs: Callbacks, p: Phase) {
    match p
    case Responding(acc) => WithinFrame(acc)
    case Collecting(_, acc) => Decode(hs, hash, acc).rest == []
    case BlobResponding(st, acc) => st.todo != [] && WithinFrame(acc)
    case Sizing(st, acc) => st.todo != [] && |acc| <= 8
    case Receiving(st, size, acc) => st.todo != [] && DecodeTree(hs, st.todo[0].hash, size, 0, true, acc).rest == []
    case Finishing(st) => st.todo == []
    case _ => true
  }

  lemma FeedClientKeeps(hs: Hasher, hash: Hash, cbs: Callbacks, p: Phase, c: seq<byte>, s: Input)
    requires Tidy(hs, hash, cbs, p) && Reads(p) && |c| <= Needs(hs, hash, cbs, p)
    ensures Tidy(hs, hash, cbs, FeedClient(p, c))
    ensures Meaning(hs, hash, cbs, FeedClient(p, c), s) == Meaning(hs, hash, cbs, p, After(c, s))
  {
    hide ReadResponse, ReadCollection, ReadBlobResponse, ReadBlobSize, ReadBlob, Decode, DecodeTree, FrameWants;
    if !p.Skipping? {
      assert p.acc + c + s.bytes == p.acc + (c + s.bytes);
    }
    match p
    case Responding(acc) =>
      FeedFrame(acc, c);
    case BlobResponding(_, acc) =>
      FeedFrame(acc, c);
    case Collecting(_, acc) =>
      if Decode(hs, hash, acc).status.Short? {
        DecodeUses(hs, hash, acc, c);
      } else {
        assert acc + c == acc;
      }
    case Receiving(st, size, acc) =>
      if DecodeTree(hs, st.todo[0].hash, size, 0, true, acc).status.Short? {
        DecodeTreeUses(hs, st.todo[0].hash, size, 0, true, acc, c);
      } else {
        assert acc + c == acc;
      }
    case Sizing(_, _) =>
    case Skipping(_, left) =>
      PassedOver(left, c, s);
  }

  lemma PassedOver(left: nat, c: seq<byte>, s: Input)
    requires |c| <= left
    ensures Behind(left - |c|, s) == Behind(left, After(c, s))
  {
    if left <= |c + s.bytes| {
      assert (c + s.bytes)[left..] == s.bytes[left - |c|..];
    }
  }

  lemma FrameDecided(acc: seq<byte>, s: Input)
    requires WithinFrame(acc) && FrameWants(acc) == 0
    ensures LpSplit([], After(acc, s)) == LpRead(Ok(acc[8..]), [], s)
  {
    hide LpSplit, LpDecoded;
    CompleteFrame(acc);
    ReadWholeFrame<()>(acc[8..], s.bytes, s.ending, _ => None);
  }

  lemma NextItemMeans(hs: Hasher, hash: Hash, cbs: Callbacks, st: Session, s: Input)
    ensures Tidy(hs, hash, cbs, NextItem(st))
    ensures Meaning(hs, hash, cbs, NextItem(st), s) == VerdictOf(ReadBlobs(hs, cbs, st, s))
  {
    hide ReadBlobResponse, FrameWants, Decode, DecodeTree;
    assert [] + s.bytes == s.bytes;
  }

  lemma AdvanceClientKeeps(hs: Hasher, hash: Hash, cbs: Callbacks, p: Phase, s: Input)
    requires Tidy(hs, hash, cbs, p) && Reads(p) && Needs(hs, hash, cbs, p) == 0
    ensures Tidy(hs, hash, cbs, AdvanceClient(hs, hash, cbs, p))
    ensures Meaning(hs, hash, cbs, AdvanceClient(hs, hash, cbs, p), s) == Meaning(hs, hash, cbs, p, s)
  {
    match p
    case Responding(acc) => AdvanceResponding(hs, hash, cbs, acc, s);
    case Collecting(total, acc) => AdvanceCollecting(hs, hash, cbs, total, acc, s);
    case BlobResponding(st, acc) => AdvanceBlobResponding(hs, hash, cbs, st, acc, s);
    case Sizing(st, acc) => AdvanceSizing(hs, hash, cbs, st, acc, s);
    case Receiving(st, size, acc) => AdvanceReceiving(hs, hash, cbs, st, size, acc, s);
    case Skipping(st, _) => NextItemMeans(hs, hash, cbs, st, s);
  }

  lemma NothingRead(hs: Hasher, h: Hash, n: nat)
    ensures Decode(hs, h, []).rest == [] && DecodeTree(hs, h, n, 0, true, []).rest == []
  {
    NothingLeft(hs, h, n);
  }

  lemma AdvanceResponding(hs: Hasher, hash: Hash, cbs: Callbacks, acc: seq<byte>, s: Input)
    requires WithinFrame(acc) && FrameWants(acc) == 0
    ensures var p := Responding(acc);
            Tidy(hs, hash, cbs, AdvanceClient(hs, hash, cbs, p))
            && Meaning(hs, hash, cbs, AdvanceClient(hs, hash, cbs, p), s) == Meaning(hs, hash, cbs, p, s)
  {
    hide LpSplit, ReadCollection, Decode, DecodeTree, FrameWants, DecodeResponse, LeValue;
    FrameDecided(acc, s);
    NothingRead(hs, hash, 0);
    assert [] + s.bytes == s.bytes;
  }

  lemma AdvanceCollecting(hs: Hasher, hash: Hash, cbs: Callbacks, total: u64, acc: seq<byte>, s: Input)
    requires Tidy(hs, hash, cbs, Collecting(total, acc)) && Needs(hs, hash, cbs, Collecting(total, acc)) == 0
    ensures var p := Collecting(total, acc);
            Tidy(hs, hash, cbs, AdvanceClient(hs, hash, cbs, p))
            && Meaning(hs, hash, cbs, AdvanceClient(hs, hash, cbs, p), s) == Meaning(hs, hash, cbs, p, s)
  {
    hide ReadBlobs, Decode, DecodeTree, DecodeCollection, FrameWants, NextItem, WithinFrame, ReadBlobResponse,
         ReadBlobSize, ReadBlob, ReadResponse, LpSplit;
    if Decode(hs, hash, acc).status.Short? {
      assert acc + [] == acc;
      DecodeUses(hs, hash, acc, []);
    } else {
      var d := Decode(hs, hash, acc);
      DecodeExtends(hs, hash, acc, s.bytes);
      assert [] + s.bytes == s.bytes;
      if d.status.Complete? && DecodeCollection(d.data).Some? {
        NextItemMeans(hs, hash, cbs, Session(d.data, total, total, DecodeCollection(d.data).value.blobs, []), s);
      }
    }
  }

  lemma AdvanceBlobResponding(hs: Hasher, hash: Hash, cbs: Callbacks, st: Session, acc: seq<byte>, s: Input)
    requires st.todo != [] && WithinFrame(acc) && FrameWants(acc) == 0
    ensures var p := BlobResponding(st, acc);
            Tidy(hs, hash, cbs, AdvanceClient(hs, hash, cbs, p))
            && Meaning(hs, hash, cbs, AdvanceClient(hs, hash, cbs, p), s) == Meaning(hs, hash, cbs, p, s)
  {
    hide LpSplit, ReadBlobSize, Decode, DecodeTree, FrameWants, DecodeResponse, LeValue;
    FrameDecided(acc, s);
    assert [] + s.bytes == s.bytes;
  }

  lemma AdvanceSizing(hs: Hasher, hash: Hash, cbs: Callbacks, st: Session, acc: seq<byte>, s: Input)
    requires st.todo != [] && |acc| == 8
    ensures var p := Sizing(st, acc);
            Tidy(hs, hash, cbs, AdvanceClient(hs, hash, cbs, p))
            && Meaning(hs, hash, cbs, AdvanceClient(hs, hash, cbs, p), s) == Meaning(hs, hash, cbs, p, s)
  {
    hide ReadBlob, Decode, DecodeTree, LeValue;
    assert (acc + s.bytes)[..8] == acc && acc[..8] == acc && (acc + s.bytes)[8..] == s.bytes && [] + s.bytes == s.bytes;
    NothingRead(hs, st.todo[0].hash, U64OfLe(acc[..8]));
  }

  lemma AdvanceReceiving(hs: Hasher, hash: Hash, cbs: Callbacks, st: Session, size: u64, acc: seq<byte>, s: Input)
    requires Tidy(hs, hash, cbs, Receiving(st, size, acc)) && Needs(hs, hash, cbs, Receiving(st, size, acc)) == 0
    ensures var p := Receiving(st, size, acc);
            Tidy(hs, hash, cbs, AdvanceClient(hs, hash, cbs, p))
            && Meaning(hs, hash, cbs, AdvanceClient(hs, hash, cbs, p), s) == Meaning(hs, hash, cbs, p, s)
  {
    hide ReadBlobs, Decode, DecodeTree, NextItem, ReadResponse, ReadCollection, ReadBlobResponse, ReadBlobSize,
         FrameWants, WithinFrame, DecodeResponse;
    ReceivingDecided(hs, hash, cbs, st, size, acc);
    var h := st.todo[0].hash;
    var d := DecodeTree(hs, h, size, 0, true, acc);
    DecodeTreeGrows(hs, h, size, 0, true, acc, s.bytes);
    if !d.status.Short? {
      DecodeTreeExtends(hs, h, size, 0, true, acc, s.bytes);
    }
    assert [] + s.bytes == s.bytes;
    var cb := cbs.onBlob(|st.delivered|);
    if cb.Take? && cb.limit < |d.data| {
      assert DecodeTree(hs, h, size, 0, true, acc + s.bytes).data[..cb.limit] == d.data[..cb.limit];
    }
    NextItemMeans(hs, hash, cbs, Handed(st, d.data).(todo := st.todo[1..]), s);
  }

  lemma ReceivingDecided(hs: Hasher, hash: Hash, cbs: Callbacks, st: Session, size: u64, acc: seq<byte>)
    requires Tidy(hs, hash, cbs, Receiving(st, size, acc)) && Needs(hs, hash, cbs, Receiving(st, size, acc)) == 0
    ensures var d := DecodeTree(hs, st.todo[0].hash, size, 0, true, acc);
            d.status.Short? ==> Settled(cbs, st, d.data)
  {
    hide DecodeTree, Decode;
    if DecodeTree(hs, st.todo[0].hash, size, 0, true, acc).status.Short? {
      DecodeTreeUses(hs, st.todo[0].hash, size, 0, true, acc, []);
    }
  }

  lemma ClientEndKeeps(hs: Hasher, hash: Hash, cbs: Callbacks, p: Phase, ending: Ending)
    requires Tidy(hs, hash, cbs, p) && ((Reads(p) && Needs(hs, hash, cbs, p) > 0) || p.Finishing?)
    ensures Tidy(hs, hash, cbs, ClientAtEnd(hs, hash, cbs, p, ending))
    ensures Meaning(hs, hash, cbs, ClientAtEnd(hs, hash, cbs, p, ending), Input([], ending))
         == Meaning(hs, hash, cbs, p, Input([], ending))
  {
    hide Decode, DecodeTree, LeValue, DecodeResponse, ReadBlobs, NextItem, LpSplit, ReadBlob,
         FrameWants, WithinFrame;
    match p
    case Responding(acc) => FrameEnds(acc, ending);
    case BlobResponding(_, acc) => FrameEnds(acc, ending);
    case Receiving(st, size, acc) => ReceivingEnds(hs, hash, cbs, st, size, acc, ending);
    case Collecting(_, acc) => assert acc + [] == acc;
    case Sizing(_, acc) => assert acc + [] == acc;
    case Skipping(st, _) => NextItemMeans(hs, hash, cbs, st, Input([], ending));
    case Finishing(_) =>
  }

  /** What the readers make of a frame that the input ends in. */
  lemma FrameEnds(acc: seq<byte>, ending: Ending)
    requires WithinFrame(acc) && FrameWants(acc) > 0
    ensures LpSplit([], After(acc, Input([], ending))).result
         == if |acc| >= 8 && ending.Finished? then Panic else Err(if ending.Lost? then IoFailed else UnexpectedEof)
  {
    hide LeValue;
    assert acc + [] == acc;
  }

  lemma ReceivingEnds(hs: Hasher, hash: Hash, cbs: Callbacks, st: Session, size: u64, acc: seq<byte>, ending: Ending)
    requires Tidy(hs, hash, cbs, Receiving(st, size, acc)) && Needs(hs, hash, cbs, Receiving(st, size, acc)) > 0
    ensures var p := Receiving(st, size, acc);
            var q := ClientAtEnd(hs, hash, cbs, p, ending);
            && Tidy(hs, hash, cbs, q)
            && Meaning(hs, hash, cbs, q, Input([], ending)) == Meaning(hs, hash, cbs, p, Input([], ending))
  {
    hide Decode, DecodeTree, ReadBlobs, NextItem, ReadResponse, ReadCollection, ReadBlobResponse, ReadBlobSize,
         FrameWants, WithinFrame;
    var d := DecodeTree(hs, st.todo[0].hash, size, 0, true, acc);
    assert acc + [] == acc;
    NextItemMeans(hs, hash, cbs, Handed(st, d.data).(todo := st.todo[1..]), Input([], ending));
  }
}
