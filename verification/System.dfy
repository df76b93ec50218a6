/**
 Client and provider joined by two byte channels.  Either side may move whenever it is not blocked, by
 any number of bytes that the other side and the window allow.  A client that is done may stop the
 provider's writes, and a provider that is gone may stop a client that still sends; what the client reads
 ends where the provider finishes the stream or goes.
 */
module System {
  import opened Base
  import opened Streams
  import opened Messages
  import Blobs
  import opened Bao
  import opened Database
  import opened Provider
  import opened Wire
  import opened Get
  import Integrity
  import opened EndToEnd
  import opened Transfer
  import opened Task
  import opened Interleaving
  import opened Getter

  /** What stays fixed: the provider's surroundings, what the client wants and how its callbacks
      read, how many bytes a channel holds
      before a full write has to wait, and how the client's stream ends if the provider's writer is dropped
      without being finished. */
  datatype Net = Net(env: Env, hs: Hasher, hash: Hash, token: Hash, cbs: Callbacks, window: nat, dropped: Ending)

  datatype World = World(client: Phase, up: seq<byte>, task: Task, down: seq<byte>)

  datatype Move = ClientMoves(n: nat) | ProviderMoves(n: nat) | ProviderStopped | ClientStopped

  function Begin(net: Net): World {
    World(Sending(ClientSends(net.token, net.hash)), [], NEW, [])
  }

  function Pending(p: Phase): seq<byte> {
    if p.Sending? then p.pending else []
  }

  /** The task has ended, and its reader and writer are dropped. */
  predicate Gone(t: Task) {
    t.pc.Stopped? || t.pc.Crashed?
  }

  /** No more bytes will come from this task. */
  predicate Ended(t: Task) {
    t.finished || Gone(t)
  }

  function EndSeen(net: Net, t: Task): Ending {
    if t.finished then Finished else net.dropped
  }

  /** How a client ends that was stopped while it was sending. */
  const INTERRUPTED: Verdict := Verdict(Err(IoFailed), NOTHING, false)

  // ---- the moves ----

  /** The client is not waiting for room to send in, nor for bytes or the end of the stream. */
  predicate ClientCan(net: Net, w: World) {
    match w.client
    case Sending(pending) => pending == [] || |w.up| < net.window
    case Done(_) => false
    case _ => (Reads(w.client) && Needs(net.hs, net.hash, net.cbs, w.client) == 0) || w.down != [] || Ended(w.task)
  }

  function ClientStep(net: Net, w: World, n: nat): World
    requires ClientCan(net, w)
  {
    match w.client
    case Sending(pending) =>
      if pending == [] then w.(client := Responding([]))
      else
        var k := Within(n, Min(|pending|, net.window - |w.up|));
        w.(client := Sending(pending[k..]), up := w.up + pending[..k])
    case Finishing(st) =>
      if w.down != [] then w.(client := EndsWell(st, true))
      else w.(client := ClientAtEnd(net.hs, net.hash, net.cbs, w.client, EndSeen(net, w.task)))
    case _ =>
      var needs := Needs(net.hs, net.hash, net.cbs, w.client);
      if needs == 0 then w.(client := AdvanceClient(net.hs, net.hash, net.cbs, w.client))
      else if w.down == [] then w.(client := ClientAtEnd(net.hs, net.hash, net.cbs, w.client, EndSeen(net, w.task)))
      else
        var k := Within(n, Min(needs, |w.down|));
        w.(client := FeedClient(w.client, w.down[..k]), down := w.down[k..])
  }

  /** The provider has not stopped and is not waiting for bytes, the end of the input, or room to write in. */
  predicate ProviderCan(net: Net, w: World) {
    || CanAdvance(net.env, w.task)
    || ((IsReading(w.task) || w.task.pc.Checking?) && (w.up != [] || !w.client.Sending?))
    || (Writes(net.env, w.task) && (Unwritten(net.env, w.task) == [] || |w.down| < net.window))
  }

  function Room(net: Net, w: World, n: nat): nat {
    if Unwritten(net.env, w.task) != [] && |w.down| < net.window
    then Within(n, Min(|Unwritten(net.env, w.task)|, net.window - |w.down|)) else n
  }

  function ProviderStep(net: Net, w: World, n: nat): World
    requires ProviderCan(net, w)
  {
    var y := Step(net.env, Live(w.task, Input(w.up, Finished)), Choice(Room(net, w, n), false));
    World(w.client, y.input.bytes, y.task, w.down + New(w.task.sent, y.task.sent))
  }

  function New(before: seq<byte>, after: seq<byte>): seq<byte> {
    if |before| <= |after| then after[|before|..] else []
  }

  predicate StopCan(net: Net, w: World) {
    w.client.Done? && Writes(net.env, w.task)
  }

  /** A provider that is gone reads no more of what a client sends. */
  predicate InterruptCan(w: World) {
    w.client.Sending? && Gone(w.task)
  }

  predicate Enabled(net: Net, w: World, m: Move) {
    match m
    case ClientMoves(_) => ClientCan(net, w)
    case ProviderMoves(_) => ProviderCan(net, w)
    case ProviderStopped => StopCan(net, w)
    case ClientStopped => InterruptCan(w)
  }

  function Apply(net: Net, w: World, m: Move): World
    requires Enabled(net, w, m)
  {
    match m
    case ClientMoves(n) => ClientStep(net, w, n)
    case ProviderMoves(n) => ProviderStep(net, w, n)
    case ProviderStopped => w.(task := Lose(net.env, w.task))
    case ClientStopped => w.(client := Done(INTERRUPTED))
  }

  predicate Final(w: World) {
    w.client.Done? && Gone(w.task)
  }

  // ---- where the two are heading ----

  /** Everything that the client sends. */
  function Uploaded(net: Net): Input {
    Input(ClientSends(net.token, net.hash), Finished)
  }

  /** The end of the provider's task if nothing is lost. */
  function Ends(net: Net): Fate {
    FateOf(net.env, NEW, Uploaded(net))
  }

  function LastEnding(net: Net): Ending {
    if Ends(net).finished then Finished else net.dropped
  }

  /** What the client makes of everything that the provider writes to that end. */
  function Conclusion(net: Net): Verdict {
    VerdictOf(ReadResponse(net.hs, net.hash, net.cbs, Input(Ends(net).sent, LastEnding(net))))
  }

  /** What is still to come to a client in a world. */
  function ToCome(net: Net, w: World): Input
    requires w.task.sent <= Ends(net).sent
  {
    Input(w.down + Ends(net).sent[|w.task.sent|..], LastEnding(net))
  }

  predicate OnTrack(net: Net, w: World) {
    Orderly(net.env, w.task) && FateOf(net.env, w.task, Input(w.up + Pending(w.client), Finished)) == Ends(net)
  }

  /** The provider's writes were stopped by a client that is done; it reported an aborted transfer. */
  predicate CutOff(net: Net, w: World) {
    w.client.Done? && Aborted(net.env, Live(w.task, Input([], Finished)), Uploaded(net))
  }

  /** The client was stopped while it was sending, by a provider that had gone. */
  predicate Interrupted(net: Net, w: World) {
    w.client == Done(INTERRUPTED) && Gone(w.task) && !w.task.finished && w.task.sent == [] && OnTrack(net, w)
  }

  /** The client came to its end well with nothing left on the stream. */
  predicate CleanSuccess(p: Phase) {
    p.Done? && p.verdict.result.Ok? && !p.verdict.extra
  }

  predicate Inv(net: Net, w: World) {
    && Tidy(net.hs, net.hash, net.cbs, w.client) && w.task.sent <= Ends(net).sent
    && (Meaning(net.hs, net.hash, net.cbs, w.client, ToCome(net, w)) == Conclusion(net) || Interrupted(net, w))
    && Logged(net.env, w.task) && (OnTrack(net, w) || CutOff(net, w)) && Closing(net.env, w.task)
    && (w.task.finished ==> w.task.sent == Ends(net).sent)
    && (w.task.pc.Acting? || w.task.finished || w.task.sent != [] ==> !w.client.Sending?)
    && (CleanSuccess(w.client) ==> Ended(w.task) && OnTrack(net, w))
  }

  // ---- every move keeps the invariant ----

  /** Bytes that are still on their way to the channel make no difference to a step that need not wait. */
  lemma StepAhead(env: Env, t: Task, up: seq<byte>, pending: seq<byte>, n: nat)
    requires (IsReading(t) || t.pc.Checking?) && !CanAdvance(env, t) ==> up != [] || pending == []
    ensures var y := Step(env, Live(t, Input(up, Finished)), Choice(n, false));
            var k := if IsReading(t) && up != [] && Wants(t) > 0 then Within(n, Min(Wants(t), |up|)) else n;
            Step(env, Live(t, Input(up + pending, Finished)), Choice(k, false))
            == Live(y.task, Input(y.input.bytes + pending, Finished))
  {
    hide Advance, AtEnd, Reject, Write, Writes, Unwritten, FrameWants, ScriptOf;
    if !CanAdvance(env, t) && IsReading(t) && up != [] && Wants(t) > 0 {
      var k := Within(n, Min(Wants(t), |up|));
      assert (up + pending)[..k] == up[..k] && (up + pending)[k..] == up[k..] + pending;
    } else if !CanAdvance(env, t) && (IsReading(t) || t.pc.Checking?) && up == [] {
      assert up + pending == [];
    }
  }

  lemma ProviderTracks(net: Net, w: World, n: nat)
    requires ProviderCan(net, w) && OnTrack(net, w)
    ensures OnTrack(net, ProviderStep(net, w, n))
  {
    hide FateOf, ScriptOf, FrameWants, Orderly, Step, ClientSends, CanAdvance;
    var pending := Pending(w.client);
    var room := Room(net, w, n);
    var k := if IsReading(w.task) && w.up != [] && Wants(w.task) > 0
        then Within(room, Min(Wants(w.task), |w.up|)) else room;
    Waits(net, w);
    StepAhead(net.env, w.task, w.up, pending, room);
    StepKeepsFate(net.env, Live(w.task, Input(w.up + pending, Finished)), Choice(k, false));
  }

  lemma Waits(net: Net, w: World)
    requires ProviderCan(net, w)
    ensures (IsReading(w.task) || w.task.pc.Checking?) && !CanAdvance(net.env, w.task) ==>
              w.up != [] || Pending(w.client) == []
  {
  }

  /** What is written passes to the channel, so the client's whole input is the same. */
  lemma SameWire(sent: seq<byte>, sent': seq<byte>, all: seq<byte>, down: seq<byte>)
    requires sent <= sent' <= all
    ensures down + New(sent, sent') + all[|sent'|..] == down + all[|sent|..]
  {
    assert New(sent, sent') + all[|sent'|..] == all[|sent|..];
  }

  lemma StepSends(env: Env, x: Live, ch: Choice)
    requires Orderly(env, x.task)
    ensures x.task.sent <= Step(env, x, ch).task.sent
    ensures x.task.finished ==> Step(env, x, ch).task.finished
    ensures Step(env, x, ch).task.pc.Acting? ==>
              x.task.pc.Acting? || (x.task.pc.Checking? && x.input.bytes == [])
    ensures Step(env, x, ch).task.finished ==> x.task.finished || x.task.pc.Acting?
    ensures Step(env, x, ch).task.sent != [] ==> x.task.sent != [] || x.task.pc.Acting?
  {
    hide FrameWants, DecodeHandshake, DecodeRequest, ScriptOf, Unwritten;
  }

  lemma ProviderKeeps(net: Net, w: World, n: nat)
    requires Inv(net, w) && ProviderCan(net, w)
    ensures Inv(net, ProviderStep(net, w, n))
  {
    hide FateOf, ScriptOf, FrameWants, Orderly, Step, Uploaded, Logged, Closing, Meaning, Tidy, Conclusion, LastEnding,
         Answered, CleanSuccess;
    var x, ch := Live(w.task, Input(w.up, Finished)), Choice(Room(net, w, n), false);
    Moving(net, w);
    ProviderTracks(net, w, n);
    StepLogs(net.env, x, ch);
    StepCloses(net.env, x, ch);
    StepSends(net.env, x, ch);
    var w' := ProviderStep(net, w, n);
    FateExtends(net.env, w'.task, Input(w'.up + Pending(w'.client), Finished));
    SameWire(w.task.sent, w'.task.sent, Ends(net).sent, w.down);
  }

  lemma Moving(net: Net, w: World)
    requires ProviderCan(net, w)
    ensures !Gone(w.task)
    ensures w.task.pc.Checking? ==> w.up != [] || !w.client.Sending?
  {
  }

  /** How a client's reading goes on: it does not send again, and only ends well through `Finishing`. */
  lemma NextPhases(hs: Hasher, hash: Hash, cbs: Callbacks, p: Phase, ending: Ending)
    requires Reads(p)
    ensures Needs(hs, hash, cbs, p) == 0 ==>
              var q := AdvanceClient(hs, hash, cbs, p); !q.Sending? && (q.Done? ==> !q.verdict.result.Ok?)
    ensures Needs(hs, hash, cbs, p) > 0 ==>
              var q := ClientAtEnd(hs, hash, cbs, p, ending); !q.Sending? && (q.Done? ==> !q.verdict.result.Ok?)
  {
    hide Decode, DecodeTree, DecodeResponse, Blobs.DecodeCollection, LeValue;
  }

  /** Where the task is done with the stream, the client has been sent everything and sees the last ending. */
  lemma NothingToCome(net: Net, w: World)
    requires Inv(net, w) && Ended(w.task) && !w.client.Done?
    ensures Ends(net).sent[|w.task.sent|..] == [] && LastEnding(net) == EndSeen(net, w.task)
  {
    hide Meaning, Tidy, ScriptOf, Uploaded, Logged, Conclusion, Reading, RequestRead, Carried, Closing;
    FateExtends(net.env, w.task, Input(w.up + Pending(w.client), Finished));
  }

  /** A client's move keeps everything as long as it leads to the same verdict and sends no byte twice. */
  lemma ClientMoved(net: Net, w: World, w': World)
    requires Inv(net, w) && w' == w.(client := w'.client, up := w'.up, down := w'.down) && !w.client.Done?
    requires Tidy(net.hs, net.hash, net.cbs, w'.client)
    requires Meaning(net.hs, net.hash, net.cbs, w'.client, ToCome(net, w'))
        == Meaning(net.hs, net.hash, net.cbs, w.client, ToCome(net, w))
    requires w'.up + Pending(w'.client) == w.up + Pending(w.client)
    requires w'.client.Sending? ==> w.client.Sending?
    requires CleanSuccess(w'.client) ==> Ended(w.task)
    ensures Inv(net, w')
  {
    hide FateOf, Orderly, Uploaded, Logged, Closing, Aborted, Meaning, Tidy, Ends, LastEnding, Conclusion;
  }

  lemma ClientKeeps(net: Net, w: World, n: nat)
    requires Inv(net, w) && ClientCan(net, w)
    ensures Inv(net, ClientStep(net, w, n))
  {
    hide FateOf, Orderly, Uploaded, Logged, Closing, Aborted, Meaning, Tidy, AdvanceClient, Needs, ClientAtEnd, Ends,
         LastEnding, Conclusion, FeedClient, ReadResponse;
    var s := ToCome(net, w);
    if Ended(w.task) {
      NothingToCome(net, w);
    }
    if w.client.Sending? {
      var pending := w.client.pending;
      var k := if pending == [] then 0 else Within(n, Min(|pending|, net.window - |w.up|));
      SendingOn(net, pending, k, s);
      assert w.up + pending[..k] + pending[k..] == w.up + pending;
    } else if w.client.Finishing? {
      FinishingEnds(net, w.client.st, s, EndSeen(net, w.task));
    } else {
      NextPhases(net.hs, net.hash, net.cbs, w.client, EndSeen(net, w.task));
      ClientReadsOn(net, w, n, s);
    }
    ClientMoved(net, w, ClientStep(net, w, n));
  }

  lemma SendingOn(net: Net, pending: seq<byte>, k: nat, s: Input)
    ensures Tidy(net.hs, net.hash, net.cbs, Responding([]))
        && (k <= |pending| ==> Tidy(net.hs, net.hash, net.cbs, Sending(pending[k..])))
    ensures Meaning(net.hs, net.hash, net.cbs, Responding([]), s)
        == Meaning(net.hs, net.hash, net.cbs, Sending(pending), s)
    ensures k <= |pending| ==>
              Meaning(net.hs, net.hash, net.cbs, Sending(pending[k..]), s)
                == Meaning(net.hs, net.hash, net.cbs, Sending(pending), s)
  {
    hide ReadResponse, ReadCollection, ReadBlobResponse, ReadBlobSize, ReadBlob, Decode, DecodeTree;
    EmptyFrame();
    assert [] + s.bytes == s.bytes;
  }

  lemma FinishingEnds(net: Net, st: Session, s: Input, seen: Ending)
    requires Tidy(net.hs, net.hash, net.cbs, Finishing(st))
    ensures Tidy(net.hs, net.hash, net.cbs, EndsWell(st, true))
        && Tidy(net.hs, net.hash, net.cbs, ClientAtEnd(net.hs, net.hash, net.cbs, Finishing(st), seen))
    ensures ClientAtEnd(net.hs, net.hash, net.cbs, Finishing(st), seen).Done?
    ensures s.bytes != [] ==>
              Meaning(net.hs, net.hash, net.cbs, EndsWell(st, true), s)
                == Meaning(net.hs, net.hash, net.cbs, Finishing(st), s)
    ensures s == Input([], seen) ==>
              Meaning(net.hs, net.hash, net.cbs, ClientAtEnd(net.hs, net.hash, net.cbs, Finishing(st), seen), s)
              == Meaning(net.hs, net.hash, net.cbs, Finishing(st), s)
  {
  }

  lemma ClientReadsOn(net: Net, w: World, n: nat, s: Input)
    requires Tidy(net.hs, net.hash, net.cbs, w.client) && ClientCan(net, w) && Reads(w.client) && w.down <= s.bytes
    requires Ended(w.task) ==> s == Input(w.down, EndSeen(net, w.task))
    ensures var w' := ClientStep(net, w, n);
            && Tidy(net.hs, net.hash, net.cbs, w'.client) && |w'.down| <= |w.down|
            && Meaning(net.hs, net.hash, net.cbs, w'.client, s.(bytes := w'.down + s.bytes[|w.down|..]))
               == Meaning(net.hs, net.hash, net.cbs, w.client, s)
            && Pending(w'.client) == [] && !w'.client.Sending? && w'.up == w.up && w'.task == w.task
            && (w'.client.Done? ==> !w'.client.verdict.result.Ok?)
  {
    hide Meaning, Tidy, AdvanceClient, Needs, ClientAtEnd;
    NextPhases(net.hs, net.hash, net.cbs, w.client, EndSeen(net, w.task));
    var more := s.bytes[|w.down|..];
    assert w.down + more == s.bytes;
    var needs := Needs(net.hs, net.hash, net.cbs, w.client);
    if needs == 0 {
      AdvanceClientKeeps(net.hs, net.hash, net.cbs, w.client, s);
    } else if w.down == [] {
      ClientEndKeeps(net.hs, net.hash, net.cbs, w.client, EndSeen(net, w.task));
    } else {
      var k := Within(n, Min(needs, |w.down|));
      FeedClientKeeps(net.hs, net.hash, net.cbs, w.client, w.down[..k], s.(bytes := w.down[k..] + more));
      assert w.down[..k] + (w.down[k..] + more) == s.bytes;
    }
  }

  lemma BeginKeeps(net: Net)
    ensures Inv(net, Begin(net))
  {
    hide FateOf, ClientSends, ReadResponse;
    Begins(net.env);
    var pending := ClientSends(net.token, net.hash);
    FateExtends(net.env, NEW, Uploaded(net));
    assert [] + pending == pending && [] + Ends(net).sent[0..] == Ends(net).sent;
  }

  lemma StopKeeps(net: Net, w: World)
    requires Inv(net, w) && StopCan(net, w)
    ensures Inv(net, w.(task := Lose(net.env, w.task)))
  {
    hide Meaning, FateOf, ScriptOf, Orderly, Uploaded, Conclusion, LastEnding, LogAt, Tidy, Aborted;
    var x := Live(w.task, Input([], Finished));
    FateExtends(net.env, w.task, Input(w.up + Pending(w.client), Finished));
    StillWriting(net, w);
    LostIsAborted(net.env, x, Choice(0, true), Uploaded(net));
    StepLogs(net.env, x, Choice(0, true));
  }

  lemma StillWriting(net: Net, w: World)
    requires Inv(net, w) && Writes(net.env, w.task)
    ensures OnTrack(net, w) && !Ended(w.task) && !CanAdvance(net.env, w.task)
    ensures !CleanSuccess(w.client) && !Interrupted(net, w)
  {
    hide Meaning, FateOf, ScriptOf, Orderly, Uploaded, Conclusion, LastEnding, Tidy, Logged;
  }

  lemma InterruptKeeps(net: Net, w: World)
    requires Inv(net, w) && InterruptCan(w)
    ensures Inv(net, w.(client := Done(INTERRUPTED)))
  {
    hide Meaning, Uploaded, Conclusion, LastEnding, Logged, Closing, Reading, RequestRead, Carried, ScriptOf, Aborted;
    assert !w.client.Done?;
  }

  lemma MoveKeeps(net: Net, w: World, m: Move)
    requires Inv(net, w) && Enabled(net, w, m)
    ensures Inv(net, Apply(net, w, m))
  {
    hide Inv, ProviderStep, ClientStep;
    match m
    case ClientMoves(n) => ClientKeeps(net, w, n);
    case ProviderMoves(n) => ProviderKeeps(net, w, n);
    case ProviderStopped => StopKeeps(net, w);
    case ClientStopped => InterruptKeeps(net, w);
  }

  // ---- somebody can always move ----

  /** Unless both are done, at least one of them is not blocked. */
  lemma SomebodyCan(net: Net, w: World)
    requires Inv(net, w) && net.window >= 1 && !Final(w)
    ensures ClientCan(net, w) || ProviderCan(net, w) || StopCan(net, w) || InterruptCan(w)
  {
    hide Meaning, ScriptOf, Uploaded, Conclusion, LastEnding, FateOf, FrameWants, Unwritten, Needs, Closing, Logged;
  }

  // ---- every move comes nearer to the end ----

  /** Phase of the client, blobs it still waits for, position within a blob; phase of the provider,
      actions it has left, and bytes not sent (twice) or not read (once). */
  datatype Rank = Rank(phase: nat, todo: nat, spot: nat, stage: nat, actions: nat, bytes: nat)

  predicate Below(a: Rank, b: Rank) {
    if a.phase != b.phase then a.phase < b.phase
    else if a.todo != b.todo then a.todo < b.todo
    else if a.spot != b.spot then a.spot < b.spot
    else if a.stage != b.stage then a.stage < b.stage
    else if a.actions != b.actions then a.actions < b.actions
    else a.bytes < b.bytes
  }

  function ClientRank(p: Phase): (nat, nat, nat) {
    match p
    case Sending(_) => (4, 0, 0)
    case Responding(_) => (3, 0, 0)
    case Collecting(_, _) => (2, 0, 0)
    case BlobResponding(st, _) => (1, |st.todo|, 3)
    case Sizing(st, _) => (1, |st.todo|, 2)
    case Receiving(st, _, _) => (1, |st.todo|, 1)
    case Skipping(st, _) => (1, |st.todo|, 4)
    case Finishing(st) => (1, |st.todo|, 0)
    case Done(_) => (0, 0, 0)
  }

  function Stage(pc: Pc): nat {
    match pc
    case Connecting => 5
    case Greeting(_) => 4
    case Requesting(_) => 3
    case Checking(_) => 2
    case Acting(_, _, _) => 1
    case _ => 0
  }

  function ActionsLeft(env: Env, t: Task): nat {
    if t.pc.Acting? && t.pc.done < |ScriptOf(env, t.pc.request).actions|
    then |ScriptOf(env, t.pc.request).actions| - t.pc.done else 0
  }

  function RankOf(net: Net, w: World): Rank {
    var (phase, todo, spot) := ClientRank(w.client);
    Rank(phase, todo, spot, Stage(w.task.pc), ActionsLeft(net.env, w.task),
         2 * (|Pending(w.client)| + |Unwritten(net.env, w.task)|) + |w.up| + |w.down|)
  }

  predicate Nearer(a: (nat, nat, nat), b: (nat, nat, nat)) {
    if a.0 != b.0 then a.0 < b.0 else if a.1 != b.1 then a.1 < b.1 else a.2 < b.2
  }

  lemma PhasesDescend(hs: Hasher, hash: Hash, cbs: Callbacks, p: Phase, ending: Ending)
    requires Tidy(hs, hash, cbs, p) && Reads(p)
    ensures Needs(hs, hash, cbs, p) == 0 ==> Nearer(ClientRank(AdvanceClient(hs, hash, cbs, p)), ClientRank(p))
    ensures Needs(hs, hash, cbs, p) > 0 ==> Nearer(ClientRank(ClientAtEnd(hs, hash, cbs, p, ending)), ClientRank(p))
    ensures forall c :: ClientRank(FeedClient(p, c)) == ClientRank(p) && Pending(FeedClient(p, c)) == []
  {
    hide Decode, DecodeTree, DecodeResponse, Blobs.DecodeCollection, LeValue, FrameWants, ClientAtEnd, FeedClient,
         WithinFrame;
    FeedingKeepsRank(p);
    if Needs(hs, hash, cbs, p) > 0 {
      EndingDescends(hs, hash, cbs, p, ending);
    }
  }

  lemma FeedingKeepsRank(p: Phase)
    ensures forall c :: ClientRank(FeedClient(p, c)) == ClientRank(p) && Pending(FeedClient(p, c)) == Pending(p)
  {
  }

  lemma EndingDescends(hs: Hasher, hash: Hash, cbs: Callbacks, p: Phase, ending: Ending)
    requires Reads(p) && Needs(hs, hash, cbs, p) > 0
    ensures Nearer(ClientRank(ClientAtEnd(hs, hash, cbs, p, ending)), ClientRank(p))
  {
    hide Decode, DecodeTree, FrameWants;
  }

  lemma ClientDescends(net: Net, w: World, n: nat)
    requires Tidy(net.hs, net.hash, net.cbs, w.client) && ClientCan(net, w)
    ensures Below(RankOf(net, ClientStep(net, w, n)), RankOf(net, w))
  {
    hide Tidy, AdvanceClient, ClientAtEnd, FeedClient, Needs, ClientRank, ScriptOf, Unwritten, ActionsLeft;
    if Reads(w.client) {
      PhasesDescend(net.hs, net.hash, net.cbs, w.client, EndSeen(net, w.task));
    } else {
      SendingDescends(net, w.client, EndSeen(net, w.task));
    }
  }

  lemma SendingDescends(net: Net, p: Phase, ending: Ending)
    requires p.Sending? || p.Finishing?
    ensures Nearer(ClientRank(Responding([])), ClientRank(Sending([]))) && Pending(Responding([])) == []
    ensures p.Sending? ==> forall rest :: ClientRank(Sending(rest)) == ClientRank(p)
    ensures p.Sending? ==> Nearer(ClientRank(Done(INTERRUPTED)), ClientRank(p))
    ensures p.Finishing? ==> Nearer(ClientRank(EndsWell(p.st, true)), ClientRank(p))
                             && Nearer(ClientRank(ClientAtEnd(net.hs, net.hash, net.cbs, p, ending)), ClientRank(p))
  {
  }

  lemma ProviderDescends(net: Net, w: World, n: nat)
    requires Orderly(net.env, w.task) && ProviderCan(net, w)
    ensures Below(RankOf(net, ProviderStep(net, w, n)), RankOf(net, w))
  {
    hide DecodeHandshake, DecodeRequest, LeValue, FrameWants, ScriptOf, ClientRank;
  }

  lemma MoveDescends(net: Net, w: World, m: Move)
    requires Inv(net, w) && Enabled(net, w, m)
    ensures Below(RankOf(net, Apply(net, w, m)), RankOf(net, w))
  {
    hide Meaning, FateOf, ScriptOf, Orderly, Uploaded, Conclusion, LastEnding, ProviderStep, ClientStep, Unwritten,
         Tidy, Logged, RankOf, Closing, Answered;
    match m
    case ClientMoves(n) => ClientDescends(net, w, n);
    case ProviderMoves(n) =>
      Moving(net, w);
      ProviderDescends(net, w, n);
    case ProviderStopped => StopDescends(net, w);
    case ClientStopped => InterruptDescends(net, w);
  }

  lemma InterruptDescends(net: Net, w: World)
    requires InterruptCan(w)
    ensures Below(RankOf(net, w.(client := Done(INTERRUPTED))), RankOf(net, w))
  {
    hide ScriptOf, Unwritten, ActionsLeft;
  }

  lemma StopDescends(net: Net, w: World)
    requires StopCan(net, w)
    ensures Below(RankOf(net, w.(task := Lose(net.env, w.task))), RankOf(net, w))
  {
    hide ScriptOf, ClientRank, Unwritten, ActionsLeft;
  }

  // ---- every schedule ----

  /** Who may move when the scheduler's choice is blocked. */
  function Unblocked(net: Net, w: World): (m: Move)
    requires Inv(net, w) && net.window >= 1 && !Final(w)
    ensures Enabled(net, w, m)
  {
    SomebodyCan(net, w);
    if ClientCan(net, w) then ClientMoves(1) else if ProviderCan(net, w) then ProviderMoves(1)
    else if StopCan(net, w) then ProviderStopped else ClientStopped
  }

  /** Runs to the end under any scheduler, which chooses by the number of moves so far and the present
      state; that this function is total is the termination of every schedule. */
  function Settle(net: Net, w: World, pick: (nat, World) -> Move, moves: nat): (end: World)
    requires Inv(net, w) && net.window >= 1
    ensures Final(end) && Inv(net, end)
    decreases RankOf(net, w).phase, RankOf(net, w).todo, RankOf(net, w).spot, RankOf(net, w).stage,
              RankOf(net, w).actions, RankOf(net, w).bytes
  {
    if Final(w) then w
    else
      var m := if Enabled(net, w, pick(moves, w)) then pick(moves, w) else Unblocked(net, w);
      MoveKeeps(net, w, m);
      MoveDescends(net, w, m);
      Settle(net, Apply(net, w, m), pick, moves + 1)
  }

  /** The world after some moves; blocked ones are passed over. */
  function Play(net: Net, moves: seq<Move>): World {
    if moves == [] then Begin(net)
    else
      var w := Play(net, moves[..|moves| - 1]);
      if Enabled(net, w, moves[|moves| - 1]) then Apply(net, w, moves[|moves| - 1]) else w
  }

  lemma {:induction false} PlayKeeps(net: Net, moves: seq<Move>)
    ensures Inv(net, Play(net, moves))
  {
    hide Inv, Apply, Enabled;
    if moves == [] {
      BeginKeeps(net);
    } else {
      var n := |moves| - 1;
      PlayKeeps(net, moves[..n]);
      if Enabled(net, Play(net, moves[..n]), moves[n]) {
        MoveKeeps(net, Play(net, moves[..n]), moves[n]);
      }
    }
  }

  /** The provider answers the client's request to the end of the stream. */
  predicate Answers(net: Net) {
    Ends(net).finished
  }

  /** The provider writes nothing before it fails. */
  predicate Silent(net: Net) {
    !Answers(net) && Ends(net).sent == []
  }

  /** No reachable state is stuck before both sides are done, whatever the tokens, the database and the
      files; and a client that is done has come to the one verdict there is, unless it was stopped while
      sending by a provider that fails without an answer. */
  lemma NeverStuck(net: Net, moves: seq<Move>)
    requires net.window >= 1
    ensures var w := Play(net, moves);
            && (!Final(w) ==> exists m :: Enabled(net, w, m))
            && (w.client.Done? ==>
                  w.client.verdict == Conclusion(net) || (w.client.verdict == INTERRUPTED && Silent(net)))
  {
    hide Apply, Play, Enabled, Conclusion, Uploaded, Inv;
    PlayKeeps(net, moves);
    var w := Play(net, moves);
    if w.client.Done? {
      OneVerdict(net, w);
    }
    if !Final(w) {
      var m := Unblocked(net, w);
    }
  }

  lemma OneVerdict(net: Net, w: World)
    requires Inv(net, w) && w.client.Done?
    ensures w.client.verdict == Conclusion(net) || (w.client.verdict == INTERRUPTED && Silent(net))
  {
    hide Conclusion, Uploaded, Logged, Aborted, Orderly, Closing, Reading, RequestRead, Carried, ScriptOf;
  }

  /** What serving in one go and reading in one go say of the two machines. */
  lemma InOneGo(net: Net)
    ensures var env := net.env;
            var run := Serve(env.db, env.files, env.token, env.connection, Uploaded(net), FRESH, None, env.burst);
            && Ends(net) == Fate([ClientConnected(env.connection)] + run.events,
                                 run.writer.sent, run.writer.finished, false)
            && (Answers(net) <==> run.result == Ok(()))
            && Reading(env.token, Uploaded(net))
               == if env.token == net.token then Ok(Request(1, net.hash)) else Err(WrongToken)
  {
    hide Serve, ReadResponse, ClientSends, FateOf, Reading;
    var env := net.env;
    FateIsServe(env, Uploaded(net));
    FinishedOrAborted(env.db, env.files, env.token, env.connection, Uploaded(net), env.burst);
    if env.token == net.token {
      RequestArrives(net.token, net.hash);
    } else {
      RequestRefused(env.token, net.token, net.hash);
    }
    NoPanic(env, Uploaded(net));
  }

  /** A stream that is finished in one go: what both sides come to. */
  lemma FinishedInOneGo(net: Net)
    requires net.env.token == net.token
    requires Serve(net.env.db, net.env.files, net.env.token, net.env.connection,
                   Input(ClientSends(net.token, net.hash), Finished), FRESH, None, net.env.burst).writer.finished
    ensures var run := Serve(net.env.db, net.env.files, net.env.token, net.env.connection,
                             Input(ClientSends(net.token, net.hash), Finished), FRESH, None, net.env.burst);
            && Answers(net) && Ends(net).sent == run.writer.sent
            && Ends(net).log == [ClientConnected(net.env.connection)] + run.events
            && Conclusion(net) == VerdictOf(ReadResponse(net.hs, net.hash, net.cbs, Input(run.writer.sent, Finished)))
  {
    hide Serve, ReadResponse, ClientSends, Ends;
    InOneGo(net);
  }

  lemma NoPanic(env: Env, s: Input)
    requires Reading(env.token, s) != Panic
    ensures Serve(env.db, env.files, env.token, env.connection, s, FRESH, None, env.burst).result != Panic
  {
    hide Reading, ReplyPlan, Execute;
  }

  /** Every schedule ends, whatever the tokens, the database and the files.  The provider's log is then one
      of the three whole stories, and differs from what serving in one go logs at most by a final aborted.
      After a success with nothing left over, the log and everything written are as in one go; and if the
      provider answers to the end, all schedules come to the same verdict. */
  lemma EveryScheduleEnds(net: Net, pick: (nat, World) -> Move)
    requires net.window >= 1
    ensures Inv(net, Begin(net))
    ensures var end := Settle(net, Begin(net), pick, 0);
            && Final(end) && end.task.pc.Stopped? && end.task.sent <= Ends(net).sent
            && (end.task.finished ==> Answers(net))
            && (end.client == Done(Conclusion(net)) || (end.client == Done(INTERRUPTED) && Silent(net)))
            && (Refused(net.env, end.task.log) || Answered(net.env, end.task.log, true)
                || Answered(net.env, end.task.log, false))
            && (end.task.log == Ends(net).log
                || (Answered(net.env, end.task.log, false) && end.task.log[..2] <= Ends(net).log))
            && (CleanSuccess(end.client) ==> end.task.log == Ends(net).log && end.task.sent == Ends(net).sent)
  {
    hide Settle, Logged, Answered, Refused, Uploaded, Begin, Inv, FateOf, Conclusion, Ends, CleanSuccess;
    BeginKeeps(net);
    InOneGo(net);
    AtTheEnd(net, Settle(net, Begin(net), pick, 0));
  }

  lemma AtTheEnd(net: Net, end: World)
    requires Inv(net, end) && Final(end) && !Ends(net).crashed
    ensures end.task.pc.Stopped? && end.task.sent <= Ends(net).sent && (end.task.finished ==> Answers(net))
    ensures end.client == Done(Conclusion(net)) || (end.client == Done(INTERRUPTED) && Silent(net))
    ensures || Refused(net.env, end.task.log) || Answered(net.env, end.task.log, true)
            || Answered(net.env, end.task.log, false)
    ensures || end.task.log == Ends(net).log
            || (Answered(net.env, end.task.log, false) && end.task.log[..2] <= Ends(net).log)
    ensures CleanSuccess(end.client) ==> end.task.log == Ends(net).log && end.task.sent == Ends(net).sent
  {
    hide Conclusion, Ends, Answered, Refused, Orderly, Closing, Reading, RequestRead, Carried, ScriptOf, Meaning, LogAt,
         CleanSuccess;
    EndsIsFate(net);
    OneVerdict(net, end);
  }

  lemma EndsIsFate(net: Net)
    ensures Ends(net) == FateOf(net.env, NEW, Uploaded(net))
  {
  }

  // ---- created and partial collections ----

  /** A client and a provider with a database `db`, the client asking for `hash` with the right token. */
  function Between(hs: Hasher, files: Files, db: Db, hash: Hash, token: Hash, connection: u64, burst: nat,
                   cbs: Callbacks, window: nat, dropped: Ending): Net {
    Net(Env(db, files, token, connection, burst), hs, hash, token, cbs, window, dropped)
  }

  /** End-to-end delivery under every schedule: for a collection created from a list of files, to which at
      most something has been appended since, however the two sides' moves interleave and whatever the chunk
      sizes, both come to their end, the client has handed over every file once, in order, and the provider
      has logged one completed transfer. */
  lemma EveryScheduleDelivers(hs: Hasher, built: Files, sources: seq<DataSource>, files: Files, token: Hash,
                              connection: u64, burst: nat, cbs: Callbacks, window: nat, dropped: Ending,
                              pick: (nat, World) -> Move)
    requires Creatable(hs, built, sources) && Separate(hs, built, sources) && Distinct(hs, Contents(built, sources))
    requires TotalSize(built, sources) <= MAX_DATA_SIZE && Grown(built, files) && Draining(cbs) && window >= 1
    requires burst >= |Encode(hs, DataOf(hs, built, sources))|
    ensures var (db, hash) := Created(hs, built, sources);
            var net := Between(hs, files, db, hash, token, connection, burst, cbs, window, dropped);
            && Answers(net) && Inv(net, Begin(net))
            && var end := Settle(net, Begin(net), pick, 0);
               && end.client.Done? && end.client.verdict.result == Ok(TotalSize(built, sources))
               && end.client.verdict.session.delivered == Expected(hs, built, sources)
               && end.client.verdict.session.remaining == 0 && !end.client.verdict.extra
               && end.task.log == [ClientConnected(connection), RequestReceived(connection, 1, hash),
                                   TransferCompleted(connection, 1)]
               && end.task.sent == CreatedWire(hs, built, sources, burst)
  {
    hide Serve, ReadResponse, ClientSends, Settle, Inv, Begin, Answered, Created, Answers, CreatedWire, Grown, Draining,
         TotalSize, Expected, Separate, Encode, DataOf, Conclusion, Ends, Distinct, Contents, Creatable, CleanSuccess,
         Refused, WellFormed;
    var (db, hash) := Created(hs, built, sources);
    var net := Between(hs, files, db, hash, token, connection, burst, cbs, window, dropped);
    CreatedDatabase(hs, built, sources);
    EndToEndDelivery(hs, built, sources, cbs, token, connection, burst);
    GrownServesAlike(hs, built, files, db, token, connection, Input(ClientSends(token, hash), Finished),
                     FRESH, None, burst);
    FinishedInOneGo(net);
    EveryScheduleEnds(net, pick);
    CleanlyDone(Settle(net, Begin(net), pick, 0).client);
  }

  lemma CleanlyDone(p: Phase)
    ensures p.Done? && p.verdict.result.Ok? && !p.verdict.extra ==> CleanSuccess(p)
  {
  }

  /** A log that ends with an aborted transfer where serving in one go logs this request is whole. */
  lemma AbortedLog(env: Env, log: seq<Event>, all: seq<Event>, id: u64, hash: Hash)
    requires |all| == 3 && all[1] == RequestReceived(env.connection, id, hash)
    ensures Answered(env, log, false) && log[..2] <= all ==>
              log == [ClientConnected(env.connection), RequestReceived(env.connection, id, hash),
                      TransferAborted(env.connection, Some(id))]
  {
    if Answered(env, log, false) && log[..2] <= all {
      assert log[..2][0] == log[0] && log[..2][1] == log[1] == all[1];
    }
  }

  /** A hash that names no collection, under every schedule: the client fails with `DataNotFound`, nothing
      handed over, and the provider, which writes nothing but the not-found response, logs an aborted
      transfer. */
  lemma EveryScheduleOfMiss(net: Net, pick: (nat, World) -> Move)
    requires net.window >= 1 && net.token == net.env.token
    requires !(net.hash in net.env.db && net.env.db[net.hash].CollectionEntry?)
    ensures Answers(net) && Inv(net, Begin(net))
    ensures var end := Settle(net, Begin(net), pick, 0);
            && end.client == Done(Verdict(Err(DataNotFound), NOTHING, false))
            && end.task.log == [ClientConnected(net.env.connection), RequestReceived(net.env.connection, 1, net.hash),
                                TransferAborted(net.env.connection, Some(1))]
            && end.task.sent <= ResponseFrame(1, Res.NotFound)
  {
    hide Serve, ReadResponse, ClientSends, Settle, Inv, Begin, Answers, Ends, Conclusion, Answered, Refused,
         ResponseFrame, CleanSuccess, Reading;
    var env := net.env;
    var s := Input(ClientSends(net.token, net.hash), Finished);
    RequestArrives(net.token, net.hash);
    MissingCollection(env.db, env.files, env.token, env.connection, s, FRESH, None, env.burst, Request(1, net.hash));
    var frame := ResponseFrame(1, Res.NotFound);
    assert [] + frame == frame && frame + [] == frame;
    FinishedInOneGo(net);
    FirstResponse(net.hs, net.hash, net.cbs, 1, Res.NotFound, [], Finished);
    EveryScheduleEnds(net, pick);
    AbortedLog(env, Settle(net, Begin(net), pick, 0).task.log, Ends(net).log, 1, net.hash);
  }

  /** A collection of which blob `k` is the first one missing, under every schedule: the client hands over
      exactly the blobs before it and fails, and the provider logs an aborted transfer. */
  lemma EveryScheduleOfPartial(hs: Hasher, built: Files, db: Db, hash: Hash, data: seq<byte>, c: Blobs.Collection,
                               files: Files, token: Hash, connection: u64, burst: nat, cbs: Callbacks, window: nat,
                               dropped: Ending, pick: (nat, World) -> Move)
    requires WellFormed(hs, built, db) && IsCollection(db, hash, data, c) && |data| < U64_LIMIT
    requires FirstMissing(built, db, c.blobs) < |c.blobs| && Grown(built, files) && Draining(cbs)
    requires Integrity.Sizes(Honest(built, db, c.blobs)) <= c.totalBlobsSize <= MAX_DATA_SIZE
    requires burst >= |Encode(hs, data)| && window >= 1
    ensures var net := Between(hs, files, db, hash, token, connection, burst, cbs, window, dropped);
            && Answers(net) && Inv(net, Begin(net))
            && var end := Settle(net, Begin(net), pick, 0);
               && end.client.Done? && end.client.verdict.result == Err(DataNotFound)
               && end.client.verdict.session.delivered == Honest(built, db, c.blobs)
               && end.task.log == [ClientConnected(connection), RequestReceived(connection, 1, hash),
                                   TransferAborted(connection, Some(1))]
  {
    hide Serve, ReadResponse, ClientSends, Settle, Inv, Begin, Answers, TransferWire, Honest, Encode, CleanSuccess,
         Grown, FirstMissing, IsCollection, WellFormed, Integrity.Sizes, Conclusion, Ends, Refused, Answered, Draining;
    var net := Between(hs, files, db, hash, token, connection, burst, cbs, window, dropped);
    PartialCollection(hs, cbs, built, db, token, connection, hash, data, c, burst, FirstMissing(built, db, c.blobs));
    GrownServesAlike(hs, built, files, db, token, connection, Input(ClientSends(token, hash), Finished),
                     FRESH, None, burst);
    FinishedInOneGo(net);
    EveryScheduleEnds(net, pick);
    AbortedLog(net.env, Settle(net, Begin(net), pick, 0).task.log, Ends(net).log, 1, hash);
  }
}
