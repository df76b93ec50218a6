/**
 The provider's task for one stream as a machine of small steps, the size of each read and write and any
 loss of the connection being up to the outside, and many such tasks interleaved over one event log.
 */
module Task {
  import opened Base
  import opened Streams
  import opened Protocol
  import opened Messages
  import opened Database
  import opened Provider

  /** What tasks share (database, files, token) and what is their own (connection, accepted burst). */
  datatype Env = Env(db: Db, files: Files, token: Hash, connection: u64, burst: nat)

  // ---- frames in parts ----

  /** How many bytes are missing to complete the frame that these bytes begin. */
  function FrameWants(acc: seq<byte>): nat {
    if |acc| < 8 then 8 - |acc|
    else if |acc| - 8 < U64OfLe(acc[..8]) then U64OfLe(acc[..8]) - (|acc| - 8)
    else 0
  }

  /** These bytes are at most one frame. */
  predicate WithinFrame(acc: seq<byte>) {
    |acc| >= 8 ==> |acc| - 8 <= U64OfLe(acc[..8])
  }

  lemma FeedFrame(acc: seq<byte>, c: seq<byte>)
    requires WithinFrame(acc) && |c| <= FrameWants(acc)
    ensures WithinFrame(acc + c)
  {
    hide LeValue;
    if |acc| >= 8 {
      assert (acc + c)[..8] == acc[..8];
    }
  }

  lemma CompleteFrame(acc: seq<byte>)
    requires WithinFrame(acc) && FrameWants(acc) == 0
    ensures |acc| >= 8 && |acc[8..]| < U64_LIMIT && acc == Frame(acc[8..])
  {
    Le64RoundTrip(0, acc[..8]);
    assert acc == acc[..8] + acc[8..];
  }

  // ---- the script of an accepted request ----

  datatype Action = Log(event: Event) | Do(op: Op)

  /** What is done in order, and what is logged if an operation fails. */
  datatype Script = Script(actions: seq<Action>, failure: seq<Event>)

  function Dos(ops: seq<Op>): (a: seq<Action>)
    ensures |a| == |ops| && forall i | 0 <= i < |ops| :: a[i] == Do(ops[i])
  {
    if ops == [] then [] else [Do(ops[0])] + Dos(ops[1..])
  }

  function ScriptOf(env: Env, request: Request): Script {
    var received := Log(RequestReceived(env.connection, request.id, request.name));
    var aborted := TransferAborted(env.connection, Some(request.id));
    var plan := ReplyPlan(env.db, env.files, request);
    if request.name in env.db && env.db[request.name].CollectionEntry? then
      var last := if plan.status.Sent? then TransferCompleted(env.connection, request.id) else aborted;
      Script([received] + Dos(plan.ops) + [Log(last)], [aborted])
    else Script([received, Log(aborted)] + Dos(plan.ops), [])
  }

  // ---- the machine ----

  /** Where a task is; `Acting` counts the actions done and the bytes written of the current one. */
  datatype Pc =
    | Connecting
    | Greeting(acc: seq<byte>)
    | Requesting(acc: seq<byte>)
    | Checking(message: Option<Request>)
    | Acting(request: Request, done: nat, written: nat)
    | Stopped
    | Crashed

  datatype Task = Task(pc: Pc, log: seq<Event>, sent: seq<byte>, finished: bool)

  const NEW: Task := Task(Connecting, [], [], false)

  function Reject(env: Env, t: Task): Task {
    t.(pc := Stopped, log := t.log + [TransferAborted(env.connection, None)])
  }

  /** Bytes that a reading task still waits for. */
  function Wants(t: Task): nat {
    match t.pc
    case Greeting(acc) => FrameWants(acc)
    case Requesting(acc) => FrameWants(acc)
    case _ => 0
  }

  function Feed(t: Task, c: seq<byte>): Task {
    match t.pc
    case Greeting(acc) => t.(pc := Greeting(acc + c))
    case Requesting(acc) => t.(pc := Requesting(acc + c))
    case _ => t
  }

  predicate IsReading(t: Task) {
    t.pc.Greeting? || t.pc.Requesting?
  }

  predicate CanAdvance(env: Env, t: Task) {
    match t.pc
    case Connecting => true
    case Greeting(acc) => FrameWants(acc) == 0
    case Requesting(acc) => FrameWants(acc) == 0
    case Acting(request, done, _) =>
      done >= |ScriptOf(env, request).actions| || ScriptOf(env, request).actions[done].Log?
    case _ => false
  }

  /** A step that uses neither end of the stream. */
  function Advance(env: Env, t: Task): Task
    requires CanAdvance(env, t)
  {
    match t.pc
    case Connecting => t.(pc := Greeting([]), log := t.log + [ClientConnected(env.connection)])
    case Greeting(acc) =>
      if DecodeHandshake(acc[8..]) == Some(Handshake(VERSION, env.token)) then t.(pc := Requesting([]))
      else Reject(env, t)
    case Requesting(acc) =>
      var request := DecodeRequest(acc[8..]);
      if request.Some? then t.(pc := Checking(request)) else Reject(env, t)
    case Acting(request, done, _) =>
      var actions := ScriptOf(env, request).actions;
      if done >= |actions| then t.(pc := Stopped)
      else t.(pc := Acting(request, done + 1, 0), log := t.log + [actions[done].event])
  }

  /** The input ends while a task reads or checks for the end. */
  function AtEnd(env: Env, t: Task, ending: Ending): Task
    requires (IsReading(t) && Wants(t) > 0) || t.pc.Checking?
  {
    if ending.Lost? then Reject(env, t)
    else
      match t.pc
      case Greeting(acc) => if |acc| < 8 then Reject(env, t) else t.(pc := Crashed)
      case Requesting(acc) => if |acc| < 8 then t.(pc := Checking(None)) else t.(pc := Crashed)
      case Checking(message) => if message.Some? then t.(pc := Acting(message.value, 0, 0)) else Reject(env, t)
  }

  predicate Writes(env: Env, t: Task) {
    && t.pc.Acting? && t.pc.done < |ScriptOf(env, t.pc.request).actions|
    && ScriptOf(env, t.pc.request).actions[t.pc.done].Do?
  }

  function CurrentOp(env: Env, t: Task): Op
    requires Writes(env, t)
  {
    ScriptOf(env, t.pc.request).actions[t.pc.done].op
  }

  /** Bytes of the current full write that are not yet taken. */
  function Unwritten(env: Env, t: Task): seq<byte> {
    if Writes(env, t) && CurrentOp(env, t).WriteAll? && t.pc.written <= |CurrentOp(env, t).bytes|
    then CurrentOp(env, t).bytes[t.pc.written..] else []
  }

  /** The current operation proceeds: a full write by some bytes, anything else in one step. */
  function Write(env: Env, t: Task, n: nat): Task
    requires Writes(env, t) && (Unwritten(env, t) != [] ==> 1 <= n <= |Unwritten(env, t)|)
  {
    var next := Acting(t.pc.request, t.pc.done + 1, 0);
    match CurrentOp(env, t)
    case WriteAll(b) =>
      if Unwritten(env, t) == [] then t.(pc := next)
      else t.(pc := t.pc.(written := t.pc.written + n), sent := t.sent + Unwritten(env, t)[..n])
    case WriteOnce(b) => t.(pc := next, sent := t.sent + Accepted(env.burst, b))
    case Finish => t.(pc := next, finished := true)
    case Fail => Lose(env, t)
  }

  /** The current operation fails. */
  function Lose(env: Env, t: Task): Task
    requires t.pc.Acting?
  {
    t.(pc := Stopped, log := t.log + ScriptOf(env, t.pc.request).failure)
  }

  // ---- where a task is heading ----

  /** The end of a task that loses nothing: its events, what it wrote, and whether it panicked. */
  datatype Fate = Fate(log: seq<Event>, sent: seq<byte>, finished: bool, crashed: bool)

  function Carried(burst: nat, actions: seq<Action>, failure: seq<Event>, f: Fate): Fate {
    if actions == [] then f
    else match actions[0]
         case Log(e) => Carried(burst, actions[1..], failure, f.(log := f.log + [e]))
         case Do(WriteAll(b)) => Carried(burst, actions[1..], failure, f.(sent := f.sent + b))
         case Do(WriteOnce(b)) => Carried(burst, actions[1..], failure, f.(sent := f.sent + Accepted(burst, b)))
         case Do(Finish) => Carried(burst, actions[1..], failure, f.(finished := true))
         case Do(Fail) => f.(log := f.log + failure)
  }

  function Decided(env: Env, r: Outcome<Request>, f: Fate): Fate {
    match r
    case Panic => f.(crashed := true)
    case Err(_) => f.(log := f.log + [TransferAborted(env.connection, None)])
    case Ok(request) => Carried(env.burst, ScriptOf(env, request).actions, ScriptOf(env, request).failure, f)
  }

  /** What the check behind the request makes of the rest of the input. */
  function Checked(message: Option<Request>, s: Input): Outcome<Request> {
    if s.bytes != [] then Err(ExtraData)
    else if s.ending.Lost? then Err(IoFailed)
    else match message
         case Some(request) => Ok(request)
         case None => Err(NoMessage)
  }

  function FateOf(env: Env, t: Task, s: Input): Fate {
    var f := Fate(t.log, t.sent, t.finished, false);
    match t.pc
    case Connecting => Decided(env, Reading(env.token, s), f.(log := t.log + [ClientConnected(env.connection)]))
    case Greeting(acc) => Decided(env, Reading(env.token, Input(acc + s.bytes, s.ending)), f)
    case Requesting(acc) => Decided(env, RequestRead([], Input(acc + s.bytes, s.ending)).result, f)
    case Checking(message) => Decided(env, Checked(message, s), f)
    case Acting(request, done, written) =>
      var script := ScriptOf(env, request);
      if done >= |script.actions| then f
      else Carried(env.burst, [Rest(script.actions[done], written)] + script.actions[done + 1..], script.failure, f)
    case Stopped => f
    case Crashed => f.(crashed := true)
  }

  /** The part of an action that remains. */
  function Rest(a: Action, written: nat): Action {
    match a
    case Do(WriteAll(b)) => if written <= |b| then Do(WriteAll(b[written..])) else a
    case _ => a
  }

  /** No more bytes are held than one frame has, and no more are written than the operation has. */
  predicate Orderly(env: Env, t: Task) {
    match t.pc
    case Greeting(acc) => WithinFrame(acc)
    case Requesting(acc) => WithinFrame(acc)
    case Acting(request, done, written) =>
      && done <= |ScriptOf(env, request).actions|
      && (written > 0 ==> Writes(env, t) && CurrentOp(env, t).WriteAll? && written <= |CurrentOp(env, t).bytes|)
    case _ => true
  }

  lemma FeedKeepsFate(env: Env, t: Task, c: seq<byte>, s: Input)
    requires Orderly(env, t) && IsReading(t) && |c| <= Wants(t)
    ensures Orderly(env, Feed(t, c))
    ensures FateOf(env, Feed(t, c), s) == FateOf(env, t, Input(c + s.bytes, s.ending))
  {
    hide FrameWants, Reading, RequestRead, ScriptOf;
    FeedFrame(t.pc.acc, c);
    assert t.pc.acc + c + s.bytes == t.pc.acc + (c + s.bytes);
  }

  lemma CarriedLog(burst: nat, actions: seq<Action>, failure: seq<Event>, f: Fate, done: nat)
    requires done < |actions| && actions[done].Log?
    ensures Carried(burst, [Rest(actions[done], 0)] + actions[done + 1..], failure, f)
         == Carried(burst, actions[done + 1..], failure, f.(log := f.log + [actions[done].event]))
  {
    assert ([Rest(actions[done], 0)] + actions[done + 1..])[1..] == actions[done + 1..];
  }

  /** Entering the next action at its beginning. */
  lemma CarriedNext(env: Env, request: Request, done: nat, f: Fate, s: Input)
    requires done <= |ScriptOf(env, request).actions| && !f.crashed
    ensures var script := ScriptOf(env, request);
            Carried(env.burst, script.actions[done..], script.failure, f)
            == FateOf(env, Task(Acting(request, done, 0), f.log, f.sent, f.finished), s)
  {
    hide ScriptOf;
    var actions := ScriptOf(env, request).actions;
    if done < |actions| {
      assert Rest(actions[done], 0) == actions[done] by {
        if actions[done].Do? && actions[done].op.WriteAll? {
          assert actions[done].op.bytes[0..] == actions[done].op.bytes;
        }
      }
      assert [actions[done]] + actions[done + 1..] == actions[done..];
    } else {
      assert actions[done..] == [];
    }
  }

  lemma GreetingAdvances(env: Env, acc: seq<byte>, s: Input)
    requires WithinFrame(acc) && FrameWants(acc) == 0
    ensures var r := Reading(env.token, Input(acc + s.bytes, s.ending));
            if DecodeHandshake(acc[8..]) == Some(Handshake(VERSION, env.token)) then r == RequestRead([], s).result
            else r.Err?
  {
    hide LpDecoded, DecodeHandshake, RequestRead;
    CompleteFrame(acc);
    ReadWholeFrame(acc[8..], s.bytes, s.ending, DecodeHandshake);
    assert acc[8..][|acc[8..]|..] == [];
  }

  lemma RequestingAdvances(acc: seq<byte>, s: Input)
    requires WithinFrame(acc) && FrameWants(acc) == 0
    ensures var r := RequestRead([], Input(acc + s.bytes, s.ending)).result;
            var request := DecodeRequest(acc[8..]);
            if request.Some? then r == Checked(request, s) else r.Err?
  {
    hide LpDecoded, DecodeRequest;
    CompleteFrame(acc);
    ReadWholeFrame(acc[8..], s.bytes, s.ending, DecodeRequest);
  }

  lemma AdvanceKeepsFate(env: Env, t: Task, s: Input)
    requires Orderly(env, t) && CanAdvance(env, t)
    ensures Orderly(env, Advance(env, t)) && FateOf(env, Advance(env, t), s) == FateOf(env, t, s)
  {
    hide FrameWants, Reading, RequestRead, ScriptOf, DecodeHandshake, DecodeRequest, Carried;
    var f := Fate(t.log, t.sent, t.finished, false);
    match t.pc
    case Connecting =>
      assert [] + s.bytes == s.bytes;
      EmptyFrame();
    case Greeting(acc) =>
      GreetingAdvances(env, acc, s);
      assert [] + s.bytes == s.bytes;
      EmptyFrame();
    case Requesting(acc) =>
      RequestingAdvances(acc, s);
    case Acting(request, done, written) =>
      var script := ScriptOf(env, request);
      if done < |script.actions| {
        CarriedLog(env.burst, script.actions, script.failure, f, done);
        CarriedNext(env, request, done + 1, f.(log := f.log + [script.actions[done].event]), s);
      }
    case _ =>
  }

  lemma EmptyFrame()
    ensures WithinFrame([])
  {
  }

  lemma EndKeepsFate(env: Env, t: Task, ending: Ending)
    requires Orderly(env, t) && ((IsReading(t) && Wants(t) > 0) || t.pc.Checking?)
    ensures Orderly(env, AtEnd(env, t, ending))
    ensures FateOf(env, AtEnd(env, t, ending), Input([], ending)) == FateOf(env, t, Input([], ending))
  {
    hide ScriptOf, Reading, RequestRead, Carried, FrameWants, WithinFrame;
    var s := Input([], ending);
    match t.pc
    case Greeting(acc) =>
      CutOffFrames(env, acc, ending);
      assert acc + [] == acc;
    case Requesting(acc) =>
      CutOffFrames(env, acc, ending);
      assert acc + [] == acc;
    case Checking(message) =>
      if ending.Finished? && message.Some? {
        CarriedNext(env, message.value, 0, Fate(t.log, t.sent, t.finished, false), s);
        assert ScriptOf(env, message.value).actions[0..] == ScriptOf(env, message.value).actions;
      }
    case _ =>
  }

  /** What the readers make of a frame that the input ends in. */
  lemma CutOffFrames(env: Env, acc: seq<byte>, ending: Ending)
    requires WithinFrame(acc) && FrameWants(acc) > 0
    ensures var r := Reading(env.token, Input(acc, ending));
            if ending.Finished? && |acc| >= 8 then r == Panic else r.Err?
    ensures var r := RequestRead([], Input(acc, ending)).result;
            if ending.Finished? && |acc| >= 8 then r == Panic else r.Err?
  {
    hide DecodeHandshake, DecodeRequest, LeValue;
  }

  lemma WriteKeepsFate(env: Env, t: Task, n: nat, s: Input)
    requires Orderly(env, t) && Writes(env, t) && (Unwritten(env, t) != [] ==> 1 <= n <= |Unwritten(env, t)|)
    ensures Orderly(env, Write(env, t, n)) && FateOf(env, Write(env, t, n), s) == FateOf(env, t, s)
  {
    hide ScriptOf, Carried;
    var Acting(request, done, written) := t.pc;
    var script := ScriptOf(env, request);
    var f := Fate(t.log, t.sent, t.finished, false);
    var tail := script.actions[done + 1..];
    CarriedFirst(env.burst, Rest(script.actions[done], written), tail, script.failure, f);
    match script.actions[done].op
    case WriteAll(b) =>
      var left := b[written..];
      if left == [] {
        assert f.sent + [] == f.sent;
        CarriedNext(env, request, done + 1, f, s);
      } else {
        var f' := f.(sent := f.sent + left[..n]);
        CarriedFirst(env.burst, Rest(script.actions[done], written + n), tail, script.failure, f');
        assert f.sent + left == f'.sent + b[written + n..];
      }
    case WriteOnce(b) =>
      CarriedNext(env, request, done + 1, f.(sent := f.sent + Accepted(env.burst, b)), s);
    case Finish =>
      CarriedNext(env, request, done + 1, f.(finished := true), s);
    case Fail =>
  }

  lemma CarriedFirst(burst: nat, a: Action, tail: seq<Action>, failure: seq<Event>, f: Fate)
    ensures var c := Carried(burst, [a] + tail, failure, f);
            && (a.Log? ==> c == Carried(burst, tail, failure, f.(log := f.log + [a.event])))
            && (a.Do? && a.op.WriteAll? ==> c == Carried(burst, tail, failure, f.(sent := f.sent + a.op.bytes)))
            && (a.Do? && a.op.WriteOnce? ==>
                  c == Carried(burst, tail, failure, f.(sent := f.sent + Accepted(burst, a.op.bytes))))
            && (a.Do? && a.op.Finish? ==> c == Carried(burst, tail, failure, f.(finished := true)))
            && (a.Do? && a.op.Fail? ==> c == f.(log := f.log + failure))
  {
    assert ([a] + tail)[1..] == tail;
  }

  // ---- what is logged and written is never taken back ----

  /** A finished stream has nothing left to write on it. */
  predicate Closing(env: Env, t: Task) {
    t.finished ==>
      || t.pc.Stopped?
      || (t.pc.Acting? && forall i | t.pc.done <= i < |ScriptOf(env, t.pc.request).actions| ::
                            ScriptOf(env, t.pc.request).actions[i].Log?)
  }

  lemma {:induction false} CarriedExtends(burst: nat, actions: seq<Action>, failure: seq<Event>, f: Fate)
    ensures f.sent <= Carried(burst, actions, failure, f).sent && f.log <= Carried(burst, actions, failure, f).log
    ensures f.finished ==> Carried(burst, actions, failure, f).finished
    ensures (forall i | 0 <= i < |actions| :: actions[i].Log?) ==> Carried(burst, actions, failure, f).sent == f.sent
  {
    if actions != [] {
      var later :=
        match actions[0]
        case Log(e) => f.(log := f.log + [e])
        case Do(WriteAll(b)) => f.(sent := f.sent + b)
        case Do(WriteOnce(b)) => f.(sent := f.sent + Accepted(burst, b))
        case Do(Finish) => f.(finished := true)
        case Do(Fail) => f;
      CarriedExtends(burst, actions[1..], failure, later);
    }
  }

  lemma FateExtends(env: Env, t: Task, s: Input)
    ensures t.sent <= FateOf(env, t, s).sent && t.log <= FateOf(env, t, s).log
    ensures t.finished ==> FateOf(env, t, s).finished
    ensures t.finished && Closing(env, t) ==> FateOf(env, t, s).sent == t.sent
  {
    hide Reading, RequestRead, ScriptOf, Carried;
    var f := Fate(t.log, t.sent, t.finished, false);
    forall actions: seq<Action>, failure: seq<Event>, f': Fate
      | f'.sent == f.sent && f.log <= f'.log && f'.finished == f.finished
      ensures f.sent <= Carried(env.burst, actions, failure, f').sent
      ensures f.finished ==> Carried(env.burst, actions, failure, f').finished
      ensures f.log <= Carried(env.burst, actions, failure, f').log
    {
      CarriedExtends(env.burst, actions, failure, f');
    }
    if t.pc.Acting? && t.pc.done < |ScriptOf(env, t.pc.request).actions| {
      var script := ScriptOf(env, t.pc.request);
      CarriedExtends(env.burst, [Rest(script.actions[t.pc.done], t.pc.written)] + script.actions[t.pc.done + 1..],
                     script.failure, f);
    }
  }
}
