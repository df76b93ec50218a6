/** Any number of provider tasks, interleaved step by step, writing to one shared event log. */
module Interleaving {
  import opened Base
  import opened Streams
  import opened Messages
  import opened Bao
  import opened Database
  import opened Provider
  import opened Wire
  import opened Task

  // ---- one task and its stream ----

  /** A task with the input it has not read yet. */
  datatype Live = Live(task: Task, input: Input)

  /** What the outside decides in a step: how many bytes move, and whether sending fails. */
  datatype Choice = Choice(n: nat, lost: bool)

  function Within(n: nat, limit: nat): (m: nat)
    requires limit >= 1
    ensures 1 <= m <= limit
  {
    if n < 1 then 1 else if n > limit then limit else n
  }

  function Step(env: Env, x: Live, ch: Choice): Live {
    var t := x.task;
    if CanAdvance(env, t) then x.(task := Advance(env, t))
    else if IsReading(t) then
      if x.input.bytes == [] then x.(task := AtEnd(env, t, x.input.ending))
      else
        var n := Within(ch.n, Min(Wants(t), |x.input.bytes|));
        Live(Feed(t, x.input.bytes[..n]), x.input.(bytes := x.input.bytes[n..]))
    else if t.pc.Checking? then
      if x.input.bytes != [] then x.(task := Reject(env, t)) else x.(task := AtEnd(env, t, x.input.ending))
    else if Writes(env, t) then
      if ch.lost then x.(task := Lose(env, t))
      else x.(task := Write(env, t, if Unwritten(env, t) == [] then 1 else Within(ch.n, |Unwritten(env, t)|)))
    else x
  }

  function RunAlone(env: Env, x: Live, chs: seq<Choice>): Live {
    if chs == [] then x else Step(env, RunAlone(env, x, chs[..|chs| - 1]), chs[|chs| - 1])
  }

  // ---- what a task's log can be ----

  /** The events of an accepted request after the given number of actions. */
  function LogAt(env: Env, request: Request, done: nat): seq<Event> {
    var received := RequestReceived(env.connection, request.id, request.name);
    var aborted := TransferAborted(env.connection, Some(request.id));
    var plan := ReplyPlan(env.db, env.files, request);
    if done == 0 then []
    else if request.name in env.db && env.db[request.name].CollectionEntry? then
      if done <= |plan.ops| + 1 then [received]
      else [received, if plan.status.Sent? then TransferCompleted(env.connection, request.id) else aborted]
    else if done == 1 then [received]
    else [received, aborted]
  }

  lemma LogNext(env: Env, request: Request, done: nat)
    requires done < |ScriptOf(env, request).actions|
    ensures var a := ScriptOf(env, request).actions[done];
            LogAt(env, request, done + 1)
            == LogAt(env, request, done) + if a.Log? then [a.event] else []
    ensures ScriptOf(env, request).actions[done].Do? ==>
              LogAt(env, request, done) + ScriptOf(env, request).failure
              == [RequestReceived(env.connection, request.id, request.name),
                  TransferAborted(env.connection, Some(request.id))]
  {
    hide ReplyPlan;
  }

  predicate Refused(env: Env, log: seq<Event>) {
    log == [ClientConnected(env.connection), TransferAborted(env.connection, None)]
  }

  /** Connected, received and finally completed or aborted, all for the same request. */
  predicate Answered(env: Env, log: seq<Event>, completed: bool) {
    && |log| == 3 && log[0] == ClientConnected(env.connection)
    && log[1].RequestReceived? && log[1].connection == env.connection
    && log[2] == if completed then TransferCompleted(env.connection, log[1].request)
                 else TransferAborted(env.connection, Some(log[1].request))
  }

  predicate Logged(env: Env, t: Task) {
    match t.pc
    case Connecting => t.log == []
    case Greeting(_) => t.log == [ClientConnected(env.connection)]
    case Requesting(_) => t.log == [ClientConnected(env.connection)]
    case Checking(_) => t.log == [ClientConnected(env.connection)]
    case Crashed => t.log == [ClientConnected(env.connection)]
    case Acting(request, done, _) =>
      && t.log == [ClientConnected(env.connection)] + LogAt(env, request, done)
      && done <= |ScriptOf(env, request).actions|
    case Stopped => Refused(env, t.log) || Answered(env, t.log, false) || Answered(env, t.log, true)
  }

  lemma StepLogs(env: Env, x: Live, ch: Choice)
    requires Logged(env, x.task)
    ensures Logged(env, Step(env, x, ch).task) && x.task.log <= Step(env, x, ch).task.log
  {
    hide FrameWants, LeValue, DecodeHandshake, DecodeRequest, ReplyPlan, ScriptOf, LogAt, Answered;
    if x.task.pc.Acting? {
      ActingLogs(env, x, ch);
    } else if x.task.pc.Checking? && x.input.bytes == [] {
      LogBegin(env, x.task);
    }
  }

  lemma ActingLogs(env: Env, x: Live, ch: Choice)
    requires Logged(env, x.task) && x.task.pc.Acting?
    ensures Logged(env, Step(env, x, ch).task) && x.task.log <= Step(env, x, ch).task.log
  {
    hide ReplyPlan, ScriptOf, LogAt, Unwritten, Answered, Refused;
    var Acting(request, done, written) := x.task.pc;
    if done < |ScriptOf(env, request).actions| {
      LogNext(env, request, done);
      LostIsAnswered(env, request, done);
      assert [ClientConnected(env.connection)] + LogAt(env, request, done) + ScriptOf(env, request).failure
          == [ClientConnected(env.connection)] + (LogAt(env, request, done) + ScriptOf(env, request).failure);
    } else {
      LogComplete(env, request);
    }
  }

  lemma LostIsAnswered(env: Env, request: Request, done: nat)
    requires done < |ScriptOf(env, request).actions|
    ensures ScriptOf(env, request).actions[done].Do? ==>
              Answered(env, [ClientConnected(env.connection)]
                            + (LogAt(env, request, done) + ScriptOf(env, request).failure), false)
  {
    hide ReplyPlan, ScriptOf, LogAt;
    LogNext(env, request, done);
  }

  lemma LogBegin(env: Env, t: Task)
    ensures forall request :: LogAt(env, request, 0) == []
    ensures t.log + [] == t.log
  {
  }

  lemma LogComplete(env: Env, request: Request)
    ensures var log := [ClientConnected(env.connection)] + LogAt(env, request, |ScriptOf(env, request).actions|);
            Answered(env, log, true) || Answered(env, log, false)
  {
    hide ReplyPlan;
    var plan := ReplyPlan(env.db, env.files, request);
    assert !(request.name in env.db && env.db[request.name].CollectionEntry?) ==> |ScriptOf(env, request).actions| >= 2;
  }

  // ---- what a lossless task amounts to ----

  lemma {:induction false} CarriedDos(burst: nat, ops: seq<Op>, more: seq<Action>, failure: seq<Event>, f: Fate)
    ensures var end := Execute(ops, Sender(f.sent, f.finished, true), None, burst);
            var f' := f.(sent := end.sent, finished := end.finished);
            Carried(burst, Dos(ops) + more, failure, f)
            == if end.ok then Carried(burst, more, failure, f') else f'.(log := f.log + failure)
  {
    if ops == [] {
      assert Dos(ops) + more == more;
    } else {
      assert (Dos(ops) + more)[1..] == Dos(ops[1..]) + more && (Dos(ops) + more)[0] == Do(ops[0]);
      match ops[0]
      case WriteAll(b) =>
        CarriedDos(burst, ops[1..], more, failure, f.(sent := f.sent + b));
      case WriteOnce(b) =>
        CarriedDos(burst, ops[1..], more, failure, f.(sent := f.sent + Accepted(burst, b)));
      case Finish =>
        CarriedDos(burst, ops[1..], more, failure, f.(finished := true));
      case Fail =>
    }
  }

  /** The fate of a new task is what serving the stream in one go produces. */
  lemma FateIsServe(env: Env, s: Input)
    ensures var run := Serve(env.db, env.files, env.token, env.connection, s, FRESH, None, env.burst);
            FateOf(env, NEW, s) == Fate([ClientConnected(env.connection)] + run.events,
                                        run.writer.sent, run.writer.finished, run.result.Panic?)
  {
    hide Execute, ReplyPlan, Reading, Dos, Carried;
    var start := Fate([ClientConnected(env.connection)], [], false, false);
    assert [] + [ClientConnected(env.connection)] == [ClientConnected(env.connection)];
    if Reading(env.token, s).Ok? {
      ScriptIsServe(env, Reading(env.token, s).value, start);
    }
  }

  /** The end that serving a request in one go comes to. */
  function ServedFate(env: Env, request: Request, f: Fate): Fate {
    var plan := ReplyPlan(env.db, env.files, request);
    var end := Execute(plan.ops, FRESH, None, env.burst);
    Fate(f.log + [RequestReceived(env.connection, request.id, request.name),
                  if end.ok && plan.status.Sent? then TransferCompleted(env.connection, request.id)
                  else TransferAborted(env.connection, Some(request.id))],
         end.sent, end.finished, false)
  }

  lemma ScriptIsServe(env: Env, request: Request, f: Fate)
    requires f == Fate(f.log, [], false, false)
    ensures Carried(env.burst, ScriptOf(env, request).actions, ScriptOf(env, request).failure, f)
         == ServedFate(env, request, f)
  {
    if request.name in env.db && env.db[request.name].CollectionEntry? {
      TransferScriptIsServe(env, request, f);
    } else {
      MissScriptIsServe(env, request, f);
    }
  }

  lemma TransferScriptIsServe(env: Env, request: Request, f: Fate)
    requires f == Fate(f.log, [], false, false) && request.name in env.db && env.db[request.name].CollectionEntry?
    ensures Carried(env.burst, ScriptOf(env, request).actions, ScriptOf(env, request).failure, f)
         == ServedFate(env, request, f)
  {
    hide Execute, ReplyPlan, Dos;
    var script := ScriptOf(env, request);
    var plan := ReplyPlan(env.db, env.files, request);
    var received := RequestReceived(env.connection, request.id, request.name);
    var f1 := f.(log := f.log + [received]);
    var last := script.actions[|plan.ops| + 1];
    CarriedDos(env.burst, plan.ops, [last], script.failure, f1);
    assert script.actions[1..] == Dos(plan.ops) + [last] && [last][1..] == [];
    assert f1.log + [last.event] == f.log + [received, last.event];
    assert f1.log + script.failure == f.log + [received, script.failure[0]];
  }

  lemma MissScriptIsServe(env: Env, request: Request, f: Fate)
    requires f == Fate(f.log, [], false, false)
    requires !(request.name in env.db && env.db[request.name].CollectionEntry?)
    ensures Carried(env.burst, ScriptOf(env, request).actions, ScriptOf(env, request).failure, f)
         == ServedFate(env, request, f)
  {
    hide Execute, ReplyPlan, Dos, Carried;
    var script := ScriptOf(env, request);
    var plan := ReplyPlan(env.db, env.files, request);
    var received := RequestReceived(env.connection, request.id, request.name);
    var aborted := TransferAborted(env.connection, Some(request.id));
    var f2 := f.(log := f.log + [received, aborted]);
    MissPlanIs(env, request);
    Unstopped(plan.ops, FRESH, env.burst);
    CarriedDos(env.burst, plan.ops, [], [], f2);
    assert script.actions == [Log(received), Log(aborted)] + (Dos(plan.ops) + []);
    CarriedEvents(env.burst, received, aborted, Dos(plan.ops) + [], [], f);
    CarriedNone(env.burst, []);
  }

  lemma MissPlanIs(env: Env, request: Request)
    requires !(request.name in env.db && env.db[request.name].CollectionEntry?)
    ensures ReplyPlan(env.db, env.files, request) == MissPlan(request.id)
    ensures Clean(MissPlan(request.id).ops) && MissPlan(request.id).status.NotFound?
  {
  }

  lemma CarriedEvents(burst: nat, a: Event, b: Event, more: seq<Action>, failure: seq<Event>, f: Fate)
    ensures Carried(burst, [Log(a), Log(b)] + more, failure, f)
         == Carried(burst, more, failure, f.(log := f.log + [a, b]))
  {
    var actions := [Log(a), Log(b)] + more;
    assert actions[1..] == [Log(b)] + more && actions[1..][1..] == more;
    assert f.log + [a] + [b] == f.log + [a, b];
  }

  lemma CarriedNone(burst: nat, failure: seq<Event>)
    ensures forall f :: Carried(burst, [], failure, f) == f
  {
  }

  /** After finishing the stream a task only logs. */
  lemma FinishIsLast(env: Env, request: Request, i: nat, j: nat)
    requires i < j < |ScriptOf(env, request).actions| && ScriptOf(env, request).actions[i] == Do(Finish)
    ensures ScriptOf(env, request).actions[j].Log?
  {
    hide ReplyPlan;
    PlanFinishesLast(env.db, env.files, request);
  }

  lemma StepCloses(env: Env, x: Live, ch: Choice)
    requires Closing(env, x.task)
    ensures Closing(env, Step(env, x, ch).task)
    ensures x.task.finished ==> Step(env, x, ch).task.sent == x.task.sent
  {
    hide FrameWants, DecodeHandshake, DecodeRequest, ScriptOf, Unwritten;
    var t := x.task;
    if Writes(env, t) && CurrentOp(env, t).Finish? {
      forall j | t.pc.done < j < |ScriptOf(env, t.pc.request).actions|
        ensures ScriptOf(env, t.pc.request).actions[j].Log?
      {
        FinishIsLast(env, t.pc.request, t.pc.done, j);
      }
    }
  }

  /** The task is still heading for the fate of its whole input. */
  predicate OnCourse(env: Env, x: Live, whole: Input) {
    Orderly(env, x.task) && FateOf(env, x.task, x.input) == FateOf(env, NEW, whole)
  }

  /** A write was lost and an aborted transfer reported; what had been written is the front of what the
      task was heading for, and the events before the last are too. */
  predicate Aborted(env: Env, x: Live, whole: Input) {
    && x.task.pc.Stopped? && !x.task.finished && Answered(env, x.task.log, false)
    && x.task.sent <= FateOf(env, NEW, whole).sent && x.task.log[..2] <= FateOf(env, NEW, whole).log
  }

  /** A choice in this list loses a write. */
  predicate Loses(chs: seq<Choice>) {
    exists i | 0 <= i < |chs| :: chs[i].lost
  }

  /** A step in which nothing is lost does not change where a task is heading. */
  lemma StepKeepsFate(env: Env, x: Live, ch: Choice)
    requires Orderly(env, x.task) && !(ch.lost && Writes(env, x.task))
    ensures var y := Step(env, x, ch);
            Orderly(env, y.task) && FateOf(env, y.task, y.input) == FateOf(env, x.task, x.input)
  {
    hide FateOf, ScriptOf, FrameWants, Advance, Orderly;
    var t := x.task;
    if CanAdvance(env, t) {
      AdvanceKeepsFate(env, t, x.input);
    } else if IsReading(t) {
      if x.input.bytes == [] {
        EndKeepsFate(env, t, x.input.ending);
      } else {
        var n := Within(ch.n, Min(Wants(t), |x.input.bytes|));
        FeedKeepsFate(env, t, x.input.bytes[..n], Input(x.input.bytes[n..], x.input.ending));
        assert x.input.bytes[..n] + x.input.bytes[n..] == x.input.bytes;
      }
    } else if t.pc.Checking? {
      if x.input.bytes != [] {
        RejectKeepsFate(env, t, x.input);
      } else {
        EndKeepsFate(env, t, x.input.ending);
      }
    } else if Writes(env, t) {
      WriteKeepsFate(env, t, if Unwritten(env, t) == [] then 1 else Within(ch.n, |Unwritten(env, t)|), x.input);
    }
  }

  lemma StepOnCourse(env: Env, x: Live, ch: Choice, whole: Input)
    requires Logged(env, x.task) && Closing(env, x.task) && (OnCourse(env, x, whole) || Aborted(env, x, whole))
    ensures var y := Step(env, x, ch);
            && (OnCourse(env, y, whole) || Aborted(env, y, whole)) && Closing(env, y.task)
            && (OnCourse(env, x, whole) && !ch.lost ==> OnCourse(env, y, whole))
  {
    hide FateOf, ScriptOf, FrameWants, LogAt, Advance, Orderly, Closing, Answered;
    var t := x.task;
    StepCloses(env, x, ch);
    if t.pc.Stopped? {
    } else if ch.lost && Writes(env, t) {
      FateExtends(env, t, x.input);
      LostIsAborted(env, x, ch, whole);
    } else {
      StepKeepsFate(env, x, ch);
    }
  }

  /** A lost write. */
  lemma LostIsAborted(env: Env, x: Live, ch: Choice, whole: Input)
    requires Logged(env, x.task) && Closing(env, x.task) && Writes(env, x.task) && ch.lost
    requires x.task.sent <= FateOf(env, NEW, whole).sent && x.task.log <= FateOf(env, NEW, whole).log
    ensures Aborted(env, x.(task := Lose(env, x.task)), whole)
  {
    hide FateOf, ScriptOf, LogAt;
    var t := x.task;
    LogNext(env, t.pc.request, t.pc.done);
    var c := [ClientConnected(env.connection)];
    var at := LogAt(env, t.pc.request, t.pc.done);
    LogHasRequest(env, t.pc.request, t.pc.done);
    assert t.log + ScriptOf(env, t.pc.request).failure == c + (at + ScriptOf(env, t.pc.request).failure);
    assert (t.log + ScriptOf(env, t.pc.request).failure)[..2] == t.log[..2];
  }

  /** Whoever writes has logged the request before. */
  lemma LogHasRequest(env: Env, request: Request, done: nat)
    requires done < |ScriptOf(env, request).actions| && ScriptOf(env, request).actions[done].Do?
    ensures LogAt(env, request, done) != []
  {
    hide ReplyPlan;
  }

  lemma RejectKeepsFate(env: Env, t: Task, s: Input)
    requires t.pc.Checking? && s.bytes != []
    ensures Orderly(env, Reject(env, t)) && FateOf(env, Reject(env, t), s) == FateOf(env, t, s)
  {
  }

  /** Wherever some steps bring a task: what it has written is the front of what serving its whole input
      writes.  If no choice lost a write it is heading for exactly that end; otherwise it either still is or
      has stopped there and reported an aborted transfer. */
  lemma {:induction false} RunAloneKeeps(env: Env, input: Input, chs: seq<Choice>)
    ensures var x := RunAlone(env, Live(NEW, input), chs);
            && Logged(env, x.task) && Closing(env, x.task) && x.task.sent <= FateOf(env, NEW, input).sent
            && (OnCourse(env, x, input) || (Loses(chs) && Aborted(env, x, input)))
  {
    hide Step, Logged, FateOf, Closing, Orderly, Answered;
    if chs == [] {
      Begins(env);
    } else {
      var n := |chs| - 1;
      var x := RunAlone(env, Live(NEW, input), chs[..n]);
      RunAloneKeeps(env, input, chs[..n]);
      StepLogs(env, x, chs[n]);
      StepOnCourse(env, x, chs[n], input);
      assert forall i | 0 <= i < n :: chs[..n][i] == chs[i];
      assert chs[n].lost ==> Loses(chs);
    }
    var x := RunAlone(env, Live(NEW, input), chs);
    FateExtends(env, x.task, x.input);
  }

  lemma Begins(env: Env)
    ensures Logged(env, NEW) && Orderly(env, NEW) && Closing(env, NEW)
  {
  }

  /** A task that reported completion wrote what serving the whole stream in one go writes, to the end. */
  lemma CompletedIsServed(env: Env, input: Input, chs: seq<Choice>)
    requires Answered(env, RunAlone(env, Live(NEW, input), chs).task.log, true)
    ensures var t := RunAlone(env, Live(NEW, input), chs).task;
            var run := Serve(env.db, env.files, env.token, env.connection, input, FRESH, None, env.burst);
            t.log == [ClientConnected(env.connection)] + run.events
            && t.sent == run.writer.sent && t.finished == run.writer.finished
  {
    hide Serve, ScriptOf, LogAt;
    RunAloneKeeps(env, input, chs);
    FateIsServe(env, input);
    var x := RunAlone(env, Live(NEW, input), chs);
    if x.task.pc.Acting? {
      var Acting(request, done, written) := x.task.pc;
      CompletedIsLast(env, request, done);
    }
  }

  lemma CompletedIsLast(env: Env, request: Request, done: nat)
    requires done <= |ScriptOf(env, request).actions|
    requires Answered(env, [ClientConnected(env.connection)] + LogAt(env, request, done), true)
    ensures done == |ScriptOf(env, request).actions|
  {
    hide ReplyPlan;
  }

  // ---- many tasks ----

  /** All streams and the shared log, whose entries carry the stream they come from. */
  datatype Global = Global(streams: seq<Live>, log: seq<(nat, Event)>)

  datatype Turn = Turn(stream: nat, choice: Choice)

  function Tagged(i: nat, events: seq<Event>): (log: seq<(nat, Event)>)
    ensures |log| == |events| && forall k | 0 <= k < |events| :: log[k] == (i, events[k])
  {
    seq(|events|, k requires 0 <= k < |events| => (i, events[k]))
  }

  function StepAll(envs: seq<Env>, g: Global, turn: Turn): Global {
    if turn.stream >= |envs| || |envs| != |g.streams| then g
    else
      var x := g.streams[turn.stream];
      var y := Step(envs[turn.stream], x, turn.choice);
      Global(g.streams[turn.stream := y],
             g.log + Tagged(turn.stream, if |x.task.log| <= |y.task.log| then y.task.log[|x.task.log|..] else []))
  }

  function RunAll(envs: seq<Env>, g: Global, turns: seq<Turn>): Global {
    if turns == [] then g else StepAll(envs, RunAll(envs, g, turns[..|turns| - 1]), turns[|turns| - 1])
  }

  function Start(inputs: seq<Input>): (g: Global)
    ensures |g.streams| == |inputs| && g.log == []
    ensures forall i | 0 <= i < |inputs| :: g.streams[i] == Live(NEW, inputs[i])
  {
    Global(seq(|inputs|, i requires 0 <= i < |inputs| => Live(NEW, inputs[i])), [])
  }

  /** The choices that concern one stream. */
  function Own(turns: seq<Turn>, i: nat): seq<Choice> {
    if turns == [] then []
    else
      var n := |turns| - 1;
      Own(turns[..n], i) + if turns[n].stream == i then [turns[n].choice] else []
  }

  function Projection(log: seq<(nat, Event)>, i: nat): seq<Event> {
    if log == [] then []
    else
      var n := |log| - 1;
      Projection(log[..n], i) + if log[n].0 == i then [log[n].1] else []
  }

  lemma {:induction false} ProjectionAppend(log: seq<(nat, Event)>, i: nat, j: nat, events: seq<Event>)
    ensures Projection(log + Tagged(i, events), j) == Projection(log, j) + if i == j then events else []
  {
    var all := log + Tagged(i, events);
    if events == [] {
      assert all == log;
    } else {
      var n := |events| - 1;
      assert all[..|all| - 1] == log + Tagged(i, events[..n]);
      ProjectionAppend(log, i, j, events[..n]);
      assert events[..n] + [events[n]] == events;
    }
  }

  lemma OneMoreChoice(env: Env, x: Live, chs: seq<Choice>, ch: Choice)
    ensures RunAlone(env, x, chs + [ch]) == Step(env, RunAlone(env, x, chs), ch)
  {
    hide Step;
    assert (chs + [ch])[..|chs|] == chs;
  }

  /** No stream influences another: in any interleaving each stream is exactly where its own choices
      alone would have brought it, and its part of the shared log is its own log. */
  lemma {:induction false} NonInterference(envs: seq<Env>, inputs: seq<Input>, turns: seq<Turn>, i: nat)
    requires |envs| == |inputs| && i < |inputs|
    ensures var g := RunAll(envs, Start(inputs), turns);
            && |g.streams| == |inputs|
            && g.streams[i] == RunAlone(envs[i], Live(NEW, inputs[i]), Own(turns, i))
            && Projection(g.log, i) == g.streams[i].task.log
  {
    hide Step, Logged, OnCourse, Own, RunAlone, StepAll, RunAll;
    Beginning(envs, inputs, i);
    if turns != [] {
      var n := |turns| - 1;
      var g := RunAll(envs, Start(inputs), turns[..n]);
      NonInterference(envs, inputs, turns[..n], i);
      LastTurn(envs, Start(inputs), turns, i);
      if turns[n].stream == i {
        RunAloneKeeps(envs[i], inputs[i], Own(turns[..n], i));
        StepLogs(envs[i], g.streams[i], turns[n].choice);
        OneMoreChoice(envs[i], Live(NEW, inputs[i]), Own(turns[..n], i), turns[n].choice);
      }
      StepElsewhere(envs, g, turns[n], i);
    }
  }

  lemma Beginning(envs: seq<Env>, inputs: seq<Input>, i: nat)
    requires |envs| == |inputs| && i < |inputs|
    ensures RunAll(envs, Start(inputs), []) == Start(inputs) && Own([], i) == []
    ensures RunAlone(envs[i], Live(NEW, inputs[i]), []) == Live(NEW, inputs[i])
  {
  }

  lemma LastTurn(envs: seq<Env>, g: Global, turns: seq<Turn>, i: nat)
    requires turns != []
    ensures var n := |turns| - 1;
            && RunAll(envs, g, turns) == StepAll(envs, RunAll(envs, g, turns[..n]), turns[n])
            && Own(turns, i) == Own(turns[..n], i) + if turns[n].stream == i then [turns[n].choice] else []
    ensures Own(turns[..|turns| - 1], i) + [] == Own(turns[..|turns| - 1], i)
  {
  }

  /** A turn moves its own stream and nothing else, and logs what that stream logged. */
  lemma StepElsewhere(envs: seq<Env>, g: Global, turn: Turn, i: nat)
    requires |envs| == |g.streams| && i < |envs|
    requires Projection(g.log, i) == g.streams[i].task.log
    requires turn.stream == i ==>
               g.streams[i].task.log <= Step(envs[i], g.streams[i], turn.choice).task.log
    ensures var g' := StepAll(envs, g, turn);
            && |g'.streams| == |g.streams|
            && g'.streams[i] == (if turn.stream == i then Step(envs[i], g.streams[i], turn.choice) else g.streams[i])
            && Projection(g'.log, i) == g'.streams[i].task.log
  {
    hide Step, Projection;
    if turn.stream < |envs| {
      var x := g.streams[turn.stream];
      var y := Step(envs[turn.stream], x, turn.choice);
      ProjectionAppend(g.log, turn.stream, i,
                       if |x.task.log| <= |y.task.log| then y.task.log[|x.task.log|..] else []);
      assert Projection(g.log, i) + [] == Projection(g.log, i);
    }
  }

  /** In any interleaving of any number of streams, whatever moves in each step and whatever is lost:
      the part of the shared log that belongs to a stream is a prefix of one of three stories, the whole
      story once the task has stopped, and just the connection if reading the request panicked. */
  lemma EventLogStories(envs: seq<Env>, inputs: seq<Input>, turns: seq<Turn>, i: nat)
    requires |envs| == |inputs| && i < |inputs|
    ensures var g := RunAll(envs, Start(inputs), turns);
            var log := Projection(g.log, i);
            && |g.streams| == |inputs|
            && (exists story :: log <= story && (Refused(envs[i], story) || Answered(envs[i], story, true)
                                                 || Answered(envs[i], story, false)))
            && (g.streams[i].task.pc.Stopped? ==>
                  Refused(envs[i], log) || Answered(envs[i], log, true) || Answered(envs[i], log, false))
            && (g.streams[i].task.pc.Crashed? ==> log == [ClientConnected(envs[i].connection)])
  {
    hide RunAll, ScriptOf, RunAlone;
    NonInterference(envs, inputs, turns, i);
    RunAloneKeeps(envs[i], inputs[i], Own(turns, i));
    var t := RunAll(envs, Start(inputs), turns).streams[i].task;
    var c := ClientConnected(envs[i].connection);
    if t.pc.Acting? {
      var story := LogPrefix(envs[i], t.pc.request, t.pc.done);
    } else if !t.pc.Stopped? {
      assert Refused(envs[i], [c, TransferAborted(envs[i].connection, None)]);
      assert t.log <= [c, TransferAborted(envs[i].connection, None)];
    }
  }

  lemma LogPrefix(env: Env, request: Request, done: nat) returns (story: seq<Event>)
    ensures [ClientConnected(env.connection)] + LogAt(env, request, done) <= story
    ensures Answered(env, story, true) || Answered(env, story, false)
  {
    hide ReplyPlan;
    var log := [ClientConnected(env.connection)] + LogAt(env, request, done);
    if |LogAt(env, request, done)| == 2 {
      story := log;
    } else {
      story := [ClientConnected(env.connection), RequestReceived(env.connection, request.id, request.name),
                TransferAborted(env.connection, Some(request.id))];
    }
  }

  /** In any interleaving, a completion in a stream's part of the log means that this stream's request
      named a collection all of whose blobs are held, and that the announcement, what one write took of
      the collection and every blob in full had been written and the stream finished. */
  lemma CompletionInLog(hs: Hasher, envs: seq<Env>, inputs: seq<Input>, turns: seq<Turn>, i: nat, id: u64)
    requires |envs| == |inputs| && i < |inputs| && WellFormed(hs, envs[i].files, envs[i].db)
    requires TransferCompleted(envs[i].connection, id) in Projection(RunAll(envs, Start(inputs), turns).log, i)
    ensures var g := RunAll(envs, Start(inputs), turns);
            var env := envs[i];
            && |g.streams| == |inputs| && g.streams[i].task.finished
            && exists request, data, c ::
                 && Reading(env.token, inputs[i]) == Ok(request) && request.id == id
                 && IsCollection(env.db, request.name, data, c) && |data| < U64_LIMIT
                 && FirstMissing(env.files, env.db, c.blobs) == |c.blobs|
                 && g.streams[i].task.sent == TransferWire(hs, env.files, env.db, id, data, c, env.burst)
  {
    hide RunAll, ScriptOf, RunAlone, Serve, TransferWire, WellFormed, FirstMissing, LogAt, IsCollection, Reading;
    NonInterference(envs, inputs, turns, i);
    RunAloneKeeps(envs[i], inputs[i], Own(turns, i));
    var env := envs[i];
    var t := RunAll(envs, Start(inputs), turns).streams[i].task;
    if t.pc.Acting? {
      CompletedInLog(env, t.pc.request, t.pc.done, id);
    }
    CompletedIsServed(env, inputs[i], Own(turns, i));
    CompletionMeansWritten(hs, env.files, env.db, env.token, env.connection, inputs[i], None, env.burst, id);
  }

  lemma CompletedInLog(env: Env, request: Request, done: nat, id: u64)
    requires TransferCompleted(env.connection, id) in [ClientConnected(env.connection)] + LogAt(env, request, done)
    ensures Answered(env, [ClientConnected(env.connection)] + LogAt(env, request, done), true)
  {
    hide ReplyPlan;
  }
}
