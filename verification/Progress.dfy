/** Progress counting: one caller at a time, and many callers whose atomic operations interleave. */
module Progress {
  import opened Base
  import opened Streams

  /** The shared fields of an emitter, and everything it has sent to its subscribers. */
  datatype Shared = Shared(count: u64, total: u64, lastStep: u16, emitted: seq<u16>)

  /** How many of the steps are reached. */
  function StepOf(count: nat, total: nat, steps: u16): (step: u16)
    requires total > 0
    ensures step <= steps
  {
    Scales(Min(count, total), total, steps);
    Min(count, total) * steps / total
  }

  /** `step` is the floor of the reached share of the steps; past the total everything is reached. */
  predicate IsShare(step: nat, count: nat, total: nat, steps: nat) {
    var reached := if count <= total then count else total;
    step * total <= reached * steps < (step + 1) * total
  }

  /** The step is that floor, and nothing else is. */
  lemma StepIsShare(count: nat, total: nat, steps: u16, step: nat)
    requires total > 0
    ensures IsShare(step, count, total, steps) <==> step == StepOf(count, total, steps)
  {
    var part := Min(count, total) * steps;
    assert part == total * (part / total) + part % total;
    OnlyQuotient(part, total, part / total, step);
  }

  /** A quotient is determined by its two bounds. */
  lemma OnlyQuotient(part: nat, total: nat, q: nat, step: nat)
    requires total > 0 && q * total <= part < (q + 1) * total
    ensures step * total <= part < (step + 1) * total <==> step == q
  {
    if step > q {
      AtMost(q + 1, step, total);
    } else if step < q {
      AtMost(step + 1, q, total);
    }
  }

  lemma AtMost(a: nat, b: nat, total: nat)
    requires a <= b
    ensures a * total <= b * total
  {
  }

  lemma Scales(part: nat, total: nat, steps: nat)
    requires part <= total && total > 0
    ensures 0 <= part * steps / total <= steps
  {
    assert part * steps <= total * steps;
    assert part * steps / total <= total * steps / total;
  }

  lemma StepGrows(a: nat, b: nat, total: nat, steps: u16)
    requires total > 0 && a <= b
    ensures StepOf(a, total, steps) <= StepOf(b, total, steps)
  {
    assert Min(a, total) * steps <= Min(b, total) * steps;
    Divides(Min(a, total) * steps, Min(b, total) * steps, total);
  }

  lemma Divides(a: nat, b: nat, total: nat)
    requires total > 0 && a <= b
    ensures a / total <= b / total
  {
    var p, q := a / total, b / total;
    assert a == total * p + a % total && b == total * q + b % total;
    assert total * (p - q) < total;
    if p > q {
      AtLeastOnce(total, p - q);
    }
  }

  // ---- one call after the other ----

  /** Arithmetic that overflows, and division by a zero total, panic. */
  predicate Overflows(count: nat, total: u64, steps: u16) {
    count >= U64_LIMIT || total == 0 || Min(count, total) * steps >= U64_LIMIT
  }

  /** One whole call of `inc`; it panics after the counter has changed. */
  function Incremented(steps: u16, s: Shared, amount: u64): (Shared, Outcome<()>) {
    var added := s.(count := (s.count + amount) % U64_LIMIT);
    if Overflows(s.count + amount, s.total, steps) then (added, Panic)
    else
      var step := StepOf(s.count + amount, s.total, steps);
      (added.(lastStep := step, emitted := s.emitted + if step > s.lastStep then [step] else []), Ok(()))
  }

  class InnerProgressEmitter {
    var total: u64
    var count: u64
    const steps: u16
    var lastStep: u16
    var sent: seq<u16>

    constructor (total: u64, steps: u16)
      ensures State() == Shared(0, total, 0, []) && this.steps == steps
    {
      this.total, this.count, this.steps, this.lastStep, this.sent := total, 0, steps, 0, [];
    }

    function State(): Shared
      reads this
    {
      Shared(count, total, lastStep, sent)
    }

    method Inc(amount: u64) returns (r: Outcome<()>)
      modifies this
      ensures (State(), r) == Incremented(steps, old(State()), amount)
      ensures total == old(total) && count == (old(count) + amount) % U64_LIMIT
      ensures var reached := if old(count) + amount <= total then old(count) + amount else total;
              if old(count) + amount >= U64_LIMIT || total == 0 || reached * steps >= U64_LIMIT
              then r == Panic && lastStep == old(lastStep) && sent == old(sent)
              else r == Ok(()) && IsShare(lastStep, old(count) + amount, total, steps)
                   && sent == old(sent) + if lastStep > old(lastStep) then [lastStep] else []
    {
      var prevCount := count;
      count := (count + amount) % U64_LIMIT;
      if prevCount + amount >= U64_LIMIT {
        return Panic;
      }
      var count' := prevCount + amount;
      if total == 0 || Min(count', total) * steps >= U64_LIMIT {
        return Panic;
      }
      Scales(Min(count', total), total, steps);
      StepIsShare(count', total, steps, StepOf(count', total, steps));
      var step: u16 := Min(count', total) * steps / total;
      var last := lastStep;
      lastStep := step;
      assert sent + [] == sent;
      if step > last {
        sent := sent + [step];
      }
      return Ok(());
    }

    method SetTotal(value: u64)
      modifies this
      ensures State() == old(State()).(total := value)
    {
      total := value;
    }
  }

  /** Reads through to `inner` and counts what arrived; a poll that is pending counts nothing. */
  class ProgressAsyncReader {
    const emitter: InnerProgressEmitter
    const inner: RecvStream

    constructor (emitter: InnerProgressEmitter, inner: RecvStream)
      ensures this.emitter == emitter && this.inner == inner
    {
      this.emitter, this.inner := emitter, inner;
    }

    method PollRead(buffer: BytesMut, capacity: nat) returns (poll: Option<Outcome<()>>)
      requires |buffer.data| <= capacity < U64_LIMIT
      modifies emitter, inner, buffer
      ensures old(buffer.data) <= buffer.data && |buffer.data| <= capacity
      ensures old(inner.rest) == buffer.data[|old(buffer.data)|..] + inner.rest
      ensures var read := |buffer.data| - |old(buffer.data)|;
              if poll.None? then emitter.State() == old(emitter.State()) && read == 0
              else emitter.State() == Incremented(emitter.steps, old(emitter.State()), read).0
                   && (poll.value.Panic? <==> Incremented(emitter.steps, old(emitter.State()), read).1.Panic?)
      ensures poll.Some? && !poll.value.Panic? ==>
                poll.value == if old(inner.rest) == [] && inner.ending.Lost? && |old(buffer.data)| < capacity
                              then Err(IoFailed) else Ok(())
      ensures poll.Some? && |buffer.data| == |old(buffer.data)| < capacity ==> old(inner.rest) == []
    {
      if * {
        return None;
      }
      var prevLen := |buffer.data|;
      var val := inner.Read(capacity - prevLen);
      if val.Ok? {
        buffer.data := buffer.data + val.value;
      }
      var counted := emitter.Inc(|buffer.data| - prevLen);
      if counted.Panic? {
        return Some(Panic);
      }
      return Some(if val.Ok? then Ok(()) else Err(IoFailed));
    }
  }

  function IncAll(steps: u16, s: Shared, amounts: seq<u64>): Shared {
    if amounts == [] then s
    else Incremented(steps, IncAll(steps, s, amounts[..|amounts| - 1]), amounts[|amounts| - 1]).0
  }

  function Total(amounts: seq<u64>): nat {
    if amounts == [] then 0 else Total(amounts[..|amounts| - 1]) + amounts[|amounts| - 1]
  }

  predicate Rising(s: seq<u16>, steps: u16) {
    (forall i | 0 <= i < |s| :: 1 <= s[i] <= steps) && (forall i | 0 <= i < |s| - 1 :: s[i] < s[i + 1])
  }

  /** For a fixed positive total without overflow: the counter is the exact sum, what is emitted rises
      strictly within 1..=steps, and the last emission is the floor of the reached share. */
  lemma {:induction false} Sequential(steps: u16, total: u64, amounts: seq<u64>)
    requires total > 0 && total * steps < U64_LIMIT && Total(amounts) < U64_LIMIT
    ensures var s := IncAll(steps, Shared(0, total, 0, []), amounts);
            && s.count == Total(amounts) && s.total == total && Rising(s.emitted, steps)
            && s.lastStep == Latest(s.emitted)
            && s.lastStep == StepOf(Total(amounts), total, steps)
            && IsShare(s.lastStep, Total(amounts), total, steps)
  {
    hide StepOf, Overflows, Rising, Latest, IsShare;
    StepIsShare(Total(amounts), total, steps, StepOf(Total(amounts), total, steps));
    if amounts == [] {
      NothingYet(total, steps);
    } else {
      var n := |amounts| - 1;
      Sequential(steps, total, amounts[..n]);
      StepGrows(Total(amounts[..n]), Total(amounts), total, steps);
      NoOverflow(Total(amounts), total, steps);
      var emitted := IncAll(steps, Shared(0, total, 0, []), amounts[..n]).emitted;
      RisesOn(emitted, StepOf(Total(amounts), total, steps), steps);
    }
  }

  /** The last emission, 0 if there is none. */
  function Latest(s: seq<u16>): u16 {
    if s == [] then 0 else s[|s| - 1]
  }

  lemma RisesOn(s: seq<u16>, step: u16, steps: u16)
    requires Rising(s, steps) && Latest(s) <= step <= steps
    ensures var s' := s + if step > Latest(s) then [step] else [];
            Rising(s', steps) && Latest(s') == step
  {
    assert s + [] == s;
  }

  lemma NothingYet(total: nat, steps: u16)
    requires total > 0
    ensures StepOf(0, total, steps) == 0 && Rising([], steps) && Latest([]) == 0
  {
  }

  lemma NoOverflow(count: nat, total: u64, steps: u16)
    requires count < U64_LIMIT && total > 0 && total * steps < U64_LIMIT
    ensures !Overflows(count, total, steps)
  {
    assert Min(count, total) * steps <= total * steps;
  }

  // ---- many callers ----

  /** How far one caller's atomic operations have got: its addition, its read of the total, its swap of
      the last step, and its emission.  `Setting` is a call of `set_total`. */
  datatype Call =
    | Todo(amount: u64)
    | Added(count: u64)
    | Loaded(count: u64, total: u64)
    | Swapped(step: u16, last: u16)
    | Setting(value: u64)
    | Done
    | Panicked

  function StepCall(steps: u16, s: Shared, c: Call): (Shared, Call) {
    match c
    case Todo(amount) =>
      (s.(count := (s.count + amount) % U64_LIMIT),
       if s.count + amount < U64_LIMIT then Added(s.count + amount) else Panicked)
    case Added(count) => (s, Loaded(count, s.total))
    case Loaded(count, total) =>
      if Overflows(count, total, steps) then (s, Panicked)
      else (s.(lastStep := StepOf(count, total, steps)), Swapped(StepOf(count, total, steps), s.lastStep))
    case Swapped(step, last) => (if step > last then s.(emitted := s.emitted + [step]) else s, Done)
    case Setting(value) => (s.(total := value), Done)
    case _ => (s, c)
  }

  /** A call that nobody interrupts amounts to `Incremented`. */
  lemma Uninterrupted(steps: u16, s: Shared, amount: u64)
    ensures var (s1, c1) := StepCall(steps, s, Todo(amount));
            var (s2, c2) := StepCall(steps, s1, c1);
            var (s3, c3) := StepCall(steps, s2, c2);
            var (s4, c4) := StepCall(steps, s3, c3);
            && s4 == Incremented(steps, s, amount).0
            && c4 == if Incremented(steps, s, amount).1.Ok? then Done else Panicked
  {
    hide StepOf;
    assert s.emitted + [] == s.emitted;
  }

  datatype Callers = Callers(shared: Shared, calls: seq<Call>)

  /** Who moves is up to the scheduler. */
  function StepCaller(steps: u16, g: Callers, i: nat): (g': Callers)
    ensures |g'.calls| == |g.calls|
  {
    if i >= |g.calls| then g
    else
      var (s, c) := StepCall(steps, g.shared, g.calls[i]);
      Callers(s, g.calls[i := c])
  }

  function Schedule(steps: u16, g: Callers, turns: seq<nat>): (g': Callers)
    ensures |g'.calls| == |g.calls|
  {
    if turns == [] then g else StepCaller(steps, Schedule(steps, g, turns[..|turns| - 1]), turns[|turns| - 1])
  }

  /** Some step of at least `x` has been emitted, or is about to be by a caller that has swapped it in. */
  predicate Announced(g: Callers, x: nat) {
    || x == 0
    || (exists k | 0 <= k < |g.shared.emitted| :: g.shared.emitted[k] >= x)
    || (exists i | 0 <= i < |g.calls| :: IsPending(g.calls[i]) && g.calls[i].step >= x)
  }

  predicate IsPending(c: Call) {
    c.Swapped? && c.step > c.last
  }

  /** Whatever the callers do, even when they change the total: the last step is never above everything
      that was or is about to be emitted. */
  lemma StepAnnounces(steps: u16, g: Callers, i: nat, x: nat)
    requires Announced(g, x)
    ensures Announced(StepCaller(steps, g, i), x)
  {
    var g' := StepCaller(steps, g, i);
    if x != 0 && i < |g.calls| {
      if k :| 0 <= k < |g.shared.emitted| && g.shared.emitted[k] >= x {
        assert g'.shared.emitted[k] >= x;
      } else {
        var j :| 0 <= j < |g.calls| && IsPending(g.calls[j]) && g.calls[j].step >= x;
        if j == i {
          assert g'.shared.emitted[|g.shared.emitted|] >= x;
        } else {
          assert IsPending(g'.calls[j]) && g'.calls[j].step >= x;
        }
      }
    }
  }

  lemma LastIsAnnounced(steps: u16, g: Callers, i: nat)
    requires Announced(g, g.shared.lastStep)
    ensures Announced(StepCaller(steps, g, i), StepCaller(steps, g, i).shared.lastStep)
  {
    hide StepOf, Overflows;
    var g' := StepCaller(steps, g, i);
    StepAnnounces(steps, g, i, g.shared.lastStep);
    if i < |g.calls| && g.calls[i].Loaded? && g'.shared.lastStep > g.shared.lastStep {
      assert IsPending(g'.calls[i]);
    }
  }

  lemma {:induction false} LastNeverAhead(steps: u16, g: Callers, turns: seq<nat>)
    requires Announced(g, g.shared.lastStep)
    ensures Announced(Schedule(steps, g, turns), Schedule(steps, g, turns).shared.lastStep)
  {
    hide StepCaller, Announced;
    if turns != [] {
      var n := |turns| - 1;
      LastNeverAhead(steps, g, turns[..n]);
      LastIsAnnounced(steps, Schedule(steps, g, turns[..n]), turns[n]);
    }
  }

  // ---- a fixed total ----

  /** What the calls have not added yet. */
  function Outstanding(calls: seq<Call>): nat {
    if calls == [] then 0
    else
      var last := calls[|calls| - 1];
      Outstanding(calls[..|calls| - 1]) + if last.Todo? then last.amount else 0
  }

  lemma {:induction false} OutstandingAfter(calls: seq<Call>, i: nat, c: Call)
    requires i < |calls| && !c.Todo?
    ensures Outstanding(calls[i := c]) == Outstanding(calls) - if calls[i].Todo? then calls[i].amount else 0
  {
    var n := |calls| - 1;
    if i == n {
      assert calls[i := c][..n] == calls[..n];
    } else {
      assert calls[i := c][..n] == calls[..n][i := c];
      OutstandingAfter(calls[..n], i, c);
    }
  }

  /** A call carries no count beyond the shared one and no step beyond the one that count reaches. */
  predicate Bounded(steps: u16, s: Shared, c: Call)
    requires s.total > 0
  {
    match c
    case Added(count) => count <= s.count
    case Loaded(count, total) => count <= s.count && total == s.total
    case Swapped(step, _) => step <= StepOf(s.count, s.total, steps)
    case Setting(_) => false
    case Panicked => false
    case _ => true
  }

  /** The caller that added last still has its swap before it. */
  predicate LatestToCome(g: Callers) {
    exists i | 0 <= i < |g.calls| ::
      (g.calls[i].Added? || g.calls[i].Loaded?) && g.calls[i].count == g.shared.count
  }

  predicate Counting(steps: u16, total: u64, all: nat, g: Callers) {
    && g.shared.total == total > 0 && total * steps < U64_LIMIT
    && g.shared.count + Outstanding(g.calls) == all < U64_LIMIT
    && (forall i | 0 <= i < |g.calls| :: Bounded(steps, g.shared, g.calls[i]))
    && g.shared.lastStep <= StepOf(g.shared.count, total, steps)
    && (forall k | 0 <= k < |g.shared.emitted| :: g.shared.emitted[k] <= StepOf(g.shared.count, total, steps))
    && Announced(g, g.shared.lastStep)
    && (LatestToCome(g) || Announced(g, StepOf(g.shared.count, total, steps)))
  }

  lemma CountingStays(steps: u16, total: u64, all: nat, g: Callers, i: nat)
    requires Counting(steps, total, all, g)
    ensures Counting(steps, total, all, StepCaller(steps, g, i))
  {
    hide StepOf, Announced, Outstanding, LatestToCome;
    if i < |g.calls| {
      var g' := StepCaller(steps, g, i);
      NoneIsMissing(g.calls, i);
      OneCall(steps, total, g.shared, g.calls[i]);
      OutstandingAfter(g.calls, i, g'.calls[i]);
      StepGrows(g.shared.count, g'.shared.count, total, steps);
      LastIsAnnounced(steps, g, i);
      LatestStays(steps, total, g, i);
    }
  }

  lemma {:induction false} NoneIsMissing(calls: seq<Call>, i: nat)
    requires i < |calls|
    ensures calls[i].Todo? ==> calls[i].amount <= Outstanding(calls)
  {
    if i < |calls| - 1 {
      NoneIsMissing(calls[..|calls| - 1], i);
    }
  }

  lemma OneCall(steps: u16, total: u64, s: Shared, c: Call)
    requires s.total == total > 0 && total * steps < U64_LIMIT && Bounded(steps, s, c)
    requires c.Todo? ==> s.count + c.amount < U64_LIMIT
    ensures var (s', c') := StepCall(steps, s, c);
            && s'.total == total && !c'.Todo? && Bounded(steps, s', c')
            && s'.count == s.count + (if c.Todo? then c.amount else 0)
            && (c.Loaded? ==> s'.lastStep == StepOf(c.count, total, steps) <= StepOf(s.count, total, steps))
  {
    hide StepOf;
    if c.Loaded? {
      NoOverflow(c.count, total, steps);
      StepGrows(c.count, s.count, total, steps);
    }
  }

  lemma LatestStays(steps: u16, total: u64, g: Callers, i: nat)
    requires i < |g.calls| && g.shared.total == total > 0 && total * steps < U64_LIMIT
    requires g.calls[i].Todo? ==> g.shared.count + g.calls[i].amount < U64_LIMIT
    requires Bounded(steps, g.shared, g.calls[i])
    requires LatestToCome(g) || Announced(g, StepOf(g.shared.count, total, steps))
    requires Announced(g, g.shared.lastStep)
    ensures var g' := StepCaller(steps, g, i);
            LatestToCome(g') || Announced(g', StepOf(g'.shared.count, total, steps))
  {
    hide StepOf, Announced;
    var g' := StepCaller(steps, g, i);
    OneCall(steps, total, g.shared, g.calls[i]);
    if g.calls[i].Todo? {
      assert g'.calls[i].Added? && g'.calls[i].count == g'.shared.count;
    } else if LatestToCome(g) {
      var j :| 0 <= j < |g.calls| && (g.calls[j].Added? || g.calls[j].Loaded?) && g.calls[j].count == g.shared.count;
      if j == i && g.calls[i].Loaded? {
        LastIsAnnounced(steps, g, i);
      } else {
        assert (g'.calls[j].Added? || g'.calls[j].Loaded?) && g'.calls[j].count == g'.shared.count;
      }
    } else {
      StepAnnounces(steps, g, i, StepOf(g.shared.count, total, steps));
    }
  }

  function Starting(total: u64, amounts: seq<u64>): Callers {
    Callers(Shared(0, total, 0, []), seq(|amounts|, i requires 0 <= i < |amounts| => Todo(amounts[i])))
  }

  lemma {:induction false} StartingOutstanding(total: u64, amounts: seq<u64>)
    ensures Outstanding(Starting(total, amounts).calls) == Total(amounts)
  {
    if amounts != [] {
      var n := |amounts| - 1;
      StartingOutstanding(total, amounts[..n]);
      assert Starting(total, amounts).calls[..n] == Starting(total, amounts[..n]).calls;
    }
  }

  lemma {:induction false} ScheduleCounts(steps: u16, total: u64, amounts: seq<u64>, turns: seq<nat>)
    requires total > 0 && total * steps < U64_LIMIT && Total(amounts) < U64_LIMIT
    ensures Counting(steps, total, Total(amounts), Schedule(steps, Starting(total, amounts), turns))
  {
    hide StepCaller, Counting;
    if turns == [] {
      StartCounts(steps, total, amounts);
    } else {
      var n := |turns| - 1;
      ScheduleCounts(steps, total, amounts, turns[..n]);
      CountingStays(steps, total, Total(amounts), Schedule(steps, Starting(total, amounts), turns[..n]), turns[n]);
    }
  }

  lemma StartCounts(steps: u16, total: u64, amounts: seq<u64>)
    requires total > 0 && total * steps < U64_LIMIT && Total(amounts) < U64_LIMIT
    ensures Counting(steps, total, Total(amounts), Starting(total, amounts))
  {
    hide StepOf;
    StartingOutstanding(total, amounts);
    NothingYet(total, steps);
  }

  function Peak(s: seq<u16>): (m: nat)
    ensures forall k | 0 <= k < |s| :: s[k] <= m
    ensures m == 0 || exists k | 0 <= k < |s| :: s[k] == m
  {
    if s == [] then 0
    else
      var n := |s| - 1;
      if s[n] >= Peak(s[..n]) then s[n] else Peak(s[..n])
  }

  lemma {:induction false} AllAdded(calls: seq<Call>)
    requires forall i | 0 <= i < |calls| :: calls[i].Done?
    ensures Outstanding(calls) == 0
  {
    if calls != [] {
      AllAdded(calls[..|calls| - 1]);
    }
  }

  /** Any number of callers in any interleaving, with a fixed positive total and no overflow: nobody
      panics, nothing beyond the reached share is ever emitted, and once all calls are done the counter
      is the exact sum and the highest emission is the floor of the reached share. */
  lemma Concurrent(steps: u16, total: u64, amounts: seq<u64>, turns: seq<nat>)
    requires total > 0 && total * steps < U64_LIMIT && Total(amounts) < U64_LIMIT
    ensures var g := Schedule(steps, Starting(total, amounts), turns);
            && (forall i | 0 <= i < |g.calls| :: !g.calls[i].Panicked?)
            && Peak(g.shared.emitted) <= StepOf(g.shared.count, total, steps)
            && ((forall i | 0 <= i < |g.calls| :: g.calls[i].Done?) ==>
                  && g.shared.count == Total(amounts)
                  && Peak(g.shared.emitted) == StepOf(Total(amounts), total, steps)
                  && IsShare(Peak(g.shared.emitted), Total(amounts), total, steps)
                  && g.shared.lastStep <= Peak(g.shared.emitted))
  {
    hide StepOf, Outstanding, Schedule, IsShare;
    StepIsShare(Total(amounts), total, steps, StepOf(Total(amounts), total, steps));
    ScheduleCounts(steps, total, amounts, turns);
    var g := Schedule(steps, Starting(total, amounts), turns);
    if forall i | 0 <= i < |g.calls| :: g.calls[i].Done? {
      AllAdded(g.calls);
    }
  }

  // ---- turns one by one ----

  lemma OneTurn(steps: u16, g: Callers, turns: seq<nat>, i: nat)
    ensures Schedule(steps, g, turns + [i]) == StepCaller(steps, Schedule(steps, g, turns), i)
  {
    assert (turns + [i])[..|turns|] == turns;
  }

  lemma ThreeTurns(steps: u16, g: Callers, turns: seq<nat>, a: nat, b: nat, c: nat)
    ensures Schedule(steps, g, turns + [a, b, c])
         == StepCaller(steps, StepCaller(steps, StepCaller(steps, Schedule(steps, g, turns), a), b), c)
  {
    hide StepCaller, Schedule;
    OneTurn(steps, g, turns, a);
    OneTurn(steps, g, turns + [a], b);
    OneTurn(steps, g, turns + [a] + [b], c);
    assert turns + [a, b, c] == turns + [a] + [b] + [c];
  }

  lemma NoTurns(steps: u16, g: Callers)
    ensures Schedule(steps, g, []) == g
  {
  }
}
