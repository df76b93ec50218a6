/** Whether what overlapping callers emit always rises: exactly when, and how it fails otherwise. */
module Emissions {
  import opened Base
  import opened Progress

  // ---- the condition ----

  lemma {:induction false} PartOfTotal(amounts: seq<u64>, i: nat)
    requires i < |amounts|
    ensures amounts[i] <= Total(amounts)
  {
    if i < |amounts| - 1 {
      PartOfTotal(amounts[..|amounts| - 1], i);
    }
  }

  lemma {:induction false} TwoPartsOfTotal(amounts: seq<u64>, i: nat, j: nat)
    requires i < j < |amounts|
    ensures amounts[i] + amounts[j] <= Total(amounts)
  {
    var n := |amounts| - 1;
    if j < n {
      TwoPartsOfTotal(amounts[..n], i, j);
    } else {
      PartOfTotal(amounts[..n], i);
    }
  }

  /** What all callers but one add. */
  function Without(amounts: seq<u64>, i: nat): (n: nat)
    requires i < |amounts|
    ensures n + amounts[i] == Total(amounts)
  {
    PartOfTotal(amounts, i);
    Total(amounts) - amounts[i]
  }

  /** At most one caller; or two of which none reaches a step of its own strictly between none and the last;
      or everyone alone reaches the last step; or all but one together never reach any. */
  predicate AlwaysRises(steps: u16, total: u64, amounts: seq<u64>)
    requires total > 0
  {
    var top := StepOf(Total(amounts), total, steps);
    || |amounts| <= 1
    || (|amounts| == 2 && forall i | 0 <= i < |amounts| :: StepOf(amounts[i], total, steps) in {0, top})
    || (forall i | 0 <= i < |amounts| :: StepOf(amounts[i], total, steps) == top)
    || (forall i | 0 <= i < |amounts| :: StepOf(Without(amounts, i), total, steps) == 0)
  }

  // ---- where the condition holds, at most one step is emitted ----

  /** A call that has a positive step in hand, not yet emitted or discarded. */
  predicate Heavy(steps: u16, total: u64, c: Call)
    requires total > 0
  {
    match c
    case Added(count) => StepOf(count, total, steps) > 0
    case Loaded(count, _) => StepOf(count, total, steps) > 0
    case Swapped(_, _) => IsPending(c)
    case _ => false
  }

  predicate AtMostOne(steps: u16, emitted: seq<u16>) {
    |emitted| <= 1 && forall k | 0 <= k < |emitted| :: 1 <= emitted[k] <= steps
  }

  /** Only the caller that adds last can get a positive step. */
  predicate Lone(steps: u16, total: u64, all: nat, g: Callers)
    requires total > 0
  {
    var calls := g.calls;
    && AtMostOne(steps, g.shared.emitted)
    && (forall i, j | 0 <= i < |calls| && 0 <= j < |calls| ::
          Heavy(steps, total, calls[i]) && Heavy(steps, total, calls[j]) ==> i == j)
    && (g.shared.emitted != [] ==> forall i | 0 <= i < |calls| :: !Heavy(steps, total, calls[i]))
    && (forall k | 0 <= k < |calls| :: calls[k].Todo? ==>
          g.shared.emitted == [] && forall i | 0 <= i < |calls| :: !Heavy(steps, total, calls[i]))
    && (forall i, k | 0 <= i < |calls| && 0 <= k < |calls| && i != k :: calls[i].Todo? && calls[k].Todo? ==>
          calls[k].amount <= all && StepOf(all - calls[k].amount, total, steps) == 0)
  }

  /** This call has, or will have, the last step. */
  predicate AtTop(steps: u16, total: u64, all: nat, count: nat, c: Call)
    requires total > 0
  {
    var top := StepOf(all, total, steps);
    match c
    case Todo(amount) => StepOf(count + amount, total, steps) == top
    case Added(n) => StepOf(n, total, steps) == top
    case Loaded(n, _) => StepOf(n, total, steps) == top
    case Swapped(step, _) => step == top
    case _ => true
  }

  /** Every caller gets the last step, so that only the first swap rises. */
  predicate Level(steps: u16, total: u64, all: nat, g: Callers)
    requires total > 0
  {
    var top := StepOf(all, total, steps);
    var calls := g.calls;
    && AtMostOne(steps, g.shared.emitted) && g.shared.lastStep <= top
    && (forall i | 0 <= i < |calls| :: AtTop(steps, total, all, g.shared.count, calls[i]))
    && (g.shared.lastStep < top ==> g.shared.emitted == [] && forall i | 0 <= i < |calls| :: !IsPending(calls[i]))
    && (forall i, j | 0 <= i < |calls| && 0 <= j < |calls| :: IsPending(calls[i]) && IsPending(calls[j]) ==> i == j)
    && (g.shared.emitted != [] ==> forall i | 0 <= i < |calls| :: !IsPending(calls[i]))
  }

  /** Two callers that have not begun. */
  predicate FreshPair(steps: u16, total: u64, all: nat, g: Callers)
    requires total > 0
  {
    && |g.calls| == 2 && g.shared.count == 0 && g.shared.lastStep == 0 && g.shared.emitted == []
    && forall i | 0 <= i < 2 ::
         g.calls[i].Todo? && StepOf(g.calls[i].amount, total, steps) in {0, StepOf(all, total, steps)}
  }

  lemma LoneStays(steps: u16, total: u64, all: nat, g: Callers, i: nat)
    requires Counting(steps, total, all, g) && Lone(steps, total, all, g)
    ensures Lone(steps, total, all, StepCaller(steps, g, i))
  {
    hide StepOf, Outstanding, Announced, LatestToCome;
    if i < |g.calls| {
      var g' := StepCaller(steps, g, i);
      NoneIsMissing(g.calls, i);
      OneCall(steps, total, g.shared, g.calls[i]);
      if g.calls[i].Todo? {
        CountingStays(steps, total, all, g, i);
        forall k | 0 <= k < |g'.calls| && g'.calls[k].Todo?
          ensures StepOf(g'.shared.count, total, steps) == 0
        {
          assert g.calls[k] == g'.calls[k] && k != i;
          NoneIsMissing(g'.calls, k);
          StepGrows(g'.shared.count, all - g.calls[k].amount, total, steps);
        }
      }
    }
  }

  lemma LevelStays(steps: u16, total: u64, all: nat, g: Callers, i: nat)
    requires Counting(steps, total, all, g) && Level(steps, total, all, g)
    ensures Level(steps, total, all, StepCaller(steps, g, i))
  {
    hide StepOf, Outstanding, Announced, LatestToCome;
    if i < |g.calls| {
      var g' := StepCaller(steps, g, i);
      NoneIsMissing(g.calls, i);
      OneCall(steps, total, g.shared, g.calls[i]);
      if g.calls[i].Todo? {
        CountingStays(steps, total, all, g, i);
        forall k | 0 <= k < |g'.calls| && g'.calls[k].Todo?
          ensures StepOf(g'.shared.count + g'.calls[k].amount, total, steps) == StepOf(all, total, steps)
        {
          assert g.calls[k] == g'.calls[k];
          NoneIsMissing(g'.calls, k);
          StepGrows(g.shared.count + g.calls[k].amount, g'.shared.count + g.calls[k].amount, total, steps);
          StepGrows(g'.shared.count + g.calls[k].amount, all, total, steps);
        }
      }
    }
  }

  lemma FreshPairStays(steps: u16, total: u64, all: nat, g: Callers, i: nat)
    requires Counting(steps, total, all, g) && FreshPair(steps, total, all, g)
    ensures Calm(steps, total, all, StepCaller(steps, g, i))
  {
    hide StepOf, Announced, LatestToCome, Outstanding;
    if i < 2 {
      var g' := StepCaller(steps, g, i);
      var k := 1 - i;
      NoneIsMissing(g.calls, i);
      OutstandingOfTwo(g.calls);
      assert g'.calls[i] == Added(g.calls[i].amount) && g'.calls[k] == g.calls[k];
      if StepOf(g.calls[i].amount, total, steps) == 0 {
        assert Lone(steps, total, all, g');
      } else {
        assert Level(steps, total, all, g');
      }
    }
  }

  lemma OutstandingOfTwo(calls: seq<Call>)
    requires |calls| == 2 && calls[0].Todo? && calls[1].Todo?
    ensures Outstanding(calls) == calls[0].amount + calls[1].amount
  {
    var first := calls[..1];
    assert first[..0] == [] && first[0] == calls[0];
    assert Outstanding(first) == Outstanding(first[..0]) + calls[0].amount;
  }

  predicate Calm(steps: u16, total: u64, all: nat, g: Callers)
    requires total > 0
  {
    Lone(steps, total, all, g) || Level(steps, total, all, g) || FreshPair(steps, total, all, g)
  }

  lemma StartsCalm(steps: u16, total: u64, amounts: seq<u64>)
    requires total > 0 && AlwaysRises(steps, total, amounts)
    ensures Calm(steps, total, Total(amounts), Starting(total, amounts))
  {
    hide StepOf, Total;
    var g := Starting(total, amounts);
    var top := StepOf(Total(amounts), total, steps);
    if |amounts| <= 1 {
      assert Lone(steps, total, Total(amounts), g);
    } else if |amounts| == 2 && forall i | 0 <= i < |amounts| :: StepOf(amounts[i], total, steps) in {0, top} {
      assert FreshPair(steps, total, Total(amounts), g);
    } else if forall i | 0 <= i < |amounts| :: StepOf(amounts[i], total, steps) == top {
      assert Level(steps, total, Total(amounts), g);
    } else {
      forall k | 0 <= k < |amounts|
        ensures amounts[k] <= Total(amounts) && StepOf(Total(amounts) - amounts[k], total, steps) == 0
      {
        assert StepOf(Without(amounts, k), total, steps) == 0;
      }
      assert Lone(steps, total, Total(amounts), g);
    }
  }

  lemma {:induction false} StaysCalm(steps: u16, total: u64, amounts: seq<u64>, turns: seq<nat>)
    requires total > 0 && total * steps < U64_LIMIT && Total(amounts) < U64_LIMIT
    requires AlwaysRises(steps, total, amounts)
    ensures Calm(steps, total, Total(amounts), Schedule(steps, Starting(total, amounts), turns))
  {
    hide StepCaller, Counting, Lone, Level, FreshPair, AlwaysRises;
    if turns == [] {
      StartsCalm(steps, total, amounts);
    } else {
      var n := |turns| - 1;
      var g := Schedule(steps, Starting(total, amounts), turns[..n]);
      StaysCalm(steps, total, amounts, turns[..n]);
      ScheduleCounts(steps, total, amounts, turns[..n]);
      if Lone(steps, total, Total(amounts), g) {
        LoneStays(steps, total, Total(amounts), g, turns[n]);
      } else if Level(steps, total, Total(amounts), g) {
        LevelStays(steps, total, Total(amounts), g, turns[n]);
      } else {
        FreshPairStays(steps, total, Total(amounts), g, turns[n]);
      }
    }
  }

  // ---- where it does not hold: an overtaken caller ----

  /** A caller overtaken between its swap and its emission: what is emitted falls. */
  lemma Falls(steps: u16, g0: Callers, turns: seq<nat>, x: nat, y: nat)
    requires var g := Schedule(steps, g0, turns);
             && x < |g.calls| && y < |g.calls| && x != y && g.calls[x].Added? && g.calls[y].Added?
             && g.shared.total > 0 && g.shared.total * steps < U64_LIMIT
             && g.shared.lastStep == 0 && g.shared.emitted == []
             && 0 < StepOf(g.calls[x].count, g.shared.total, steps) < StepOf(g.calls[y].count, g.shared.total, steps)
    ensures var g := Schedule(steps, g0, turns);
            var small := StepOf(g.calls[x].count, g.shared.total, steps);
            var big := StepOf(g.calls[y].count, g.shared.total, steps);
            Schedule(steps, g0, turns + [x, y, x] + [y, y, x])
            == Callers(Shared(g.shared.count, g.shared.total, big, [big, small]), g.calls[x := Done][y := Done])
  {
    hide Schedule, StepOf;
    var g := Schedule(steps, g0, turns);
    var Shared(count, total, _, _) := g.shared;
    var cx, cy := g.calls[x].count, g.calls[y].count;
    NoOverflow(cx, total, steps);
    NoOverflow(cy, total, steps);
    var small, big := StepOf(cx, total, steps), StepOf(cy, total, steps);
    ThreeTurns(steps, g0, turns, x, y, x);
    var g1 := Callers(Shared(count, total, small, []), g.calls[x := Swapped(small, 0)][y := Loaded(cy, total)]);
    assert Schedule(steps, g0, turns + [x, y, x]) == g1;
    ThreeTurns(steps, g0, turns + [x, y, x], y, y, x);
    assert g1.calls[y := Swapped(big, small)][y := Done][x := Done] == g.calls[x := Done][y := Done];
  }

  /** A caller with a smaller step that swaps between two with the same one: that one is emitted twice. */
  lemma Repeats(steps: u16, g0: Callers, turns: seq<nat>, x: nat, y: nat, z: nat)
    requires var g := Schedule(steps, g0, turns);
             && x < |g.calls| && y < |g.calls| && z < |g.calls| && x != y && y != z && x != z
             && g.calls[x].Added? && g.calls[y].Added? && g.calls[z].Added?
             && g.shared.total > 0 && g.shared.total * steps < U64_LIMIT
             && g.shared.lastStep == 0 && g.shared.emitted == []
             && StepOf(g.calls[y].count, g.shared.total, steps) < StepOf(g.calls[x].count, g.shared.total, steps)
             && StepOf(g.calls[z].count, g.shared.total, steps) == StepOf(g.calls[x].count, g.shared.total, steps)
    ensures var g := Schedule(steps, g0, turns);
            var step := StepOf(g.calls[x].count, g.shared.total, steps);
            Schedule(steps, g0, turns + [x, y, z] + [x, y, z] + [x, y, z])
            == Callers(Shared(g.shared.count, g.shared.total, step, [step, step]),
                       g.calls[x := Done][y := Done][z := Done])
  {
    hide Schedule, StepOf;
    var g := Schedule(steps, g0, turns);
    var Shared(count, total, _, _) := g.shared;
    var cx, cy, cz := g.calls[x].count, g.calls[y].count, g.calls[z].count;
    NoOverflow(cx, total, steps);
    NoOverflow(cy, total, steps);
    NoOverflow(cz, total, steps);
    var step, less := StepOf(cx, total, steps), StepOf(cy, total, steps);
    LoadsThree(steps, g0, turns, x, y, z);
    var g2 := Callers(Shared(count, total, step, []),
                      g.calls[x := Swapped(step, 0)][y := Swapped(less, step)][z := Swapped(step, less)]);
    ThreeTurns(steps, g0, turns + [x, y, z], x, y, z);
    assert Schedule(steps, g0, turns + [x, y, z] + [x, y, z]).calls == g2.calls;
    ThreeTurns(steps, g0, turns + [x, y, z] + [x, y, z], x, y, z);
    assert g2.calls[x := Done][y := Done][z := Done] == g.calls[x := Done][y := Done][z := Done];
  }

  lemma LoadsThree(steps: u16, g0: Callers, turns: seq<nat>, x: nat, y: nat, z: nat)
    requires var g := Schedule(steps, g0, turns);
             && x < |g.calls| && y < |g.calls| && z < |g.calls| && x != y && y != z && x != z
             && g.calls[x].Added? && g.calls[y].Added? && g.calls[z].Added?
    ensures var g := Schedule(steps, g0, turns);
            var total := g.shared.total;
            Schedule(steps, g0, turns + [x, y, z])
            == Callers(g.shared, g.calls[x := Loaded(g.calls[x].count, total)][y := Loaded(g.calls[y].count, total)]
                                        [z := Loaded(g.calls[z].count, total)])
  {
    hide Schedule, StepOf, Overflows;
    ThreeTurns(steps, g0, turns, x, y, z);
  }

  // ---- bringing callers into line ----

  /** All positions below `n` but these three. */
  function Others(n: nat, p: nat, q: nat, r: nat): seq<nat> {
    if n == 0 then [] else Others(n - 1, p, q, r) + if n - 1 in {p, q, r} then [] else [n - 1]
  }

  /** `p` adds first, `q` last and `r` just before it. */
  function LineUp(n: nat, p: nat, q: nat, r: nat): seq<nat> {
    [p] + Others(n, p, q, r) + [r] + [q]
  }

  /** Some callers have added and nobody has done more. */
  predicate OnlyAdded(total: u64, amounts: seq<u64>, g: Callers) {
    && |g.calls| == |amounts| && g.shared == Shared(g.shared.count, total, 0, [])
    && forall i | 0 <= i < |amounts| :: g.calls[i] == Todo(amounts[i]) || g.calls[i].Added?
  }

  /** One more caller adds. */
  lemma OneAdds(steps: u16, total: u64, amounts: seq<u64>, turns: seq<nat>, i: nat)
    requires total > 0 && total * steps < U64_LIMIT && Total(amounts) < U64_LIMIT && i < |amounts|
    requires var g := Schedule(steps, Starting(total, amounts), turns);
             OnlyAdded(total, amounts, g) && g.calls[i].Todo?
    ensures var g := Schedule(steps, Starting(total, amounts), turns);
            var g' := Schedule(steps, Starting(total, amounts), turns + [i]);
            && OnlyAdded(total, amounts, g') && g'.shared.count == g.shared.count + amounts[i]
            && g'.calls == g.calls[i := Added(g'.shared.count)]
  {
    hide Schedule, StepOf, Outstanding, Announced, LatestToCome, Starting;
    var g := Schedule(steps, Starting(total, amounts), turns);
    ScheduleCounts(steps, total, amounts, turns);
    NoneIsMissing(g.calls, i);
    OneTurn(steps, Starting(total, amounts), turns, i);
  }

  lemma {:induction false} OthersAdd(steps: u16, total: u64, amounts: seq<u64>, p: nat, q: nat, r: nat, k: nat)
    requires total > 0 && total * steps < U64_LIMIT && Total(amounts) < U64_LIMIT
    requires p < |amounts| && q < |amounts| && r < |amounts| && k <= |amounts|
    ensures var g := Schedule(steps, Starting(total, amounts), [p] + Others(k, p, q, r));
            && OnlyAdded(total, amounts, g) && g.calls[p] == Added(amounts[p])
            && forall i | 0 <= i < |amounts| && i != p :: g.calls[i].Added? <==> i < k && i != q && i != r
  {
    hide Schedule, OnlyAdded;
    if k == 0 {
      FirstAdds(steps, total, amounts, p);
      assert [p] + Others(0, p, q, r) == [p];
    } else {
      OthersAdd(steps, total, amounts, p, q, r, k - 1);
      var turns := [p] + Others(k - 1, p, q, r);
      var g := Schedule(steps, Starting(total, amounts), turns);
      AddedOrTodo(total, amounts, g);
      if k - 1 in {p, q, r} {
        assert [p] + Others(k, p, q, r) == turns;
      } else {
        OneAdds(steps, total, amounts, turns, k - 1);
        assert [p] + Others(k, p, q, r) == turns + [k - 1];
      }
    }
  }

  lemma AddedOrTodo(total: u64, amounts: seq<u64>, g: Callers)
    requires OnlyAdded(total, amounts, g)
    ensures |g.calls| == |amounts|
    ensures forall i | 0 <= i < |amounts| :: !g.calls[i].Added? ==> g.calls[i] == Todo(amounts[i])
  {
  }

  lemma FirstAdds(steps: u16, total: u64, amounts: seq<u64>, p: nat)
    requires total > 0 && total * steps < U64_LIMIT && Total(amounts) < U64_LIMIT && p < |amounts|
    ensures var g := Schedule(steps, Starting(total, amounts), [p]);
            && OnlyAdded(total, amounts, g) && g.shared.count == amounts[p]
            && g.calls == Starting(total, amounts).calls[p := Added(amounts[p])]
  {
    hide Schedule;
    NoTurns(steps, Starting(total, amounts));
    OneAdds(steps, total, amounts, [], p);
    assert [] + [p] == [p];
  }

  lemma {:induction false} OneLeft(calls: seq<Call>, q: nat)
    requires q < |calls| && calls[q].Todo? && forall i | 0 <= i < |calls| && i != q :: !calls[i].Todo?
    ensures Outstanding(calls) == calls[q].amount
  {
    var n := |calls| - 1;
    if q == n {
      NobodyLeft(calls[..n]);
    } else {
      OneLeft(calls[..n], q);
    }
  }

  lemma {:induction false} NobodyLeft(calls: seq<Call>)
    requires forall i | 0 <= i < |calls| :: !calls[i].Todo?
    ensures Outstanding(calls) == 0
  {
    if calls != [] {
      NobodyLeft(calls[..|calls| - 1]);
    }
  }

  /** In line: the first caller has its own amount, the last all of it, and the one before all but the last's. */
  lemma LinedUp(steps: u16, total: u64, amounts: seq<u64>, p: nat, q: nat, r: nat)
    requires total > 0 && total * steps < U64_LIMIT && Total(amounts) < U64_LIMIT
    requires p < |amounts| && q < |amounts| && r < |amounts| && p != q && q != r && p != r
    ensures var g := Schedule(steps, Starting(total, amounts), LineUp(|amounts|, p, q, r));
            && OnlyAdded(total, amounts, g) && g.shared.count == Total(amounts)
            && g.calls[p] == Added(amounts[p]) && g.calls[r] == Added(Without(amounts, q))
            && g.calls[q] == Added(Total(amounts))
  {
    hide Schedule, OnlyAdded, Outstanding, Announced, LatestToCome, StepOf, Starting;
    var n := |amounts|;
    var turns := [p] + Others(n, p, q, r);
    OthersAdd(steps, total, amounts, p, q, r, n);
    AddedOrTodo(total, amounts, Schedule(steps, Starting(total, amounts), turns));
    OneAdds(steps, total, amounts, turns, r);
    var g := Schedule(steps, Starting(total, amounts), turns + [r]);
    ScheduleCounts(steps, total, amounts, turns + [r]);
    OneLeft(g.calls, q);
    OneAdds(steps, total, amounts, turns + [r], q);
  }

  lemma PairLinedUp(steps: u16, total: u64, amounts: seq<u64>, p: nat, q: nat)
    requires total > 0 && total * steps < U64_LIMIT && Total(amounts) < U64_LIMIT
    requires |amounts| == 2 && p < 2 && q < 2 && p != q
    ensures var g := Schedule(steps, Starting(total, amounts), [p, q]);
            && OnlyAdded(total, amounts, g) && g.shared.count == Total(amounts)
            && g.calls[p] == Added(amounts[p]) && g.calls[q] == Added(Total(amounts))
  {
    hide Schedule, OnlyAdded, Outstanding, Announced, LatestToCome, StepOf;
    FirstAdds(steps, total, amounts, p);
    var g := Schedule(steps, Starting(total, amounts), [p]);
    ScheduleCounts(steps, total, amounts, [p]);
    OneLeft(g.calls, q);
    OneAdds(steps, total, amounts, [p], q);
    assert [p] + [q] == [p, q];
  }

  lemma TwoDoNotRise(a: u16, b: u16, steps: u16)
    requires a >= b
    ensures !Rising([a, b], steps)
  {
    var s := [a, b];
    assert !(s[0] < s[0 + 1]);
  }

  // ---- every violating input ----

  /** With at least three callers a violation has two different witnesses: one that alone stays below the
      last step, and one without which the others still reach a step. */
  lemma Witnesses(steps: u16, total: u64, amounts: seq<u64>) returns (p: nat, q: nat, r: nat)
    requires total > 0 && |amounts| >= 3 && !AlwaysRises(steps, total, amounts)
    ensures p < |amounts| && q < |amounts| && r < |amounts| && p != q && q != r && p != r
    ensures StepOf(amounts[p], total, steps) < StepOf(Total(amounts), total, steps)
    ensures 0 < StepOf(Without(amounts, q), total, steps) <= StepOf(Total(amounts), total, steps)
  {
    hide StepOf, Total;
    var top := StepOf(Total(amounts), total, steps);
    p :| 0 <= p < |amounts| && StepOf(amounts[p], total, steps) != top;
    q :| 0 <= q < |amounts| && StepOf(Without(amounts, q), total, steps) > 0;
    PartOfTotal(amounts, p);
    StepGrows(amounts[p], Total(amounts), total, steps);
    StepGrows(Without(amounts, q), Total(amounts), total, steps);
    if p == q {
      var j := if p == 0 then 1 else 0;
      var k := if p <= 1 then 2 else 1;
      if StepOf(Without(amounts, j), total, steps) > 0 {
        StepGrows(Without(amounts, j), Total(amounts), total, steps);
        q, r := j, k;
      } else {
        TwoPartsOfTotal(amounts, Min(j, k), if j < k then k else j);
        StepGrows(amounts[k], Without(amounts, j), total, steps);
        p, r := k, j;
      }
    } else {
      r := if p != 0 && q != 0 then 0 else if p != 1 && q != 1 then 1 else 2;
    }
  }

  /** From any violating input: a schedule whose emissions do not rise. */
  lemma DoesNotRise(steps: u16, total: u64, amounts: seq<u64>) returns (turns: seq<nat>)
    requires total > 0 && total * steps < U64_LIMIT && Total(amounts) < U64_LIMIT && !AlwaysRises(steps, total, amounts)
    ensures !Rising(Schedule(steps, Starting(total, amounts), turns).shared.emitted, steps)
  {
    hide StepOf, Total, Schedule, AlwaysRises, Starting;
    if |amounts| <= 2 {
      turns := PairDoesNotRise(steps, total, amounts);
    } else {
      var p, q, r := Witnesses(steps, total, amounts);
      var line := LineUp(|amounts|, p, q, r);
      LinedUp(steps, total, amounts, p, q, r);
      var top, most := StepOf(Total(amounts), total, steps), StepOf(Without(amounts, q), total, steps);
      TwoDoNotRise(top, most, steps);
      if StepOf(Without(amounts, q), total, steps) == StepOf(Total(amounts), total, steps) {
        Repeats(steps, Starting(total, amounts), line, r, p, q);
        turns := line + [r, p, q] + [r, p, q] + [r, p, q];
      } else {
        Falls(steps, Starting(total, amounts), line, r, q);
        turns := line + [r, q, r] + [q, q, r];
      }
    }
  }

  lemma PairDoesNotRise(steps: u16, total: u64, amounts: seq<u64>) returns (turns: seq<nat>)
    requires total > 0 && total * steps < U64_LIMIT && Total(amounts) < U64_LIMIT
    requires |amounts| <= 2 && !AlwaysRises(steps, total, amounts)
    ensures !Rising(Schedule(steps, Starting(total, amounts), turns).shared.emitted, steps)
  {
    hide StepOf, Total, Schedule, Starting;
    var p :| 0 <= p < |amounts| && StepOf(amounts[p], total, steps) !in {0, StepOf(Total(amounts), total, steps)};
    var q := 1 - p;
    PartOfTotal(amounts, p);
    StepGrows(amounts[p], Total(amounts), total, steps);
    PairLinedUp(steps, total, amounts, p, q);
    TwoDoNotRise(StepOf(Total(amounts), total, steps), StepOf(amounts[p], total, steps), steps);
    Falls(steps, Starting(total, amounts), [p, q], p, q);
    turns := [p, q] + [p, q, p] + [q, q, p];
  }

  /** Emissions rise strictly in every interleaving if and only if the condition holds. */
  lemma RisingExactly(steps: u16, total: u64, amounts: seq<u64>)
    requires total > 0 && total * steps < U64_LIMIT && Total(amounts) < U64_LIMIT
    ensures (forall turns :: Rising(Schedule(steps, Starting(total, amounts), turns).shared.emitted, steps))
            <==> AlwaysRises(steps, total, amounts)
  {
    hide Schedule, StepOf, Total, AlwaysRises, Starting;
    if AlwaysRises(steps, total, amounts) {
      forall turns ensures Rising(Schedule(steps, Starting(total, amounts), turns).shared.emitted, steps) {
        StaysCalm(steps, total, amounts, turns);
      }
    } else {
      var turns := DoesNotRise(steps, total, amounts);
    }
  }

  // ---- runs that come to their end ----

  predicate Finished(g: Callers) {
    forall i | 0 <= i < |g.calls| :: g.calls[i].Done?
  }

  /** Further turns only add to what is emitted. */
  lemma {:induction false} EmitsOn(steps: u16, g: Callers, turns: seq<nat>, more: seq<nat>)
    ensures Schedule(steps, g, turns).shared.emitted <= Schedule(steps, g, turns + more).shared.emitted
  {
    hide Schedule, StepOf, Overflows;
    if more == [] {
      assert turns + more == turns;
    } else {
      var n := |more| - 1;
      EmitsOn(steps, g, turns, more[..n]);
      OneTurn(steps, g, turns + more[..n], more[n]);
      assert turns + more == turns + more[..n] + [more[n]];
    }
  }

  predicate Over(c: Call) {
    c.Done? || c.Panicked?
  }

  /** Four turns bring a call to its end and leave the others alone. */
  lemma FourTurns(steps: u16, g: Callers, turns: seq<nat>, i: nat)
    requires i < |Schedule(steps, g, turns).calls|
    ensures var before := Schedule(steps, g, turns).calls;
            var after := Schedule(steps, g, turns + [i, i, i] + [i]).calls;
            |after| == |before| && Over(after[i]) && forall j | 0 <= j < |before| && j != i :: after[j] == before[j]
  {
    hide Schedule, StepOf, Overflows;
    ThreeTurns(steps, g, turns, i, i, i);
    OneTurn(steps, g, turns + [i, i, i], i);
  }

  lemma {:induction false} RunsOut(steps: u16, g: Callers, turns: seq<nat>, k: nat) returns (more: seq<nat>)
    requires k <= |Schedule(steps, g, turns).calls|
    ensures |Schedule(steps, g, turns + more).calls| == |Schedule(steps, g, turns).calls|
    ensures forall i | 0 <= i < k :: Over(Schedule(steps, g, turns + more).calls[i])
  {
    hide Schedule;
    if k == 0 {
      more := [];
      assert turns + more == turns;
    } else {
      var most := RunsOut(steps, g, turns, k - 1);
      FourTurns(steps, g, turns + most, k - 1);
      more := most + [k - 1, k - 1, k - 1] + [k - 1];
      assert turns + more == turns + most + [k - 1, k - 1, k - 1] + [k - 1];
    }
  }

  lemma RisingFront(s: seq<u16>, t: seq<u16>, steps: u16)
    requires s <= t && Rising(t, steps)
    ensures Rising(s, steps)
  {
    forall i | 0 <= i < |s| ensures 1 <= s[i] <= steps {
      assert s[i] == t[i];
    }
    forall i | 0 <= i < |s| - 1 ensures s[i] < s[i + 1] {
      assert s[i] == t[i] && s[i + 1] == t[i + 1];
    }
  }

  /** The same for the interleavings in which all calls come to their end. */
  lemma RisingExactlyWhenFinished(steps: u16, total: u64, amounts: seq<u64>)
    requires total > 0 && total * steps < U64_LIMIT && Total(amounts) < U64_LIMIT
    ensures (forall turns | Finished(Schedule(steps, Starting(total, amounts), turns)) ::
               Rising(Schedule(steps, Starting(total, amounts), turns).shared.emitted, steps))
            <==> AlwaysRises(steps, total, amounts)
  {
    hide Schedule, StepOf, Total, AlwaysRises, Starting, Rising;
    RisingExactly(steps, total, amounts);
    if !AlwaysRises(steps, total, amounts) {
      var g := Starting(total, amounts);
      var turns := DoesNotRise(steps, total, amounts);
      var more := RunsOut(steps, g, turns, |Schedule(steps, g, turns).calls|);
      EmitsOn(steps, g, turns, more);
      Concurrent(steps, total, amounts, turns + more);
      assert Finished(Schedule(steps, g, turns + more));
      if Rising(Schedule(steps, g, turns + more).shared.emitted, steps) {
        RisingFront(Schedule(steps, g, turns).shared.emitted, Schedule(steps, g, turns + more).shared.emitted, steps);
      }
    }
  }

  // ---- instances ----

  lemma TotalOfTwo(a: u64, b: u64)
    ensures Total([a, b]) == a + b
  {
    var s := [a, b];
    assert s[..1] == [a] && [a][..0] == [] && Total([a]) == Total([a][..0]) + a;
  }

  /** Two callers that each add one of two: the second overtakes the first. */
  lemma EmissionsMayFall()
    ensures Schedule(2, Starting(2, [1, 1]), [0, 1] + [0, 1, 0] + [1, 1, 0])
         == Callers(Shared(2, 2, 2, [2, 1]), [Done, Done])
    ensures !AlwaysRises(2, 2, [1, 1])
  {
    hide Schedule, Total;
    var amounts: seq<u64> := [1, 1];
    TotalOfTwo(1, 1);
    PairLinedUp(2, 2, amounts, 0, 1);
    Falls(2, Starting(2, amounts), [0, 1], 0, 1);
    assert amounts[0] == 1 && StepOf(amounts[0], 2, 2) == 1 && Without(amounts, 0) == 1;
  }

  /** A third one emits a step again after an overtaken caller took the last step back. */
  lemma EmissionsMayRepeat()
    ensures Schedule(2, Starting(2, [1, 1, 0]), [0, 1, 2] + [1, 0, 2] + [1, 0, 2] + [1, 0, 2])
         == Callers(Shared(2, 2, 2, [2, 2]), [Done, Done, Done])
    ensures !AlwaysRises(2, 2, [1, 1, 0])
  {
    hide Schedule, Total;
    var amounts: seq<u64> := [1, 1, 0];
    TotalOfThree(1, 1, 0);
    LinedUp(2, 2, amounts, 0, 2, 1);
    assert LineUp(3, 0, 2, 1) == [0, 1, 2];
    Repeats(2, Starting(2, amounts), [0, 1, 2], 1, 0, 2);
    assert amounts[0] == 1 && StepOf(amounts[0], 2, 2) == 1 && Without(amounts, 2) == 2 && StepOf(2, 2, 2) == 2;
  }

  lemma TotalOfThree(a: u64, b: u64, c: u64)
    ensures Total([a, b, c]) == a + b + c
  {
    var s := [a, b, c];
    assert s[..2] == [a, b];
    TotalOfTwo(a, b);
  }
}
