/**
 * The state machine example (examples/state_machine_example.rs): an integer
 * state, the trigger `generate_events`, and a machine seeded with state 3.
 */
module StateMachineExample {
  import opened EventQueue
  import opened Reactive

  /** `generate_events`. */
  function GenerateEvents(state: int): (r: seq<DelayedAction<int>>)
    ensures state !in {3, 7, 6, 27} ==> |r| == 0
    ensures |r| <= 2
  {
    match state
    case 3 => [DelayedAction(x => x + 4, 3.0)]
    case 7 => [DelayedAction(x => x - 1, 13.0), DelayedAction(x => x + 20, 12.0)]
    case 6 => [DelayedAction(x => x + 9, 0.1)]
    case 27 => [DelayedAction(x => x - 21, 4.0)]
    case _ => []
  }

  /** What `generate_events` yields for each state it reacts to. */
  lemma GenerateEventsCases()
    ensures var r := GenerateEvents(3);
      |r| == 1 && r[0].delay == 3.0 && forall x :: r[0].action(x) == x + 4
    ensures var r := GenerateEvents(7);
      && |r| == 2
      && r[0].delay == 13.0 && (forall x :: r[0].action(x) == x - 1)
      && r[1].delay == 12.0 && (forall x :: r[1].action(x) == x + 20)
    ensures var r := GenerateEvents(6);
      |r| == 1 && r[0].delay == 0.1 && forall x :: r[0].action(x) == x + 9
    ensures var r := GenerateEvents(27);
      |r| == 1 && r[0].delay == 4.0 && forall x :: r[0].action(x) == x - 21
  {
  }

  /** The amount each action of `generate_events(state)` adds to the state. */
  function Increments(state: int): (r: seq<int>)
    ensures |r| == |GenerateEvents(state)|
  {
    match state
    case 3 => [4]
    case 7 => [-1, 20]
    case 6 => [9]
    case 27 => [-21]
    case _ => []
  }

  /** Action `k` of `q` adds `ds[k]` to whatever state it is applied to. */
  ghost predicate Adds(q: seq<DelayedAction<int>>, ds: seq<int>) {
    |q| == |ds| && forall k, x :: 0 <= k < |q| ==> q[k].action(x) == x + ds[k]
  }

  lemma GenerateEventsAdds(state: int)
    ensures Adds(GenerateEvents(state), Increments(state))
  {
  }

  /**
   * One iteration, seen through the increments of the pending actions: for a
   * trigger whose actions for the new state add the amounts `inc` gives, the
   * state grows by the popped amount and the other amounts stay pending.
   */
  lemma AddsStep(trigger: int -> seq<DelayedAction<int>>, inc: int -> seq<int>, c: Config<int>, ds: seq<int>, i: nat)
    requires Adds(c.queue, ds) && i < |ds|
    requires Adds(trigger(c.state + ds[i]), inc(c.state + ds[i]))
    ensures StepAt(trigger, c, i).state == c.state + ds[i]
    ensures Adds(StepAt(trigger, c, i).queue, RemoveAt(ds, i) + inc(c.state + ds[i]))
  {
    var next := c.state + ds[i];
    var q := StepAt(trigger, c, i).queue;
    var e := RemoveAt(ds, i) + inc(next);
    forall k, x | 0 <= k < |q| ensures q[k].action(x) == x + e[k] {
      if k < i {
      } else if k < |c.queue| - 1 {
      } else {
        assert q[k].action == trigger(next)[k - (|c.queue| - 1)].action;
      }
    }
  }

  /** Whatever action is popped at each iteration (the clock ignored), the run applies
    * at most `fuel` actions and stops in a state of `finals`. */
  ghost predicate EveryRunEndsIn(trigger: int -> seq<DelayedAction<int>>, c: Config<int>, fuel: nat, finals: set<int>)
    decreases fuel
  {
    if |c.queue| == 0 then c.state in finals
    else fuel > 0 && forall i :: 0 <= i < |c.queue| ==> EveryRunEndsIn(trigger, StepAt(trigger, c, i), fuel - 1, finals)
  }

  /** The same question asked of the increments alone. */
  ghost predicate EveryRunEndsInAbstract(inc: int -> seq<int>, state: int, ds: seq<int>, fuel: nat, finals: set<int>)
    decreases fuel
  {
    if |ds| == 0 then state in finals
    else fuel > 0 && forall i :: 0 <= i < |ds| ==>
      EveryRunEndsInAbstract(inc, state + ds[i], RemoveAt(ds, i) + inc(state + ds[i]), fuel - 1, finals)
  }

  lemma {:induction false} AbstractRunsMatch(trigger: int -> seq<DelayedAction<int>>, inc: int -> seq<int>,
                                             c: Config<int>, ds: seq<int>, fuel: nat, finals: set<int>)
    requires forall s :: Adds(trigger(s), inc(s))
    requires Adds(c.queue, ds)
    requires EveryRunEndsInAbstract(inc, c.state, ds, fuel, finals)
    ensures EveryRunEndsIn(trigger, c, fuel, finals)
    decreases fuel
  {
    if |ds| > 0 {
      forall i | 0 <= i < |c.queue| ensures EveryRunEndsIn(trigger, StepAt(trigger, c, i), fuel - 1, finals) {
        var next := c.state + ds[i];
        AddsStep(trigger, inc, c, ds, i);
        var rest := RemoveAt(ds, i) + inc(next);
        assert EveryRunEndsInAbstract(inc, next, rest, fuel - 1, finals);
        AbstractRunsMatch(trigger, inc, StepAt(trigger, c, i), rest, fuel - 1, finals);
      }
    }
  }

  /** The abstract question one iteration deep: every choice of the next action succeeds. */
  lemma UnfoldAbstract(inc: int -> seq<int>, state: int, ds: seq<int>, fuel: nat, finals: set<int>)
    requires fuel > 0 && |ds| > 0
    requires forall i :: 0 <= i < |ds| ==>
      EveryRunEndsInAbstract(inc, state + ds[i], RemoveAt(ds, i) + inc(state + ds[i]), fuel - 1, finals)
    ensures EveryRunEndsInAbstract(inc, state, ds, fuel, finals)
  {
  }

  lemma UnfoldOne(inc: int -> seq<int>, state: int, d: int, fuel: nat, finals: set<int>)
    requires fuel > 0
    requires EveryRunEndsInAbstract(inc, state + d, inc(state + d), fuel - 1, finals)
    ensures EveryRunEndsInAbstract(inc, state, [d], fuel, finals)
  {
    assert RemoveAt([d], 0) + inc(state + d) == inc(state + d);
    UnfoldAbstract(inc, state, [d], fuel, finals);
  }

  lemma UnfoldTwo(inc: int -> seq<int>, state: int, d0: int, d1: int, fuel: nat, finals: set<int>)
    requires fuel > 0
    requires EveryRunEndsInAbstract(inc, state + d0, [d1] + inc(state + d0), fuel - 1, finals)
    requires EveryRunEndsInAbstract(inc, state + d1, [d0] + inc(state + d1), fuel - 1, finals)
    ensures EveryRunEndsInAbstract(inc, state, [d0, d1], fuel, finals)
  {
    var ds := [d0, d1];
    forall i | 0 <= i < |ds|
      ensures EveryRunEndsInAbstract(inc, state + ds[i], RemoveAt(ds, i) + inc(state + ds[i]), fuel - 1, finals)
    {
      if i == 0 {
        assert RemoveAt(ds, 0) == [d1];
      } else {
        assert RemoveAt(ds, 1) == [d0];
      }
    }
    UnfoldAbstract(inc, state, ds, fuel, finals);
  }

  /** The states the example can stop in. */
  const ExampleFinals: set<int> := {5, 14, 35}

  /** After `7 - 1`: the pending `+20` and `+9` lead to 35 in either order. */
  lemma AfterMinusOne(F: set<int>)
    requires 35 in F
    ensures EveryRunEndsInAbstract(Increments, 6, [20, 9], 3, F)
  {
    assert EveryRunEndsInAbstract(Increments, 35, Increments(35), 1, F);
    UnfoldOne(Increments, 26, 9, 2, F);
    UnfoldOne(Increments, 15, 20, 2, F);
    assert [9] + Increments(26) == [9] && [20] + Increments(15) == [20];
    UnfoldTwo(Increments, 6, 20, 9, 3, F);
  }

  /** At 26 with `-21` pending: the run ends in 5. */
  lemma From26(F: set<int>)
    requires 5 in F
    ensures EveryRunEndsInAbstract(Increments, 26, [-21], 2, F)
  {
    assert EveryRunEndsInAbstract(Increments, 5, Increments(5), 1, F);
    UnfoldOne(Increments, 26, -21, 2, F);
  }

  /** At 5 with `+9` pending: the run ends in 14. */
  lemma From5(F: set<int>)
    requires 14 in F
    ensures EveryRunEndsInAbstract(Increments, 5, [9], 1, F)
  {
    assert EveryRunEndsInAbstract(Increments, 14, Increments(14), 0, F);
    UnfoldOne(Increments, 5, 9, 1, F);
  }

  /** At 15 with `-1` pending: the run ends in 14. */
  lemma From15(F: set<int>)
    requires 14 in F
    ensures EveryRunEndsInAbstract(Increments, 15, [-1], 1, F)
  {
    assert EveryRunEndsInAbstract(Increments, 14, Increments(14), 0, F);
    UnfoldOne(Increments, 15, -1, 1, F);
  }

  /** At 6 with `-1` and `+9` pending: the run ends in 14 in either order. */
  lemma From6(F: set<int>)
    requires 14 in F
    ensures EveryRunEndsInAbstract(Increments, 6, [-1, 9], 2, F)
  {
    From5(F);
    From15(F);
    assert [9] + Increments(5) == [9] && [-1] + Increments(15) == [-1];
    UnfoldTwo(Increments, 6, -1, 9, 2, F);
  }

  /** After `7 + 20`: the pending `-1` and `-21` (and the `+9` it may add) lead to 5 or 14. */
  lemma AfterPlusTwenty(F: set<int>)
    requires 5 in F && 14 in F
    ensures EveryRunEndsInAbstract(Increments, 27, [-1, -21], 3, F)
  {
    From26(F);
    From6(F);
    assert [-21] + Increments(26) == [-21] && [-1] + Increments(6) == [-1, 9];
    UnfoldTwo(Increments, 27, -1, -21, 3, F);
  }

  /** From state 3, every order of the reachable increments ends in 5, 14 or 35. */
  lemma ExampleIncrementsEnd(F: set<int>)
    requires ExampleFinals <= F
    ensures EveryRunEndsInAbstract(Increments, 3, [4], 5, F)
  {
    AfterMinusOne(F);
    AfterPlusTwenty(F);
    assert [20] + Increments(6) == [20, 9] && [-1] + Increments(27) == [-1, -21];
    UnfoldTwo(Increments, 7, -1, 20, 4, F);
    UnfoldOne(Increments, 3, 4, 5, F);
  }

  /**
   * Seeded with state 3 at any initial time, and whatever the pop order, the
   * example applies at most five actions, stops, and ends in state 5, 14 or 35.
   */
  lemma ExampleTerminates(t0: real)
    ensures EveryRunEndsIn(GenerateEvents, Initial(GenerateEvents, 3, t0), 5, ExampleFinals)
  {
    forall s ensures Adds(GenerateEvents(s), Increments(s)) {
      GenerateEventsAdds(s);
    }
    ExampleIncrementsEnd(ExampleFinals);
    AbstractRunsMatch(GenerateEvents, Increments, Initial(GenerateEvents, 3, t0), [4], 5, ExampleFinals);
  }

  /** The first action applied is `+4`, reaching state 7 at clock `t0 + 3.0`. */
  lemma ExampleFirstAction(t0: real)
    ensures var c0 := Initial(GenerateEvents, 3, t0);
      && |c0.queue| == 1
      && IsGreatestAt(c0.queue, Cmp, 0)
      && StepAt(GenerateEvents, c0, 0).state == 7
      && StepAt(GenerateEvents, c0, 0).time == t0 + 3.0
  {
    PopIsSoonest(Initial(GenerateEvents, 3, t0).queue, 0);
  }

  /** Popping, at every iteration, an action with the smallest delay, the run
    * applies at most `fuel` actions and stops in state `final`. */
  ghost predicate SoonestRunEndsIn(c: Config<int>, fuel: nat, final: int)
    decreases fuel
  {
    if |c.queue| == 0 then c.state == final
    else fuel > 0 && forall i :: IsGreatestAt(c.queue, Cmp, i) ==> SoonestRunEndsIn(StepAt(GenerateEvents, c, i), fuel - 1, final)
  }

  /** An action whose delay is strictly below all others is the only one the heap can pop. */
  lemma OnlySoonest(q: seq<DelayedAction<int>>, i: nat)
    requires i < |q|
    requires forall j :: 0 <= j < |q| && j != i ==> q[i].delay < q[j].delay
    ensures IsGreatestAt(q, Cmp, i)
    ensures forall k :: IsGreatestAt(q, Cmp, k) ==> k == i
  {
    PopIsSoonest(q, i);
    forall k | IsGreatestAt(q, Cmp, k) ensures k == i {
      PopIsSoonest(q, k);
      assert q[k].delay <= q[i].delay;
    }
  }

  /** What the machine looks like after its first iteration from state 3 at clock `t0`. */
  ghost predicate AfterFirst(c1: Config<int>, t0: real) {
    && c1.state == 7 && c1.time == t0 + 3.0 && Adds(c1.queue, [-1, 20])
    && c1.queue[0].delay == t0 + 16.0 && c1.queue[1].delay == t0 + 15.0
  }

  /** What the machine looks like after its second iteration. */
  ghost predicate AfterSecond(c2: Config<int>, t0: real) {
    && c2.state == 27 && c2.time == 2.0 * t0 + 18.0 && Adds(c2.queue, [-1, -21])
    && c2.queue[0].delay == t0 + 16.0 && c2.queue[1].delay == 2.0 * t0 + 22.0
  }

  lemma FirstStep(t0: real)
    ensures AfterFirst(StepAt(GenerateEvents, Initial(GenerateEvents, 3, t0), 0), t0)
  {
    var c0 := Initial(GenerateEvents, 3, t0);
    GenerateEventsAdds(3);
    GenerateEventsAdds(7);
    AddsStep(GenerateEvents, Increments, c0, [4], 0);
    StepEffect(GenerateEvents, c0, 0);
    assert RemoveAt([4], 0) + Increments(7) == [-1, 20];
  }

  lemma SecondStep(c1: Config<int>, t0: real)
    requires AfterFirst(c1, t0)
    ensures AfterSecond(StepAt(GenerateEvents, c1, 1), t0)
  {
    GenerateEventsAdds(27);
    AddsStep(GenerateEvents, Increments, c1, [-1, 20], 1);
    StepEffect(GenerateEvents, c1, 1);
    assert RemoveAt([-1, 20], 1) + Increments(27) == [-1, -21];
  }

  /** The first two iterations from state 3 at clock `t0`. */
  lemma FirstTwoSteps(t0: real)
    ensures var c0 := Initial(GenerateEvents, 3, t0);
      var c1 := StepAt(GenerateEvents, c0, 0);
      var c2 := StepAt(GenerateEvents, c1, 1);
      && |c1.queue| == 2 && c1.state == 7 && c1.time == t0 + 3.0
      && c1.queue[0].delay == t0 + 16.0 && c1.queue[1].delay == t0 + 15.0
      && Adds(c2.queue, [-1, -21])
      && c2.state == 27 && c2.time == 2.0 * t0 + 18.0
      && |c2.queue| == 2 && c2.queue[0].delay == t0 + 16.0 && c2.queue[1].delay == 2.0 * t0 + 22.0
  {
    FirstStep(t0);
    SecondStep(StepAt(GenerateEvents, Initial(GenerateEvents, 3, t0), 0), t0);
  }

  /**
   * The clock is not set to the due time of the popped action: from clock 0 the
   * second action popped is `+20`, due at 15.0, yet the clock becomes 18.0,
   * because the absolute due time is added to the clock.
   */
  lemma ClockOvershootsDueTime()
    ensures var c1 := StepAt(GenerateEvents, Initial(GenerateEvents, 3, 0.0), 0);
      && |c1.queue| == 2
      && IsGreatestAt(c1.queue, Cmp, 1)
      && c1.queue[1].delay == 15.0
      && StepAt(GenerateEvents, c1, 1).time == 18.0
  {
    FirstTwoSteps(0.0);
    var c1 := StepAt(GenerateEvents, Initial(GenerateEvents, 3, 0.0), 0);
    OnlySoonest(c1.queue, 1);
  }

  /** An action due strictly before all others is popped; if the run from there
    * succeeds, so does the run from here. */
  lemma SoonestStep(c: Config<int>, fuel: nat, final: int, i: nat)
    requires fuel > 0 && i < |c.queue|
    requires forall j :: 0 <= j < |c.queue| && j != i ==> c.queue[i].delay < c.queue[j].delay
    requires SoonestRunEndsIn(StepAt(GenerateEvents, c, i), fuel - 1, final)
    ensures SoonestRunEndsIn(c, fuel, final)
  {
    OnlySoonest(c.queue, i);
  }

  /** A last pending action that adds `d` takes `state` to `state + d`, where the trigger is silent. */
  lemma LastAction(c: Config<int>, d: int, final: int)
    requires Adds(c.queue, [d]) && c.state + d == final && |GenerateEvents(final)| == 0
    ensures SoonestRunEndsIn(c, 1, final)
  {
    GenerateEventsAdds(final);
    AddsStep(GenerateEvents, Increments, c, [d], 0);
    assert RemoveAt([d], 0) + Increments(final) == [];
    SoonestStep(c, 1, final, 0);
  }

  /** At 27 with `-1` due before `-21`: the run ends in 5. */
  lemma LateFrom27(c2: Config<int>)
    requires c2.state == 27 && Adds(c2.queue, [-1, -21])
    requires c2.queue[0].delay < c2.queue[1].delay
    ensures SoonestRunEndsIn(c2, 2, 5)
  {
    GenerateEventsAdds(26);
    AddsStep(GenerateEvents, Increments, c2, [-1, -21], 0);
    assert RemoveAt([-1, -21], 0) + Increments(26) == [-21];
    LastAction(StepAt(GenerateEvents, c2, 0), -21, 5);
    SoonestStep(c2, 2, 5, 0);
  }

  /** From an initial clock above -6 the soonest-first run ends in state 5 after four actions. */
  lemma SoonestRunFromLateStart(t0: real)
    requires t0 > -6.0
    ensures SoonestRunEndsIn(Initial(GenerateEvents, 3, t0), 4, 5)
  {
    var c0 := Initial(GenerateEvents, 3, t0);
    var c1 := StepAt(GenerateEvents, c0, 0);
    FirstStep(t0);
    SecondStep(c1, t0);
    LateFrom27(StepAt(GenerateEvents, c1, 1));
    SoonestStep(c1, 3, 5, 1);
    SoonestStep(c0, 4, 5, 0);
  }

  /** At 6 with `+9` due before `-1`: the run ends in 14. */
  lemma EarlyFrom6(c3: Config<int>)
    requires c3.state == 6 && Adds(c3.queue, [-1, 9])
    requires c3.queue[1].delay < c3.queue[0].delay
    ensures SoonestRunEndsIn(c3, 2, 14)
  {
    GenerateEventsAdds(15);
    AddsStep(GenerateEvents, Increments, c3, [-1, 9], 1);
    assert RemoveAt([-1, 9], 1) + Increments(15) == [-1];
    LastAction(StepAt(GenerateEvents, c3, 1), -1, 14);
    SoonestStep(c3, 2, 14, 1);
  }

  /** At 27 after an early start: `-21` comes due first, and the `+9` it schedules
    * comes due before the `-1`, so the run ends in 14. */
  lemma EarlyFrom27(c2: Config<int>, t0: real)
    requires t0 <= -10.0 && AfterSecond(c2, t0)
    ensures SoonestRunEndsIn(c2, 3, 14)
  {
    var c3 := StepAt(GenerateEvents, c2, 1);
    GenerateEventsAdds(6);
    AddsStep(GenerateEvents, Increments, c2, [-1, -21], 1);
    StepEffect(GenerateEvents, c2, 1);
    assert RemoveAt([-1, -21], 1) + Increments(6) == [-1, 9];
    assert c3.queue[0].delay == t0 + 16.0 && c3.queue[1].delay == 4.0 * t0 + 40.1;
    EarlyFrom6(c3);
    SoonestStep(c2, 3, 14, 1);
  }

  /** From an initial clock at or below -10 the soonest-first run ends in state 14 after five actions. */
  lemma SoonestRunFromEarlyStart(t0: real)
    requires t0 <= -10.0
    ensures SoonestRunEndsIn(Initial(GenerateEvents, 3, t0), 5, 14)
  {
    var c0 := Initial(GenerateEvents, 3, t0);
    var c1 := StepAt(GenerateEvents, c0, 0);
    FirstStep(t0);
    SecondStep(c1, t0);
    EarlyFrom27(StepAt(GenerateEvents, c1, 1), t0);
    SoonestStep(c1, 4, 14, 1);
    SoonestStep(c0, 5, 14, 0);
  }

  /** `f32::MIN`, the initial time `main` passes. */
  const F32Min: real := -340282346638528859811704183484516925440.0

  /** The machine `main` builds (state 3, clock `f32::MIN`) ends in state 14. */
  lemma MainRunEndsIn14()
    ensures SoonestRunEndsIn(Initial(GenerateEvents, 3, F32Min), 5, 14)
  {
    SoonestRunFromEarlyStart(F32Min);
  }
}
