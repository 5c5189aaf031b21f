/**
 * The reactive state machine, `StateMachine` (src/state_machine.rs): one state
 * value, a clock, a trigger that maps a state to new delayed actions, and a queue
 * of one-shot actions ordered by `delay`. The clock type `O` (an exact
 * `Rational` by default) is modelled as `real`.
 */
module Reactive {
  import opened Options
  import opened EventQueue

  /** `DelayedAction`: a one-shot state transformation and its delay. `DelayedAction::new`
    * is the datatype constructor (the `Into<O>` conversion is the identity on reals). */
  datatype DelayedAction<!S> = DelayedAction(action: S -> S, delay: real)

  /** `PartialEq::eq`: only the delays are compared. */
  function Eq<S>(self: DelayedAction<S>, other: DelayedAction<S>): (r: bool)
    ensures r <==> Cmp(self, other) == Equal
  {
    self.delay == other.delay
  }

  /** `PartialOrd::partial_cmp`: the order of the delays, reversed. */
  function PartialCmp<S>(self: DelayedAction<S>, other: DelayedAction<S>): (r: Option<Ordering>)
    ensures r == Some(Compare(other.delay, self.delay))
  {
    Some(Compare(self.delay, other.delay).Reverse())
  }

  /** `Ord::cmp`: the order of the delays, reversed. */
  function Cmp<S>(self: DelayedAction<S>, other: DelayedAction<S>): (r: Ordering)
    ensures r == Compare(other.delay, self.delay)
  {
    Compare(self.delay, other.delay).Reverse()
  }

  /** Unlike the entity scheduler's entries, here `Ord` and `PartialOrd` agree, and the
    * larger element is the one with the smaller delay. */
  lemma OrdAgreesWithPartialOrd<S>(a: DelayedAction<S>, b: DelayedAction<S>)
    ensures PartialCmp(a, b) == Some(Cmp(a, b))
    ensures Cmp(a, b) == Greater <==> a.delay < b.delay
    ensures Cmp(a, b) == Less <==> b.delay < a.delay
  {
  }

  lemma CmpTotal<S>(q: seq<DelayedAction<S>>)
    ensures TotalOn(q, Cmp)
  {
  }

  /** The heap (a max-heap under the reversed order) pops an action with the smallest delay. */
  lemma PopIsSoonest<S>(q: seq<DelayedAction<S>>, i: int)
    requires 0 <= i < |q|
    ensures IsGreatestAt(q, Cmp, i) <==> forall j :: 0 <= j < |q| ==> q[i].delay <= q[j].delay
  {
    if forall j :: 0 <= j < |q| ==> q[i].delay <= q[j].delay {
      forall j | 0 <= j < |q| ensures Cmp(q[j], q[i]) != Greater {
        OrdAgreesWithPartialOrd(q[j], q[i]);
      }
    }
    if IsGreatestAt(q, Cmp, i) {
      forall j | 0 <= j < |q| ensures q[i].delay <= q[j].delay {
        OrdAgreesWithPartialOrd(q[j], q[i]);
      }
    }
  }

  /** The machine's state, clock and queue, as a value. */
  datatype Config<!S> = Config(state: S, time: real, queue: seq<DelayedAction<S>>)

  /** `StateMachine::new`: the seed is `trigger(&state)` with its delays exactly as returned. */
  function Initial<S>(trigger: S -> seq<DelayedAction<S>>, state: S, time: real): Config<S> {
    Config(state, time, trigger(state))
  }

  /** The new actions with `delay += time` applied to each (src/state_machine.rs:69-72). */
  function Offset<S>(actions: seq<DelayedAction<S>>, time: real): (r: seq<DelayedAction<S>>)
    ensures |r| == |actions|
    ensures forall k :: 0 <= k < |r| ==> r[k].action == actions[k].action
    ensures forall k :: 0 <= k < |r| ==> r[k].delay == actions[k].delay + time
  {
    if |actions| == 0 then [] else [actions[0].(delay := actions[0].delay + time)] + Offset(actions[1..], time)
  }

  /** One iteration of the loop in `run`, popping the action at position `i`. */
  function StepAt<S>(trigger: S -> seq<DelayedAction<S>>, c: Config<S>, i: nat): Config<S>
    requires i < |c.queue|
  {
    var popped := c.queue[i];
    var next := popped.action(c.state);
    var time := c.time + popped.delay;
    Config(next, time, RemoveAt(c.queue, i) + Offset(trigger(next), time))
  }

  /**
   * One iteration applies the popped action to the state and consumes it; the
   * clock grows by the popped `delay` (an absolute due time, so the clock is not
   * set to the due time); every action the trigger yields for the new state is
   * added with the new clock added to its delay; the other pending actions stay.
   */
  lemma StepEffect<S>(trigger: S -> seq<DelayedAction<S>>, c: Config<S>, i: nat)
    requires i < |c.queue|
    ensures var r := StepAt(trigger, c, i);
      var added := trigger(r.state);
      && r.state == c.queue[i].action(c.state)
      && r.time == c.time + c.queue[i].delay
      && |r.queue| == |c.queue| - 1 + |added|
      && (forall k :: 0 <= k < i ==> r.queue[k] == c.queue[k])
      && (forall k :: i <= k < |c.queue| - 1 ==> r.queue[k] == c.queue[k + 1])
      && (forall k :: 0 <= k < |added| ==>
            r.queue[|c.queue| - 1 + k].action == added[k].action &&
            r.queue[|c.queue| - 1 + k].delay == added[k].delay + r.time)
  {
  }

  /**
   * When the trigger yields nothing for the state the popped action produces,
   * the iteration only consumes that action: the queue shrinks by one.
   */
  lemma SilentTriggerShrinks<S>(trigger: S -> seq<DelayedAction<S>>, c: Config<S>, i: nat)
    requires i < |c.queue|
    requires |trigger(c.queue[i].action(c.state))| == 0
    ensures StepAt(trigger, c, i).queue == RemoveAt(c.queue, i)
    ensures |StepAt(trigger, c, i).queue| == |c.queue| - 1
  {
    assert Offset(trigger(c.queue[i].action(c.state)), c.time + c.queue[i].delay) == [];
  }

  /** Every queued action leads, from any state, to one on which the trigger yields nothing. */
  ghost predicate Silent<S(!new)>(trigger: S -> seq<DelayedAction<S>>, q: seq<DelayedAction<S>>)
  {
    forall k, s :: 0 <= k < |q| ==> |trigger(q[k].action(s))| == 0
  }

  /**
   * A queue of actions that all lead to silence stays so: an iteration adds
   * nothing and leaves the remaining actions, which still lead to silence.
   */
  lemma SilentQueueDrains<S(!new)>(trigger: S -> seq<DelayedAction<S>>, c: Config<S>, i: nat)
    requires i < |c.queue| && Silent(trigger, c.queue)
    ensures StepAt(trigger, c, i).queue == RemoveAt(c.queue, i)
    ensures Silent(trigger, StepAt(trigger, c, i).queue)
  {
    SilentTriggerShrinks(trigger, c, i);
    var r := RemoveAt(c.queue, i);
    forall k, s | 0 <= k < |r| ensures |trigger(r[k].action(s))| == 0 {
      if k < i {
        assert r[k] == c.queue[k];
      } else {
        assert r[k] == c.queue[k + 1];
      }
    }
  }

  /** A trigger that answers state 0 with one action to state 1, and nothing else. */
  function OneShot(s: int): seq<DelayedAction<int>> {
    if s == 0 then [DelayedAction(_ => 1, 1.0)] else []
  }

  /** The silence hypothesis is met by a machine `new` builds, with a non-empty seed. */
  lemma OneShotSeedIsSilent()
    ensures |Initial(OneShot, 0, 0.0).queue| == 1
    ensures Silent(OneShot, Initial(OneShot, 0, 0.0).queue)
  {
    var q := Initial(OneShot, 0, 0.0).queue;
    forall k, s | 0 <= k < |q| ensures |OneShot(q[k].action(s))| == 0 {
      assert q[k].action(s) == 1;
    }
  }

  /**
   * `c'` is reached from `c` by `n` iterations of `run`'s loop, each popping an
   * action with the smallest delay.
   */
  ghost predicate Steps<S(!new)>(trigger: S -> seq<DelayedAction<S>>, c: Config<S>, c': Config<S>, n: nat)
    decreases n
  {
    if n == 0 then c' == c
    else exists mid: Config<S>, i: nat ::
      && Steps(trigger, c, mid, n - 1)
      && IsGreatestAt(mid.queue, Cmp, i)
      && c' == StepAt(trigger, mid, i)
  }

  /** One more iteration, popping a soonest action, extends a run by one step. */
  lemma StepsExtend<S(!new)>(trigger: S -> seq<DelayedAction<S>>, c: Config<S>, mid: Config<S>, n: nat, i: nat)
    requires Steps(trigger, c, mid, n) && IsGreatestAt(mid.queue, Cmp, i)
    ensures Steps(trigger, c, StepAt(trigger, mid, i), n + 1)
  {
  }

  /**
   * What `run` knows after `n` iterations from `c`: it reached `mid` by them,
   * and when `c`'s actions all lead to silence, each iteration consumed one of them.
   */
  ghost predicate RunSoFar<S(!new)>(trigger: S -> seq<DelayedAction<S>>, c: Config<S>, mid: Config<S>, n: nat)
  {
    && Steps(trigger, c, mid, n)
    && (Silent(trigger, c.queue) ==> Silent(trigger, mid.queue) && |mid.queue| + n == |c.queue|)
  }

  lemma RunSoFarExtend<S(!new)>(trigger: S -> seq<DelayedAction<S>>, c: Config<S>, mid: Config<S>, n: nat, i: nat)
    requires RunSoFar(trigger, c, mid, n) && IsGreatestAt(mid.queue, Cmp, i)
    ensures RunSoFar(trigger, c, StepAt(trigger, mid, i), n + 1)
  {
    StepsExtend(trigger, c, mid, n, i);
    if Silent(trigger, c.queue) {
      SilentQueueDrains(trigger, mid, i);
    }
  }

  class StateMachine<S(!new)> {
    const trigger: S -> seq<DelayedAction<S>>
    var queue: seq<DelayedAction<S>>
    var state: S
    var time: real

    function Current(): Config<S>
      reads this
    {
      Config(state, time, queue)
    }

    /** `StateMachine::new`: the seed actions are queued without adding `time`. */
    constructor (state: S, trigger: S -> seq<DelayedAction<S>>, time: real)
      ensures Current() == Initial(trigger, state, time)
      ensures this.trigger == trigger
    {
      this.trigger := trigger;
      queue := trigger(state);
      this.state := state;
      this.time := time;
    }

    /**
     * One iteration of the `while let` loop in `run`. Returns (as a ghost) the
     * position it popped, which holds an action with the smallest delay; on an
     * empty queue nothing changes.
     */
    method Step() returns (ghost popped: Option<nat>)
      modifies this
      ensures |old(queue)| == 0 ==> popped == None && Current() == old(Current())
      ensures |old(queue)| > 0 ==>
        && popped.Some?
        && IsGreatestAt(old(queue), Cmp, popped.value)
        && Current() == StepAt(trigger, old(Current()), popped.value)
    {
      if |queue| == 0 {
        popped := None;
        return;
      }
      CmpTotal(queue);
      var i := PeekIndex(queue, Cmp);
      popped := Some(i);
      var f := queue[i];
      queue := RemoveAt(queue, i);
      state := f.action(state);
      time := time + f.delay;
      queue := queue + Offset(trigger(state), time);
    }

    /**
     * `run`, cut off after `fuel` iterations: the machine is where that many
     * iterations of the loop take it, it stops early only on an empty queue,
     * and when every queued action leads to silence it makes exactly as many
     * iterations as there were queued actions.
     */
    method Run(fuel: nat) returns (iterations: nat)
      modifies this
      ensures iterations <= fuel
      ensures iterations < fuel ==> |queue| == 0
      ensures Steps(trigger, old(Current()), Current(), iterations)
      ensures Silent(trigger, old(queue)) && |old(queue)| <= fuel ==>
                iterations == |old(queue)| && |queue| == 0
    {
      iterations := 0;
      while iterations < fuel && |queue| > 0
        invariant iterations <= fuel
        invariant RunSoFar(trigger, old(Current()), Current(), iterations)
      {
        ghost var before := Current();
        ghost var popped := Step();
        RunSoFarExtend(trigger, old(Current()), before, iterations, popped.value);
        iterations := iterations + 1;
      }
    }
  }
}
