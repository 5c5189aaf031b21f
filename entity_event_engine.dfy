/**
 * The entity scheduler, `EntityEventEngine` (src/entity_event_engine.rs).
 *
 * Each entity is rescheduled `speed_to_time_cooldown(speed)` after its last
 * activation. Entities are caller-supplied trait objects in the source; here the
 * engine is generic over the entity type `E` and receives the two capabilities
 * of `TimedEntity` as functions: `speed` (`get_speed`) and `update`, which gets
 * the entity and the game state and returns the liveness flag together with the
 * game state as `update` left it.
 */
module EntityEngine {
  import opened Options
  import opened EventQueue

  /** A speed for which the cooldown is defined (`0.01 * speed + 1.0 != 0`). */
  type Speed = s: real | s != -100.0 witness 0.0

  /** `speed_to_time_cooldown`: the time until the next activation. */
  function SpeedToTimeCooldown(speed: Speed): (cooldown: real)
    ensures speed > -100.0 ==> cooldown > 0.0
    ensures speed >= 0.0 ==> cooldown <= 100.0
    ensures speed < -100.0 ==> cooldown < 0.0
  {
    var d := 0.01 * speed + 1.0;
    assert speed >= 0.0 ==> d >= 1.0;
    100.0 / d
  }

  /** An entity at rest waits exactly the full scale of 100. */
  lemma CooldownAtRest()
    ensures SpeedToTimeCooldown(0.0) == 100.0
  {
  }

  /** A faster entity waits strictly less. */
  lemma CooldownDecreasing(a: Speed, b: Speed)
    requires -100.0 < a < b
    ensures SpeedToTimeCooldown(b) < SpeedToTimeCooldown(a)
  {
    var da, db := 0.01 * a + 1.0, 0.01 * b + 1.0;
    assert 0.0 < da < db;
    var ca, cb := 100.0 / da, 100.0 / db;
    assert ca * da == 100.0 && cb * db == 100.0;
    assert cb > 0.0;
    assert cb * da < cb * db;
    assert cb * da < ca * da;
  }

  /** `EngineTrackedEntity`: an entity key and the time of its next activation. */
  datatype TrackedEntity<K> = TrackedEntity(entityId: K, nextUpdate: real)

  /** `PartialOrd::partial_cmp`: compares `other` with `self`, reversing the order of the times. */
  function PartialCmp<K>(self: TrackedEntity<K>, other: TrackedEntity<K>): (r: Ordering)
    ensures r == Compare(self.nextUpdate, other.nextUpdate).Reverse()
  {
    Compare(other.nextUpdate, self.nextUpdate)
  }

  /** `Ord::cmp`: calls `other.partial_cmp(self)`, which reverses the order once more. */
  function Cmp<K>(self: TrackedEntity<K>, other: TrackedEntity<K>): (r: Ordering)
    ensures r == Compare(self.nextUpdate, other.nextUpdate)
  {
    PartialCmp(other, self)
  }

  /** `PartialEq::eq`: only the times are compared, never the keys. */
  function Eq<K>(self: TrackedEntity<K>, other: TrackedEntity<K>): (r: bool)
    ensures r <==> PartialCmp(self, other) == Equal
  {
    self.nextUpdate == other.nextUpdate
  }

  /** Under `PartialOrd` the later activation is the smaller element. */
  lemma PartialCmpReversesTime<K>(a: TrackedEntity<K>, b: TrackedEntity<K>)
    ensures PartialCmp(a, b) == Greater <==> a.nextUpdate < b.nextUpdate
    ensures PartialCmp(a, b) == Less <==> b.nextUpdate < a.nextUpdate
  {
  }

  /**
   * `Ord` and `PartialOrd` disagree: `cmp` is always the reverse of
   * `partial_cmp`, so on any two different times they give opposite answers.
   */
  lemma OrdContradictsPartialOrd<K>(a: TrackedEntity<K>, b: TrackedEntity<K>)
    ensures Cmp(a, b) == PartialCmp(a, b).Reverse()
    ensures a.nextUpdate != b.nextUpdate ==> Cmp(a, b) != PartialCmp(a, b)
  {
  }

  /** `PartialOrd` is a total preorder on any queue, so the heap's pop is well defined. */
  lemma PartialCmpTotal<K>(q: seq<TrackedEntity<K>>)
    ensures TotalOn(q, PartialCmp)
  {
  }

  /** The entry a pop returns under `PartialOrd` is exactly an earliest one. */
  lemma PopIsEarliest<K>(q: seq<TrackedEntity<K>>, i: int)
    requires 0 <= i < |q|
    ensures IsGreatestAt(q, PartialCmp, i) <==> forall j :: 0 <= j < |q| ==> q[i].nextUpdate <= q[j].nextUpdate
  {
    if forall j :: 0 <= j < |q| ==> q[i].nextUpdate <= q[j].nextUpdate {
      forall j | 0 <= j < |q| ensures PartialCmp(q[j], q[i]) != Greater {
        PartialCmpReversesTime(q[j], q[i]);
      }
    }
    if IsGreatestAt(q, PartialCmp, i) {
      forall j | 0 <= j < |q| ensures q[i].nextUpdate <= q[j].nextUpdate {
        PartialCmpReversesTime(q[j], q[i]);
      }
    }
  }

  /** The engine's three fields, as a value. */
  datatype EngineState<K, E> = EngineState(time: real, gameState: map<K, E>, queue: seq<TrackedEntity<K>>)

  /** The state after `add_entity(key, entity)`. */
  function AddEntityState<K, E>(speed: E -> Speed, st: EngineState<K, E>, key: K, entity: E): (r: EngineState<K, E>)
    ensures r.time == st.time
    ensures key in r.gameState && r.gameState[key] == entity
    ensures |r.queue| == |st.queue| + 1 && r.queue[..|st.queue|] == st.queue
    ensures r.queue[|st.queue|].entityId == key
  {
    EngineState(st.time, st.gameState[key := entity],
                st.queue + [TrackedEntity(key, st.time + SpeedToTimeCooldown(speed(entity)))])
  }

  /** The state after `update_next` has popped the entry at position `i`. */
  function UpdateNextState<K, E>(speed: E -> Speed, update: (E, map<K, E>) -> (bool, map<K, E>),
                                 st: EngineState<K, E>, i: nat): (r: EngineState<K, E>)
    requires i < |st.queue|
    ensures r.time == st.queue[i].nextUpdate
    ensures st.queue[i].entityId !in st.gameState ==> r.gameState == st.gameState && r.queue == RemoveAt(st.queue, i)
    ensures st.queue[i].entityId in st.gameState ==>
      st.queue[i].entityId in r.gameState && r.gameState[st.queue[i].entityId] == st.gameState[st.queue[i].entityId]
    ensures |r.queue| == |st.queue| - 1 || |r.queue| == |st.queue|
    ensures r.queue[..|st.queue| - 1] == RemoveAt(st.queue, i)
  {
    var tracked := st.queue[i];
    var rest := RemoveAt(st.queue, i);
    var now := tracked.nextUpdate;
    if tracked.entityId !in st.gameState then
      EngineState(now, st.gameState, rest)
    else
      var entity := st.gameState[tracked.entityId];
      var next := TrackedEntity(tracked.entityId, now + SpeedToTimeCooldown(speed(entity)));
      var outcome := update(entity, st.gameState - {tracked.entityId});
      EngineState(now, outcome.1[tracked.entityId := entity], if outcome.0 then rest + [next] else rest)
  }

  /** `add_entity` keeps the clock, stores the entity under `key` (replacing any
    * previous one) and pushes exactly one entry, due one cooldown from now. */
  lemma AddEntityEffect<K, E>(speed: E -> Speed, st: EngineState<K, E>, key: K, entity: E)
    ensures var r := AddEntityState(speed, st, key, entity);
      && r.time == st.time
      && key in r.gameState && r.gameState[key] == entity
      && (forall k :: k != key ==> (k in r.gameState <==> k in st.gameState))
      && (forall k :: k != key && k in st.gameState ==> r.gameState[k] == st.gameState[k])
      && multiset(r.queue) == multiset(st.queue) + multiset{TrackedEntity(key, st.time + SpeedToTimeCooldown(speed(entity)))}
  {
  }

  /** No pending entry is due before the clock. */
  ghost predicate NoneOverdue<K, E>(st: EngineState<K, E>) {
    forall j :: 0 <= j < |st.queue| ==> st.time <= st.queue[j].nextUpdate
  }

  /** Every speed the entity type can report lies above -100, so every cooldown is positive. */
  ghost predicate SpeedsAboveMinus100<E(!new)>(speed: E -> Speed) {
    forall e :: speed(e) > -100.0
  }

  /** With speeds above -100, `add_entity` schedules strictly after the clock. */
  lemma AddEntityKeepsNoneOverdue<K, E>(speed: E -> Speed, st: EngineState<K, E>, key: K, entity: E)
    requires NoneOverdue(st)
    requires speed(entity) > -100.0
    ensures NoneOverdue(AddEntityState(speed, st, key, entity))
    ensures var r := AddEntityState(speed, st, key, entity); r.queue[|r.queue| - 1].nextUpdate > r.time
  {
  }

  /**
   * A step that pops an earliest entry moves the clock to that entry's time,
   * never backwards, and leaves no entry overdue.
   */
  lemma UpdateNextKeepsNoneOverdue<K, E(!new)>(speed: E -> Speed, update: (E, map<K, E>) -> (bool, map<K, E>),
                                               st: EngineState<K, E>, i: nat)
    requires i < |st.queue| && IsGreatestAt(st.queue, PartialCmp, i)
    requires NoneOverdue(st)
    requires SpeedsAboveMinus100(speed)
    ensures var r := UpdateNextState(speed, update, st, i);
      && r.time == st.queue[i].nextUpdate
      && st.time <= r.time
      && NoneOverdue(r)
  {
    PopIsEarliest(st.queue, i);
    var r := UpdateNextState(speed, update, st, i);
    var rest := RemoveAt(st.queue, i);
    forall j | 0 <= j < |rest| ensures r.time <= rest[j].nextUpdate {
      if j < i {
        assert rest[j] == st.queue[j];
      } else {
        assert rest[j] == st.queue[j + 1];
      }
    }
    if st.queue[i].entityId in st.gameState {
      var entity := st.gameState[st.queue[i].entityId];
      assert speed(entity) > -100.0;
    }
  }

  /** A popped key that is not in the game state: the entry is consumed and the clock
    * advances; the game state is unchanged and nothing is re-queued. */
  lemma UpdateNextMissingKey<K, E>(speed: E -> Speed, update: (E, map<K, E>) -> (bool, map<K, E>),
                                   st: EngineState<K, E>, i: nat)
    requires i < |st.queue| && st.queue[i].entityId !in st.gameState
    ensures var r := UpdateNextState(speed, update, st, i);
      && r.time == st.queue[i].nextUpdate
      && r.gameState == st.gameState
      && multiset(r.queue) == multiset(st.queue) - multiset{st.queue[i]}
  {
    RemoveAtMultiset(st.queue, i);
  }

  /** The queue after popping a present key: the other entries, then the entity's new
    * entry exactly when `update` reported it alive. */
  lemma UpdateNextRequeue<K, E>(speed: E -> Speed, update: (E, map<K, E>) -> (bool, map<K, E>),
                                st: EngineState<K, E>, i: nat)
    requires i < |st.queue| && st.queue[i].entityId in st.gameState
    ensures var key := st.queue[i].entityId;
      var entity := st.gameState[key];
      var r := UpdateNextState(speed, update, st, i);
      r.queue == if update(entity, st.gameState - {key}).0
                 then RemoveAt(st.queue, i) + [TrackedEntity(key, r.time + SpeedToTimeCooldown(speed(entity)))]
                 else RemoveAt(st.queue, i)
  {
  }

  /**
   * A popped key that is present: `update` sees a game state without the entity;
   * afterwards the entity is back under its key whatever `update` returned, and
   * it is re-queued, one cooldown (for the speed read before `update`) after the
   * new clock, exactly when `update` reported it alive.
   */
  lemma UpdateNextPresentKey<K, E>(speed: E -> Speed, update: (E, map<K, E>) -> (bool, map<K, E>),
                                   st: EngineState<K, E>, i: nat)
    requires i < |st.queue| && st.queue[i].entityId in st.gameState
    ensures var key := st.queue[i].entityId;
      var entity := st.gameState[key];
      var seen := st.gameState - {key};
      var r := UpdateNextState(speed, update, st, i);
      && key !in seen
      && (forall k :: k != key ==> (k in seen <==> k in st.gameState))
      && r.time == st.queue[i].nextUpdate
      && key in r.gameState && r.gameState[key] == entity
      && (forall k :: k != key ==> (k in r.gameState <==> k in update(entity, seen).1))
      && (update(entity, seen).0 ==>
            multiset(r.queue) == multiset(st.queue) - multiset{st.queue[i]}
                                 + multiset{TrackedEntity(key, r.time + SpeedToTimeCooldown(speed(entity)))})
      && (!update(entity, seen).0 ==> multiset(r.queue) == multiset(st.queue) - multiset{st.queue[i]})
  {
    var key := st.queue[i].entityId;
    var entity := st.gameState[key];
    var r := UpdateNextState(speed, update, st, i);
    UpdateNextRequeue(speed, update, st, i);
    RemoveAtMultiset(st.queue, i);
    RemoveAtThenPush(st.queue, i, TrackedEntity(key, r.time + SpeedToTimeCooldown(speed(entity))));
  }

  /** Each step shortens the queue by one entry or leaves its length unchanged. */
  lemma UpdateNextQueueLength<K, E>(speed: E -> Speed, update: (E, map<K, E>) -> (bool, map<K, E>),
                                    st: EngineState<K, E>, i: nat)
    requires i < |st.queue|
    ensures var n := |UpdateNextState(speed, update, st, i).queue|;
      n == |st.queue| - 1 || n == |st.queue|
  {
  }

  /** `BinaryHeap::pop` on the engine's queue: the position of an earliest entry. */
  method PopIndex<K>(q: seq<TrackedEntity<K>>) returns (i: nat)
    requires |q| > 0
    ensures IsGreatestAt(q, PartialCmp, i)
  {
    PartialCmpTotal(q);
    i := PeekIndex(q, PartialCmp);
  }

  class EntityEventEngine<K(==), E> {
    /** `TimedEntity::get_speed`. */
    const speed: E -> Speed
    /** `TimedEntity::update`: liveness flag and the game state it leaves behind. */
    const update: (E, map<K, E>) -> (bool, map<K, E>)
    var time: real
    var gameState: map<K, E>
    var entityQueue: seq<TrackedEntity<K>>

    function State(): EngineState<K, E>
      reads this
    {
      EngineState(time, gameState, entityQueue)
    }

    /** `EntityEventEngine::new`: clock at zero, the given game state, nothing queued. */
    constructor (gameState: map<K, E>, speed: E -> Speed, update: (E, map<K, E>) -> (bool, map<K, E>))
      ensures State() == EngineState(0.0, gameState, [])
      ensures this.speed == speed && this.update == update
    {
      this.speed := speed;
      this.update := update;
      time := 0.0;
      this.gameState := gameState;
      entityQueue := [];
    }

    /** `add_entity`: overwrites any entity under `key` without a check. */
    method AddEntity(key: K, entity: E)
      modifies this
      ensures State() == AddEntityState(speed, old(State()), key, entity)
    {
      var cooldown := SpeedToTimeCooldown(speed(entity));
      gameState := gameState[key := entity];
      entityQueue := entityQueue + [TrackedEntity(key, time + cooldown)];
    }

    /**
     * The rest of `update_next` once the entry for `key` is popped and the clock
     * set: take the entity out, let it update the others, put it back, and
     * re-queue it one cooldown (for the speed read before the update) from now
     * if it reported itself alive.
     */
    method Reactivate(key: K)
      requires key in gameState
      modifies this
      ensures time == old(time)
      ensures var entity := old(gameState)[key];
        var outcome := update(entity, old(gameState) - {key});
        && gameState == outcome.1[key := entity]
        && entityQueue == if outcome.0 then old(entityQueue) + [TrackedEntity(key, time + SpeedToTimeCooldown(speed(entity)))]
                          else old(entityQueue)
    {
      var entity := gameState[key];
      gameState := gameState - {key};

      var cooldown := SpeedToTimeCooldown(speed(entity));
      var tracked := TrackedEntity(key, time + cooldown);

      var outcome := update(entity, gameState);
      gameState := outcome.1[key := entity];

      if outcome.0 {
        entityQueue := entityQueue + [tracked];
      }
    }

    /**
     * `update_next`. Returns (as a ghost) the queue position it popped, which is
     * an earliest entry; on an empty queue nothing changes.
     */
    method UpdateNext() returns (ghost popped: Option<nat>)
      modifies this
      ensures |old(entityQueue)| == 0 ==> popped == None && State() == old(State())
      ensures |old(entityQueue)| > 0 ==>
        && popped.Some?
        && IsGreatestAt(old(entityQueue), PartialCmp, popped.value)
        && State() == UpdateNextState(speed, update, old(State()), popped.value)
    {
      if |entityQueue| == 0 {
        popped := None;
      } else {
        ghost var st := State();
        var i := PopIndex(entityQueue);
        popped := Some(i);
        var tracked := entityQueue[i];
        entityQueue := RemoveAt(entityQueue, i);
        time := tracked.nextUpdate;

        // A key missing from the game state is dropped without a word.
        if tracked.entityId in gameState {
          Reactivate(tracked.entityId);
        }
        assert State() == UpdateNextState(speed, update, st, i);
      }
    }
  }
}
