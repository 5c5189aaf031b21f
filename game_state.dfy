/**
 * The entity registry `GameState` (src/game_state.rs): entities under `i32`
 * ids, where the next id handed out is the current number of entities.
 */
module Registry {
  import opened Options

  /** Rust's `i32`. */
  newtype i32 = x: int | -0x8000_0000 <= x < 0x8000_0000

  /** `len() as i32`: the count truncated to 32 bits and read as two's complement. */
  function CountAsI32(n: nat): (id: i32)
    ensures n < 0x8000_0000 ==> id as int == n
    ensures (n - id as int) % 0x1_0000_0000 == 0
  {
    var w := n % 0x1_0000_0000;
    if w < 0x8000_0000 then w as i32 else (w - 0x1_0000_0000) as i32
  }

  /** The ids in use are exactly `0 .. count - 1`, as when no entity was ever removed. */
  ghost predicate DenseIds<T>(entities: map<i32, T>) {
    forall id: i32 :: id in entities <==> 0 <= id as int < |entities|
  }

  /** While the ids are dense, the next id is free: adding never overwrites. */
  lemma DenseNextIdIsFree<T>(entities: map<i32, T>)
    requires DenseIds(entities) && |entities| < 0x8000_0000
    ensures CountAsI32(|entities|) !in entities
  {
  }

  /** Adding under the next id keeps the ids dense and grows the count by one. */
  lemma AddKeepsDenseIds<T>(entities: map<i32, T>, entity: T)
    requires DenseIds(entities) && |entities| < 0x7fff_ffff
    ensures var added := entities[CountAsI32(|entities|) := entity];
      |added| == |entities| + 1 && DenseIds(added)
  {
    var id := CountAsI32(|entities|);
    var added := entities[id := entity];
    assert id as int == |entities|;
    DenseNextIdIsFree(entities);
    assert added.Keys == entities.Keys + {id};
    assert |added| == |entities| + 1;
    forall k: i32 ensures k in added <==> 0 <= k as int < |added| {
      assert k in added <==> k in entities || k == id;
    }
  }

  /**
   * Adding under the current count: the count grows by one exactly when that id
   * was free; otherwise the entity under it is replaced.
   */
  lemma AddEntityCount<T>(entities: map<i32, T>, entity: T)
    ensures var id := CountAsI32(|entities|);
      var added := entities[id := entity];
      && added[id] == entity
      && |added| == (if id in entities then |entities| else |entities| + 1)
  {
    var id := CountAsI32(|entities|);
    var added := entities[id := entity];
    if id in entities {
      assert added.Keys == entities.Keys;
    } else {
      assert added.Keys == entities.Keys + {id};
    }
  }

  class GameState<T> {
    var entities: map<i32, T>

    /** `#[derive(Default)]`: no entities. */
    constructor ()
      ensures entities == map[]
    {
      entities := map[];
    }

    /** `get_entity_by_id`: despite its name it removes the entity it returns. */
    method GetEntityById(entityId: i32) returns (entity: Option<T>)
      modifies this
      ensures entity == if entityId in old(entities) then Some(old(entities)[entityId]) else None
      ensures entities == old(entities) - {entityId}
    {
      entity := if entityId in entities then Some(entities[entityId]) else None;
      entities := entities - {entityId};
    }

    /** `remove_entity_by_id`: removes and returns the entity, or `None` if the id is absent. */
    method RemoveEntityById(entityId: i32) returns (entity: Option<T>)
      modifies this
      ensures entity == if entityId in old(entities) then Some(old(entities)[entityId]) else None
      ensures entities == old(entities) - {entityId}
    {
      entity := if entityId in entities then Some(entities[entityId]) else None;
      entities := entities - {entityId};
    }

    /** `get_next_entity_id`: the current count. */
    method GetNextEntityId() returns (id: i32)
      ensures |entities| < 0x8000_0000 ==> id as int == |entities|
      ensures id == CountAsI32(|entities|)
    {
      id := CountAsI32(|entities|);
    }

    /** `add_entity`: inserts under the current count, replacing whatever is there. */
    method AddEntity(entity: T)
      modifies this
      ensures entities == old(entities)[CountAsI32(|old(entities)|) := entity]
    {
      entities := entities[CountAsI32(|entities|) := entity];
    }
  }

  /**
   * With ids 0, 1 and 2 in use, removing id 0 and then adding an entity
   * replaces the entity under id 2, and the count stays at 2.
   */
  method AddAfterRemovalOverwrites<T>(a: T, b: T, c: T, d: T) returns (entities: map<i32, T>)
    ensures entities == map[1 := b, 2 := d]
  {
    var state := new GameState<T>();
    state.AddEntity(a);
    state.AddEntity(b);
    assert state.entities.Keys == {0, 1};
    state.AddEntity(c);
    assert state.entities == map[0 := a, 1 := b, 2 := c];
    var removed := state.RemoveEntityById(0);
    assert state.entities == map[1 := b, 2 := c];
    assert state.entities.Keys == {1, 2};
    state.AddEntity(d);
    entities := state.entities;
  }

  /** Removing the highest id frees the key the next add takes: nothing live is overwritten. */
  method AddAfterRemovingHighestKeepsAll<T>(a: T, b: T, c: T, d: T) returns (entities: map<i32, T>)
    ensures entities == map[0 := a, 1 := b, 2 := d]
  {
    var state := new GameState<T>();
    state.AddEntity(a);
    state.AddEntity(b);
    assert state.entities.Keys == {0, 1};
    state.AddEntity(c);
    assert state.entities == map[0 := a, 1 := b, 2 := c];
    var removed := state.RemoveEntityById(2);
    assert state.entities == map[0 := a, 1 := b];
    assert state.entities.Keys == {0, 1};
    state.AddEntity(d);
    entities := state.entities;
  }
}
