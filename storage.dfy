/**
 * The archetype storage of necs.hpp (struct Storage<A>): a living pool, a
 * sleeping pool, and the three appliers that move one record out of a pool
 * (kill), or from one pool to the other (snooze, wake).
 */
module Storages {
  import opened Common
  import opened Filter
  import opened PoolSpec
  import opened Pools

  /** The value-level view of a storage. */
  datatype StoreState = StoreState(living: PoolState, sleeping: PoolState)
  {
    ghost predicate WellFormed(arity: nat) {
      living.WellFormed(arity) && sleeping.WellFormed(arity)
    }
  }

  /**
   * The guard shared by the three appliers: the source pool is empty, has no
   * live slot, or the index is not a live slot. On a well-formed pool this is
   * just "the index is not a live slot".
   */
  predicate OutOfBounds(p: PoolState, index: nat): (r: bool)
    requires p.WellFormed(|p.columns|)
    ensures r <==> index >= p.end
  {
    p.total == 0 || p.end < 1 || index >= p.end
  }

  /** apply_kill: the record leaves the living pool. */
  function KillRecord(s: StoreState, index: nat): (r: StoreState)
    requires s.WellFormed(|s.living.columns|) && index < s.living.end
    ensures r.living.end + 1 == s.living.end && r.sleeping == s.sleeping
  {
    StoreState(Remove(s.living, index), s.sleeping)
  }

  /** apply_snooze: a copy of the living record is added to the sleeping pool, then removed from living. */
  function SnoozeRecord(s: StoreState, archetype: Archetype, index: nat): (r: StoreState)
    requires Distinct(archetype) && s.WellFormed(|archetype|) && index < s.living.end
    ensures r.living.end + 1 == s.living.end && r.sleeping.end == s.sleeping.end + 1
    ensures r.sleeping.WellFormed(|archetype|) && r.sleeping.ids[s.sleeping.end] == s.living.ids[index]
  {
    StoreState(Remove(s.living, index), PoolSpec.Add(s.sleeping, s.living.ids[index], Clone(s.living, archetype, index)))
  }

  /** apply_wake: the reverse of Snooze. */
  function WakeRecord(s: StoreState, archetype: Archetype, index: nat): (r: StoreState)
    requires Distinct(archetype) && s.WellFormed(|archetype|) && index < s.sleeping.end
    ensures r.sleeping.end + 1 == s.sleeping.end && r.living.end == s.living.end + 1
    ensures r.living.WellFormed(|archetype|) && r.living.ids[s.living.end] == s.sleeping.ids[index]
  {
    StoreState(PoolSpec.Add(s.living, s.sleeping.ids[index], Clone(s.sleeping, archetype, index)), Remove(s.sleeping, index))
  }

  /** The ids of both pools' live slots. */
  function Population(s: StoreState): multiset<EntityId>
    requires s.living.end <= |s.living.ids| && s.sleeping.end <= |s.sleeping.ids|
  {
    multiset(s.living.LiveIds()) + multiset(s.sleeping.LiveIds())
  }

  /** Killing loses exactly the killed id and leaves the sleeping pool alone. */
  lemma KillLosesOne(s: StoreState, index: nat)
    requires s.WellFormed(|s.living.columns|) && index < s.living.end
    ensures KillRecord(s, index).WellFormed(|s.living.columns|)
    ensures Population(KillRecord(s, index)) == Population(s) - multiset{s.living.ids[index]}
    ensures KillRecord(s, index).sleeping == s.sleeping
  {
    assert s.living.LiveIds()[index] == s.living.ids[index];
  }

  /**
   * Snoozing moves one record: the id and its whole record end up in the last
   * live slot of the sleeping pool and no id is gained or lost.
   */
  lemma SnoozeMovesRecord(s: StoreState, archetype: Archetype, index: nat)
    requires Distinct(archetype) && s.WellFormed(|archetype|) && index < s.living.end
    ensures var r := SnoozeRecord(s, archetype, index);
      r.WellFormed(|archetype|) && r.sleeping.end == s.sleeping.end + 1 &&
      r.sleeping.ids[s.sleeping.end] == s.living.ids[index] &&
      r.sleeping.Row(s.sleeping.end) == s.living.Row(index) &&
      r.living.end == s.living.end - 1 &&
      Population(r) == Population(s)
  {
    var r := SnoozeRecord(s, archetype, index);
    var id := s.living.ids[index];
    assert s.living.LiveIds()[index] == id;
    assert r.sleeping.LiveIds() == s.sleeping.LiveIds() + [id];
    assert r.sleeping.LiveIds()[s.sleeping.end] == id;
    assert multiset(s.living.LiveIds()) == multiset(s.living.LiveIds()) - multiset{id} + multiset{id};
  }

  /** Waking moves one record back to the end of the living pool. */
  lemma WakeMovesRecord(s: StoreState, archetype: Archetype, index: nat)
    requires Distinct(archetype) && s.WellFormed(|archetype|) && index < s.sleeping.end
    ensures var r := WakeRecord(s, archetype, index);
      r.WellFormed(|archetype|) && r.living.end == s.living.end + 1 &&
      r.living.ids[s.living.end] == s.sleeping.ids[index] &&
      r.living.Row(s.living.end) == s.sleeping.Row(index) &&
      r.sleeping.end == s.sleeping.end - 1 &&
      Population(r) == Population(s)
  {
    var r := WakeRecord(s, archetype, index);
    var id := s.sleeping.ids[index];
    assert s.sleeping.LiveIds()[index] == id;
    assert r.living.LiveIds() == s.living.LiveIds() + [id];
    assert r.living.LiveIds()[s.living.end] == id;
    assert multiset(s.sleeping.LiveIds()) == multiset(s.sleeping.LiveIds()) - multiset{id} + multiset{id};
  }

  class Storage {
    const archetype: Archetype
    const living: Pool
    const sleeping: Pool
    /** The storage's position in the registry's list of archetypes. */
    ghost const position: nat

    ghost predicate Valid()
      reads living, sleeping
    {
      living.archetype == archetype && sleeping.archetype == archetype &&
      living.tag == (position, false) && sleeping.tag == (position, true) &&
      living.Valid() && sleeping.Valid()
    }

    function State(): StoreState
      reads living, sleeping
    {
      StoreState(living.State(), sleeping.State())
    }

    constructor (archetype: Archetype, ghost position: nat)
      requires Distinct(archetype)
      ensures Valid() && this.archetype == archetype && this.position == position
      ensures fresh(living) && fresh(sleeping)
      ensures State() == StoreState(EmptyPool(|archetype|), EmptyPool(|archetype|))
    {
      this.archetype := archetype;
      this.position := position;
      living := new Pool(archetype, (position, false));
      sleeping := new Pool(archetype, (position, true));
    }

    /** apply_kill: returns the id that now occupies the vacated slot. */
    method ApplyKill(index: nat) returns (r: Result<EntityId>)
      requires Valid()
      modifies living
      ensures Valid()
      ensures r.Err? <==> OutOfBounds(old(living.State()), index)
      ensures r.Err? ==> r.error == KilledOutOfBounds && living.State() == old(living.State())
      ensures r.Ok? ==> State() == KillRecord(old(State()), index) && r.value == old(living.ids[living.end - 1])
    {
      if living.total == 0 || living.end < 1 || index >= living.end {
        return Err(KilledOutOfBounds);
      }
      var moved := living.Remove(index);
      return Ok(moved);
    }

    /** apply_snooze: returns the id that now occupies the vacated living slot. */
    method ApplySnooze(index: nat) returns (r: Result<EntityId>)
      requires Valid()
      modifies living, sleeping
      ensures Valid()
      ensures r.Err? <==> OutOfBounds(old(living.State()), index)
      ensures r.Err? ==> r.error == SnoozedOutOfBounds && State() == old(State())
      ensures r.Ok? ==> State() == SnoozeRecord(old(State()), archetype, index) && r.value == old(living.ids[living.end - 1])
    {
      if living.total == 0 || living.end < 1 || index >= living.end {
        return Err(SnoozedOutOfBounds);
      }
      var id := living.ids[index];
      var record := Clone(living.State(), archetype, index);
      sleeping.Add(id, record);
      var moved := living.Remove(index);
      return Ok(moved);
    }

    /** apply_wake: returns the id that now occupies the vacated sleeping slot. */
    method ApplyWake(index: nat) returns (r: Result<EntityId>)
      requires Valid()
      modifies living, sleeping
      ensures Valid()
      ensures r.Err? <==> OutOfBounds(old(sleeping.State()), index)
      ensures r.Err? ==> r.error == AwakeOutOfBounds && State() == old(State())
      ensures r.Ok? ==> State() == WakeRecord(old(State()), archetype, index) && r.value == old(sleeping.ids[sleeping.end - 1])
    {
      if sleeping.total == 0 || sleeping.end < 1 || index >= sleeping.end {
        return Err(AwakeOutOfBounds);
      }
      var id := sleeping.ids[index];
      var record := Clone(sleeping.State(), archetype, index);
      living.Add(id, record);
      var moved := sleeping.Remove(index);
      return Ok(moved);
    }
  }
}
