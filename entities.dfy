/**
 * The entity directory of necs.hpp (struct Entities): the per-id location
 * info, the LIFO stack of reusable ids, the buffer of ids queued for the next
 * update, and one counter per lifecycle state.
 */
module Entities {
  import opened Common

  /** EntityState, in the source's enumeration order. */
  datatype EntityState = Live | Killed | Dead | Snoozed | Sleeping | Awake

  /** EntityTask. */
  datatype Task = Kill | Snooze | Wake

  /** The slot of a state in the counter array (its enumerator value). */
  function Ordinal(s: EntityState): (n: nat)
    ensures n < 6
  {
    match s
    case Live => 0
    case Killed => 1
    case Dead => 2
    case Snoozed => 3
    case Sleeping => 4
    case Awake => 5
  }

  /** Distinct states have distinct counter slots. */
  lemma OrdinalInjective(s: EntityState, t: EntityState)
    ensures Ordinal(s) == Ordinal(t) <==> s == t
  {
  }

  /** The state a task requires of the entity (req_state in queue and execute). */
  function Required(t: Task): EntityState {
    if t == Kill || t == Snooze then Live else Sleeping
  }

  /** The pending state a task moves the entity to (res_state in queue and execute). */
  function Resulting(t: Task): EntityState {
    if t == Kill then Killed else if t == Snooze then Snoozed else Awake
  }

  /** KILLED, SNOOZED and AWAKE wait for the next update. */
  predicate Pending(s: EntityState) {
    s == Killed || s == Snoozed || s == Awake
  }

  /** SLEEPING and AWAKE entities sit in the sleeping pool; LIVE, KILLED, SNOOZED in the living one. */
  predicate InSleepingPool(s: EntityState) {
    s == Sleeping || s == Awake
  }

  /** The state Registry::apply resolves a pending state to. */
  function Resolved(s: EntityState): (r: EntityState)
    requires Pending(s)
    ensures !Pending(r) && r != s
  {
    if s == Awake then Live else if s == Killed then Dead else Sleeping
  }

  /** Every task requires a stable state and yields a pending one in the same pool. */
  lemma TaskStates(t: Task)
    ensures !Pending(Required(t)) && Required(t) != Dead
    ensures Pending(Resulting(t))
    ensures InSleepingPool(Required(t)) == InSleepingPool(Resulting(t))
  {
  }

  /** EntityInfo: archetype (its position in the registry), pool index, state, id lock. */
  datatype Info = Info(kind: nat, index: nat, state: EntityState, locked: bool)

  /** The number of entries of data in state s. */
  function CountState(data: seq<Info>, s: EntityState): (n: nat)
    ensures n <= |data|
  {
    if data == [] then 0
    else CountState(data[..|data| - 1], s) + (if data[|data| - 1].state == s then 1 else 0)
  }

  /** Appending one entry counts it in its own state only. */
  lemma CountAppend(data: seq<Info>, x: Info, s: EntityState)
    ensures CountState(data + [x], s) == CountState(data, s) + (if x.state == s then 1 else 0)
  {
    assert (data + [x])[..|data|] == data;
  }

  /** Overwriting one entry moves one unit from its old state to its new one. */
  lemma {:induction false} CountUpdate(data: seq<Info>, id: nat, x: Info, s: EntityState)
    requires id < |data|
    ensures CountState(data[id := x], s) ==
      CountState(data, s) - (if data[id].state == s then 1 else 0) + (if x.state == s then 1 else 0)
  {
    var n := |data| - 1;
    if id < n {
      assert data[id := x][..n] == data[..n][id := x];
      CountUpdate(data[..n], id, x, s);
    } else {
      assert data[id := x][..n] == data[..n];
    }
  }

  /** An entry's own state is counted at least once. */
  lemma {:induction false} CountOwnState(data: seq<Info>, id: nat)
    requires id < |data|
    ensures CountState(data, data[id].state) >= 1
  {
    var n := |data| - 1;
    if id < n {
      assert data[..n][id] == data[id];
      CountOwnState(data[..n], id);
    }
  }

  /** The sum of the six per-state counts. */
  function SumCounts(data: seq<Info>): nat {
    CountState(data, Live) + CountState(data, Killed) + CountState(data, Dead) +
    CountState(data, Snoozed) + CountState(data, Sleeping) + CountState(data, Awake)
  }

  /** Every entity is in exactly one state, so the counts add up to the number of ids. */
  lemma {:induction false} SumCountsIsTotal(data: seq<Info>)
    ensures SumCounts(data) == |data|
  {
    if data != [] {
      SumCountsIsTotal(data[..|data| - 1]);
    }
  }

  /** The value-level view of the directory. */
  datatype Dir = Dir(toUpdateEnd: nat, toUpdate: seq<EntityId>, dead: seq<EntityId>, data: seq<Info>, counter: seq<int>)

  /** counter[s] is the number of ids in state s. */
  ghost predicate CountersExact(d: Dir) {
    |d.counter| == 6 &&
    forall s: EntityState :: d.counter[Ordinal(s)] == CountState(d.data, s)
  }

  /**
   * Counters stay exact when entry `moved` is rewritten in its own state and
   * entry `id` takes the state of x, with one unit moved between the two
   * states' counters.
   */
  lemma CountersMove(d: Dir, moved: nat, m: Info, id: nat, x: Info, data: seq<Info>, counter: seq<int>)
    requires CountersExact(d) && moved < |d.data| && id < |d.data|
    requires m.state == d.data[moved].state
    requires data == d.data[moved := m][id := x]
    requires counter == Bump(Bump(d.counter, d.data[id].state, -1), x.state, 1)
    ensures CountersExact(d.(data := data, counter := counter))
  {
    var data1 := d.data[moved := m];
    assert data1[id].state == d.data[id].state;
    forall s: EntityState ensures counter[Ordinal(s)] == CountState(data, s) {
      CountUpdate(d.data, moved, m, s);
      CountUpdate(data1, id, x, s);
      OrdinalInjective(s, d.data[id].state);
      OrdinalInjective(s, x.state);
      OrdinalInjective(d.data[id].state, x.state);
    }
  }

  /** The reusable ids are distinct, allocated, DEAD and not locked. */
  ghost predicate DeadStackValid(d: Dir) {
    Distinct(d.dead) &&
    forall j | 0 <= j < |d.dead| :: d.dead[j] < |d.data| && d.data[d.dead[j]].state == Dead && !d.data[d.dead[j]].locked
  }

  /**
   * The dead stack stays valid when only entry `id`, which was not DEAD,
   * changes its state and lock, and it is pushed only if it is now DEAD and
   * not locked.
   */
  lemma DeadStackAfter(d: Dir, e: Dir, id: nat)
    requires DeadStackValid(d) && id < |d.data| && d.data[id].state != Dead && |e.data| == |d.data|
    requires forall z | 0 <= z < |d.data| && z != id :: e.data[z].state == d.data[z].state && e.data[z].locked == d.data[z].locked
    requires e.dead == d.dead || (e.dead == d.dead + [id] && e.data[id].state == Dead && !e.data[id].locked)
    ensures DeadStackValid(e)
  {
    assert forall j | 0 <= j < |d.dead| :: d.dead[j] != id;
  }

  /** The ids whose state is pending. */
  ghost function PendingIds(data: seq<Info>): set<EntityId> {
    set id | 0 <= id < |data| && Pending(data[id].state)
  }

  /** The ids still queued in to_update[from, to_update_end). */
  ghost function QueuedFrom(d: Dir, from: nat): set<EntityId>
    requires from <= d.toUpdateEnd <= |d.toUpdate|
  {
    set j | from <= j < d.toUpdateEnd :: d.toUpdate[j]
  }

  /**
   * The queue still to be processed from position `from` holds, once each,
   * exactly the pending entities.
   */
  ghost predicate QueueExact(d: Dir, from: nat) {
    from <= d.toUpdateEnd <= |d.toUpdate| &&
    (forall i, j | from <= i < j < d.toUpdateEnd :: d.toUpdate[i] != d.toUpdate[j]) &&
    (forall j | from <= j < d.toUpdateEnd :: d.toUpdate[j] < |d.data|) &&
    PendingIds(d.data) == QueuedFrom(d, from)
  }

  ghost predicate DirValid(d: Dir) {
    CountersExact(d) && DeadStackValid(d) && QueueExact(d, 0)
  }

  /** counter[s] += delta. */
  function Bump(counter: seq<int>, s: EntityState, delta: int): seq<int>
    requires |counter| == 6
  {
    counter[Ordinal(s) := counter[Ordinal(s)] + delta]
  }

  /**
   * Entities::create (the state is always LIVE): the top of the dead stack is
   * reused when there is one, otherwise the next fresh id is allocated.
   */
  function CreateSpec(d: Dir, kind: nat, index: nat, locked: bool): (r: (EntityId, Dir))
    requires |d.counter| == 6
    requires d.dead != [] ==> d.dead[|d.dead| - 1] < |d.data|
    ensures d.dead != [] ==> r.0 == d.dead[|d.dead| - 1] && r.1.dead == d.dead[..|d.dead| - 1] && |r.1.data| == |d.data|
    ensures d.dead == [] ==> r.0 == |d.data| && r.1.dead == [] && |r.1.data| == |d.data| + 1
    ensures r.0 < |r.1.data| && r.1.data[r.0] == Info(kind, index, Live, locked)
    ensures forall id | 0 <= id < |d.data| && id != r.0 :: r.1.data[id] == d.data[id]
    ensures r.1.toUpdate == d.toUpdate && r.1.toUpdateEnd == d.toUpdateEnd
  {
    var info := Info(kind, index, Live, locked);
    var counter := Bump(d.counter, Live, 1);
    if |d.dead| > 0 then
      var id := d.dead[|d.dead| - 1];
      (id, Dir(d.toUpdateEnd, d.toUpdate, d.dead[..|d.dead| - 1], d.data[id := info], Bump(counter, Dead, -1)))
    else
      (|d.data|, Dir(d.toUpdateEnd, d.toUpdate, d.dead, d.data + [info], counter))
  }

  /** The directory invariant survives a create, and the new id joins no queue and no dead stack. */
  lemma CreatePreserves(d: Dir, kind: nat, index: nat, locked: bool)
    requires DirValid(d)
    ensures DirValid(CreateSpec(d, kind, index, locked).1)
    ensures CreateSpec(d, kind, index, locked).0 !in CreateSpec(d, kind, index, locked).1.dead
  {
    var (id, e) := CreateSpec(d, kind, index, locked);
    var info := Info(kind, index, Live, locked);
    if |d.dead| > 0 {
      assert d.data[id].state == Dead;
      forall s: EntityState ensures e.counter[Ordinal(s)] == CountState(e.data, s) {
        CountUpdate(d.data, id, info, s);
      }
      forall j | 0 <= j < |e.dead| ensures e.dead[j] != id {
        assert e.dead[j] == d.dead[j];
      }
      assert PendingIds(e.data) == PendingIds(d.data);
    } else {
      forall s: EntityState ensures e.counter[Ordinal(s)] == CountState(e.data, s) {
        CountAppend(d.data, info, s);
      }
      assert PendingIds(e.data) == PendingIds(d.data);
    }
    assert QueuedFrom(e, 0) == QueuedFrom(d, 0);
  }

  /**
   * Entities::queue: only an entity in the task's required state changes; it
   * takes the pending state, is written at to_update[to_update_end] (the
   * buffer grows only when full) and one unit moves between the counters.
   */
  function QueueSpec(d: Dir, id: EntityId, t: Task): (r: Dir)
    requires |d.counter| == 6 && id < |d.data| && d.toUpdateEnd <= |d.toUpdate|
    ensures d.data[id].state != Required(t) ==> r == d
    ensures d.data[id].state == Required(t) ==>
      r.data == d.data[id := d.data[id].(state := Resulting(t))] &&
      r.toUpdateEnd == d.toUpdateEnd + 1 && r.toUpdateEnd <= |r.toUpdate| &&
      r.toUpdate[..r.toUpdateEnd] == d.toUpdate[..d.toUpdateEnd] + [id] &&
      r.dead == d.dead
  {
    if d.data[id].state == Required(t) then
      var toUpdate := if d.toUpdateEnd == |d.toUpdate| then d.toUpdate + [id] else d.toUpdate[d.toUpdateEnd := id];
      assert toUpdate[..d.toUpdateEnd] == d.toUpdate[..d.toUpdateEnd];
      Dir(d.toUpdateEnd + 1, toUpdate, d.dead,
          d.data[id := d.data[id].(state := Resulting(t))],
          Bump(Bump(d.counter, Required(t), -1), Resulting(t), 1))
    else d
  }

  /** Entities::execute, up to the call of the entity's update: the state change of queue without the buffer. */
  function ExecuteSpec(d: Dir, id: EntityId, t: Task): (r: Dir)
    requires |d.counter| == 6 && id < |d.data|
    ensures d.data[id].state != Required(t) ==> r == d
    ensures d.data[id].state == Required(t) ==>
      r.data == d.data[id := d.data[id].(state := Resulting(t))] &&
      r.toUpdate == d.toUpdate && r.toUpdateEnd == d.toUpdateEnd && r.dead == d.dead
  {
    if d.data[id].state == Required(t) then
      d.(data := d.data[id := d.data[id].(state := Resulting(t))],
         counter := Bump(Bump(d.counter, Required(t), -1), Resulting(t), 1))
    else d
  }

  /** A task's state change keeps the counters exact. */
  lemma TaskKeepsCounters(d: Dir, id: EntityId, t: Task)
    requires CountersExact(d) && id < |d.data| && d.data[id].state == Required(t)
    ensures CountersExact(ExecuteSpec(d, id, t))
  {
    var e := ExecuteSpec(d, id, t);
    TaskStates(t);
    forall s: EntityState ensures e.counter[Ordinal(s)] == CountState(e.data, s) {
      CountUpdate(d.data, id, d.data[id].(state := Resulting(t)), s);
    }
  }

  /**
   * Where queue writes: the id goes to slot to_update_end, the buffer grows by
   * one only when that slot is past its end, and every slot other than the
   * written one keeps its entry.
   */
  lemma QueueWritesSlot(d: Dir, id: EntityId, t: Task)
    requires |d.counter| == 6 && id < |d.data| && d.toUpdateEnd <= |d.toUpdate|
    requires d.data[id].state == Required(t)
    ensures var r := QueueSpec(d, id, t);
      |r.toUpdate| == (if d.toUpdateEnd == |d.toUpdate| then |d.toUpdate| + 1 else |d.toUpdate|) &&
      r.toUpdate[d.toUpdateEnd] == id &&
      forall j | 0 <= j < |d.toUpdate| && j != d.toUpdateEnd :: r.toUpdate[j] == d.toUpdate[j]
  {
  }

  /** The directory invariant survives a queue; a queued entity becomes pending. */
  lemma QueuePreserves(d: Dir, id: EntityId, t: Task)
    requires DirValid(d) && id < |d.data|
    ensures DirValid(QueueSpec(d, id, t))
    ensures d.data[id].state == Required(t) ==> PendingIds(QueueSpec(d, id, t).data) == PendingIds(d.data) + {id}
  {
    if d.data[id].state == Required(t) {
      var e := QueueSpec(d, id, t);
      TaskStates(t);
      TaskKeepsCounters(d, id, t);
      assert e.counter == ExecuteSpec(d, id, t).counter;
      assert PendingIds(e.data) == PendingIds(d.data) + {id};
      assert id !in QueuedFrom(d, 0);
      forall j | 0 <= j < e.toUpdateEnd
        ensures e.toUpdate[j] == if j < d.toUpdateEnd then d.toUpdate[j] else id
      {
        assert e.toUpdate[j] == e.toUpdate[..e.toUpdateEnd][j];
        assert j < d.toUpdateEnd ==> d.toUpdate[j] == d.toUpdate[..d.toUpdateEnd][j];
      }
      assert e.toUpdate[d.toUpdateEnd] == id;
      assert QueuedFrom(e, 0) == QueuedFrom(d, 0) + {id};
    }
  }

  /**
   * A pending entity ignores every further queue or execute: the state guard
   * only lets LIVE and SLEEPING entities through.
   */
  lemma PendingIgnoresTasks(d: Dir, id: EntityId, t: Task)
    requires |d.counter| == 6 && id < |d.data| && d.toUpdateEnd <= |d.toUpdate|
    requires Pending(d.data[id].state) || d.data[id].state == Dead
    ensures QueueSpec(d, id, t) == d && ExecuteSpec(d, id, t) == d
  {
  }

  /** Queueing the same task twice is the same as queueing it once. */
  lemma QueueTwice(d: Dir, id: EntityId, t: Task)
    requires |d.counter| == 6 && id < |d.data| && d.toUpdateEnd <= |d.toUpdate|
    ensures QueueSpec(QueueSpec(d, id, t), id, t) == QueueSpec(d, id, t)
  {
    TaskStates(t);
  }

  /** The directory of a registry. */
  class Directory {
    var toUpdateEnd: nat
    var toUpdate: seq<EntityId>
    var dead: seq<EntityId>
    var data: seq<Info>
    var counter: seq<int>

    function State(): Dir
      reads this
    {
      Dir(toUpdateEnd, toUpdate, dead, data, counter)
    }

    /** An empty directory; every counter starts at zero. */
    constructor ()
      ensures State() == Dir(0, [], [], [], [0, 0, 0, 0, 0, 0])
      ensures DirValid(State())
    {
      toUpdateEnd := 0;
      toUpdate := [];
      dead := [];
      data := [];
      counter := [0, 0, 0, 0, 0, 0];
      assert PendingIds([]) == {};
    }

    /** The directory half of Registry::apply: the entries, the dead stack and the counters take their new values. */
    method Rewrite(data: seq<Info>, dead: seq<EntityId>, counter: seq<int>)
      modifies this
      ensures State() == old(State()).(data := data, dead := dead, counter := counter)
    {
      this.data, this.dead, this.counter := data, dead, counter;
    }

    /** Entities::create. */
    method Create(kind: nat, index: nat, locked: bool) returns (id: EntityId)
      requires |counter| == 6
      requires dead != [] ==> dead[|dead| - 1] < |data|
      modifies this
      ensures (id, State()) == CreateSpec(old(State()), kind, index, locked)
    {
      counter := counter[Ordinal(Live) := counter[Ordinal(Live)] + 1];
      if |dead| > 0 {
        counter := counter[Ordinal(Dead) := counter[Ordinal(Dead)] - 1];
        id := dead[|dead| - 1];
        data := data[id := Info(kind, index, Live, locked)];
        dead := dead[..|dead| - 1];
      } else {
        id := |data|;
        data := data + [Info(kind, index, Live, locked)];
      }
    }

    /**
     * Entities::queue. `changed` reports whether the guard let the entity
     * through, which is when the source invokes its callback.
     */
    method Queue(id: EntityId, t: Task) returns (changed: bool)
      requires |counter| == 6 && id < |data| && toUpdateEnd <= |toUpdate|
      modifies this
      ensures changed <==> old(data[id].state) == Required(t)
      ensures State() == QueueSpec(old(State()), id, t)
    {
      var req := Required(t);
      var res := Resulting(t);
      changed := data[id].state == req;
      if changed {
        if toUpdateEnd == |toUpdate| {
          toUpdate := toUpdate + [id];
        } else {
          toUpdate := toUpdate[toUpdateEnd := id];
        }
        toUpdateEnd := toUpdateEnd + 1;
        data := data[id := data[id].(state := res)];
        counter := counter[Ordinal(req) := counter[Ordinal(req)] - 1];
        counter := counter[Ordinal(res) := counter[Ordinal(res)] + 1];
      }
    }

    /** Entities::execute, up to the call of the entity's update (which the registry performs). */
    method Execute(id: EntityId, t: Task) returns (changed: bool)
      requires |counter| == 6 && id < |data|
      modifies this
      ensures changed <==> old(data[id].state) == Required(t)
      ensures State() == ExecuteSpec(old(State()), id, t)
    {
      var req := Required(t);
      var res := Resulting(t);
      changed := data[id].state == req;
      if changed {
        data := data[id := data[id].(state := res)];
        counter := counter[Ordinal(req) := counter[Ordinal(req)] - 1];
        counter := counter[Ordinal(res) := counter[Ordinal(res)] + 1];
      }
    }
  }
}
