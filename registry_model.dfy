/**
 * Value-level model of the necs.hpp Registry: the directory, one storage per
 * archetype, the set of subscribed listeners and the log of delivered built-in
 * events. The Registry class is proved to follow these functions; the
 * invariant that ties entities to pool slots is stated and preserved here.
 */
module RegistryModel {
  import opened Common
  import opened Filter
  import opened PoolSpec
  import opened Storages
  import opened Entities

  // ---------------------------------------------------------------------------
  // Events
  // ---------------------------------------------------------------------------

  /** The built-in events, and the user's own events (a name and a payload). */
  datatype Event =
    | EntityCreated(id: EntityId)
    | EntityUpdated(id: EntityId, prev: EntityState, next: EntityState)
    | ArchetypeDataUpdated(kind: nat)
    | ComponentDataUpdated(component: Component)
    | GameEvent(name: nat, payload: int)

  /** Which listener of the registry an event goes to. */
  datatype Channel =
    | CreatedChannel
    | UpdatedChannel
    | ArchetypeChannel(kind: nat)
    | ComponentChannel(component: Component)
    | GameChannel(name: nat)

  function ChannelOf(e: Event): Channel {
    match e
    case EntityCreated(_) => CreatedChannel
    case EntityUpdated(_, _, _) => UpdatedChannel
    case ArchetypeDataUpdated(k) => ArchetypeChannel(k)
    case ComponentDataUpdated(c) => ComponentChannel(c)
    case GameEvent(n, _) => GameChannel(n)
  }

  /**
   * Listener::call for each event in turn: an event reaches the log exactly
   * when its listener is subscribed.
   */
  function Deliver(ready: set<Channel>, log: seq<Event>, events: seq<Event>): (r: seq<Event>)
    ensures |log| <= |r| <= |log| + |events| && r[..|log|] == log
    ensures forall e :: e in r[|log|..] <==> e in events && ChannelOf(e) in ready
    decreases |events|
  {
    if events == [] then log
    else
      var log1 := if ChannelOf(events[0]) in ready then log + [events[0]] else log;
      var r := Deliver(ready, log1, events[1..]);
      assert r[|log|..] == log1[|log|..] + r[|log1|..];
      assert forall e :: e in events <==> e == events[0] || e in events[1..];
      r
  }

  /** on_update<A>: DataUpdated<A>, then DataUpdated<C> for each component C of A. */
  function DataEvents(kind: nat, archetype: Archetype): (r: seq<Event>)
    ensures |r| == |archetype| + 1 && r[0] == ArchetypeDataUpdated(kind)
    ensures forall j | 0 <= j < |archetype| :: r[j + 1] == ComponentDataUpdated(archetype[j])
  {
    [ArchetypeDataUpdated(kind)] + seq(|archetype|, j requires 0 <= j < |archetype| => ComponentDataUpdated(archetype[j]))
  }

  // ---------------------------------------------------------------------------
  // World
  // ---------------------------------------------------------------------------

  datatype World = World(
    archs: seq<Archetype>,
    dir: Dir,
    stores: seq<StoreState>,
    ready: set<Channel>,
    runCallbacks: bool,
    log: seq<Event>)

  /** The pool an entity in a given state sits in. */
  function PoolOf(w: World, k: nat, sleeping: bool): PoolState
    requires k < |w.stores|
  {
    if sleeping then w.stores[k].sleeping else w.stores[k].living
  }

  /** One well-formed storage per archetype, each archetype duplicate-free. */
  ghost predicate Shape(w: World) {
    |w.stores| == |w.archs| &&
    forall k | 0 <= k < |w.archs| :: Distinct(w.archs[k]) && w.stores[k].WellFormed(|w.archs[k]|)
  }

  /** A non-DEAD entity occupies the slot its info names, in the pool its state names. */
  ghost predicate Placed(w: World, id: EntityId)
    requires Shape(w) && id < |w.dir.data|
  {
    var e := w.dir.data[id];
    e.state != Dead ==>
      e.kind < |w.stores| &&
      e.index < PoolOf(w, e.kind, InSleepingPool(e.state)).end &&
      PoolOf(w, e.kind, InSleepingPool(e.state)).ids[e.index] == id
  }

  /** A live slot holds a non-DEAD entity whose info points back at the slot. */
  ghost predicate Holds(w: World, k: nat, sleeping: bool, j: nat)
    requires Shape(w) && k < |w.stores| && j < PoolOf(w, k, sleeping).end
  {
    var id := PoolOf(w, k, sleeping).ids[j];
    id < |w.dir.data| &&
    w.dir.data[id].state != Dead && w.dir.data[id].kind == k &&
    InSleepingPool(w.dir.data[id].state) == sleeping && w.dir.data[id].index == j
  }

  /** Non-DEAD entities and live pool slots correspond one to one. */
  ghost predicate Consistent(w: World) {
    Shape(w) &&
    (forall id | 0 <= id < |w.dir.data| :: Placed(w, id)) &&
    (forall k, sleeping, j | 0 <= k < |w.stores| && 0 <= j < PoolOf(w, k, sleeping).end :: Holds(w, k, sleeping, j))
  }

  /** The registry invariant while the update buffer is processed from position `from`. */
  ghost predicate Inv(w: World, from: nat) {
    Consistent(w) && CountersExact(w.dir) && DeadStackValid(w.dir) && QueueExact(w.dir, from)
  }

  ghost predicate Valid(w: World) {
    Inv(w, 0)
  }

  /** The world of a new registry: one pair of empty pools per archetype, no entity, no subscriber. */
  function Fresh(archs: seq<Archetype>): (w: World)
    ensures |w.stores| == |archs| && w.archs == archs
    ensures forall k | 0 <= k < |archs| :: w.stores[k].living.end == 0 && w.stores[k].sleeping.end == 0
  {
    World(archs, Dir(0, [], [], [], [0, 0, 0, 0, 0, 0]),
          seq(|archs|, k requires 0 <= k < |archs| => StoreState(EmptyPool(|archs[k]|), EmptyPool(|archs[k]|))),
          {}, true, [])
  }

  /** A new registry over duplicate-free archetypes is valid. */
  lemma FreshValid(archs: seq<Archetype>)
    requires forall k | 0 <= k < |archs| :: Distinct(archs[k])
    ensures Valid(Fresh(archs))
  {
    var w := Fresh(archs);
    assert DirValid(w.dir) by { assert PendingIds([]) == {}; }
    assert Shape(w);
    assert forall k, sl | 0 <= k < |w.stores| :: PoolOf(w, k, sl).end == 0;
    assert Consistent(w);
  }

  /** Emits a batch of events when callbacks are switched on. */
  function Emit(w: World, events: seq<Event>): seq<Event> {
    if w.runCallbacks then Deliver(w.ready, w.log, events) else w.log
  }

  // ---------------------------------------------------------------------------
  // apply
  // ---------------------------------------------------------------------------

  /** The id whose slot the applied entity vacates: the last live id of its pool. */
  function Moved(w: World, id: EntityId): EntityId
    requires Consistent(w) && id < |w.dir.data| && Pending(w.dir.data[id].state)
  {
    var e := w.dir.data[id];
    assert Placed(w, id);
    var p := PoolOf(w, e.kind, InSleepingPool(e.state));
    p.ids[p.end - 1]
  }

  /** The applier a pending state selects, on the entity's storage. */
  function Applied(s: StoreState, archetype: Archetype, state: EntityState, index: nat): StoreState
    requires Distinct(archetype) && s.WellFormed(|archetype|) && Pending(state)
    requires index < (if InSleepingPool(state) then s.sleeping.end else s.living.end)
  {
    if state == Killed then KillRecord(s, index)
    else if state == Snoozed then SnoozeRecord(s, archetype, index)
    else WakeRecord(s, archetype, index)
  }

  /**
   * Registry::apply: a pending entity is moved by its storage's applier, the
   * entity swapped into the vacated slot is re-pointed at it, the entity's own
   * index follows it into the other pool, its state is resolved, a killed id
   * that is not locked goes on the dead stack, and the counters and events
   * follow. A non-pending entity is left alone.
   */
  function ApplyModel(w: World, id: EntityId): (r: World)
    requires Consistent(w) && id < |w.dir.data| && |w.dir.counter| == 6
    ensures !Pending(w.dir.data[id].state) ==> r == w
  {
    var e := w.dir.data[id];
    if !Pending(e.state) then w
    else
      var k := e.kind;
      var i := e.index;
      assert Placed(w, id);
      var s := w.stores[k];
      var src := PoolOf(w, k, InSleepingPool(e.state));
      assert Holds(w, k, InSleepingPool(e.state), src.end - 1);
      var moved := src.ids[src.end - 1];
      var s2 := Applied(s, w.archs[k], e.state, i);
      var index2 :=
        if e.state == Killed then i
        else if e.state == Snoozed then s.sleeping.end
        else s.living.end;
      var next := Resolved(e.state);
      var data1 := w.dir.data[moved := w.dir.data[moved].(index := i)];
      var data2 := data1[id := data1[id].(index := index2, state := next)];
      var dead2 := if e.state == Killed && !e.locked then w.dir.dead + [id] else w.dir.dead;
      var counter2 := Bump(Bump(w.dir.counter, e.state, -1), next, 1);
      var log2 := Emit(w, [EntityUpdated(id, e.state, next)] + DataEvents(k, w.archs[k]));
      w.(dir := w.dir.(data := data2, dead := dead2, counter := counter2),
         stores := w.stores[k := s2],
         log := log2)
  }

  /**
   * ApplyModel in terms of the values Registry::apply computes before the
   * applier runs: the re-pointed entries, the dead stack, the counters and
   * the events.
   */
  lemma ApplyModelIs(w: World, id: EntityId, moved: EntityId, index: nat, data: seq<Info>, dead: seq<EntityId>, counter: seq<int>, events: seq<Event>)
    requires Consistent(w) && id < |w.dir.data| && |w.dir.counter| == 6 && Pending(w.dir.data[id].state)
    requires w.dir.data[id].kind < |w.stores| && moved == Moved(w, id) && moved < |w.dir.data|
    requires var e := w.dir.data[id];
      index == (if e.state == Killed then e.index else if e.state == Snoozed then w.stores[e.kind].sleeping.end else w.stores[e.kind].living.end)
    requires var e := w.dir.data[id];
      var data1 := w.dir.data[moved := w.dir.data[moved].(index := e.index)];
      data == data1[id := data1[id].(index := index, state := Resolved(e.state))]
    requires var e := w.dir.data[id];
      dead == (if e.state == Killed && !e.locked then w.dir.dead + [id] else w.dir.dead)
    requires var e := w.dir.data[id];
      counter == Bump(Bump(w.dir.counter, e.state, -1), Resolved(e.state), 1)
    requires var e := w.dir.data[id];
      events == [EntityUpdated(id, e.state, Resolved(e.state))] + DataEvents(e.kind, w.archs[e.kind])
    ensures var e := w.dir.data[id];
      Distinct(w.archs[e.kind]) && w.stores[e.kind].WellFormed(|w.archs[e.kind]|) &&
      e.index < (if InSleepingPool(e.state) then w.stores[e.kind].sleeping.end else w.stores[e.kind].living.end) &&
      ApplyModel(w, id) == w.(dir := w.dir.(data := data, dead := dead, counter := counter),
                              stores := w.stores[e.kind := Applied(w.stores[e.kind], w.archs[e.kind], e.state, e.index)],
                              log := Emit(w, events))
  {
    ApplyPrelude(w, id);
  }

  /** Facts every proof about a pending entity's apply starts from. */
  lemma ApplyPrelude(w: World, id: EntityId)
    requires Consistent(w) && id < |w.dir.data| && Pending(w.dir.data[id].state)
    ensures w.dir.data[id].kind < |w.stores|
    ensures var e := w.dir.data[id];
      var src := PoolOf(w, e.kind, InSleepingPool(e.state));
      e.index < src.end && src.ids[e.index] == id &&
      Moved(w, id) < |w.dir.data| && w.dir.data[Moved(w, id)].index == src.end - 1 &&
      w.dir.data[Moved(w, id)].kind == e.kind && w.dir.data[Moved(w, id)].state != Dead &&
      InSleepingPool(w.dir.data[Moved(w, id)].state) == InSleepingPool(e.state)
  {
    var e := w.dir.data[id];
    assert Placed(w, id);
    var src := PoolOf(w, e.kind, InSleepingPool(e.state));
    assert Holds(w, e.kind, InSleepingPool(e.state), src.end - 1);
  }

  /**
   * apply resolves the entity's pending state and changes no other state, no
   * lock and no archetype; the dead stack grows by the id exactly when a
   * killed entity is not id-locked.
   */
  lemma ApplyResolves(w: World, id: EntityId)
    requires Consistent(w) && id < |w.dir.data| && |w.dir.counter| == 6
    requires Pending(w.dir.data[id].state)
    ensures var r := ApplyModel(w, id);
      var e := w.dir.data[id];
      |r.dir.data| == |w.dir.data| && r.archs == w.archs && |r.stores| == |w.stores| &&
      r.dir.toUpdate == w.dir.toUpdate && r.dir.toUpdateEnd == w.dir.toUpdateEnd &&
      r.ready == w.ready && r.runCallbacks == w.runCallbacks &&
      r.dir.data[id].state == Resolved(e.state) &&
      (forall z | 0 <= z < |w.dir.data| && z != id :: r.dir.data[z].state == w.dir.data[z].state) &&
      (forall z | 0 <= z < |w.dir.data| :: r.dir.data[z].locked == w.dir.data[z].locked && r.dir.data[z].kind == w.dir.data[z].kind) &&
      r.dir.dead == (if e.state == Killed && !e.locked then w.dir.dead + [id] else w.dir.dead)
  {
    ApplyPrelude(w, id);
  }

  /**
   * apply re-points the indices: the entity swapped into the vacated slot
   * points at that slot, and a snoozed or woken entity points at the last
   * live slot of its new pool.
   */
  lemma ApplyRepoints(w: World, id: EntityId)
    requires Consistent(w) && id < |w.dir.data| && |w.dir.counter| == 6
    requires Pending(w.dir.data[id].state)
    ensures var r := ApplyModel(w, id);
      var e := w.dir.data[id];
      var moved := Moved(w, id);
      e.kind < |r.stores| && moved < |r.dir.data| && id < |r.dir.data| &&
      (moved != id ==> r.dir.data[moved].index == e.index) &&
      (e.state == Snoozed ==> r.dir.data[id].index == r.stores[e.kind].sleeping.end - 1) &&
      (e.state == Awake ==> r.dir.data[id].index == r.stores[e.kind].living.end - 1)
  {
    ApplyPrelude(w, id);
    var e := w.dir.data[id];
    if e.state == Snoozed {
      SnoozeMovesRecord(w.stores[e.kind], w.archs[e.kind], e.index);
    } else if e.state == Awake {
      WakeMovesRecord(w.stores[e.kind], w.archs[e.kind], e.index);
    }
  }

  /** What apply leaves untouched, and the two entries it rewrites. */
  lemma ApplyFrame(w: World, id: EntityId)
    requires Consistent(w) && id < |w.dir.data| && |w.dir.counter| == 6
    requires Pending(w.dir.data[id].state)
    ensures var r := ApplyModel(w, id);
      var e := w.dir.data[id];
      var moved := Moved(w, id);
      var sl := InSleepingPool(e.state);
      e.kind < |w.stores| && |r.stores| == |w.stores| && |r.dir.data| == |w.dir.data| &&
      moved < |w.dir.data| && e.index < PoolOf(w, e.kind, sl).end &&
      (forall k | 0 <= k < |w.stores| && k != e.kind :: r.stores[k] == w.stores[k]) &&
      (forall z | 0 <= z < |w.dir.data| && z != id && z != moved :: r.dir.data[z] == w.dir.data[z]) &&
      (moved != id ==> r.dir.data[moved] == w.dir.data[moved].(index := e.index)) &&
      PoolOf(r, e.kind, sl) == Remove(PoolOf(w, e.kind, sl), e.index) &&
      r.dir.data[id].state == Resolved(e.state) && r.dir.data[id].kind == e.kind
  {
    ApplyPrelude(w, id);
  }

  /**
   * The shape of one apply step from w to r, in terms of slots only: the
   * entity `id` leaves slot i of its pool, whose last live id (`moved`) fills
   * the hole and is re-pointed at it; when `moving`, `id` is appended to the
   * other pool of the same storage and points at that slot, otherwise it is
   * DEAD. Nothing else changes.
   */
  ghost predicate Transfer(w: World, r: World, id: EntityId, moving: bool)
  {
    Moves(w, r, id) && Lands(w, r, id, moving)
  }

  /** The first half of a transfer: `id` leaves its slot, `moved` fills it, nothing else moves. */
  ghost predicate Moves(w: World, r: World, id: EntityId)
  {
    Consistent(w) && Shape(r) && id < |w.dir.data| && Pending(w.dir.data[id].state) &&
    |r.dir.data| == |w.dir.data| && |r.stores| == |w.stores| &&
    var e := w.dir.data[id];
    var sl := InSleepingPool(e.state);
    e.kind < |w.stores| &&
    var src := PoolOf(w, e.kind, sl);
    var src2 := PoolOf(r, e.kind, sl);
    e.index < src.end &&
    var moved := src.ids[src.end - 1];
    moved < |w.dir.data| &&
    src2.end == src.end - 1 && (e.index < src2.end ==> src2.ids[e.index] == moved) &&
    (forall j | 0 <= j < src2.end && j != e.index :: src2.ids[j] == src.ids[j]) &&
    (forall k | 0 <= k < |w.stores| && k != e.kind :: r.stores[k] == w.stores[k]) &&
    (forall z | 0 <= z < |w.dir.data| && z != id && z != moved :: r.dir.data[z] == w.dir.data[z]) &&
    (moved != id ==> r.dir.data[moved] == w.dir.data[moved].(index := e.index)) &&
    r.dir.data[id].kind == e.kind
  }

  /** The second half: when `moving`, `id` is appended to the other pool and points at it; otherwise it is DEAD. */
  ghost predicate Lands(w: World, r: World, id: EntityId, moving: bool)
    requires Moves(w, r, id)
  {
    var e := w.dir.data[id];
    var sl := InSleepingPool(e.state);
    var dst := PoolOf(w, e.kind, !sl);
    var dst2 := PoolOf(r, e.kind, !sl);
    if moving then
      dst2.end == dst.end + 1 && dst2.ids[dst.end] == id &&
      (forall j | 0 <= j < dst.end :: dst2.ids[j] == dst.ids[j]) &&
      r.dir.data[id].state != Dead && InSleepingPool(r.dir.data[id].state) == !sl &&
      r.dir.data[id].index == dst.end
    else
      dst2 == dst && r.dir.data[id].state == Dead
  }

  /** After a transfer, every entity is still where its info says. */
  lemma TransferPlaced(w: World, r: World, id: EntityId, moving: bool, z: EntityId)
    requires Transfer(w, r, id, moving) && z < |r.dir.data|
    ensures Placed(r, z)
  {
    var e := w.dir.data[id];
    var sl := InSleepingPool(e.state);
    var src := PoolOf(w, e.kind, sl);
    var moved := src.ids[src.end - 1];
    assert Placed(w, z);
    assert Placed(w, id);
    assert Holds(w, e.kind, sl, src.end - 1);
    var f := w.dir.data[z];
    if z == id || z == moved {
    } else if f.state != Dead {
      assert r.dir.data[z] == f;
      if f.kind == e.kind && InSleepingPool(f.state) == sl {
        assert f.index != e.index && f.index != src.end - 1;
      } else if f.kind == e.kind {
        LandsKeeps(w, r, id, moving, f.index);
      } else {
        assert PoolOf(r, f.kind, InSleepingPool(f.state)) == PoolOf(w, f.kind, InSleepingPool(f.state));
      }
    }
  }

  /** After a transfer, every live slot still holds the entity that points at it. */
  lemma TransferHolds(w: World, r: World, id: EntityId, moving: bool, k: nat, sl: bool, j: nat)
    requires Transfer(w, r, id, moving) && k < |r.stores| && j < PoolOf(r, k, sl).end
    ensures Holds(r, k, sl, j)
  {
    var e := w.dir.data[id];
    if k != e.kind {
      TransferHoldsOther(w, r, id, moving, k, sl, j);
    } else if sl == InSleepingPool(e.state) {
      TransferHoldsSource(w, r, id, moving, j);
    } else {
      TransferHoldsTarget(w, r, id, moving, j);
    }
  }

  /** The pool the entity leaves: the moved entity fills its slot, every other slot is as before. */
  lemma TransferHoldsSource(w: World, r: World, id: EntityId, moving: bool, j: nat)
    requires Transfer(w, r, id, moving)
    requires var e := w.dir.data[id]; j < PoolOf(r, e.kind, InSleepingPool(e.state)).end
    ensures var e := w.dir.data[id]; Holds(r, e.kind, InSleepingPool(e.state), j)
  {
    var e := w.dir.data[id];
    var sl := InSleepingPool(e.state);
    var src := PoolOf(w, e.kind, sl);
    assert Placed(w, id);
    assert Holds(w, e.kind, sl, src.end - 1);
    if j != e.index {
      assert Holds(w, e.kind, sl, j);
    }
  }

  /** The other pool of the same storage: its old slots are as before, a moving entity takes the new one. */
  lemma TransferHoldsTarget(w: World, r: World, id: EntityId, moving: bool, j: nat)
    requires Transfer(w, r, id, moving)
    requires var e := w.dir.data[id]; j < PoolOf(r, e.kind, !InSleepingPool(e.state)).end
    ensures var e := w.dir.data[id]; Holds(r, e.kind, !InSleepingPool(e.state), j)
  {
    var e := w.dir.data[id];
    var src := PoolOf(w, e.kind, InSleepingPool(e.state));
    if j < PoolOf(w, e.kind, !InSleepingPool(e.state)).end {
      LandsKeeps(w, r, id, moving, j);
      assert Holds(w, e.kind, InSleepingPool(e.state), src.end - 1);
      assert Holds(w, e.kind, !InSleepingPool(e.state), j);
    }
  }

  /** The slots the other pool already had keep their ids. */
  lemma LandsKeeps(w: World, r: World, id: EntityId, moving: bool, j: nat)
    requires Moves(w, r, id) && Lands(w, r, id, moving)
    requires var e := w.dir.data[id]; j < PoolOf(w, e.kind, !InSleepingPool(e.state)).end
    ensures var e := w.dir.data[id];
      j < PoolOf(r, e.kind, !InSleepingPool(e.state)).end &&
      PoolOf(r, e.kind, !InSleepingPool(e.state)).ids[j] == PoolOf(w, e.kind, !InSleepingPool(e.state)).ids[j]
  {
  }

  /** Another storage is untouched. */
  lemma TransferHoldsOther(w: World, r: World, id: EntityId, moving: bool, k: nat, sl: bool, j: nat)
    requires Transfer(w, r, id, moving) && k < |r.stores| && j < PoolOf(r, k, sl).end
    requires k != w.dir.data[id].kind
    ensures Holds(r, k, sl, j)
  {
    var e := w.dir.data[id];
    var src := PoolOf(w, e.kind, InSleepingPool(e.state));
    assert Placed(w, id);
    assert Holds(w, e.kind, InSleepingPool(e.state), src.end - 1);
    assert PoolOf(r, k, sl) == PoolOf(w, k, sl);
    assert Holds(w, k, sl, j);
  }

  /** A transfer keeps entities and slots in one-to-one correspondence. */
  lemma TransferConsistent(w: World, r: World, id: EntityId, moving: bool)
    requires Transfer(w, r, id, moving)
    ensures Consistent(r)
  {
    forall z | 0 <= z < |r.dir.data| ensures Placed(r, z) {
      TransferPlaced(w, r, id, moving, z);
    }
    forall k, sl, j | 0 <= k < |r.stores| && 0 <= j < PoolOf(r, k, sl).end
      ensures Holds(r, k, sl, j)
    {
      TransferHolds(w, r, id, moving, k, sl, j);
    }
  }

  /** An apply is a transfer: a move to the other pool, or out of the storage for a kill. */
  lemma ApplyIsTransfer(w: World, id: EntityId)
    requires Consistent(w) && id < |w.dir.data| && |w.dir.counter| == 6
    requires Pending(w.dir.data[id].state)
    ensures Transfer(w, ApplyModel(w, id), id, w.dir.data[id].state != Killed)
  {
    ApplyMoves(w, id);
    var st := w.dir.data[id].state;
    if st == Killed {
      ApplyLandsKill(w, id);
    } else if st == Snoozed {
      ApplyLandsSnooze(w, id);
    } else {
      ApplyLandsWake(w, id);
    }
  }

  /** apply keeps every storage well-formed. */
  lemma ApplyShape(w: World, id: EntityId)
    requires Consistent(w) && id < |w.dir.data| && |w.dir.counter| == 6
    requires Pending(w.dir.data[id].state)
    ensures Shape(ApplyModel(w, id))
  {
    ApplyPrelude(w, id);
    var e := w.dir.data[id];
    var s := w.stores[e.kind];
    if e.state == Killed {
      KillLosesOne(s, e.index);
    } else if e.state == Snoozed {
      SnoozeMovesRecord(s, w.archs[e.kind], e.index);
    } else {
      WakeMovesRecord(s, w.archs[e.kind], e.index);
    }
  }

  /** apply takes the entity out of its slot and moves its pool's last entity in. */
  lemma ApplyMoves(w: World, id: EntityId)
    requires Consistent(w) && id < |w.dir.data| && |w.dir.counter| == 6
    requires Pending(w.dir.data[id].state)
    ensures Moves(w, ApplyModel(w, id), id)
  {
    ApplyPrelude(w, id);
    ApplyFrame(w, id);
    ApplyShape(w, id);
    MovesFromFrame(w, ApplyModel(w, id), id);
  }

  /** The slot-level facts of a swap-removal from the entity's pool make the first half of a transfer. */
  lemma MovesFromFrame(w: World, r: World, id: EntityId)
    requires Consistent(w) && Shape(r) && id < |w.dir.data| && Pending(w.dir.data[id].state)
    requires var e := w.dir.data[id];
      var moved := Moved(w, id);
      var sl := InSleepingPool(e.state);
      e.kind < |w.stores| && |r.stores| == |w.stores| && |r.dir.data| == |w.dir.data| &&
      moved < |w.dir.data| && e.index < PoolOf(w, e.kind, sl).end &&
      (forall k | 0 <= k < |w.stores| && k != e.kind :: r.stores[k] == w.stores[k]) &&
      (forall z | 0 <= z < |w.dir.data| && z != id && z != moved :: r.dir.data[z] == w.dir.data[z]) &&
      (moved != id ==> r.dir.data[moved] == w.dir.data[moved].(index := e.index)) &&
      PoolOf(r, e.kind, sl) == Remove(PoolOf(w, e.kind, sl), e.index) &&
      r.dir.data[id].kind == e.kind
    ensures Moves(w, r, id)
  {
  }

  /** A kill leaves the other pool alone and makes the entity DEAD. */
  lemma ApplyLandsKill(w: World, id: EntityId)
    requires Consistent(w) && id < |w.dir.data| && |w.dir.counter| == 6
    requires w.dir.data[id].state == Killed
    requires Moves(w, ApplyModel(w, id), id)
    ensures Lands(w, ApplyModel(w, id), id, false)
  {
    ApplyPrelude(w, id);
    var e := w.dir.data[id];
    KillLosesOne(w.stores[e.kind], e.index);
  }

  /** A snooze appends the entity to the sleeping pool of its storage. */
  lemma ApplyLandsSnooze(w: World, id: EntityId)
    requires Consistent(w) && id < |w.dir.data| && |w.dir.counter| == 6
    requires w.dir.data[id].state == Snoozed
    requires Moves(w, ApplyModel(w, id), id)
    ensures Lands(w, ApplyModel(w, id), id, true)
  {
    ApplyPrelude(w, id);
    var e := w.dir.data[id];
    SnoozeMovesRecord(w.stores[e.kind], w.archs[e.kind], e.index);
  }

  /** A wake appends the entity to the living pool of its storage. */
  lemma ApplyLandsWake(w: World, id: EntityId)
    requires Consistent(w) && id < |w.dir.data| && |w.dir.counter| == 6
    requires w.dir.data[id].state == Awake
    requires Moves(w, ApplyModel(w, id), id)
    ensures Lands(w, ApplyModel(w, id), id, true)
  {
    ApplyPrelude(w, id);
    var e := w.dir.data[id];
    WakeMovesRecord(w.stores[e.kind], w.archs[e.kind], e.index);
  }

  /** apply keeps entities and slots in one-to-one correspondence. */
  lemma ApplyConsistent(w: World, id: EntityId)
    requires Consistent(w) && id < |w.dir.data| && |w.dir.counter| == 6
    ensures Consistent(ApplyModel(w, id))
  {
    if Pending(w.dir.data[id].state) {
      ApplyIsTransfer(w, id);
      TransferConsistent(w, ApplyModel(w, id), id, w.dir.data[id].state != Killed);
    }
  }

  /** apply moves one unit from the pending state's counter to the resolved state's. */
  lemma ApplyCounters(w: World, id: EntityId)
    requires Consistent(w) && CountersExact(w.dir) && id < |w.dir.data|
    ensures CountersExact(ApplyModel(w, id).dir)
  {
    var e := w.dir.data[id];
    var r := ApplyModel(w, id);
    if Pending(e.state) {
      ApplyPrelude(w, id);
      var moved := Moved(w, id);
      var data1 := w.dir.data[moved := w.dir.data[moved].(index := e.index)];
      assert r.dir.data == data1[id := r.dir.data[id]];
      CountersMove(w.dir, moved, data1[moved], id, r.dir.data[id], r.dir.data, r.dir.counter);
      assert r.dir == w.dir.(data := r.dir.data, counter := r.dir.counter, dead := r.dir.dead);
    }
  }

  /** apply keeps the dead stack valid. */
  lemma ApplyDeadStack(w: World, id: EntityId)
    requires Consistent(w) && DeadStackValid(w.dir) && id < |w.dir.data| && |w.dir.counter| == 6
    ensures DeadStackValid(ApplyModel(w, id).dir)
  {
    if Pending(w.dir.data[id].state) {
      ApplyResolves(w, id);
      DeadStackAfter(w.dir, ApplyModel(w, id).dir, id);
    }
  }

  /** apply takes the entity out of the pending set and nobody else. */
  lemma ApplyPending(w: World, id: EntityId)
    requires Consistent(w) && id < |w.dir.data| && |w.dir.counter| == 6
    ensures PendingIds(ApplyModel(w, id).dir.data) == PendingIds(w.dir.data) - {id}
  {
    var e := w.dir.data[id];
    if Pending(e.state) {
      ApplyResolves(w, id);
    }
  }

  /** The invariant survives one apply, whatever entity it is applied to. */
  lemma ApplyKeepsCore(w: World, id: EntityId)
    requires Consistent(w) && CountersExact(w.dir) && DeadStackValid(w.dir) && id < |w.dir.data|
    ensures var r := ApplyModel(w, id);
      Consistent(r) && CountersExact(r.dir) && DeadStackValid(r.dir) &&
      PendingIds(r.dir.data) == PendingIds(w.dir.data) - {id} &&
      r.dir.toUpdate == w.dir.toUpdate && r.dir.toUpdateEnd == w.dir.toUpdateEnd && |r.dir.data| == |w.dir.data|
  {
    ApplyConsistent(w, id);
    ApplyCounters(w, id);
    ApplyDeadStack(w, id);
    ApplyPending(w, id);
    if Pending(w.dir.data[id].state) {
      ApplyResolves(w, id);
    }
  }

  /** Consistency depends only on the archetypes, the storages and the entity infos. */
  lemma ConsistentFrame(w: World, r: World)
    requires Consistent(w) && r.archs == w.archs && r.stores == w.stores && r.dir.data == w.dir.data
    ensures Consistent(r)
  {
    forall id | 0 <= id < |r.dir.data| ensures Placed(r, id) {
      assert Placed(w, id);
    }
    forall k, sl, j | 0 <= k < |r.stores| && 0 <= j < PoolOf(r, k, sl).end
      ensures Holds(r, k, sl, j)
    {
      assert Holds(w, k, sl, j);
    }
  }

  /** Processing the next queued id moves the invariant one position along the buffer. */
  lemma ApplyAdvances(w: World, from: nat)
    requires Inv(w, from) && from < w.dir.toUpdateEnd
    ensures Inv(ApplyModel(w, w.dir.toUpdate[from]), from + 1)
  {
    var id := w.dir.toUpdate[from];
    ApplyKeepsCore(w, id);
    var r := ApplyModel(w, id);
    assert QueuedFrom(r.dir, from + 1) == QueuedFrom(w.dir, from) - {id} by {
      assert forall j | from < j < w.dir.toUpdateEnd :: w.dir.toUpdate[j] != id;
      assert QueuedFrom(w.dir, from) == {id} + QueuedFrom(w.dir, from + 1);
    }
  }

  /**
   * Entities::update: apply every id of to_update[from, to_update_end) in
   * insertion order, then reset to_update_end to 0 (the buffer keeps its
   * length for reuse).
   */
  function UpdateFrom(w: World, from: nat): (r: World)
    requires Inv(w, from)
    ensures r.dir.toUpdateEnd == 0 && |r.dir.data| == |w.dir.data| && r.dir.toUpdate == w.dir.toUpdate
    decreases w.dir.toUpdateEnd - from
  {
    if from == w.dir.toUpdateEnd then
      w.(dir := w.dir.(toUpdateEnd := 0))
    else
      ApplyAdvances(w, from);
      ApplyKeepsCore(w, w.dir.toUpdate[from]);
      UpdateFrom(ApplyModel(w, w.dir.toUpdate[from]), from + 1)
  }

  /**
   * An update ends in a valid registry with an empty buffer and no pending
   * entity, and only appends to the event log.
   */
  lemma {:induction false} UpdateValid(w: World, from: nat)
    requires Inv(w, from)
    ensures var r := UpdateFrom(w, from);
      Valid(r) && PendingIds(r.dir.data) == {} &&
      |w.log| <= |r.log| && r.log[..|w.log|] == w.log
    decreases w.dir.toUpdateEnd - from, 1
  {
    if from == w.dir.toUpdateEnd {
      UpdateValidDone(w, from);
    } else {
      UpdateValidStep(w, from);
    }
  }

  /** The end of the buffer: resetting to_update_end leaves a valid registry. */
  lemma UpdateValidDone(w: World, from: nat)
    requires Inv(w, from) && from == w.dir.toUpdateEnd
    ensures var r := UpdateFrom(w, from);
      Valid(r) && PendingIds(r.dir.data) == {} && r.log == w.log
  {
    var r := w.(dir := w.dir.(toUpdateEnd := 0));
    assert UpdateFrom(w, from) == r;
    assert QueuedFrom(r.dir, 0) == {};
    ConsistentFrame(w, r);
  }

  /** One queued id: apply it, then the rest of the update. */
  lemma {:induction false} UpdateValidStep(w: World, from: nat)
    requires Inv(w, from) && from < w.dir.toUpdateEnd
    ensures var r := UpdateFrom(w, from);
      Valid(r) && PendingIds(r.dir.data) == {} &&
      |w.log| <= |r.log| && r.log[..|w.log|] == w.log
    decreases w.dir.toUpdateEnd - from, 0
  {
    var id := w.dir.toUpdate[from];
    ApplyAdvances(w, from);
    ApplyLogGrows(w, id);
    var w1 := ApplyModel(w, id);
    UpdateValid(w1, from + 1);
    var r := UpdateFrom(w1, from + 1);
    assert UpdateFrom(w, from) == r;
    assert r.log[..|w.log|] == r.log[..|w1.log|][..|w.log|];
  }

  /** apply only ever appends to the event log. */
  lemma ApplyLogGrows(w: World, id: EntityId)
    requires Consistent(w) && id < |w.dir.data| && |w.dir.counter| == 6
    ensures |w.log| <= |ApplyModel(w, id).log| && ApplyModel(w, id).log[..|w.log|] == w.log
  {
  }

  /**
   * After an update every entity that was pending has its resolved state and
   * every other entity keeps its state.
   */
  lemma {:induction false} UpdateResolvesAll(w: World, from: nat, z: EntityId)
    requires Inv(w, from) && z < |w.dir.data|
    ensures UpdateFrom(w, from).dir.data[z].state ==
      if Pending(w.dir.data[z].state) then Resolved(w.dir.data[z].state) else w.dir.data[z].state
    decreases w.dir.toUpdateEnd - from, 1
  {
    if from < w.dir.toUpdateEnd {
      UpdateResolvesStep(w, from, z);
    } else {
      assert z !in PendingIds(w.dir.data);
    }
  }

  /** UpdateResolvesAll for a non-empty rest of the buffer: the head's apply, then the rest. */
  lemma {:induction false} UpdateResolvesStep(w: World, from: nat, z: EntityId)
    requires Inv(w, from) && z < |w.dir.data| && from < w.dir.toUpdateEnd
    ensures UpdateFrom(w, from).dir.data[z].state ==
      if Pending(w.dir.data[z].state) then Resolved(w.dir.data[z].state) else w.dir.data[z].state
    decreases w.dir.toUpdateEnd - from, 0
  {
    ApplyHeadState(w, from, z);
    UpdateResolvesAll(ApplyModel(w, w.dir.toUpdate[from]), from + 1, z);
  }

  /** Applying the head of the buffer: the invariant moves on, and only the head's state changes, to its resolved state. */
  lemma ApplyHeadState(w: World, from: nat, z: EntityId)
    requires Inv(w, from) && z < |w.dir.data| && from < w.dir.toUpdateEnd
    ensures var id := w.dir.toUpdate[from];
      var w1 := ApplyModel(w, id);
      Inv(w1, from + 1) && UpdateFrom(w, from) == UpdateFrom(w1, from + 1) && z < |w1.dir.data| &&
      (z == id ==> Pending(w.dir.data[z].state) && w1.dir.data[z].state == Resolved(w.dir.data[z].state)) &&
      (z != id ==> w1.dir.data[z].state == w.dir.data[z].state)
  {
    var id := w.dir.toUpdate[from];
    ApplyAdvances(w, from);
    assert id in QueuedFrom(w.dir, from);
    ApplyResolves(w, id);
  }

  /** The queued ids of to_update[from, end) that are KILLED and not id-locked, in queue order. */
  function ReleasedFrom(d: Dir, from: nat): seq<EntityId>
    requires from <= d.toUpdateEnd <= |d.toUpdate|
    requires forall j | from <= j < d.toUpdateEnd :: d.toUpdate[j] < |d.data|
    decreases d.toUpdateEnd - from
  {
    if from == d.toUpdateEnd then []
    else
      var id := d.toUpdate[from];
      (if d.data[id].state == Killed && !d.data[id].locked then [id] else []) + ReleasedFrom(d, from + 1)
  }

  /** Two directories that agree on the queued ids' states and locks release the same ids. */
  lemma {:induction false} ReleasedFromAgree(d: Dir, e: Dir, from: nat)
    requires from <= d.toUpdateEnd <= |d.toUpdate|
    requires forall j | from <= j < d.toUpdateEnd :: d.toUpdate[j] < |d.data|
    requires e.toUpdate == d.toUpdate && e.toUpdateEnd == d.toUpdateEnd && |e.data| == |d.data|
    requires forall j | from <= j < d.toUpdateEnd ::
      e.data[d.toUpdate[j]].state == d.data[d.toUpdate[j]].state && e.data[d.toUpdate[j]].locked == d.data[d.toUpdate[j]].locked
    ensures ReleasedFrom(e, from) == ReleasedFrom(d, from)
    decreases d.toUpdateEnd - from
  {
    if from < d.toUpdateEnd {
      ReleasedFromAgree(d, e, from + 1);
    }
  }

  /**
   * Applying the id at the head of the buffer pushes it on the dead stack when
   * it was killed and not id-locked, and leaves the later queued ids alone.
   */
  lemma ApplyReleasesHead(w: World, from: nat)
    requires Inv(w, from) && from < w.dir.toUpdateEnd
    ensures var id := w.dir.toUpdate[from];
      var r := ApplyModel(w, id);
      r.dir.toUpdate == w.dir.toUpdate && r.dir.toUpdateEnd == w.dir.toUpdateEnd && |r.dir.data| == |w.dir.data| &&
      r.dir.dead == w.dir.dead + (if w.dir.data[id].state == Killed && !w.dir.data[id].locked then [id] else []) &&
      forall j | from + 1 <= j < w.dir.toUpdateEnd ::
        r.dir.data[w.dir.toUpdate[j]].state == w.dir.data[w.dir.toUpdate[j]].state &&
        r.dir.data[w.dir.toUpdate[j]].locked == w.dir.data[w.dir.toUpdate[j]].locked
  {
    var id := w.dir.toUpdate[from];
    assert id in QueuedFrom(w.dir, from);
    assert Pending(w.dir.data[id].state);
    ApplyResolves(w, id);
    assert forall j | from < j < w.dir.toUpdateEnd :: w.dir.toUpdate[j] != id;
  }

  /** One step of UpdateReleases: the head's release joins the later ones. */
  lemma ApplyReleasesStep(w: World, from: nat)
    requires Inv(w, from) && from < w.dir.toUpdateEnd
    ensures var r := ApplyModel(w, w.dir.toUpdate[from]);
      r.dir.toUpdateEnd <= |r.dir.toUpdate| && from + 1 <= r.dir.toUpdateEnd &&
      (forall j | from + 1 <= j < r.dir.toUpdateEnd :: r.dir.toUpdate[j] < |r.dir.data|) &&
      r.dir.dead + ReleasedFrom(r.dir, from + 1) == w.dir.dead + ReleasedFrom(w.dir, from)
  {
    var id := w.dir.toUpdate[from];
    var w1 := ApplyModel(w, id);
    ApplyReleasesHead(w, from);
    ReleasedFromAgree(w.dir, w1.dir, from + 1);
    ReleasesShift(w.dir, w1.dir, from);
  }

  /** The head's release followed by the releases of the rest is the releases from the head. */
  lemma ReleasesShift(d: Dir, e: Dir, from: nat)
    requires from < d.toUpdateEnd <= |d.toUpdate|
    requires forall j | from <= j < d.toUpdateEnd :: d.toUpdate[j] < |d.data|
    requires e.toUpdate == d.toUpdate && e.toUpdateEnd == d.toUpdateEnd && |e.data| == |d.data|
    requires var id := d.toUpdate[from];
      e.dead == d.dead + (if d.data[id].state == Killed && !d.data[id].locked then [id] else [])
    requires ReleasedFrom(e, from + 1) == ReleasedFrom(d, from + 1)
    ensures e.dead + ReleasedFrom(e, from + 1) == d.dead + ReleasedFrom(d, from)
  {
    var id := d.toUpdate[from];
    var head := if d.data[id].state == Killed && !d.data[id].locked then [id] else [];
    assert ReleasedFrom(d, from) == head + ReleasedFrom(d, from + 1);
    assert d.dead + head + ReleasedFrom(d, from + 1) == d.dead + (head + ReleasedFrom(d, from + 1));
  }

  /**
   * An update pushes onto the dead stack exactly the queued ids that were
   * killed and not id-locked, in the order they were queued, so the next
   * creates reuse them last-released first.
   */
  lemma {:induction false} UpdateReleases(w: World, from: nat)
    requires Inv(w, from)
    ensures UpdateFrom(w, from).dir.dead == w.dir.dead + ReleasedFrom(w.dir, from)
    decreases w.dir.toUpdateEnd - from, 1
  {
    if from < w.dir.toUpdateEnd {
      UpdateReleasesStep(w, from);
    } else {
      assert ReleasedFrom(w.dir, from) == [];
    }
  }

  /** UpdateReleases for a non-empty rest of the buffer: the head's release, then the rest. */
  lemma {:induction false} UpdateReleasesStep(w: World, from: nat)
    requires Inv(w, from) && from < w.dir.toUpdateEnd
    ensures UpdateFrom(w, from).dir.dead == w.dir.dead + ReleasedFrom(w.dir, from)
    decreases w.dir.toUpdateEnd - from, 0
  {
    var id := w.dir.toUpdate[from];
    ApplyAdvances(w, from);
    var w1 := ApplyModel(w, id);
    assert UpdateFrom(w, from) == UpdateFrom(w1, from + 1);
    UpdateReleases(w1, from + 1);
    ApplyReleasesStep(w, from);
  }

  // ---------------------------------------------------------------------------
  // queue and execute
  // ---------------------------------------------------------------------------

  /** A change of one entity's state that stays out of DEAD and in the same pool keeps consistency. */
  lemma RestateConsistent(w: World, r: World, id: EntityId)
    requires Consistent(w) && id < |w.dir.data| && w.dir.data[id].state != Dead
    requires r.archs == w.archs && r.stores == w.stores && |r.dir.data| == |w.dir.data|
    requires forall z | 0 <= z < |w.dir.data| && z != id :: r.dir.data[z] == w.dir.data[z]
    requires r.dir.data[id] == w.dir.data[id].(state := r.dir.data[id].state)
    requires r.dir.data[id].state != Dead && InSleepingPool(r.dir.data[id].state) == InSleepingPool(w.dir.data[id].state)
    ensures Consistent(r)
  {
    forall z | 0 <= z < |r.dir.data| ensures Placed(r, z) {
      assert Placed(w, z);
    }
    forall k, sl, j | 0 <= k < |r.stores| && 0 <= j < PoolOf(r, k, sl).end
      ensures Holds(r, k, sl, j)
    {
      assert Holds(w, k, sl, j);
    }
  }

  /** Registry::queue: Entities::queue, whose success callback emits EntityUpdated. */
  function QueueModel(w: World, id: EntityId, t: Task): (r: World)
    requires |w.dir.counter| == 6 && id < |w.dir.data| && w.dir.toUpdateEnd <= |w.dir.toUpdate|
    ensures r.archs == w.archs && r.stores == w.stores && |r.dir.data| == |w.dir.data|
    ensures w.dir.data[id].state != Required(t) ==> r == w
    ensures w.dir.data[id].state == Required(t) ==> r.dir.data[id].state == Resulting(t)
  {
    if w.dir.data[id].state == Required(t) then
      w.(dir := QueueSpec(w.dir, id, t), log := Emit(w, [EntityUpdated(id, Required(t), Resulting(t))]))
    else w
  }

  /** One event reaches the log exactly when callbacks run and its listener is subscribed. */
  lemma EmitOne(w: World, e: Event)
    ensures Emit(w, [e]) == w.log + (if w.runCallbacks && ChannelOf(e) in w.ready then [e] else [])
  {
    if w.runCallbacks {
      assert [e][1..] == [];
    }
  }

  /**
   * A queue keeps the registry valid and moves no memory; the entity takes
   * the task's pending state exactly when it was in the required state, and
   * only then is an EntityUpdated event delivered.
   */
  lemma QueueValid(w: World, id: EntityId, t: Task)
    requires Valid(w) && id < |w.dir.data|
    ensures var r := QueueModel(w, id, t);
      var changed := w.dir.data[id].state == Required(t);
      Valid(r) && r.stores == w.stores && r.archs == w.archs && |r.dir.data| == |w.dir.data| &&
      r.dir.data[id].state == (if changed then Resulting(t) else w.dir.data[id].state) &&
      (forall z | 0 <= z < |w.dir.data| && z != id :: r.dir.data[z] == w.dir.data[z]) &&
      r.log == w.log + (if changed && w.runCallbacks && UpdatedChannel in w.ready
                        then [EntityUpdated(id, Required(t), Resulting(t))] else [])
  {
    var r := QueueModel(w, id, t);
    QueuePreserves(w.dir, id, t);
    EmitOne(w, EntityUpdated(id, Required(t), Resulting(t)));
    if w.dir.data[id].state == Required(t) {
      TaskStates(t);
      RestateConsistent(w, r, id);
    }
  }

  /**
   * Registry::execute: the state change of Entities::execute followed at once
   * by the entity's update, which is apply.
   */
  function ExecuteModel(w: World, id: EntityId, t: Task): (r: World)
    requires Consistent(w) && id < |w.dir.data| && |w.dir.counter| == 6
    ensures w.dir.data[id].state != Required(t) ==> r == w
  {
    if w.dir.data[id].state == Required(t) then
      var w1 := w.(dir := ExecuteSpec(w.dir, id, t));
      TaskStates(t);
      RestateConsistent(w, w1, id);
      ApplyModel(w1, id)
    else w
  }

  /**
   * An execute keeps the registry valid; an entity in the required state ends
   * in the task's final state (KILL: DEAD, SNOOZE: SLEEPING, WAKE: LIVE) and
   * every other entity keeps its state.
   */
  lemma ExecuteValid(w: World, id: EntityId, t: Task)
    requires Valid(w) && id < |w.dir.data|
    ensures var r := ExecuteModel(w, id, t);
      Valid(r) && |r.dir.data| == |w.dir.data| &&
      r.dir.data[id].state ==
        (if w.dir.data[id].state != Required(t) then w.dir.data[id].state
         else match t case Kill => Dead case Snooze => Sleeping case Wake => Live) &&
      forall z | 0 <= z < |w.dir.data| && z != id :: r.dir.data[z].state == w.dir.data[z].state
  {
    if w.dir.data[id].state == Required(t) {
      TaskStates(t);
      var w1 := w.(dir := ExecuteSpec(w.dir, id, t));
      RestateConsistent(w, w1, id);
      TaskKeepsCounters(w.dir, id, t);
      assert DeadStackValid(w1.dir) by {
        forall j | 0 <= j < |w.dir.dead| ensures w.dir.dead[j] != id {
        }
      }
      assert PendingIds(w1.dir.data) == PendingIds(w.dir.data) + {id};
      assert id !in PendingIds(w.dir.data);
      ApplyKeepsCore(w1, id);
      ApplyResolves(w1, id);
      var r := ApplyModel(w1, id);
      assert QueuedFrom(r.dir, 0) == QueuedFrom(w.dir, 0);
    }
  }

  /** With an empty buffer, update after a successful queue is one apply of the queued id. */
  lemma QueueThenUpdate(w: World, id: EntityId, t: Task)
    requires Valid(w) && id < |w.dir.data| && w.dir.toUpdateEnd == 0 && w.dir.data[id].state == Required(t)
    ensures Inv(QueueModel(w, id, t), 0) && |QueueModel(w, id, t).dir.counter| == 6
    ensures var q := QueueModel(w, id, t);
      var a := ApplyModel(q, id);
      UpdateFrom(q, 0) == a.(dir := a.dir.(toUpdateEnd := 0))
  {
    QueueValid(w, id, t);
    var q := QueueModel(w, id, t);
    assert q.dir.toUpdate[0] == q.dir.toUpdate[..q.dir.toUpdateEnd][0] == id;
    ApplyAdvances(q, 0);
    var a := ApplyModel(q, id);
    assert UpdateFrom(q, 0) == UpdateFrom(a, 1);
  }

  /**
   * With an empty update buffer, execute is queue followed by update: both
   * leave the same storages, entity infos, dead stack and counters (queue
   * only adds its EntityUpdated event and the buffer entry).
   */
  lemma ExecuteIsQueueThenUpdate(w: World, id: EntityId, t: Task)
    requires Valid(w) && id < |w.dir.data| && w.dir.toUpdateEnd == 0
    ensures Inv(QueueModel(w, id, t), 0)
    ensures var q := UpdateFrom(QueueModel(w, id, t), 0);
      var x := ExecuteModel(w, id, t);
      q.stores == x.stores && q.dir.data == x.dir.data && q.dir.dead == x.dir.dead && q.dir.counter == x.dir.counter
  {
    QueueValid(w, id, t);
    if w.dir.data[id].state == Required(t) {
      var q := QueueModel(w, id, t);
      QueueThenUpdate(w, id, t);
      TaskStates(t);
      var w1 := w.(dir := ExecuteSpec(w.dir, id, t));
      RestateConsistent(w, w1, id);
      assert ExecuteModel(w, id, t) == ApplyModel(w1, id);
      ApplyIgnoresBuffer(q, w1, id);
    }
  }

  /** apply reads neither the update buffer nor the log when it moves memory and rewrites infos. */
  lemma ApplyIgnoresBuffer(w: World, v: World, id: EntityId)
    requires Consistent(w) && Consistent(v) && id < |w.dir.data| && |w.dir.counter| == 6
    requires v.archs == w.archs && v.stores == w.stores && v.dir.data == w.dir.data
    requires v.dir.dead == w.dir.dead && v.dir.counter == w.dir.counter
    ensures var a := ApplyModel(w, id);
      var b := ApplyModel(v, id);
      a.stores == b.stores && a.dir.data == b.dir.data && a.dir.dead == b.dir.dead && a.dir.counter == b.dir.counter
  {
  }

  // ---------------------------------------------------------------------------
  // create, populate, trim
  // ---------------------------------------------------------------------------

  /**
   * Registry::create: the directory entry points at the living pool's count
   * before the add, the record is added to the living pool, and the creation
   * events follow.
   */
  function CreateModel(w: World, kind: nat, record: seq<Value>, locked: bool): (r: (EntityId, World))
    requires Valid(w) && kind < |w.archs| && |record| == |w.archs[kind]|
    ensures r.1.archs == w.archs && |r.1.stores| == |w.stores|
    ensures r.0 < |r.1.dir.data| && r.1.dir.data[r.0] == Info(kind, w.stores[kind].living.end, Live, locked)
    ensures r.1.stores[kind].living.end == w.stores[kind].living.end + 1
  {
    var s := w.stores[kind];
    var (id, d) := CreateSpec(w.dir, kind, s.living.end, locked);
    var s2 := s.(living := PoolSpec.Add(s.living, id, record));
    (id, w.(dir := d, stores := w.stores[kind := s2],
            log := Emit(w, [EntityCreated(id)] + DataEvents(kind, w.archs[kind]))))
  }

  /** No live slot holds the id. */
  ghost predicate Unheld(w: World, id: EntityId)
    requires Shape(w)
  {
    forall k, sl, j | 0 <= k < |w.stores| && 0 <= j < PoolOf(w, k, sl).end :: PoolOf(w, k, sl).ids[j] != id
  }

  /**
   * The shape of a create step from w to r: the unheld id is appended to the
   * living pool of `kind` and its info points at that slot; nothing else changes.
   */
  ghost predicate Admit(w: World, r: World, id: EntityId, kind: nat)
  {
    Consistent(w) && Shape(r) && kind < |w.stores| && |r.stores| == |w.stores| && Unheld(w, id) &&
    id < |r.dir.data| && |w.dir.data| <= |r.dir.data| &&
    (forall k | 0 <= k < |w.stores| && k != kind :: r.stores[k] == w.stores[k]) &&
    r.stores[kind].sleeping == w.stores[kind].sleeping &&
    var p := w.stores[kind].living;
    var p2 := r.stores[kind].living;
    p2.end == p.end + 1 && p2.ids[p.end] == id &&
    (forall j | 0 <= j < p.end :: p2.ids[j] == p.ids[j]) &&
    (forall z | 0 <= z < |r.dir.data| && z != id :: z < |w.dir.data| && r.dir.data[z] == w.dir.data[z]) &&
    r.dir.data[id].state == Live && r.dir.data[id].kind == kind && r.dir.data[id].index == p.end
  }

  lemma AdmitPlaced(w: World, r: World, id: EntityId, kind: nat, z: EntityId)
    requires Admit(w, r, id, kind) && z < |r.dir.data|
    ensures Placed(r, z)
  {
    if z != id {
      assert z < |w.dir.data| && r.dir.data[z] == w.dir.data[z];
      assert Placed(w, z);
      var f := w.dir.data[z];
      if f.state != Dead && f.kind != kind {
        assert PoolOf(r, f.kind, InSleepingPool(f.state)) == PoolOf(w, f.kind, InSleepingPool(f.state));
      }
    }
  }

  lemma AdmitHolds(w: World, r: World, id: EntityId, kind: nat, k: nat, sl: bool, j: nat)
    requires Admit(w, r, id, kind) && k < |r.stores| && j < PoolOf(r, k, sl).end
    ensures Holds(r, k, sl, j)
  {
    if k == kind && !sl {
      if j < w.stores[kind].living.end {
        assert Holds(w, k, sl, j);
      }
    } else {
      assert PoolOf(r, k, sl) == PoolOf(w, k, sl);
      assert Holds(w, k, sl, j);
    }
  }

  lemma AdmitConsistent(w: World, r: World, id: EntityId, kind: nat)
    requires Admit(w, r, id, kind)
    ensures Consistent(r)
  {
    forall z | 0 <= z < |r.dir.data| ensures Placed(r, z) {
      AdmitPlaced(w, r, id, kind, z);
    }
    forall k, sl, j | 0 <= k < |r.stores| && 0 <= j < PoolOf(r, k, sl).end
      ensures Holds(r, k, sl, j)
    {
      AdmitHolds(w, r, id, kind, k, sl, j);
    }
  }

  /** An id on the dead stack, or a fresh one, is held by no live slot. */
  lemma ReusableUnheld(w: World)
    requires Valid(w)
    ensures Unheld(w, |w.dir.data|)
    ensures |w.dir.dead| > 0 ==> Unheld(w, w.dir.dead[|w.dir.dead| - 1])
  {
    forall k, sl, j | 0 <= k < |w.stores| && 0 <= j < PoolOf(w, k, sl).end
      ensures PoolOf(w, k, sl).ids[j] != |w.dir.data|
      ensures |w.dir.dead| > 0 ==> PoolOf(w, k, sl).ids[j] != w.dir.dead[|w.dir.dead| - 1]
    {
      assert Holds(w, k, sl, j);
    }
  }

  /**
   * A create keeps the registry valid. The new LIVE entity sits in the last
   * live slot of its archetype's living pool with the given record, it is not
   * queued, and the creation is announced by EntityCreated, then the data
   * events of its archetype.
   */
  lemma CreateValid(w: World, kind: nat, record: seq<Value>, locked: bool)
    requires Valid(w) && kind < |w.archs| && |record| == |w.archs[kind]|
    ensures var (id, r) := CreateModel(w, kind, record, locked);
      var p := w.stores[kind].living;
      Valid(r) && id < |r.dir.data| && kind < |r.stores| &&
      r.dir.data[id] == Info(kind, p.end, Live, locked) &&
      r.stores[kind].living.end == p.end + 1 && r.stores[kind].living.ids[p.end] == id &&
      r.stores[kind].living.Row(p.end) == record &&
      id !in PendingIds(r.dir.data) &&
      r.log == Emit(w, [EntityCreated(id)] + DataEvents(kind, w.archs[kind]))
  {
    var (id, r) := CreateModel(w, kind, record, locked);
    var p := w.stores[kind].living;
    CreatePreserves(w.dir, kind, p.end, locked);
    ReusableUnheld(w);
    assert Shape(r);
    AdmitConsistent(w, r, id, kind);
  }

  /** Registry::populate: `count` creates of the same record, none id-locked. */
  function PopulateModel(w: World, kind: nat, record: seq<Value>, count: nat): (r: World)
    requires Valid(w) && kind < |w.archs| && |record| == |w.archs[kind]|
    ensures r.archs == w.archs && |r.stores| == |w.stores|
    ensures r.stores[kind].living.end == w.stores[kind].living.end + count
    decreases count, 0
  {
    if count == 0 then w
    else
      PopulateValid(w, kind, record, count - 1);
      CreateModel(PopulateModel(w, kind, record, count - 1), kind, record, false).1
  }

  /** populate keeps the registry valid. */
  lemma {:induction false} PopulateValid(w: World, kind: nat, record: seq<Value>, count: nat)
    requires Valid(w) && kind < |w.archs| && |record| == |w.archs[kind]|
    ensures Valid(PopulateModel(w, kind, record, count)) && PopulateModel(w, kind, record, count).archs == w.archs
    decreases count, 1
  {
    if count > 0 {
      PopulateValid(w, kind, record, count - 1);
      CreateValid(PopulateModel(w, kind, record, count - 1), kind, record, false);
    }
  }

  /**
   * From w to r, the living pool of `kind` gained n live slots, its sleeping
   * pool and every other storage are unchanged, and there are n more LIVE entities.
   */
  ghost predicate Grown(w: World, r: World, kind: nat, n: nat) {
    kind < |w.stores| && kind < |r.stores| && |r.stores| == |w.stores| &&
    r.stores[kind].living.end == w.stores[kind].living.end + n &&
    r.stores[kind].sleeping == w.stores[kind].sleeping &&
    (forall k | 0 <= k < |w.stores| && k != kind :: r.stores[k] == w.stores[k]) &&
    CountState(r.dir.data, Live) == CountState(w.dir.data, Live) + n
  }

  lemma GrownTrans(a: World, b: World, c: World, kind: nat, m: nat, n: nat)
    requires Grown(a, b, kind, m) && Grown(b, c, kind, n)
    ensures Grown(a, c, kind, m + n)
  {
  }

  /**
   * populate adds exactly `count` LIVE entities, all in the living pool of
   * the archetype, and touches no other pool.
   */
  lemma {:induction false} PopulateAdds(w: World, kind: nat, record: seq<Value>, count: nat)
    requires Valid(w) && kind < |w.archs| && |record| == |w.archs[kind]|
    ensures Grown(w, PopulateModel(w, kind, record, count), kind, count)
    decreases count
  {
    if count > 0 {
      PopulateStep(w, kind, record, count);
      PopulateAdds(w, kind, record, count - 1);
      GrownByCreate(w, PopulateModel(w, kind, record, count - 1), kind, record, count - 1);
    }
  }

  /** A create after n added entities makes n + 1. */
  lemma GrownByCreate(w: World, w1: World, kind: nat, record: seq<Value>, n: nat)
    requires Grown(w, w1, kind, n) && Valid(w1) && kind < |w1.archs| && |record| == |w1.archs[kind]|
    ensures Grown(w, CreateModel(w1, kind, record, false).1, kind, n + 1)
  {
    CreateAddsOne(w1, kind, record, false);
    GrownTrans(w, w1, CreateModel(w1, kind, record, false).1, kind, n, 1);
  }

  lemma PopulateStep(w: World, kind: nat, record: seq<Value>, count: nat)
    requires Valid(w) && kind < |w.archs| && |record| == |w.archs[kind]| && count > 0
    ensures Valid(PopulateModel(w, kind, record, count - 1)) && PopulateModel(w, kind, record, count - 1).archs == w.archs
    ensures PopulateModel(w, kind, record, count) == CreateModel(PopulateModel(w, kind, record, count - 1), kind, record, false).1
  {
    PopulateValid(w, kind, record, count - 1);
  }

  /** One create adds one LIVE entity to the living pool of the archetype and nothing else to any pool. */
  lemma CreateAddsOne(w: World, kind: nat, record: seq<Value>, locked: bool)
    requires Valid(w) && kind < |w.archs| && |record| == |w.archs[kind]|
    ensures Grown(w, CreateModel(w, kind, record, locked).1, kind, 1)
  {
    CreateValid(w, kind, record, locked);
    var r := CreateModel(w, kind, record, locked).1;
    assert r.dir.counter[Ordinal(Live)] == w.dir.counter[Ordinal(Live)] + 1;
  }

  /** Registry::trim: both pools of the archetype's storage are trimmed. */
  function TrimModel(w: World, kind: nat): (r: World)
    requires Shape(w) && kind < |w.stores|
    ensures r.dir == w.dir && r.archs == w.archs && |r.stores| == |w.stores|
    ensures forall k | 0 <= k < |w.stores| && k != kind :: r.stores[k] == w.stores[k]
    ensures forall sl: bool :: PoolOf(r, kind, sl).total == PoolOf(r, kind, sl).end == PoolOf(w, kind, sl).end
  {
    var s := w.stores[kind];
    w.(stores := w.stores[kind := StoreState(Trim(s.living), Trim(s.sleeping))])
  }

  /**
   * A trim keeps the registry valid and every entity's place: both pools of
   * the archetype keep their live ids and records and have no scratch slot left.
   */
  lemma TrimValid(w: World, kind: nat)
    requires Valid(w) && kind < |w.stores|
    ensures var r := TrimModel(w, kind);
      Valid(r) && r.dir == w.dir && |r.stores| == |w.stores| &&
      (forall sl: bool :: PoolOf(r, kind, sl).total == PoolOf(r, kind, sl).end == PoolOf(w, kind, sl).end &&
        PoolOf(r, kind, sl).LiveIds() == PoolOf(w, kind, sl).LiveIds()) &&
      forall k | 0 <= k < |w.stores| && k != kind :: r.stores[k] == w.stores[k]
  {
    var r := TrimModel(w, kind);
    assert Shape(r);
    forall sl: bool, j | 0 <= j < PoolOf(w, kind, sl).end
      ensures PoolOf(r, kind, sl).ids[j] == PoolOf(w, kind, sl).ids[j]
    {
      assert PoolOf(r, kind, sl).LiveIds()[j] == PoolOf(w, kind, sl).LiveIds()[j];
    }
    forall z | 0 <= z < |r.dir.data| ensures Placed(r, z) {
      assert Placed(w, z);
    }
    forall k, sl, j | 0 <= k < |r.stores| && 0 <= j < PoolOf(r, k, sl).end
      ensures Holds(r, k, sl, j)
    {
      assert Holds(w, k, sl, j);
    }
  }

  // ---------------------------------------------------------------------------
  // lookups
  // ---------------------------------------------------------------------------

  /** Registry::info: the entity's info; an id past the end of the directory throws. */
  function InfoOf(w: World, id: EntityId): (r: Result<Info>)
    ensures r.Err? <==> id >= |w.dir.data|
    ensures r.Err? ==> r.error == InvalidEntityId
    ensures r.Ok? ==> r.value == w.dir.data[id]
  {
    if id >= |w.dir.data| then Err(InvalidEntityId) else Ok(w.dir.data[id])
  }

  /** Registry::count: the counter of a state, which is the number of ids in that state. */
  function CountOf(w: World, s: EntityState): (n: int)
    requires |w.dir.counter| == 6
    ensures CountersExact(w.dir) ==> n == CountState(w.dir.data, s)
  {
    w.dir.counter[Ordinal(s)]
  }

  /** The six counters add up to Registry::total, the number of ids ever allocated. */
  lemma CountsAddUpToTotal(w: World)
    requires Valid(w)
    ensures CountOf(w, Live) + CountOf(w, Killed) + CountOf(w, Dead) +
            CountOf(w, Snoozed) + CountOf(w, Sleeping) + CountOf(w, Awake) == |w.dir.data|
  {
    SumCountsIsTotal(w.dir.data);
  }

  /** The requested components of the record in the slot an entity's info names. */
  function Lookup(w: World, kind: nat, comps: seq<Component>, id: EntityId): (v: seq<Value>)
    requires Consistent(w) && id < |w.dir.data| && w.dir.data[id].state != Dead && w.dir.data[id].kind == kind
    requires kind < |w.archs| && forall c | c in comps :: c in w.archs[kind]
    ensures |v| == |comps|
  {
    assert Placed(w, id);
    var i := w.dir.data[id];
    Get(PoolOf(w, kind, InSleepingPool(i.state)), w.archs[kind], i.index, comps)
  }

  /**
   * Registry::view<A, Cs...>: nothing for a DEAD entity or one of another
   * archetype, otherwise the components of the slot that holds the entity, in
   * the living or the sleeping pool as its state says.
   */
  function ViewOf(w: World, kind: nat, comps: seq<Component>, id: EntityId): (r: Result<Option<seq<Value>>>)
    requires Consistent(w) && kind < |w.archs| && forall c | c in comps :: c in w.archs[kind]
    ensures r.Err? <==> id >= |w.dir.data|
    ensures r.Err? ==> r.error == InvalidEntityId
    ensures (r.Ok? && r.value.Some?) <==> id < |w.dir.data| && w.dir.data[id].state != Dead && w.dir.data[id].kind == kind
    ensures r.Ok? && r.value.Some? ==>
      var p := PoolOf(w, kind, InSleepingPool(w.dir.data[id].state));
      var j := w.dir.data[id].index;
      j < p.end && p.ids[j] == id && r.value.value == Get(p, w.archs[kind], j, comps)
  {
    match InfoOf(w, id)
    case Err(e) => Err(e)
    case Ok(i) =>
      if i.state == Dead || i.kind != kind then Ok(None)
      else
        assert Placed(w, id);
        Ok(Some(Lookup(w, kind, comps, id)))
  }

  /**
   * Registry::get<A, Cs...>: the same read as view, but an invalid id, a wrong
   * archetype and a DEAD entity are errors, checked in that order.
   */
  function GetOf(w: World, kind: nat, comps: seq<Component>, id: EntityId): (r: Result<seq<Value>>)
    requires Consistent(w) && kind < |w.archs| && forall c | c in comps :: c in w.archs[kind]
    ensures r.Err? <==> id >= |w.dir.data| || w.dir.data[id].kind != kind || w.dir.data[id].state == Dead
    ensures r.Ok? ==> |r.value| == |comps|
  {
    match InfoOf(w, id)
    case Err(e) => Err(e)
    case Ok(i) =>
      if i.kind != kind then Err(WrongArchetype)
      else if i.state == Dead then Err(DeadEntity)
      else Ok(Lookup(w, kind, comps, id))
  }

  /**
   * get succeeds exactly when view finds something, with the same values;
   * where view yields nothing, get names the reason.
   */
  lemma GetAgreesWithView(w: World, kind: nat, comps: seq<Component>, id: EntityId)
    requires Consistent(w) && kind < |w.archs| && forall c | c in comps :: c in w.archs[kind]
    ensures var g := GetOf(w, kind, comps, id);
      var v := ViewOf(w, kind, comps, id);
      (g.Ok? <==> v.Ok? && v.value.Some?) &&
      (g.Ok? ==> v == Ok(Some(g.value))) &&
      (v == Ok(None) <==> g.Err? && g.error in {WrongArchetype, DeadEntity}) &&
      (g == Err(WrongArchetype) <==> id < |w.dir.data| && w.dir.data[id].kind != kind) &&
      (g == Err(DeadEntity) <==> id < |w.dir.data| && w.dir.data[id].kind == kind && w.dir.data[id].state == Dead)
  {
  }

  /**
   * Registry::find<Cs...>: the storages whose archetypes hold every requested
   * component are tried in order; the first whose archetype is the entity's
   * answers, with nothing for a DEAD entity. The id is checked only when some
   * storage matches, because only then is the archetype test (which reads
   * the info) reached.
   */
  function FindOf(w: World, comps: seq<Component>, id: EntityId): (r: Result<Option<seq<Value>>>)
    requires Consistent(w)
    ensures r.Err? <==> Match(w.archs, comps, []) != [] && id >= |w.dir.data|
    ensures r.Ok? && r.value.Some? <==>
      id < |w.dir.data| && w.dir.data[id].state != Dead &&
      w.dir.data[id].kind < |w.archs| && Matches(w.archs[w.dir.data[id].kind], comps, [])
  {
    var ks := Match(w.archs, comps, []);
    if ks == [] then Ok(None)
    else if id >= |w.dir.data| then Err(InvalidEntityId)
    else
      var i := w.dir.data[id];
      if i.state != Dead && i.kind in ks then
        assert Placed(w, id);
        Ok(Some(Lookup(w, i.kind, comps, id)))
      else Ok(None)
  }

  /** find answers as view does for the entity's own archetype when that archetype has the components. */
  lemma FindAgreesWithView(w: World, comps: seq<Component>, id: EntityId)
    requires Consistent(w) && id < |w.dir.data| && w.dir.data[id].state != Dead
    ensures w.dir.data[id].kind < |w.archs|
    ensures Matches(w.archs[w.dir.data[id].kind], comps, []) ==>
      FindOf(w, comps, id) == ViewOf(w, w.dir.data[id].kind, comps, id)
  {
    assert Placed(w, id);
  }

  /**
   * Round trip: viewing a freshly created entity through its archetype yields
   * the created record's values of the requested components.
   */
  lemma CreateThenView(w: World, kind: nat, record: seq<Value>, locked: bool, comps: seq<Component>)
    requires Valid(w) && kind < |w.archs| && |record| == |w.archs[kind]|
    requires forall c | c in comps :: c in w.archs[kind]
    ensures CreateModel(w, kind, record, locked).1.archs == w.archs && Valid(CreateModel(w, kind, record, locked).1)
    ensures var (id, r) := CreateModel(w, kind, record, locked);
      var v := ViewOf(r, kind, comps, id);
      v.Ok? && v.value.Some? && |v.value.value| == |comps| &&
      forall j | 0 <= j < |comps| :: v.value.value[j] == record[IndexOf(w.archs[kind], comps[j])]
  {
    CreateValid(w, kind, record, locked);
    AddThenGet(w.stores[kind].living, w.archs[kind], CreateModel(w, kind, record, locked).0, record, comps);
  }

  /**
   * info after create: the new id is allocated, LIVE, of the created
   * archetype, at the living slot the add filled, and locked as requested.
   */
  lemma CreateThenInfo(w: World, kind: nat, record: seq<Value>, locked: bool)
    requires Valid(w) && kind < |w.archs| && |record| == |w.archs[kind]|
    ensures var (id, r) := CreateModel(w, kind, record, locked);
      InfoOf(r, id) == Ok(Info(kind, w.stores[kind].living.end, Live, locked))
  {
  }

  /** info after a successful queue reports the task's pending state. */
  lemma QueueThenInfo(w: World, id: EntityId, t: Task)
    requires Valid(w) && id < |w.dir.data| && w.dir.data[id].state == Required(t)
    ensures InfoOf(QueueModel(w, id, t), id).Ok? && InfoOf(QueueModel(w, id, t), id).value.state == Resulting(t)
  {
  }
}
