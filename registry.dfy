/**
 * The necs.hpp Registry as an object: the entity directory, one storage per
 * archetype and the listeners (a set of subscribed channels and the log of
 * every event a subscribed callback was handed). Every method is proved to
 * follow its value-level counterpart in RegistryModel, where the properties
 * are stated. The directory's per-entity update closures are direct calls of
 * Apply on the entity's stored archetype.
 */
module Registries {
  import opened Common
  import opened Filter
  import opened PoolSpec
  import opened Pools
  import opened Storages
  import opened Entities
  import opened RegistryModel

  class Registry {
    /** The registered archetypes, in registration order. */
    const archs: seq<Archetype>
    const entities: Directory
    const storages: seq<Storage>
    var ready: set<Channel>
    var runCallbacks: bool
    var log: seq<Event>

    /** The pools of every storage. */
    ghost const Repr: set<object>

    /** The value-level view of the storages. */
    ghost function Stores(): (r: seq<StoreState>)
      reads Repr
      requires forall k | 0 <= k < |storages| :: storages[k].living in Repr && storages[k].sleeping in Repr
      ensures |r| == |storages|
      ensures forall k | 0 <= k < |r| :: r[k] == storages[k].State()
    {
      seq(|storages|, k requires 0 <= k < |storages| reads Repr => storages[k].State())
    }

    /** One storage per archetype, storage k tagged k, each storage's own invariant. */
    ghost predicate Wired()
      reads Repr
    {
      |storages| == |archs| && this !in Repr && entities !in Repr &&
      forall k | 0 <= k < |storages| ::
        storages[k].archetype == archs[k] && storages[k].position == k &&
        storages[k].living in Repr && storages[k].sleeping in Repr && storages[k].Valid()
    }

    ghost function Abs(): World
      requires Wired()
      reads this, entities, Repr
    {
      World(archs, entities.State(), Stores(), ready, runCallbacks, log)
    }

    ghost predicate Valid()
      reads this, entities, Repr
    {
      Wired() && RegistryModel.Valid(Abs())
    }

    /** A registry over the given archetypes: every pool empty, no entity, no subscriber, callbacks on. */
    constructor (archs: seq<Archetype>)
      requires forall k | 0 <= k < |archs| :: Distinct(archs[k])
      ensures Valid()
      ensures Abs() == Fresh(archs)
    {
      var ss;
      ghost var repr;
      ss, repr := MakeStorages(archs);
      this.archs := archs;
      storages := ss;
      Repr := repr;
      entities := new Directory();
      ready := {};
      runCallbacks := true;
      log := [];
      new;
      FreshValid(archs);
      assert Stores() == Fresh(archs).stores;
    }

    /** One new storage per archetype, storage k tagged k, and the set of their pools. */
    static method MakeStorages(archs: seq<Archetype>) returns (ss: seq<Storage>, ghost repr: set<object>)
      requires forall k | 0 <= k < |archs| :: Distinct(archs[k])
      ensures |ss| == |archs|
      ensures forall j | 0 <= j < |archs| :: ss[j].archetype == archs[j] && ss[j].position == j && ss[j].Valid()
      ensures forall j | 0 <= j < |archs| :: ss[j].living in repr && ss[j].sleeping in repr
      ensures forall j | 0 <= j < |archs| :: ss[j].State() == StoreState(EmptyPool(|archs[j]|), EmptyPool(|archs[j]|))
      ensures forall o | o in repr :: fresh(o)
    {
      ss := [];
      repr := {};
      var k := 0;
      while k < |archs|
        invariant 0 <= k <= |archs| && |ss| == k
        invariant forall j | 0 <= j < k :: ss[j].archetype == archs[j] && ss[j].position == j && ss[j].Valid()
        invariant forall j | 0 <= j < k :: ss[j].living in repr && ss[j].sleeping in repr
        invariant forall j | 0 <= j < k :: ss[j].State() == StoreState(EmptyPool(|archs[j]|), EmptyPool(|archs[j]|))
        invariant forall o | o in repr :: fresh(o)
      {
        var s := new Storage(archs[k], k);
        ss := ss + [s];
        repr := repr + {s.living, s.sleeping};
        k := k + 1;
      }
    }

    /** Registry::call: the event's listener hands it to its callback only when subscribed. */
    method Call(e: Event)
      modifies this
      ensures log == (if ChannelOf(e) in ready then old(log) + [e] else old(log))
      ensures ready == old(ready) && runCallbacks == old(runCallbacks)
    {
      if ChannelOf(e) in ready {
        log := log + [e];
      }
    }

    /** A batch of calls in order, as on_update and apply make them. */
    method Notify(events: seq<Event>)
      modifies this
      ensures log == Deliver(ready, old(log), events)
      ensures ready == old(ready) && runCallbacks == old(runCallbacks)
    {
      var i := 0;
      while i < |events|
        invariant 0 <= i <= |events| && ready == old(ready) && runCallbacks == old(runCallbacks)
        invariant Deliver(ready, log, events[i..]) == Deliver(ready, old(log), events)
      {
        assert events[i..][0] == events[i] && events[i..][1..] == events[i + 1..];
        Call(events[i]);
        i := i + 1;
      }
    }

    /** Registry::subscribe: the channel's listener becomes ready. */
    method Subscribe(c: Channel)
      requires Valid()
      modifies this
      ensures Valid()
      ensures Abs() == old(Abs()).(ready := old(ready) + {c})
    {
      ready := ready + {c};
      ValidFrame(old(Abs()), Abs());
    }

    /** Registry::unsubscribe: the channel's listener is no longer ready. */
    method Unsubscribe(c: Channel)
      requires Valid()
      modifies this
      ensures Valid()
      ensures Abs() == old(Abs()).(ready := old(ready) - {c})
    {
      ready := ready - {c};
      ValidFrame(old(Abs()), Abs());
    }

    /** The public run_callbacks switch. */
    method SetCallbacks(on: bool)
      requires Valid()
      modifies this
      ensures Valid()
      ensures Abs() == old(Abs()).(runCallbacks := on)
    {
      runCallbacks := on;
      ValidFrame(old(Abs()), Abs());
    }

    /** The storage half of Registry::apply: the applier of the entity's pending state moves its record. */
    method ApplyStorage(k: nat, state: EntityState, index: nat)
      requires Wired() && k < |storages| && Pending(state)
      requires index < (if InSleepingPool(state) then storages[k].sleeping.end else storages[k].living.end)
      modifies Repr
      ensures Wired()
      ensures Stores() == old(Stores())[k := Applied(old(storages[k].State()), archs[k], state, index)]
    {
      PoolsApart(k);
      var s := storages[k];
      var res: Result<EntityId>;
      if state == Awake {
        res := s.ApplyWake(index);
      } else if state == Killed {
        res := s.ApplyKill(index);
      } else {
        res := s.ApplySnooze(index);
      }
      WiredAfter(k);
      StoresAfter(k);
    }

    /**
     * Registry::apply: the new directory entries and events are computed from
     * the entity's info and its pool before the applier runs.
     */
    method Apply(id: EntityId)
      requires Wired() && Consistent(Abs()) && |entities.counter| == 6 && id < |entities.data|
      modifies this, entities, Repr
      ensures Wired()
      ensures Abs() == ApplyModel(old(Abs()), id)
    {
      ghost var w := Abs();
      var e := entities.data[id];
      if !Pending(e.state) {
        return;
      }
      ApplyPrelude(w, id);
      var k := e.kind;
      ghost var s := w.stores[k];
      assert s == storages[k].State();
      var livingEnd := storages[k].living.end;
      var sleepingEnd := storages[k].sleeping.end;
      var moved := if InSleepingPool(e.state) then storages[k].sleeping.ids[sleepingEnd - 1] else storages[k].living.ids[livingEnd - 1];
      var index := if e.state == Killed then e.index else if e.state == Snoozed then sleepingEnd else livingEnd;
      var next := Resolved(e.state);
      var data := entities.data[moved := entities.data[moved].(index := e.index)];
      data := data[id := data[id].(index := index, state := next)];
      var dead := if e.state == Killed && !e.locked then entities.dead + [id] else entities.dead;
      var counter := entities.counter[Ordinal(e.state) := entities.counter[Ordinal(e.state)] - 1];
      counter := counter[Ordinal(next) := counter[Ordinal(next)] + 1];
      var events := [EntityUpdated(id, e.state, next)] + DataEvents(k, archs[k]);
      ApplyModelIs(w, id, moved, index, data, dead, counter, events);
      Commit(k, e.state, e.index, data, dead, counter, events);
    }

    /** The writes of Registry::apply: the applier runs, the directory takes the new entries, the events go out. */
    method Commit(k: nat, state: EntityState, index: nat, data: seq<Info>, dead: seq<EntityId>, counter: seq<int>, events: seq<Event>)
      requires Wired() && k < |storages| && Pending(state)
      requires index < (if InSleepingPool(state) then storages[k].sleeping.end else storages[k].living.end)
      modifies this, entities, Repr
      ensures Wired() && ready == old(ready) && runCallbacks == old(runCallbacks)
      ensures Stores() == old(Stores())[k := Applied(old(storages[k].State()), archs[k], state, index)]
      ensures entities.State() == old(entities.State()).(data := data, dead := dead, counter := counter)
      ensures log == (if runCallbacks then Deliver(ready, old(log), events) else old(log))
    {
      ApplyStorage(k, state, index);
      ghost var st := Stores();
      entities.Rewrite(data, dead, counter);
      assert Stores() == st;
      if runCallbacks {
        Notify(events);
      }
      assert Stores() == st;
    }

    /** The pools of storage k are objects of no other storage. */
    lemma PoolsApart(k: nat)
      requires Wired() && k < |storages|
      ensures forall j | 0 <= j < |storages| && j != k ::
        storages[j].living != storages[k].living && storages[j].living != storages[k].sleeping &&
        storages[j].sleeping != storages[k].living && storages[j].sleeping != storages[k].sleeping
    {
      forall j | 0 <= j < |storages| && j != k
        ensures storages[j].living != storages[k].living && storages[j].living != storages[k].sleeping
        ensures storages[j].sleeping != storages[k].living && storages[j].sleeping != storages[k].sleeping
      {
        assert storages[j].living.tag == (j, false) && storages[j].sleeping.tag == (j, true);
        assert storages[k].living.tag == (k, false) && storages[k].sleeping.tag == (k, true);
      }
    }

    /** A change confined to storage k's pools that keeps that storage valid keeps the registry wired. */
    twostate lemma WiredAfter(k: nat)
      requires old(Wired()) && k < |storages| && storages[k].Valid()
      requires forall j | 0 <= j < |storages| && j != k :: unchanged(storages[j].living, storages[j].sleeping)
      ensures Wired()
    {
      forall j | 0 <= j < |storages| && j != k ensures storages[j].Valid() {
        assert old(storages[j].Valid());
      }
    }

    /** When only storage k's pools changed, the view of the storages changes in that one position. */
    twostate lemma StoresAfter(k: nat)
      requires old(Wired()) && Wired() && k < |storages|
      requires forall j | 0 <= j < |storages| && j != k :: unchanged(storages[j].living, storages[j].sleeping)
      ensures Stores() == old(Stores())[k := storages[k].State()]
    {
    }

    /** Registry::update: Entities::update, with each queued entity's update being Apply. */
    method Update()
      requires Valid()
      modifies this, entities, Repr
      ensures Valid()
      ensures Abs() == UpdateFrom(old(Abs()), 0)
    {
      ghost var w0 := Abs();
      var i := 0;
      while i < entities.toUpdateEnd
        invariant Wired() && Inv(Abs(), i)
        invariant UpdateFrom(Abs(), i) == UpdateFrom(w0, 0)
        decreases |entities.toUpdate| - i
      {
        UpdateOne(i);
        i := i + 1;
      }
      UpdateDone(i);
      UpdateValid(w0, 0);
    }

    /** One round of Entities::update's loop: the queued id at position i is applied. */
    method UpdateOne(i: nat)
      requires Wired() && Inv(Abs(), i) && i < entities.toUpdateEnd
      modifies this, entities, Repr
      ensures Wired() && Inv(Abs(), i + 1)
      ensures |entities.toUpdate| == old(|entities.toUpdate|)
      ensures UpdateFrom(Abs(), i + 1) == UpdateFrom(old(Abs()), i)
    {
      ghost var w := Abs();
      ApplyAdvances(w, i);
      Apply(entities.toUpdate[i]);
      assert UpdateFrom(w, i) == UpdateFrom(Abs(), i + 1);
    }

    /** The end of Entities::update: to_update_end goes back to 0. */
    method UpdateDone(i: nat)
      requires Wired() && Inv(Abs(), i) && i == entities.toUpdateEnd
      modifies entities
      ensures Wired() && Abs() == UpdateFrom(old(Abs()), i)
    {
      entities.toUpdateEnd := 0;
    }

    /** Registry::create: the directory hands out an id, the living pool takes the record, the events go out. */
    method Create(kind: nat, record: seq<Value>, locked: bool) returns (id: EntityId)
      requires Valid() && kind < |archs| && |record| == |archs[kind]|
      modifies this, entities, Repr
      ensures Valid()
      ensures (id, Abs()) == CreateModel(old(Abs()), kind, record, locked)
    {
      ghost var w := Abs();
      CreateValid(w, kind, record, locked);
      ghost var res := CreateModel(w, kind, record, locked);
      assert entities.dead != [] ==> entities.dead[|entities.dead| - 1] < |entities.data| by {
        if entities.dead != [] {
          assert w.dir.dead[|w.dir.dead| - 1] in w.dir.dead;
        }
      }
      id := entities.Create(kind, storages[kind].living.end, locked);
      AddRecord(kind, id, record, [EntityCreated(id)] + DataEvents(kind, archs[kind]));
    }

    /** The pool and listener half of Registry::create. */
    method AddRecord(kind: nat, id: EntityId, record: seq<Value>, events: seq<Event>)
      requires Wired() && kind < |storages| && |record| == |archs[kind]|
      modifies this, Repr
      ensures Wired() && ready == old(ready) && runCallbacks == old(runCallbacks)
      ensures Stores() == old(Stores())[kind := old(storages[kind].State()).(living := PoolSpec.Add(old(storages[kind].living.State()), id, record))]
      ensures log == (if runCallbacks then Deliver(ready, old(log), events) else old(log))
    {
      PoolsApart(kind);
      storages[kind].living.Add(id, record);
      WiredAfter(kind);
      StoresAfter(kind);
      ghost var st := Stores();
      if runCallbacks {
        Notify(events);
      }
      assert Stores() == st;
    }

    /** Registry::populate: `count` unlocked copies of one record. */
    method Populate(kind: nat, record: seq<Value>, count: nat)
      requires Valid() && kind < |archs| && |record| == |archs[kind]|
      modifies this, entities, Repr
      ensures Valid()
      ensures Abs() == PopulateModel(old(Abs()), kind, record, count)
    {
      var i := 0;
      while i < count
        invariant 0 <= i <= count && Valid()
        invariant Abs() == PopulateModel(old(Abs()), kind, record, i)
      {
        PopulateValid(old(Abs()), kind, record, i);
        var _ := Create(kind, record, false);
        i := i + 1;
      }
    }

    /** Registry::trim. */
    method Trim(kind: nat)
      requires Valid() && kind < |archs|
      modifies Repr
      ensures Valid()
      ensures Abs() == TrimModel(old(Abs()), kind)
    {
      ghost var w := Abs();
      TrimValid(w, kind);
      PoolsApart(kind);
      storages[kind].living.Trim();
      storages[kind].sleeping.Trim();
      WiredAfter(kind);
      StoresAfter(kind);
    }

    /** Registry::queue. */
    method Queue(id: EntityId, t: Task)
      requires Valid() && id < |entities.data|
      modifies this, entities
      ensures Valid()
      ensures Abs() == QueueModel(old(Abs()), id, t)
    {
      ghost var w := Abs();
      EmitOne(w, EntityUpdated(id, Required(t), Resulting(t)));
      QueueValid(w, id, t);
      var changed := entities.Queue(id, t);
      if changed && runCallbacks {
        Call(EntityUpdated(id, Required(t), Resulting(t)));
      }
      assert Abs() == QueueModel(w, id, t);
    }

    /** Registry::execute. */
    method Execute(id: EntityId, t: Task)
      requires Valid() && id < |entities.data|
      modifies this, entities, Repr
      ensures Valid()
      ensures Abs() == ExecuteModel(old(Abs()), id, t)
    {
      ghost var w := Abs();
      var changed := entities.Execute(id, t);
      if changed {
        TaskStates(t);
        RestateConsistent(w, Abs(), id);
        Apply(id);
      }
      ExecuteValid(w, id, t);
    }
  }

  /** Validity ignores the listeners and the event log. */
  lemma ValidFrame(w: World, r: World)
    requires RegistryModel.Valid(w) && r.archs == w.archs && r.stores == w.stores && r.dir == w.dir
    ensures RegistryModel.Valid(r)
  {
    ConsistentFrame(w, r);
  }
}
