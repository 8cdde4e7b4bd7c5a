/**
 * The query engine of necs.hpp: an Iterator walks the live slots of one pool,
 * a Query holds one iterator per matching storage for the living pools and one
 * for the sleeping pools, and walks them as one flattened sequence, skipping
 * empty pools. Iterators hold references to the pools, so every operation here
 * reads the current storage states, passed in as `stores`.
 */
module Queries {
  import opened Common
  import opened Filter
  import opened PoolSpec
  import opened Storages

  /** An Iterator: the pool it walks (storage position, sleeping or living) and its cursor. */
  datatype Iterator = Iterator(kind: nat, sleeping: bool, current: nat)

  /** One well-formed storage state per archetype. */
  ghost predicate StoresFit(stores: seq<StoreState>, archs: seq<Archetype>) {
    |stores| == |archs| &&
    forall k | 0 <= k < |archs| :: Distinct(archs[k]) && stores[k].WellFormed(|archs[k]|)
  }

  /** The iterator walks a registered archetype that holds every requested component. */
  ghost predicate Walks(archs: seq<Archetype>, comps: seq<Component>, it: Iterator) {
    it.kind < |archs| && forall c | c in comps :: c in archs[it.kind]
  }

  /** The storages a query reads, and the iterators it walks them with. */
  ghost predicate Fits(stores: seq<StoreState>, archs: seq<Archetype>, comps: seq<Component>, its: seq<Iterator>) {
    StoresFit(stores, archs) && forall i | 0 <= i < |its| :: Walks(archs, comps, its[i])
  }

  /** The pool an iterator refers to. */
  function PoolAt(stores: seq<StoreState>, it: Iterator): PoolState
    requires it.kind < |stores|
  {
    if it.sleeping then stores[it.kind].sleeping else stores[it.kind].living
  }

  /** Iterator::empty: the pool has no live slot. */
  predicate Empty(stores: seq<StoreState>, it: Iterator)
    requires it.kind < |stores|
  {
    PoolAt(stores, it).end == 0
  }

  /** Iterator::done: the cursor has reached the pool's live count. */
  predicate Done(stores: seq<StoreState>, it: Iterator)
    requires it.kind < |stores|
  {
    it.current == PoolAt(stores, it).end
  }

  /** Iterator::reset and Iterator::begin. */
  function Reset(it: Iterator): (r: Iterator)
    ensures r.kind == it.kind && r.sleeping == it.sleeping && r.current == 0
  {
    it.(current := 0)
  }

  /** Iterator::operator*: the id and the requested components of the slot under the cursor. */
  function Deref(stores: seq<StoreState>, archs: seq<Archetype>, comps: seq<Component>, it: Iterator): (x: Extraction)
    requires StoresFit(stores, archs) && Walks(archs, comps, it) && it.current < PoolAt(stores, it).end
    ensures x == Extractions(PoolAt(stores, it), archs[it.kind], comps, it.current)[0]
  {
    var p := PoolAt(stores, it);
    Extraction(p.ids[it.current], Get(p, archs[it.kind], it.current, comps))
  }

  /** The extractions of every pool walked by its[from..], each from its first slot, in order. */
  function All(stores: seq<StoreState>, archs: seq<Archetype>, comps: seq<Component>, its: seq<Iterator>, from: nat): seq<Extraction>
    requires Fits(stores, archs, comps, its) && from <= |its|
    decreases |its| - from
  {
    if from == |its| then []
    else
      assert Walks(archs, comps, its[from]);
      Extractions(PoolAt(stores, its[from]), archs[its[from].kind], comps, 0) + All(stores, archs, comps, its, from + 1)
  }

  /** The cursor of a query points at a slot to read, unless the query is at its end. */
  predicate Positioned(stores: seq<StoreState>, its: seq<Iterator>, cur: nat)
    requires forall i | 0 <= i < |its| :: its[i].kind < |stores|
  {
    cur <= |its| && (cur < |its| ==> its[cur].current < PoolAt(stores, its[cur]).end)
  }

  /** What a query still yields: the rest of the current pool, then every later pool from its start. */
  function Remaining(stores: seq<StoreState>, archs: seq<Archetype>, comps: seq<Component>, its: seq<Iterator>, cur: nat): (r: seq<Extraction>)
    requires Fits(stores, archs, comps, its) && Positioned(stores, its, cur)
    ensures r == [] <==> cur == |its|
  {
    if cur == |its| then []
    else
      assert Walks(archs, comps, its[cur]);
      Extractions(PoolAt(stores, its[cur]), archs[its[cur].kind], comps, its[cur].current) + All(stores, archs, comps, its, cur + 1)
  }

  /** The first iterator at or after `from` whose pool is not empty, or |its| if there is none. */
  function FirstNonEmpty(stores: seq<StoreState>, its: seq<Iterator>, from: nat): (r: nat)
    requires forall i | 0 <= i < |its| :: its[i].kind < |stores|
    requires from <= |its|
    ensures from <= r <= |its|
    ensures r < |its| ==> !Empty(stores, its[r])
    ensures forall j | from <= j < r :: Empty(stores, its[j])
    decreases |its| - from
  {
    if from == |its| || !Empty(stores, its[from]) then from
    else FirstNonEmpty(stores, its, from + 1)
  }

  /** Its with the iterators at positions [lo, hi) reset. */
  function ResetBetween(its: seq<Iterator>, lo: nat, hi: nat): (r: seq<Iterator>)
    ensures |r| == |its|
    ensures forall i | 0 <= i < |its| :: r[i].kind == its[i].kind && r[i].sleeping == its[i].sleeping
    ensures forall i | 0 <= i < |its| :: r[i].current == (if lo <= i < hi then 0 else its[i].current)
  {
    seq(|its|, i requires 0 <= i < |its| => if lo <= i < hi then Reset(its[i]) else its[i])
  }

  /** Only kinds and pools matter to Fits and All: resetting iterators changes neither. */
  lemma {:induction false} AllIgnoresCursors(stores: seq<StoreState>, archs: seq<Archetype>, comps: seq<Component>, its: seq<Iterator>, its2: seq<Iterator>, from: nat)
    requires Fits(stores, archs, comps, its) && from <= |its| && |its2| == |its|
    requires forall i | 0 <= i < |its| :: its2[i].kind == its[i].kind && its2[i].sleeping == its[i].sleeping
    ensures Fits(stores, archs, comps, its2)
    ensures All(stores, archs, comps, its2, from) == All(stores, archs, comps, its, from)
    decreases |its| - from
  {
    if from < |its| {
      AllIgnoresCursors(stores, archs, comps, its, its2, from + 1);
      assert PoolAt(stores, its2[from]) == PoolAt(stores, its[from]);
      assert Walks(archs, comps, its[from]);
      assert All(stores, archs, comps, its2, from) ==
        Extractions(PoolAt(stores, its[from]), archs[its[from].kind], comps, 0) + All(stores, archs, comps, its2, from + 1);
    }
  }

  /** Empty pools contribute nothing: skipping them leaves the flattened sequence as it is. */
  lemma {:induction false} AllSkipsEmpty(stores: seq<StoreState>, archs: seq<Archetype>, comps: seq<Component>, its: seq<Iterator>, from: nat, to: nat)
    requires Fits(stores, archs, comps, its) && from <= to <= |its|
    requires forall j | from <= j < to :: Empty(stores, its[j])
    ensures All(stores, archs, comps, its, from) == All(stores, archs, comps, its, to)
    decreases (to as int) - (from as int)
  {
    if from < to {
      AllSkipsOne(stores, archs, comps, its, from);
      AllSkipsEmpty(stores, archs, comps, its, from + 1, to);
    }
  }

  /** One empty pool contributes nothing. */
  lemma AllSkipsOne(stores: seq<StoreState>, archs: seq<Archetype>, comps: seq<Component>, its: seq<Iterator>, from: nat)
    requires Fits(stores, archs, comps, its) && from < |its| && Empty(stores, its[from])
    ensures All(stores, archs, comps, its, from) == All(stores, archs, comps, its, from + 1)
  {
    var e := Extractions(PoolAt(stores, its[from]), archs[its[from].kind], comps, 0);
    assert e == [];
    assert All(stores, archs, comps, its, from) == e + All(stores, archs, comps, its, from + 1);
  }

  /** An iterator just reset on a non-empty pool yields its whole pool, then the rest. */
  lemma RemainingAtStart(stores: seq<StoreState>, archs: seq<Archetype>, comps: seq<Component>, its: seq<Iterator>, cur: nat)
    requires Fits(stores, archs, comps, its) && cur < |its| && its[cur].current == 0 && !Empty(stores, its[cur])
    ensures Positioned(stores, its, cur)
    ensures Remaining(stores, archs, comps, its, cur) == All(stores, archs, comps, its, cur)
  {
  }

  /** A step of the cursor drops the head of what remains. */
  lemma RemainingStep(stores: seq<StoreState>, archs: seq<Archetype>, comps: seq<Component>, its: seq<Iterator>, cur: nat)
    requires Fits(stores, archs, comps, its) && Positioned(stores, its, cur) && cur < |its|
    ensures var its2 := its[cur := its[cur].(current := its[cur].current + 1)];
      Fits(stores, archs, comps, its2) &&
      Remaining(stores, archs, comps, its, cur)[1..] ==
        Extractions(PoolAt(stores, its2[cur]), archs[its[cur].kind], comps, its2[cur].current) + All(stores, archs, comps, its2, cur + 1)
  {
    var its2 := its[cur := its[cur].(current := its[cur].current + 1)];
    AllIgnoresCursors(stores, archs, comps, its, its2, cur + 1);
    assert Walks(archs, comps, its[cur]);
    var p := PoolAt(stores, its[cur]);
    var e := Extractions(p, archs[its[cur].kind], comps, its[cur].current);
    assert e[1..] == Extractions(p, archs[its[cur].kind], comps, its[cur].current + 1);
    assert (e + All(stores, archs, comps, its, cur + 1))[1..] == e[1..] + All(stores, archs, comps, its, cur + 1);
  }

  /**
   * A Query: one iterator per matching storage over its living pool, one over
   * its sleeping pool, a flag saying which of the two lists is walked (m_data),
   * and the position of the iterator in use.
   */
  class Query {
    /** The positions of the matching storages, in registration order. */
    const kinds: seq<nat>
    /** The components the query extracts (its For list). */
    const comps: seq<Component>
    var living: seq<Iterator>
    var sleeping: seq<Iterator>
    var onSleeping: bool
    var current: nat

    ghost predicate Valid()
      reads this
    {
      |kinds| > 0 && |living| == |kinds| && |sleeping| == |kinds| &&
      forall i | 0 <= i < |kinds| ::
        living[i].kind == kinds[i] && !living[i].sleeping && sleeping[i].kind == kinds[i] && sleeping[i].sleeping
    }

    /** The list m_data refers to. */
    function Iterators(): seq<Iterator>
      reads this
    {
      if onSleeping then sleeping else living
    }

    /** Query(storages): one fresh iterator per matched storage and pool; walks the living pools. */
    constructor (kinds: seq<nat>, comps: seq<Component>)
      requires kinds != []
      ensures Valid() && this.kinds == kinds && this.comps == comps
      ensures current == 0 && !onSleeping
      ensures forall i | 0 <= i < |kinds| :: living[i].current == 0 && sleeping[i].current == 0
    {
      this.kinds := kinds;
      this.comps := comps;
      var ls: seq<Iterator> := [];
      var ss: seq<Iterator> := [];
      var i := 0;
      while i < |kinds|
        invariant 0 <= i <= |kinds| && |ls| == i && |ss| == i
        invariant forall j | 0 <= j < i :: ls[j] == Iterator(kinds[j], false, 0) && ss[j] == Iterator(kinds[j], true, 0)
      {
        ls := ls + [Iterator(kinds[i], false, 0)];
        ss := ss + [Iterator(kinds[i], true, 0)];
        i := i + 1;
      }
      living := ls;
      sleeping := ss;
      onSleeping := false;
      current := 0;
    }

    /**
     * Registry construction of a query: the storages whose archetype has every
     * For and With component and no Without component; no match is an error.
     */
    static method Make(archs: seq<Archetype>, forComps: seq<Component>, with: seq<Component>, without: seq<Component>) returns (r: Result<Query>)
      ensures r.Err? <==> Match(archs, forComps + with, without) == []
      ensures r.Err? ==> r.error == RedundantQuery
      ensures r.Ok? ==> (fresh(r.value) && r.value.Valid() && r.value.comps == forComps &&
        r.value.kinds == Match(archs, forComps + with, without) &&
        r.value.current == 0 && !r.value.onSleeping)
      ensures r.Ok? ==> forall i | 0 <= i < |r.value.kinds| ::
        r.value.kinds[i] < |archs| && forall c | c in forComps :: c in archs[r.value.kinds[i]]
    {
      var ks := Match(archs, forComps + with, without);
      if ks == [] {
        return Err(RedundantQuery);
      }
      var q := new Query(ks, forComps);
      MatchedHaveFor(archs, forComps, with, without);
      return Ok(q);
    }

    /** Writes the list m_data refers to. */
    method SetIterators(its: seq<Iterator>)
      modifies this
      ensures Iterators() == its && onSleeping == old(onSleeping) && current == old(current)
      ensures if onSleeping then living == old(living) else sleeping == old(sleeping)
    {
      if onSleeping {
        sleeping := its;
      } else {
        living := its;
      }
    }

    /** Iterator::reset on the iterator in use. */
    method ResetCurrent()
      requires Valid() && current < |Iterators()|
      modifies this
      ensures Valid() && onSleeping == old(onSleeping) && current == old(current)
      ensures if onSleeping then living == old(living) else sleeping == old(sleeping)
      ensures Iterators() == old(Iterators())[current := Reset(old(Iterators())[current])]
    {
      var its := Iterators();
      SetIterators(its[current := Reset(its[current])]);
    }

    /** Query::advance: to the next iterator whose pool is not empty, resetting each one it reaches. */
    method Advance(archs: seq<Archetype>, stores: seq<StoreState>)
      requires Valid() && Fits(stores, archs, comps, Iterators()) && current < |Iterators()|
      modifies this
      ensures Valid() && onSleeping == old(onSleeping)
      ensures if onSleeping then living == old(living) else sleeping == old(sleeping)
      ensures current == FirstNonEmpty(stores, old(Iterators()), old(current) + 1)
      ensures Iterators() == ResetBetween(old(Iterators()), old(current) + 1, if current < |Iterators()| then current + 1 else current)
    {
      ghost var its0 := Iterators();
      ghost var from := current + 1;
      current := current + 1;
      ResetBetweenNone(its0, from);
      while current < |Iterators()|
        invariant Valid() && onSleeping == old(onSleeping) && from <= current <= |its0|
        invariant if onSleeping then living == old(living) else sleeping == old(sleeping)
        invariant Iterators() == ResetBetween(its0, from, current)
        invariant forall j | from <= j < current :: Empty(stores, its0[j])
        decreases |its0| - current
      {
        ResetCurrent();
        ResetBetweenStep(its0, from, current);
        if PoolAt(stores, Iterators()[current]).end == 0 {
          current := current + 1;
        } else {
          FirstNonEmptyAt(stores, its0, from, current);
          return;
        }
      }
      FirstNonEmptyAt(stores, its0, from, current);
    }

    /**
     * Query::begin: the first iterator is reset and, if its pool is empty, the
     * query advances; what remains is then the whole flattened sequence.
     */
    method Begin(archs: seq<Archetype>, stores: seq<StoreState>)
      requires Valid() && Fits(stores, archs, comps, Iterators())
      modifies this
      ensures Valid() && onSleeping == old(onSleeping)
      ensures Fits(stores, archs, comps, Iterators()) && Positioned(stores, Iterators(), current)
      ensures Remaining(stores, archs, comps, Iterators(), current) == All(stores, archs, comps, old(Iterators()), 0)
    {
      ghost var its0 := Iterators();
      current := 0;
      var its := Iterators();
      SetIterators(its[0 := Reset(its[0])]);
      AllIgnoresCursors(stores, archs, comps, its0, Iterators(), 0);
      if PoolAt(stores, Iterators()[0]).end == 0 {
        ghost var its1 := Iterators();
        Advance(archs, stores);
        AllIgnoresCursors(stores, archs, comps, its1, Iterators(), 0);
        AllSkipsEmpty(stores, archs, comps, Iterators(), 0, current);
      }
      if current < |Iterators()| {
        RemainingAtStart(stores, archs, comps, Iterators(), current);
      }
    }

    /** Query::operator*: the slot under the current iterator; it is the head of what remains. */
    method Read(archs: seq<Archetype>, stores: seq<StoreState>) returns (x: Extraction)
      requires Valid() && Fits(stores, archs, comps, Iterators())
      requires Positioned(stores, Iterators(), current) && current < |Iterators()|
      ensures x == Remaining(stores, archs, comps, Iterators(), current)[0]
    {
      var it := Iterators()[current];
      assert Walks(archs, comps, it);
      x := Deref(stores, archs, comps, it);
    }

    /**
     * Query::operator++: the current iterator steps on; when it is done the
     * query advances. What remains loses exactly its head.
     */
    method Next(archs: seq<Archetype>, stores: seq<StoreState>)
      requires Valid() && Fits(stores, archs, comps, Iterators())
      requires Positioned(stores, Iterators(), current) && current < |Iterators()|
      modifies this
      ensures Valid() && onSleeping == old(onSleeping)
      ensures Fits(stores, archs, comps, Iterators()) && Positioned(stores, Iterators(), current)
      ensures Remaining(stores, archs, comps, Iterators(), current) ==
        old(Remaining(stores, archs, comps, Iterators(), current))[1..]
    {
      ghost var its0 := Iterators();
      ghost var cur0 := current;
      var its := Iterators();
      SetIterators(its[current := its[current].(current := its[current].current + 1)]);
      if Iterators()[current].current == PoolAt(stores, Iterators()[current]).end {
        Advance(archs, stores);
        StepPastDone(stores, archs, comps, its0, cur0, Iterators(), current);
      } else {
        StepWithin(stores, archs, comps, its0, cur0);
      }
    }

    /** Query::end: the position past the last iterator, where nothing remains. */
    method End(archs: seq<Archetype>, stores: seq<StoreState>)
      requires Valid() && Fits(stores, archs, comps, Iterators())
      modifies this
      ensures Valid() && Iterators() == old(Iterators()) && onSleeping == old(onSleeping)
      ensures current == |Iterators()| && Positioned(stores, Iterators(), current)
      ensures Remaining(stores, archs, comps, Iterators(), current) == []
    {
      current := |Iterators()|;
    }

    /** Query::toggle_pool: walk the sleeping (true) or living (false) pools, from the first iterator. */
    method TogglePool(sleepingPool: bool)
      requires Valid()
      modifies this
      ensures Valid() && current == 0 && onSleeping == sleepingPool
      ensures living == old(living) && sleeping == old(sleeping)
    {
      current := 0;
      onSleeping := sleepingPool;
    }

    /**
     * The range-for loop a caller writes over a query: begin, then read and
     * step until the query compares equal to its end. It yields every live
     * slot of every matched pool, pool after pool, each pool in slot order.
     */
    method Traverse(archs: seq<Archetype>, stores: seq<StoreState>) returns (out: seq<Extraction>)
      requires Valid() && Fits(stores, archs, comps, Iterators())
      modifies this
      ensures Valid() && onSleeping == old(onSleeping)
      ensures out == All(stores, archs, comps, old(Iterators()), 0)
    {
      Begin(archs, stores);
      ghost var total := All(stores, archs, comps, old(Iterators()), 0);
      out := [];
      assert out + Remaining(stores, archs, comps, Iterators(), current) == total;
      while current < |Iterators()|
        invariant Valid() && onSleeping == old(onSleeping)
        invariant Fits(stores, archs, comps, Iterators()) && Positioned(stores, Iterators(), current)
        invariant out + Remaining(stores, archs, comps, Iterators(), current) == total
        decreases |Remaining(stores, archs, comps, Iterators(), current)|
      {
        ghost var rest := Remaining(stores, archs, comps, Iterators(), current);
        var x := Read(archs, stores);
        Next(archs, stores);
        TakeHead(out, rest, x);
        out := out + [x];
      }
    }
  }

  /** Moving the head of what remains to the output keeps their concatenation. */
  lemma TakeHead(out: seq<Extraction>, rest: seq<Extraction>, x: Extraction)
    requires rest != [] && x == rest[0]
    ensures (out + [x]) + rest[1..] == out + rest
  {
    assert rest == [x] + rest[1..];
  }

  /** The iterator list after the one in use steps on. */
  function Stepped(its: seq<Iterator>, cur: nat): (r: seq<Iterator>)
    requires cur < |its|
    ensures |r| == |its| && r[cur].current == its[cur].current + 1
    ensures forall i | 0 <= i < |its| :: r[i].kind == its[i].kind && r[i].sleeping == its[i].sleeping
  {
    its[cur := its[cur].(current := its[cur].current + 1)]
  }

  /** operator++ when the iterator in use is not done afterwards: the query stays on it. */
  lemma StepWithin(stores: seq<StoreState>, archs: seq<Archetype>, comps: seq<Component>, its: seq<Iterator>, cur: nat)
    requires Fits(stores, archs, comps, its) && Positioned(stores, its, cur) && cur < |its|
    requires Stepped(its, cur)[cur].current != PoolAt(stores, its[cur]).end
    ensures Fits(stores, archs, comps, Stepped(its, cur)) && Positioned(stores, Stepped(its, cur), cur)
    ensures Remaining(stores, archs, comps, Stepped(its, cur), cur) == Remaining(stores, archs, comps, its, cur)[1..]
  {
    RemainingStep(stores, archs, comps, its, cur);
  }

  /** operator++ when the iterator in use is done afterwards: the query advances past it. */
  lemma StepPastDone(stores: seq<StoreState>, archs: seq<Archetype>, comps: seq<Component>, its: seq<Iterator>, cur: nat, its2: seq<Iterator>, cur2: nat)
    requires Fits(stores, archs, comps, its) && Positioned(stores, its, cur) && cur < |its|
    requires Stepped(its, cur)[cur].current == PoolAt(stores, its[cur]).end
    requires cur2 == FirstNonEmpty(stores, Stepped(its, cur), cur + 1)
    requires its2 == ResetBetween(Stepped(its, cur), cur + 1, if cur2 < |its| then cur2 + 1 else cur2)
    ensures Fits(stores, archs, comps, its2) && Positioned(stores, its2, cur2)
    ensures Remaining(stores, archs, comps, its2, cur2) == Remaining(stores, archs, comps, its, cur)[1..]
  {
    var st := Stepped(its, cur);
    RemainingStep(stores, archs, comps, its, cur);
    AdvancePastDone(stores, archs, comps, st, cur, its2, cur2);
    DoneYieldsNothing(stores, archs, comps, st[cur]);
    assert Extractions(PoolAt(stores, st[cur]), archs[st[cur].kind], comps, st[cur].current) + All(stores, archs, comps, st, cur + 1)
      == All(stores, archs, comps, st, cur + 1);
  }

  /** An empty reset range changes nothing. */
  lemma ResetBetweenNone(its: seq<Iterator>, lo: nat)
    ensures ResetBetween(its, lo, lo) == its
  {
  }

  /** Resetting the iterator at hi extends the reset range [lo, hi) by one. */
  lemma ResetBetweenStep(its: seq<Iterator>, lo: nat, hi: nat)
    requires lo <= hi < |its|
    ensures ResetBetween(its, lo, hi)[hi := Reset(ResetBetween(its, lo, hi)[hi])] == ResetBetween(its, lo, hi + 1)
  {
  }

  /**
   * After an iterator is done, advancing resets and skips to the next
   * non-empty pool, and what remains is everything after the done pool.
   */
  lemma AdvancePastDone(stores: seq<StoreState>, archs: seq<Archetype>, comps: seq<Component>, its: seq<Iterator>, cur: nat, its2: seq<Iterator>, cur2: nat)
    requires Fits(stores, archs, comps, its) && cur < |its| && its[cur].current == PoolAt(stores, its[cur]).end
    requires cur2 == FirstNonEmpty(stores, its, cur + 1)
    requires its2 == ResetBetween(its, cur + 1, if cur2 < |its| then cur2 + 1 else cur2)
    ensures Fits(stores, archs, comps, its2) && Positioned(stores, its2, cur2)
    ensures Remaining(stores, archs, comps, its2, cur2) == All(stores, archs, comps, its, cur + 1)
  {
    if cur2 < |its| {
      AdvanceToPool(stores, archs, comps, its, cur, its2, cur2);
    } else {
      AdvanceToEnd(stores, archs, comps, its, cur, its2, cur2);
    }
  }

  /** AdvancePastDone when a later pool is not empty. */
  lemma AdvanceToPool(stores: seq<StoreState>, archs: seq<Archetype>, comps: seq<Component>, its: seq<Iterator>, cur: nat, its2: seq<Iterator>, cur2: nat)
    requires Fits(stores, archs, comps, its) && cur < |its|
    requires cur2 == FirstNonEmpty(stores, its, cur + 1) && cur2 < |its|
    requires its2 == ResetBetween(its, cur + 1, cur2 + 1)
    ensures Fits(stores, archs, comps, its2) && Positioned(stores, its2, cur2)
    ensures Remaining(stores, archs, comps, its2, cur2) == All(stores, archs, comps, its, cur + 1)
  {
    AllIgnoresCursors(stores, archs, comps, its, its2, cur + 1);
    forall j | cur + 1 <= j < cur2 ensures Empty(stores, its2[j]) {
      assert PoolAt(stores, its2[j]) == PoolAt(stores, its[j]);
    }
    AllSkipsEmpty(stores, archs, comps, its2, cur + 1, cur2);
    assert PoolAt(stores, its2[cur2]) == PoolAt(stores, its[cur2]);
    RemainingAtStart(stores, archs, comps, its2, cur2);
  }

  /** AdvancePastDone when every later pool is empty. */
  lemma AdvanceToEnd(stores: seq<StoreState>, archs: seq<Archetype>, comps: seq<Component>, its: seq<Iterator>, cur: nat, its2: seq<Iterator>, cur2: nat)
    requires Fits(stores, archs, comps, its) && cur < |its|
    requires cur2 == FirstNonEmpty(stores, its, cur + 1) && cur2 == |its|
    requires its2 == ResetBetween(its, cur + 1, cur2)
    ensures Fits(stores, archs, comps, its2) && Positioned(stores, its2, cur2)
    ensures Remaining(stores, archs, comps, its2, cur2) == All(stores, archs, comps, its, cur + 1)
  {
    AllIgnoresCursors(stores, archs, comps, its, its2, cur + 1);
    forall j | cur + 1 <= j < cur2 ensures Empty(stores, its2[j]) {
      assert PoolAt(stores, its2[j]) == PoolAt(stores, its[j]);
    }
    AllSkipsEmpty(stores, archs, comps, its2, cur + 1, cur2);
  }

  /** A done iterator yields nothing more. */
  lemma DoneYieldsNothing(stores: seq<StoreState>, archs: seq<Archetype>, comps: seq<Component>, it: Iterator)
    requires StoresFit(stores, archs) && Walks(archs, comps, it) && Done(stores, it)
    ensures Extractions(PoolAt(stores, it), archs[it.kind], comps, it.current) == []
  {
  }

  /** FirstNonEmpty is the one position after a run of empty pools that is not empty. */
  lemma {:induction false} FirstNonEmptyAt(stores: seq<StoreState>, its: seq<Iterator>, from: nat, r: nat)
    requires forall i | 0 <= i < |its| :: its[i].kind < |stores|
    requires from <= r <= |its|
    requires forall j | from <= j < r :: Empty(stores, its[j])
    requires r < |its| ==> !Empty(stores, its[r])
    ensures FirstNonEmpty(stores, its, from) == r
    decreases (r as int) - (from as int)
  {
    if from < r {
      FirstNonEmptyAt(stores, its, from + 1, r);
    }
  }

  /** Every storage a query over For ++ With matches holds the For components. */
  lemma MatchedHaveFor(archs: seq<Archetype>, forComps: seq<Component>, with: seq<Component>, without: seq<Component>)
    ensures var ks := Match(archs, forComps + with, without);
      forall i | 0 <= i < |ks| :: ks[i] < |archs| && forall c | c in forComps :: c in archs[ks[i]]
  {
    var ks := Match(archs, forComps + with, without);
    forall i | 0 <= i < |ks|
      ensures ks[i] < |archs| && forall c | c in forComps :: c in archs[ks[i]]
    {
      assert ks[i] in ks;
      assert Matches(archs[ks[i]], forComps + with, without);
      assert forall c | c in forComps :: c in forComps + with;
    }
  }
}
