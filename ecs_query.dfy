/**
 * The query side of ecs.hpp: InitQueryData selects the storages whose
 * archetype passes the filter and collects one Chunk per selected storage;
 * a QueryIterator walks those chunks with a storage cursor and an entity
 * cursor, skipping chunks with no live row. The iterator is modelled as the
 * code is written, in particular the entity cursor is not reset when the
 * iterator moves on to the next storage (see EntityCursorCarriesOver).
 */
module EcsQueries {
  import opened Common
  import opened Filter
  import opened EcsStorages

  // ---------------------------------------------------------------------------
  // InitQueryData
  // ---------------------------------------------------------------------------

  /**
   * The static checks of InitQueryData: at least one storage, a non-empty
   * For list, and For, With and Without pairwise disjoint.
   */
  predicate QueryFilters(archs: seq<Archetype>, forComps: seq<Component>, with: seq<Component>, without: seq<Component>) {
    |archs| > 0 && |forComps| > 0 &&
    !HasAnyType(forComps, with) && !HasAnyType(forComps, without) && !HasAnyType(with, without)
  }

  /**
   * InitQueryData: the positions of the storages whose archetype has every
   * For and With component and no Without component, in registration order;
   * an empty selection is an error.
   */
  function InitQueryData(archs: seq<Archetype>, forComps: seq<Component>, with: seq<Component>, without: seq<Component>): (r: Result<seq<nat>>)
    requires QueryFilters(archs, forComps, with, without)
    ensures r.Err? <==> forall i | 0 <= i < |archs| :: !Matches(archs[i], forComps + with, without)
    ensures r.Err? ==> r.error == EmptyQueryData
    ensures r.Ok? ==> Increasing(r.value) && |r.value| > 0
    ensures r.Ok? ==> forall i: nat :: i in r.value <==> i < |archs| && Matches(archs[i], forComps + with, without)
  {
    var data := Match(archs, forComps + with, without);
    if |data| == 0 then Err(EmptyQueryData) else Ok(data)
  }

  /** Every selected storage holds every For component, so its chunk can be built. */
  lemma SelectedHoldFor(archs: seq<Archetype>, forComps: seq<Component>, with: seq<Component>, without: seq<Component>)
    requires QueryFilters(archs, forComps, with, without)
    requires InitQueryData(archs, forComps, with, without).Ok?
    ensures var kinds := InitQueryData(archs, forComps, with, without).value;
      forall i | 0 <= i < |kinds| :: kinds[i] < |archs| && forall c | c in forComps :: c in archs[kinds[i]]
  {
    var kinds := InitQueryData(archs, forComps, with, without).value;
    forall i | 0 <= i < |kinds|
      ensures kinds[i] < |archs| && forall c | c in forComps :: c in archs[kinds[i]]
    {
      assert kinds[i] in kinds;
      assert HasAllTypes(archs[kinds[i]], forComps + with);
      forall c | c in forComps ensures c in archs[kinds[i]] {
        assert c in forComps + with;
      }
    }
  }

  /** The storages a query reads: the storages are well formed and each selected one holds the components. */
  ghost predicate Reads(stores: seq<EcsState>, archs: seq<Archetype>, kinds: seq<nat>, comps: seq<Component>) {
    |stores| == |archs| &&
    (forall k | 0 <= k < |stores| :: stores[k].WellFormed(|archs[k]|)) &&
    forall i | 0 <= i < |kinds| :: kinds[i] < |archs| && forall c | c in comps :: c in archs[kinds[i]]
  }

  /**
   * The QueryData of the selected storages as they are now: the chunks hold
   * references, so they always show the storages' current columns and ends.
   */
  function Chunks(stores: seq<EcsState>, archs: seq<Archetype>, kinds: seq<nat>, comps: seq<Component>): (r: seq<Chunk>)
    requires Reads(stores, archs, kinds, comps)
    ensures |r| == |kinds| && forall i | 0 <= i < |r| :: ChunkFits(r[i]) && r[i].end == stores[kinds[i]].end
  {
    seq(|kinds|, i requires 0 <= i < |kinds| => Item(stores[kinds[i]], archs[kinds[i]], comps))
  }

  // ---------------------------------------------------------------------------
  // The cursor
  // ---------------------------------------------------------------------------

  /** The two cursors of a QueryIterator: which chunk, and which row in it. */
  datatype Position = Position(storage: nat, entity: nat)

  /** The ends of the chunks, which is all the cursor movement looks at. */
  function Ends(chunks: seq<Chunk>): (r: seq<nat>)
    ensures |r| == |chunks| && forall i | 0 <= i < |r| :: r[i] == chunks[i].end
  {
    seq(|chunks|, i requires 0 <= i < |chunks| => chunks[i].end)
  }

  /**
   * Where advance stops when it starts looking at `from`: the first chunk
   * from there on with a live row, or the number of chunks if there is none.
   */
  function NextFilled(ends: seq<nat>, from: nat): (r: nat)
    requires from <= |ends|
    ensures from <= r <= |ends|
    ensures r < |ends| ==> ends[r] != 0
    ensures forall j | from <= j < r :: ends[j] == 0
    decreases |ends| - from
  {
    if from == |ends| then from
    else if ends[from] != 0 then from
    else NextFilled(ends, from + 1)
  }

  /** begin: both cursors at zero, then past chunk 0 if it is empty. */
  function BeginPosition(ends: seq<nat>): (r: Position)
    requires |ends| > 0
    ensures r.entity == 0 && r.storage <= |ends|
    ensures r.storage < |ends| ==> ends[r.storage] != 0
    ensures forall j | 0 <= j < r.storage :: ends[j] == 0
  {
    if ends[0] == 0 then Position(NextFilled(ends, 1), 0) else Position(0, 0)
  }

  /**
   * operator++: the entity cursor moves on; once it reaches the chunk's end
   * the storage cursor advances to the next chunk with a live row, and the
   * entity cursor keeps its value.
   */
  function NextPosition(ends: seq<nat>, p: Position): (r: Position)
    requires p.storage < |ends|
    ensures r.entity == p.entity + 1
    ensures p.entity + 1 < ends[p.storage] ==> r.storage == p.storage
    ensures p.entity + 1 >= ends[p.storage] ==>
      p.storage < r.storage <= |ends| &&
      (r.storage < |ends| ==> ends[r.storage] != 0) &&
      forall j | p.storage < j < r.storage :: ends[j] == 0
  {
    var e := p.entity + 1;
    if e >= ends[p.storage] then Position(NextFilled(ends, p.storage + 1), e) else Position(p.storage, e)
  }

  /** n applications of operator++, stopping once the storage cursor is past the last chunk. */
  function Steps(ends: seq<nat>, p: Position, n: nat): Position
    decreases n
  {
    if n == 0 || p.storage >= |ends| then p else Steps(ends, NextPosition(ends, p), n - 1)
  }

  /** operator*: the row under the cursors, or the chunk's out-of-bounds error. */
  function Deref(chunks: seq<Chunk>, p: Position): (r: Result<seq<Value>>)
    requires p.storage < |chunks| && ChunkFits(chunks[p.storage])
    ensures r.Err? <==> p.entity >= chunks[p.storage].end
  {
    Get(chunks[p.storage], p.entity)
  }

  /** Within one chunk, operator++ visits its rows in order. */
  lemma {:induction false} WalksStorage(ends: seq<nat>, s: nat, k: nat)
    requires s < |ends| && k < ends[s]
    ensures Steps(ends, Position(s, 0), k) == Position(s, k)
  {
    if k > 0 {
      WalksStorage(ends, s, k - 1);
      StepsSplit(ends, Position(s, 0), k - 1);
    }
  }

  /** One more step after n steps, when the cursor is still inside. */
  lemma {:induction false} StepsSplit(ends: seq<nat>, p: Position, n: nat)
    requires Steps(ends, p, n).storage < |ends|
    ensures Steps(ends, p, n + 1) == NextPosition(ends, Steps(ends, p, n))
    decreases n
  {
    if n > 0 {
      assert p.storage < |ends|;
      StepsSplit(ends, NextPosition(ends, p), n - 1);
    }
  }

  /**
   * Leaving a chunk of n rows, the storage cursor moves to the next chunk
   * with a live row but the entity cursor stays at n, so that chunk is read
   * from row n on.
   */
  lemma EntityCursorCarriesOver(ends: seq<nat>, s: nat)
    requires s < |ends| && ends[s] > 0
    ensures Steps(ends, Position(s, 0), ends[s]) == Position(NextFilled(ends, s + 1), ends[s])
  {
    WalksStorage(ends, s, ends[s] - 1);
    StepsSplit(ends, Position(s, 0), ends[s] - 1);
  }

  /**
   * A concrete case: two chunks with two and one live rows. After begin and
   * two increments the cursors are at chunk 1, row 2, and reading there
   * fails although chunk 1 has a live row that was never read.
   */
  lemma SecondChunkUnread(chunks: seq<Chunk>)
    requires |chunks| == 2 && chunks[0].end == 2 && chunks[1].end == 1
    requires ChunkFits(chunks[0]) && ChunkFits(chunks[1])
    ensures var p := Steps(Ends(chunks), BeginPosition(Ends(chunks)), 2);
      p == Position(1, 2) && Deref(chunks, p) == Err(IndexOutOfBounds)
  {
    var ends := Ends(chunks);
    assert ends == [2, 1];
    EntityCursorCarriesOver(ends, 0);
  }

  /** Every row of the first chunk with a live row is read successfully, in order. */
  lemma FirstChunkReadable(chunks: seq<Chunk>, k: nat)
    requires |chunks| > 0 && forall i | 0 <= i < |chunks| :: ChunkFits(chunks[i])
    requires BeginPosition(Ends(chunks)).storage < |chunks|
    requires k < chunks[BeginPosition(Ends(chunks)).storage].end
    ensures var p := Steps(Ends(chunks), BeginPosition(Ends(chunks)), k);
      p == Position(BeginPosition(Ends(chunks)).storage, k) && Deref(chunks, p).Ok?
  {
    WalksStorage(Ends(chunks), BeginPosition(Ends(chunks)).storage, k);
  }

  /** The largest chunk end. */
  function MaxEnd(ends: seq<nat>): (r: nat)
    ensures forall i | 0 <= i < |ends| :: ends[i] <= r
  {
    if ends == [] then 0
    else
      var m := MaxEnd(ends[1..]);
      assert forall i | 1 <= i < |ends| :: ends[i] == ends[1..][i - 1];
      if ends[0] > m then ends[0] else m
  }

  /**
   * A bound on the operator++ calls a range-for can still make: the chunks
   * not yet left, plus how far the entity cursor is below the largest end.
   */
  function Budget(ends: seq<nat>, p: Position): nat
    requires p.storage <= |ends|
  {
    (|ends| - p.storage) + (if p.entity < MaxEnd(ends) then MaxEnd(ends) - p.entity else 0)
  }

  /** Every operator++ uses up some of the budget. */
  lemma NextSpendsBudget(ends: seq<nat>, p: Position)
    requires p.storage < |ends|
    ensures Budget(ends, NextPosition(ends, p)) < Budget(ends, p)
  {
    var q := NextPosition(ends, p);
    if p.entity + 1 < ends[p.storage] {
      assert ends[p.storage] <= MaxEnd(ends);
    }
  }

  /**
   * A range-for ends: once as many operator++ calls as the budget allows
   * have run, the storage cursor is at the end, whatever the entity cursor holds.
   */
  lemma {:induction false} StepsReachEnd(ends: seq<nat>, p: Position, n: nat)
    requires p.storage <= |ends| && n >= Budget(ends, p)
    ensures Steps(ends, p, n).storage == |ends|
    decreases n
  {
    if p.storage < |ends| {
      NextSpendsBudget(ends, p);
      StepsReachEnd(ends, NextPosition(ends, p), n - 1);
    }
  }

  /** From begin, |chunks| + MaxEnd operator++ calls always reach the end. */
  lemma RangeForEnds(ends: seq<nat>, n: nat)
    requires |ends| > 0 && n >= |ends| + MaxEnd(ends)
    ensures Steps(ends, BeginPosition(ends), n).storage == |ends|
  {
    StepsReachEnd(ends, BeginPosition(ends), n);
  }

  // ---------------------------------------------------------------------------
  // The iterator object
  // ---------------------------------------------------------------------------

  /** QueryIterator: the selected storages (as positions) and the two cursors. */
  class QueryIterator {
    /** The storages m_data holds a chunk of, in order. */
    const kinds: seq<nat>
    /** The For components each chunk carries. */
    const comps: seq<Component>
    var storage: nat
    var entity: nat

    function Cursor(): Position
      reads this
    {
      Position(storage, entity)
    }

    /** The QueryIterator constructor: an empty QueryData is an error. */
    static method Make(kinds: seq<nat>, comps: seq<Component>) returns (r: Result<QueryIterator>)
      ensures r.Err? <==> kinds == []
      ensures r.Err? ==> r.error == EmptyQueryData
      ensures r.Ok? ==> (fresh(r.value) && r.value.kinds == kinds && r.value.comps == comps &&
                         r.value.Cursor() == Position(0, 0))
    {
      if |kinds| == 0 {
        return Err(EmptyQueryData);
      }
      var it := new QueryIterator.Init(kinds, comps);
      return Ok(it);
    }

    constructor Init(kinds: seq<nat>, comps: seq<Component>)
      ensures this.kinds == kinds && this.comps == comps && Cursor() == Position(0, 0)
    {
      this.kinds := kinds;
      this.comps := comps;
      storage := 0;
      entity := 0;
    }

    /**
     * Query<For, With, Without>: InitQueryData followed by the iterator
     * constructor, both of which reject an empty selection.
     */
    static method Query(archs: seq<Archetype>, forComps: seq<Component>, with: seq<Component>, without: seq<Component>)
      returns (r: Result<QueryIterator>)
      requires QueryFilters(archs, forComps, with, without)
      ensures r.Err? <==> InitQueryData(archs, forComps, with, without).Err?
      ensures r.Err? ==> r.error == EmptyQueryData
      ensures r.Ok? ==> (fresh(r.value) && r.value.kinds == InitQueryData(archs, forComps, with, without).value &&
                         r.value.comps == forComps && r.value.Cursor() == Position(0, 0))
    {
      var data := InitQueryData(archs, forComps, with, without);
      if data.Err? {
        return Err(data.error);
      }
      r := Make(data.value, forComps);
    }

    /** advance: the storage cursor moves to the next chunk with a live row, or to the end. */
    method Advance(chunks: seq<Chunk>)
      requires storage < |chunks|
      modifies this
      ensures storage == NextFilled(Ends(chunks), old(storage) + 1) && entity == old(entity)
    {
      storage := storage + 1;
      while storage < |chunks|
        invariant old(storage) + 1 <= storage <= |chunks| && entity == old(entity)
        invariant forall j | old(storage) + 1 <= j < storage :: chunks[j].end == 0
        decreases |chunks| - storage
      {
        if chunks[storage].end == 0 {
          storage := storage + 1;
        } else {
          return;
        }
      }
    }

    /** begin. */
    method Begin(chunks: seq<Chunk>)
      requires |chunks| == |kinds| > 0
      modifies this
      ensures Cursor() == BeginPosition(Ends(chunks))
    {
      storage := 0;
      entity := 0;
      if chunks[0].end == 0 {
        Advance(chunks);
      }
    }

    /** operator++. */
    method Next(chunks: seq<Chunk>)
      requires storage < |chunks|
      modifies this
      ensures Cursor() == NextPosition(Ends(chunks), old(Cursor()))
    {
      entity := entity + 1;
      if entity >= chunks[storage].end {
        Advance(chunks);
      }
    }

    /** operator*: reads the row under the cursors through the chunk. */
    method Read(chunks: seq<Chunk>) returns (r: Result<seq<Value>>)
      requires storage < |chunks| && ChunkFits(chunks[storage])
      ensures r == Deref(chunks, Cursor())
    {
      r := Get(chunks[storage], entity);
    }

    /** end: only the storage cursor is set (see the notes on the entity cursor). */
    method End(chunks: seq<Chunk>)
      requires |chunks| == |kinds|
      modifies this
      ensures storage == |chunks| && entity == old(entity)
    {
      storage := |chunks|;
    }

    /** operator!=: iterators differ when their storage cursors differ. */
    function Differs(other: QueryIterator): (r: bool)
      reads this, other
      ensures r <==> Cursor().storage != other.Cursor().storage
    {
      storage != other.storage
    }

    /**
     * The range-for test `it != end()`: against an iterator after End, this
     * one differs exactly while its storage cursor is inside the chunks,
     * which is when operator* and operator++ may run; the entity cursor does
     * not take part.
     */
    lemma DiffersFromEnd(e: QueryIterator, chunks: seq<Chunk>)
      requires |chunks| == |kinds| && e.storage == |chunks| && storage <= |chunks|
      ensures Differs(e) <==> storage < |chunks|
    {
    }

    /**
     * A range-for over the iterator stops: after begin and |chunks| + MaxEnd
     * operator++ calls the iterator no longer differs from end.
     */
    lemma RangeForStops(e: QueryIterator, chunks: seq<Chunk>, n: nat)
      requires |chunks| == |kinds| > 0 && e.storage == |chunks|
      requires n >= |chunks| + MaxEnd(Ends(chunks))
      requires Cursor() == Steps(Ends(chunks), BeginPosition(Ends(chunks)), n)
      ensures !Differs(e)
    {
      RangeForEnds(Ends(chunks), n);
    }
  }
}
