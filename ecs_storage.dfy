/**
 * The storage of the second engine revision (ecs.hpp): one Storage per
 * archetype, whose columns are Pool<C> vectors, the first of them holding the
 * entity ids (the Archetype alias puts Id first). A storage keeps the count of
 * live rows `end` and the allocated length `total`; a Chunk is the view of
 * some of its columns that queries read through.
 */
module EcsStorages {
  import opened Common
  import opened Filter
  import PoolSpec

  /** The Id type, the first entry of every archetype. */
  const IdType: Component := 0

  /**
   * The two static checks of Storage<Data<Cs...>>: the first type is Id and
   * merge_types of the component list is the list itself.
   */
  predicate StorageArchetype(a: Archetype) {
    |a| > 0 && a[0] == IdType && MergeTypes([a]) == a
  }

  /** The merge_types check holds exactly when no component repeats. */
  lemma StorageArchetypeDistinct(a: Archetype)
    ensures StorageArchetype(a) <==> |a| > 0 && a[0] == IdType && Distinct(a)
  {
    assert [a][1..] == [];
    assert Concat([a]) == a;
    UniqueTypesIdentity(a);
  }

  // ---------------------------------------------------------------------------
  // Storage state
  // ---------------------------------------------------------------------------

  /** The value-level view of a storage: its columns (Id column first), end and total. */
  datatype EcsState = EcsState(columns: seq<seq<Value>>, end: nat, total: nat)
  {
    /** Every column has length total; rows [0, end) are live. */
    ghost predicate WellFormed(arity: nat) {
      |columns| == arity && end <= total &&
      forall c | 0 <= c < |columns| :: |columns[c]| == total
    }

    /** The ids of the live rows: the live part of the Id column. */
    function LiveIds(): seq<Value>
      requires |columns| > 0 && end <= |columns[0]|
    {
      columns[0][..end]
    }

    /** The record in row k, one value per column. */
    function Row(k: nat): seq<Value>
      requires PoolSpec.AllLonger(columns, k)
    {
      PoolSpec.RowOf(columns, k)
    }
  }

  /** A freshly constructed (or cleared) storage. */
  function EmptyStorage(arity: nat): (s: EcsState)
    ensures s.WellFormed(arity) && s.end == 0 && s.total == 0
  {
    EcsState(seq(arity, c => []), 0, 0)
  }

  /**
   * Storage::create: with every row in use each column grows by the new
   * record's value and total grows; otherwise row end is overwritten. end
   * always grows by one and earlier live rows stay as they were.
   */
  function Created(s: EcsState, entity: seq<Value>): (r: EcsState)
    requires s.WellFormed(|entity|)
    ensures r.WellFormed(|entity|)
    ensures r.end == s.end + 1
    ensures s.end == s.total ==> r.total == s.total + 1
    ensures s.end < s.total ==> r.total == s.total
    ensures r.Row(s.end) == entity
    ensures forall k | 0 <= k < s.end :: r.Row(k) == s.Row(k)
  {
    if s.end == s.total then
      EcsState(PoolSpec.PushColumns(s.columns, entity), s.end + 1, s.total + 1)
    else
      EcsState(PoolSpec.PutColumns(s.columns, s.end, entity), s.end + 1, s.total)
  }

  /**
   * Storage::remove past the guard: row index and the last live row are
   * swapped in every column, the Id column included, and end drops by one.
   * The live ids lose exactly the removed one, and the row now at index is
   * the old last live row.
   */
  function Removed(s: EcsState, index: nat): (r: EcsState)
    requires s.WellFormed(|s.columns|) && |s.columns| > 0 && index < s.end
    ensures r.WellFormed(|s.columns|)
    ensures r.end == s.end - 1 && r.total == s.total
    ensures multiset(r.LiveIds()) == multiset(s.LiveIds()) - multiset{s.columns[0][index]}
    ensures r.columns[0][index] == s.columns[0][s.end - 1]
    ensures index < r.end ==> r.Row(index) == s.Row(s.end - 1)
    ensures forall k | 0 <= k < r.end && k != index :: r.Row(k) == s.Row(k)
  {
    var r := EcsState(PoolSpec.SwapColumns(s.columns, index, s.end - 1), s.end - 1, s.total);
    PoolSpec.SwapRemoveMultiset(s.LiveIds(), index);
    assert r.LiveIds() == PoolSpec.SwapRemove(s.LiveIds(), index);
    r
  }

  /**
   * Storage::remove: an index at or past end is an error; otherwise the
   * storage after the swap-remove and the id now at index.
   */
  function Remove(s: EcsState, index: nat): (r: Result<(Value, EcsState)>)
    requires s.WellFormed(|s.columns|) && |s.columns| > 0
    ensures r.Err? <==> index >= s.end
    ensures r.Err? ==> r.error == IndexOutOfBounds
    ensures r.Ok? ==> r.value.1 == Removed(s, index) && r.value.0 == s.columns[0][s.end - 1]
  {
    if index >= s.end then Err(IndexOutOfBounds)
    else
      var t := Removed(s, index);
      Ok((t.columns[0][index], t))
  }

  /**
   * Storage::trim: when there are spare rows every column is cut back to the
   * live rows and total becomes end; live rows stay.
   */
  function Trimmed(s: EcsState): (r: EcsState)
    requires s.WellFormed(|s.columns|)
    ensures r.WellFormed(|s.columns|)
    ensures r.end == r.total == s.end
    ensures forall k | 0 <= k < r.end :: r.Row(k) == s.Row(k)
    ensures s.end == s.total ==> r == s
  {
    if s.end < s.total then
      EcsState(PoolSpec.TruncateColumns(s.columns, s.end), s.end, s.total - (s.total - s.end))
    else
      s
  }

  /** Storage::clear: every column empty, end and total zero. */
  function Cleared(s: EcsState): (r: EcsState)
    ensures r.WellFormed(|s.columns|) && r.end == 0 && r.total == 0
  {
    EmptyStorage(|s.columns|)
  }

  /** Trimming twice is trimming once. */
  lemma TrimIdempotent(s: EcsState)
    requires s.WellFormed(|s.columns|)
    ensures Trimmed(Trimmed(s)) == Trimmed(s)
  {
  }

  /**
   * Removing the row a create has just filled undoes the create on the live
   * rows and hands back the new entity's id.
   */
  lemma CreateThenRemove(s: EcsState, entity: seq<Value>)
    requires s.WellFormed(|entity|) && |entity| > 0
    ensures var r := Remove(Created(s, entity), s.end);
      r.Ok? && r.value.0 == entity[0] &&
      r.value.1.end == s.end &&
      r.value.1.LiveIds() == s.LiveIds() &&
      forall k | 0 <= k < s.end :: r.value.1.Row(k) == s.Row(k)
  {
    var c := Created(s, entity);
    var t := Removed(c, s.end);
    assert c.Row(s.end)[0] == entity[0];
    forall k | 0 <= k < s.end ensures t.columns[0][k] == s.columns[0][k] {
      assert t.Row(k)[0] == c.Row(k)[0] == s.Row(k)[0];
    }
    assert t.LiveIds() == s.LiveIds();
  }

  /** After a clear the next create grows a fresh row 0. */
  lemma ClearThenCreate(s: EcsState, entity: seq<Value>)
    requires |entity| == |s.columns|
    ensures var r := Created(Cleared(s), entity);
      r.end == 1 && r.total == 1 && r.Row(0) == entity
  {
  }

  // ---------------------------------------------------------------------------
  // Chunk
  // ---------------------------------------------------------------------------

  /**
   * A Chunk: the storage's end (held by reference in the source) and the
   * requested component vectors.
   */
  datatype Chunk = Chunk(end: nat, columns: seq<seq<Value>>)

  /** A chunk's columns cover its live rows, as a storage's columns do. */
  ghost predicate ChunkFits(ch: Chunk) {
    forall j | 0 <= j < |ch.columns| :: ch.end <= |ch.columns[j]|
  }

  /** Storage::item<Ts...>: the chunk of the requested components, in request order. */
  function Item(s: EcsState, archetype: Archetype, comps: seq<Component>): (ch: Chunk)
    requires s.WellFormed(|archetype|) && forall c | c in comps :: c in archetype
    ensures ch.end == s.end && |ch.columns| == |comps| && ChunkFits(ch)
    ensures forall j | 0 <= j < |comps| :: ch.columns[j] == s.columns[IndexOf(archetype, comps[j])]
  {
    Chunk(s.end, seq(|comps|, j requires 0 <= j < |comps| => s.columns[IndexOf(archetype, comps[j])]))
  }

  /**
   * Chunk::get: an index at or past end is an error; otherwise the element
   * at index of each requested column.
   */
  function Get(ch: Chunk, index: nat): (r: Result<seq<Value>>)
    requires ChunkFits(ch)
    ensures r.Err? <==> index >= ch.end
    ensures r.Err? ==> r.error == IndexOutOfBounds
    ensures r.Ok? ==> |r.value| == |ch.columns| && forall j | 0 <= j < |ch.columns| :: r.value[j] == ch.columns[j][index]
  {
    if index >= ch.end then Err(IndexOutOfBounds)
    else Ok(seq(|ch.columns|, j requires 0 <= j < |ch.columns| => ch.columns[j][index]))
  }

  /**
   * Round trip: reading the row a create has just filled, through a chunk of
   * the storage, yields the created entity's values of the requested
   * components; one row further is out of bounds.
   */
  lemma CreateThenGet(s: EcsState, archetype: Archetype, entity: seq<Value>, comps: seq<Component>)
    requires s.WellFormed(|archetype|) && |entity| == |archetype|
    requires forall c | c in comps :: c in archetype
    ensures var ch := Item(Created(s, entity), archetype, comps);
      Get(ch, s.end) == Ok(seq(|comps|, j requires 0 <= j < |comps| => entity[IndexOf(archetype, comps[j])])) &&
      Get(ch, s.end + 1) == Err(IndexOutOfBounds)
  {
    var c := Created(s, entity);
    var ch := Item(c, archetype, comps);
    var r := Get(ch, s.end);
    var expected := seq(|comps|, j requires 0 <= j < |comps| => entity[IndexOf(archetype, comps[j])]);
    forall j | 0 <= j < |comps| ensures r.value[j] == expected[j] {
      assert c.Row(s.end)[IndexOf(archetype, comps[j])] == entity[IndexOf(archetype, comps[j])];
    }
    assert r.value == expected;
  }

  // ---------------------------------------------------------------------------
  // The objects
  // ---------------------------------------------------------------------------

  /** Pool<C>: one component vector. */
  class Column {
    /** The column's position in its storage; distinct columns of a storage have distinct slots. */
    ghost const slot: nat
    var data: seq<Value>

    constructor (ghost slot: nat)
      ensures this.slot == slot && data == []
    {
      this.slot := slot;
      data := [];
    }

    /** Pool::push. */
    method Push(c: Value)
      modifies this
      ensures data == old(data) + [c]
    {
      data := data + [c];
    }

    /** Pool::insert: overwrites the element at index. */
    method Insert(c: Value, index: nat)
      requires index < |data|
      modifies this
      ensures data == old(data)[index := c]
    {
      data := data[index := c];
    }

    /** Pool::erase: drops every element from start on. */
    method Erase(start: nat)
      requires start <= |data|
      modifies this
      ensures data == old(data)[..start]
    {
      data := data[..start];
    }

    /** Pool::swap. */
    method Swap(i: nat, j: nat)
      requires i < |data| && j < |data|
      modifies this
      ensures data == PoolSpec.Swap(old(data), i, j)
    {
      data := PoolSpec.Swap(data, i, j);
    }

    /** Pool::clear. */
    method Clear()
      modifies this
      ensures data == []
    {
      data := [];
    }
  }

  /** Storage<Data<Cs...>>: the columns of one archetype and the end/total counts. */
  class Storage {
    const archetype: Archetype
    const pools: seq<Column>
    var end: nat
    var total: nat

    /** The value-level view. */
    function State(): (r: EcsState)
      reads this, pools
      ensures |r.columns| == |pools| && r.end == end && r.total == total
      ensures forall c | 0 <= c < |pools| :: r.columns[c] == pools[c].data
    {
      EcsState(seq(|pools|, c requires 0 <= c < |pools| reads pools => pools[c].data), end, total)
    }

    ghost predicate Valid()
      reads this, pools
    {
      StorageArchetype(archetype) && |pools| == |archetype| &&
      (forall c | 0 <= c < |pools| :: pools[c].slot == c) &&
      State().WellFormed(|archetype|)
    }

    constructor (archetype: Archetype)
      requires StorageArchetype(archetype)
      ensures Valid() && this.archetype == archetype
      ensures forall c | 0 <= c < |pools| :: fresh(pools[c])
      ensures State() == EmptyStorage(|archetype|)
    {
      var ps: seq<Column> := [];
      while |ps| < |archetype|
        invariant |ps| <= |archetype|
        invariant forall c | 0 <= c < |ps| :: fresh(ps[c]) && ps[c].slot == c && ps[c].data == []
      {
        var col := new Column(|ps|);
        ps := ps + [col];
      }
      this.archetype := archetype;
      pools := ps;
      end := 0;
      total := 0;
      new;
      assert State().columns == EmptyStorage(|archetype|).columns;
    }

    /** Storage::create. */
    method Create(entity: seq<Value>)
      requires Valid() && |entity| == |archetype|
      modifies this, pools
      ensures Valid()
      ensures State() == Created(old(State()), entity)
    {
      if end == total {
        PushAll(entity);
        total := total + 1;
      } else {
        InsertAll(entity);
      }
      end := end + 1;
    }

    /** The columns' half of create when every row is in use: each column grows by one value. */
    method PushAll(entity: seq<Value>)
      requires Valid() && |entity| == |archetype| && end == total
      modifies pools
      ensures State() == old(State()).(columns := PoolSpec.PushColumns(old(State()).columns, entity))
    {
      ghost var cols := State().columns;
      ghost var target := PoolSpec.PushColumns(cols, entity);
      var c := 0;
      while c < |pools|
        invariant c <= |pools|
        invariant forall k | 0 <= k < c :: pools[k].data == target[k]
        invariant forall k | c <= k < |pools| :: pools[k].data == cols[k]
      {
        pools[c].Push(entity[c]);
        c := c + 1;
      }
      assert State().columns == target;
    }

    /** The columns' half of create when a spare row exists: row end is overwritten in each column. */
    method InsertAll(entity: seq<Value>)
      requires Valid() && |entity| == |archetype| && end < total
      modifies pools
      ensures State() == old(State()).(columns := PoolSpec.PutColumns(old(State()).columns, end, entity))
    {
      ghost var cols := State().columns;
      ghost var target := PoolSpec.PutColumns(cols, end, entity);
      var c := 0;
      while c < |pools|
        invariant c <= |pools|
        invariant forall k | 0 <= k < c :: pools[k].data == target[k]
        invariant forall k | c <= k < |pools| :: pools[k].data == cols[k]
      {
        pools[c].Insert(entity[c], end);
        c := c + 1;
      }
      assert State().columns == target;
    }

    /** Storage::remove: returns the id now at index. */
    method Remove(index: nat) returns (r: Result<Value>)
      requires Valid()
      modifies this, pools
      ensures Valid()
      ensures r.Err? <==> index >= old(end)
      ensures r.Err? ==> r.error == IndexOutOfBounds && State() == old(State())
      ensures r.Ok? ==> State() == Removed(old(State()), index) && r.value == old(pools[0].data[end - 1])
    {
      if index >= end {
        return Err(IndexOutOfBounds);
      }
      SwapAll(index, end - 1);
      end := end - 1;
      return Ok(pools[0].data[index]);
    }

    /** The columns' half of remove: rows i and j swap places in each column, the Id column included. */
    method SwapAll(i: nat, j: nat)
      requires Valid() && i < total && j < total
      modifies pools
      ensures State() == old(State()).(columns := PoolSpec.SwapColumns(old(State()).columns, i, j))
    {
      ghost var cols := State().columns;
      ghost var target := PoolSpec.SwapColumns(cols, i, j);
      var c := 0;
      while c < |pools|
        invariant c <= |pools|
        invariant forall k | 0 <= k < c :: pools[k].data == target[k]
        invariant forall k | c <= k < |pools| :: pools[k].data == cols[k]
      {
        pools[c].Swap(i, j);
        c := c + 1;
      }
      assert State().columns == target;
    }

    /** Storage::trim. */
    method Trim()
      requires Valid()
      modifies this, pools
      ensures Valid()
      ensures State() == Trimmed(old(State()))
    {
      if end < total {
        ghost var cols := State().columns;
        ghost var target := PoolSpec.TruncateColumns(cols, end);
        var c := 0;
        while c < |pools|
          invariant c <= |pools| && end == old(end) && total == old(total)
          invariant forall k | 0 <= k < c :: pools[k].data == target[k]
          invariant forall k | c <= k < |pools| :: pools[k].data == cols[k]
        {
          pools[c].Erase(end);
          c := c + 1;
        }
        total := total - (total - end);
        assert State().columns == target;
      }
    }

    /** Storage::clear. */
    method Clear()
      requires Valid()
      modifies this, pools
      ensures Valid()
      ensures State() == Cleared(old(State()))
    {
      var c := 0;
      while c < |pools|
        invariant c <= |pools| && end == old(end) && total == old(total)
        invariant forall k | 0 <= k < c :: pools[k].data == []
      {
        pools[c].Clear();
        c := c + 1;
      }
      end := 0;
      total := 0;
      assert State().columns == EmptyStorage(|archetype|).columns;
    }
  }
}
