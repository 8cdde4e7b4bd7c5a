/**
 * The column pool of necs.hpp (class Pool<A>): one vector per component of
 * the archetype, a vector of entity ids, the iterable count m_end and the
 * allocated length m_total. Every fold over the archetype's components is a
 * loop over the columns.
 */
module Pools {
  import opened Common
  import opened Filter
  import opened PoolSpec

  class Pool {
    /** The archetype: the component of each column, in order. */
    const archetype: Archetype
    /** Which pool this is (storage position, sleeping?); distinct pools have distinct tags. */
    ghost const tag: (nat, bool)

    var columns: seq<seq<Value>>
    var ids: seq<EntityId>
    var end: nat
    var total: nat

    /** The value-level view of the pool. */
    function State(): PoolState
      reads this
    {
      PoolState(columns, ids, end, total)
    }

    ghost predicate Valid()
      reads this
    {
      Distinct(archetype) && State().WellFormed(|archetype|)
    }

    constructor (archetype: Archetype, ghost tag: (nat, bool))
      requires Distinct(archetype)
      ensures Valid() && this.archetype == archetype && this.tag == tag
      ensures State() == EmptyPool(|archetype|)
    {
      this.archetype := archetype;
      this.tag := tag;
      columns := seq(|archetype|, c => []);
      ids := [];
      end := 0;
      total := 0;
    }

    /** Pool::add. */
    method Add(id: EntityId, record: seq<Value>)
      requires Valid() && |record| == |archetype|
      modifies this
      ensures Valid()
      ensures State() == PoolSpec.Add(old(State()), id, record)
    {
      if end == total {
        // append each component of the record to its column
        var cols := columns;
        var c := 0;
        while c < |cols|
          invariant 0 <= c <= |cols| == |columns|
          invariant forall k | 0 <= k < c :: cols[k] == columns[k] + [record[k]]
          invariant forall k | c <= k < |cols| :: cols[k] == columns[k]
        {
          cols := cols[c := cols[c] + [record[c]]];
          c := c + 1;
        }
        columns := cols;
        assert columns == PushColumns(old(columns), record);
        ids := ids + [id];
        total := total + 1;
      } else {
        // overwrite the spare slot in every column
        var cols := columns;
        var c := 0;
        while c < |cols|
          invariant 0 <= c <= |cols| == |columns|
          invariant forall k | 0 <= k < c :: cols[k] == columns[k][end := record[k]]
          invariant forall k | c <= k < |cols| :: cols[k] == columns[k]
        {
          cols := cols[c := cols[c][end := record[c]]];
          c := c + 1;
        }
        columns := cols;
        assert columns == PutColumns(old(columns), end, record);
        ids := ids[end := id];
      }
      end := end + 1;
    }

    /**
     * Pool::remove: swaps slot i with the last live slot in every column and
     * in the ids, drops the count and returns the id now at slot i.
     */
    method Remove(i: nat) returns (moved: EntityId)
      requires Valid() && i < end
      modifies this
      ensures Valid()
      ensures State() == PoolSpec.Remove(old(State()), i)
      ensures moved == old(ids[end - 1])
    {
      var last := end - 1;
      // swap the two rows in every column
      var cols := columns;
      var c := 0;
      while c < |cols|
        invariant 0 <= c <= |cols| == |columns|
        invariant forall k | 0 <= k < c :: cols[k] == Swap(columns[k], i, last)
        invariant forall k | c <= k < |cols| :: cols[k] == columns[k]
      {
        cols := cols[c := Swap(cols[c], i, last)];
        c := c + 1;
      }
      columns := cols;
      assert columns == SwapColumns(old(columns), i, last);
      ids := Swap(ids, i, last);
      end := end - 1;
      moved := ids[i];
    }

    /** Pool::trim, with the capacity reset whatever the arity (see PoolSpec.TrimAsWritten). */
    method Trim()
      requires Valid()
      modifies this
      ensures Valid()
      ensures State() == PoolSpec.Trim(old(State()))
    {
      if end < total {
        ids := ids[..end];
        // cut every column back to the live slots
        var cols := columns;
        var c := 0;
        while c < |cols|
          invariant 0 <= c <= |cols| == |columns|
          invariant forall k | 0 <= k < c :: cols[k] == columns[k][..end]
          invariant forall k | c <= k < |cols| :: cols[k] == columns[k]
        {
          cols := cols[c := cols[c][..end]];
          c := c + 1;
        }
        columns := cols;
        assert columns == TruncateColumns(old(columns), end);
        total := end;
      }
    }
  }
}
