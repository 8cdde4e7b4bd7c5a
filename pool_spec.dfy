/**
 * Value-level specification of a column pool (necs.hpp, class Pool): the
 * per-component vectors, the id vector, the iterable count `end` (m_end) and
 * the allocated length `total` (m_total). The imperative Pool class is proved
 * to follow these functions; the lemmas and contracts here state what the
 * operations promise.
 */
module PoolSpec {
  import opened Common
  import opened Filter

  // ---------------------------------------------------------------------------
  // Column-wise operations: the same step applied to every component column
  // (append, overwrite, swap, truncate).
  // ---------------------------------------------------------------------------

  ghost predicate AllLonger(cols: seq<seq<Value>>, k: nat) {
    forall c | 0 <= c < |cols| :: k < |cols[c]|
  }

  function PushColumns(cols: seq<seq<Value>>, record: seq<Value>): (r: seq<seq<Value>>)
    requires |record| == |cols|
    ensures |r| == |cols| && forall c | 0 <= c < |r| :: r[c] == cols[c] + [record[c]]
  {
    seq(|cols|, c requires 0 <= c < |cols| => cols[c] + [record[c]])
  }

  function PutColumns(cols: seq<seq<Value>>, k: nat, record: seq<Value>): (r: seq<seq<Value>>)
    requires |record| == |cols| && AllLonger(cols, k)
    ensures |r| == |cols| && forall c | 0 <= c < |r| :: r[c] == cols[c][k := record[c]]
  {
    seq(|cols|, c requires 0 <= c < |cols| => cols[c][k := record[c]])
  }

  function SwapColumns(cols: seq<seq<Value>>, i: nat, j: nat): (r: seq<seq<Value>>)
    requires AllLonger(cols, i) && AllLonger(cols, j)
    ensures |r| == |cols| && forall c | 0 <= c < |r| :: r[c] == Swap(cols[c], i, j)
  {
    seq(|cols|, c requires 0 <= c < |cols| => Swap(cols[c], i, j))
  }

  function TruncateColumns(cols: seq<seq<Value>>, n: nat): (r: seq<seq<Value>>)
    requires forall c | 0 <= c < |cols| :: n <= |cols[c]|
    ensures |r| == |cols| && forall c | 0 <= c < |r| :: r[c] == cols[c][..n]
  {
    seq(|cols|, c requires 0 <= c < |cols| => cols[c][..n])
  }

  /** The record at slot k: one value per column. */
  function RowOf(cols: seq<seq<Value>>, k: nat): (r: seq<Value>)
    requires AllLonger(cols, k)
    ensures |r| == |cols| && forall c | 0 <= c < |r| :: r[c] == cols[c][k]
  {
    seq(|cols|, c requires 0 <= c < |cols| => cols[c][k])
  }

  /** std::swap of two elements. */
  function Swap<T>(s: seq<T>, i: nat, j: nat): (r: seq<T>)
    requires i < |s| && j < |s|
    ensures |r| == |s| && r[i] == s[j] && r[j] == s[i]
    ensures forall k | 0 <= k < |s| && k != i && k != j :: r[k] == s[k]
  {
    s[i := s[j]][j := s[i]]
  }

  /**
   * Swap-removal of slot i from the live prefix s: every survivor keeps its
   * slot except the last one, which moves into the vacated slot.
   */
  function SwapRemove<T>(s: seq<T>, i: nat): (r: seq<T>)
    requires i < |s|
    ensures |r| == |s| - 1
    ensures forall k | 0 <= k < |r| :: r[k] == (if k == i then s[|s| - 1] else s[k])
  {
    Swap(s, i, |s| - 1)[..|s| - 1]
  }

  /** Swap-removal loses exactly the removed element. */
  lemma SwapRemoveMultiset<T>(s: seq<T>, i: nat)
    requires i < |s|
    ensures multiset(SwapRemove(s, i)) == multiset(s) - multiset{s[i]}
  {
    var n := |s| - 1;
    var r := SwapRemove(s, i);
    assert s == s[..n] + [s[n]];
    if i < n {
      assert r == s[..n][i := s[n]];
      MultisetUpdate(s[..n], i, s[n]);
    } else {
      assert r == s[..n];
    }
  }

  lemma MultisetUpdate<T>(s: seq<T>, i: nat, x: T)
    requires i < |s|
    ensures multiset(s[i := x]) == multiset(s) - multiset{s[i]} + multiset{x}
  {
    assert s == s[..i] + [s[i]] + s[i + 1..];
    assert s[i := x] == s[..i] + [x] + s[i + 1..];
  }

  // ---------------------------------------------------------------------------
  // Pool state
  // ---------------------------------------------------------------------------

  datatype PoolState = PoolState(columns: seq<seq<Value>>, ids: seq<EntityId>, end: nat, total: nat)
  {
    /**
     * Every component vector and the id vector have length total; slots
     * [0, end) are live, [end, total) are reusable scratch.
     */
    ghost predicate WellFormed(arity: nat) {
      |columns| == arity && |ids| == total && end <= total &&
      forall c | 0 <= c < |columns| :: |columns[c]| == total
    }

    /** The ids of the live slots, in slot order. */
    function LiveIds(): seq<EntityId>
      requires end <= |ids|
    {
      ids[..end]
    }

    /** The record stored at slot k. */
    function Row(k: nat): seq<Value>
      requires WellFormed(|columns|) && k < total
    {
      RowOf(columns, k)
    }
  }

  /** An empty pool of the given arity. */
  function EmptyPool(arity: nat): (p: PoolState)
    ensures p.WellFormed(arity) && p.end == 0 && p.total == 0
  {
    PoolState(seq(arity, c => []), [], 0, 0)
  }

  /**
   * Pool::add: when every slot is in use the vectors grow by one, otherwise
   * the first scratch slot is overwritten; the count always grows by one, the
   * new record becomes the last live slot and the live slots before it stay
   * untouched.
   */
  function Add(p: PoolState, id: EntityId, record: seq<Value>): (r: PoolState)
    requires p.WellFormed(|record|)
    ensures r.WellFormed(|record|)
    ensures r.end == p.end + 1
    ensures p.end == p.total ==> r.total == p.total + 1
    ensures p.end < p.total ==> r.total == p.total
    ensures r.LiveIds() == p.LiveIds() + [id]
    ensures r.ids[p.end] == id && forall k | 0 <= k < p.end :: r.ids[k] == p.ids[k]
    ensures r.Row(p.end) == record
    ensures forall k | 0 <= k < p.end :: r.Row(k) == p.Row(k)
  {
    if p.end == p.total then
      PoolState(PushColumns(p.columns, record), p.ids + [id], p.end + 1, p.total + 1)
    else
      PoolState(PutColumns(p.columns, p.end, record), p.ids[p.end := id], p.end + 1, p.total)
  }

  /**
   * Pool::remove: slot i and the last live slot are swapped in every column
   * and in the ids in lock-step, then the count drops by one. The id now at
   * slot i (the one the caller must re-point) was the last live id.
   */
  function Remove(p: PoolState, i: nat): (r: PoolState)
    requires p.WellFormed(|p.columns|) && i < p.end
    ensures r.WellFormed(|p.columns|)
    ensures r.end == p.end - 1 && r.total == p.total
    ensures r.ids[i] == p.ids[p.end - 1]
    ensures forall k | 0 <= k < r.end && k != i :: r.ids[k] == p.ids[k]
    ensures r.LiveIds() == SwapRemove(p.LiveIds(), i)
    ensures multiset(r.LiveIds()) == multiset(p.LiveIds()) - multiset{p.ids[i]}
    ensures i < r.end ==> r.Row(i) == p.Row(p.end - 1)
    ensures forall k | 0 <= k < r.end && k != i :: r.Row(k) == p.Row(k)
  {
    var r := PoolState(SwapColumns(p.columns, i, p.end - 1), Swap(p.ids, i, p.end - 1), p.end - 1, p.total);
    SwapRemoveMultiset(p.LiveIds(), i);
    SwapRows(p, i, p.end - 1);
    assert r.LiveIds() == SwapRemove(p.LiveIds(), i);
    r
  }

  /** Swapping slots i and j in every column swaps the two records and keeps every other one. */
  lemma SwapRows(p: PoolState, i: nat, j: nat)
    requires p.WellFormed(|p.columns|) && i < p.total && j < p.total
    ensures var q := p.(columns := SwapColumns(p.columns, i, j));
      q.WellFormed(|p.columns|) && q.Row(i) == p.Row(j) && q.Row(j) == p.Row(i) &&
      forall k | 0 <= k < p.total && k != i && k != j :: q.Row(k) == p.Row(k)
  {
    var q := p.(columns := SwapColumns(p.columns, i, j));
    assert q.Row(i) == p.Row(j);
    assert q.Row(j) == p.Row(i);
    forall k | 0 <= k < p.total && k != i && k != j ensures q.Row(k) == p.Row(k) {
    }
  }

  /**
   * Pool::trim (corrected, see TrimAsWritten): the scratch slots are erased
   * from every vector and the capacity becomes the count; live slots stay.
   */
  function Trim(p: PoolState): (r: PoolState)
    requires p.WellFormed(|p.columns|)
    ensures r.WellFormed(|p.columns|)
    ensures r.total == r.end == p.end
    ensures r.LiveIds() == p.LiveIds()
    ensures forall k | 0 <= k < r.end :: r.Row(k) == p.Row(k)
  {
    if p.end < p.total then
      PoolState(TruncateColumns(p.columns, p.end), p.ids[..p.end], p.end, p.end)
    else
      p
  }

  /**
   * Pool::trim as written: m_total is reset inside erase<C>, once per
   * component, so with no component at all the fold is empty and m_total keeps
   * its old value while m_ids is truncated.
   */
  function TrimAsWritten(p: PoolState): (r: PoolState)
    requires p.WellFormed(|p.columns|)
    ensures |r.ids| == r.end == p.end <= r.total
    ensures r.LiveIds() == p.LiveIds()
  {
    if p.end < p.total then
      PoolState(TruncateColumns(p.columns, p.end), p.ids[..p.end], p.end,
                if |p.columns| > 0 then p.end else p.total)
    else
      p
  }

  /**
   * With at least one component the source's trim is the corrected one; with
   * none, a pool holding one scratch slot is left claiming a capacity its id
   * vector no longer has, so the next add takes the overwrite branch and
   * writes m_ids[m_end] past the end of m_ids.
   */
  lemma TrimAsWrittenLosesCapacity(p: PoolState)
    requires p.WellFormed(|p.columns|)
    ensures |p.columns| > 0 ==> TrimAsWritten(p) == Trim(p)
    ensures p == PoolState([], [7], 0, 1) ==>
      var q := TrimAsWritten(p);
      !q.WellFormed(0) && q.end < q.total && q.end >= |q.ids|
  {
  }

  /** Pool::get<Cs...>: the values of the requested components at slot k. */
  function Get(p: PoolState, archetype: Archetype, k: nat, comps: seq<Component>): (r: seq<Value>)
    requires p.WellFormed(|archetype|) && k < p.total
    requires forall c | c in comps :: c in archetype
    ensures |r| == |comps|
    ensures forall j | 0 <= j < |comps| ::
      archetype[IndexOf(archetype, comps[j])] == comps[j] && r[j] == p.Row(k)[IndexOf(archetype, comps[j])]
  {
    seq(|comps|, j requires 0 <= j < |comps| => p.columns[IndexOf(archetype, comps[j])][k])
  }

  /** Pool::clone: a copy of the whole record, which is exactly the row. */
  function Clone(p: PoolState, archetype: Archetype, k: nat): (r: seq<Value>)
    requires p.WellFormed(|archetype|) && k < p.total && Distinct(archetype)
    ensures r == p.Row(k)
  {
    forall j | 0 <= j < |archetype| ensures IndexOf(archetype, archetype[j]) == j {
      IndexOfDistinct(archetype, j);
    }
    Get(p, archetype, k, archetype)
  }

  /**
   * Round trip: reading back the slot an add just filled yields the added
   * record's values for the requested components.
   */
  lemma AddThenGet(p: PoolState, archetype: Archetype, id: EntityId, record: seq<Value>, comps: seq<Component>)
    requires p.WellFormed(|archetype|) && |record| == |archetype|
    requires forall c | c in comps :: c in archetype
    ensures var q := Add(p, id, record);
      p.end < q.total && q.ids[p.end] == id &&
      forall j | 0 <= j < |comps| :: Get(q, archetype, p.end, comps)[j] == record[IndexOf(archetype, comps[j])]
  {
    var q := Add(p, id, record);
    assert q.LiveIds()[p.end] == id;
    forall j | 0 <= j < |comps|
      ensures Get(q, archetype, p.end, comps)[j] == record[IndexOf(archetype, comps[j])]
    {
      assert q.Row(p.end)[IndexOf(archetype, comps[j])] == record[IndexOf(archetype, comps[j])];
    }
  }

  // ---------------------------------------------------------------------------
  // Iteration over one pool
  // ---------------------------------------------------------------------------

  /** What an iterator yields for one slot: the id and the requested components. */
  datatype Extraction = Extraction(id: EntityId, values: seq<Value>)

  /** The extractions of the live slots [from, end), in slot order. */
  function Extractions(p: PoolState, archetype: Archetype, comps: seq<Component>, from: nat): (r: seq<Extraction>)
    requires p.WellFormed(|archetype|) && from <= p.end
    requires forall c | c in comps :: c in archetype
    ensures |r| == p.end - from
    decreases p.end - from
  {
    if from == p.end then []
    else [Extraction(p.ids[from], Get(p, archetype, from, comps))] + Extractions(p, archetype, comps, from + 1)
  }

  /** The j-th extraction from `from` on is slot from + j: its id and its requested values. */
  lemma {:induction false} ExtractionsAt(p: PoolState, archetype: Archetype, comps: seq<Component>, from: nat, j: nat)
    requires p.WellFormed(|archetype|) && from <= p.end
    requires forall c | c in comps :: c in archetype
    requires j < p.end - from
    ensures Extractions(p, archetype, comps, from)[j] == Extraction(p.ids[from + j], Get(p, archetype, from + j, comps))
    decreases j
  {
    if j > 0 {
      ExtractionsAt(p, archetype, comps, from + 1, j - 1);
    }
  }
}
