/**
 * The archetype filter: the compile-time type-list recursion of the source
 * (namespace Filter in necs.hpp, namespace filter in ecs.hpp, which are the
 * same code) restated over runtime lists of component ids.
 */
module Filter {
  import opened Common

  type Archetype = seq<Component>

  /** has_type: walks the list head first. */
  function HasType(t: Component, ts: seq<Component>): (r: bool)
    ensures r <==> t in ts
  {
    if ts == [] then false
    else if ts[0] == t then true
    else HasType(t, ts[1..])
  }

  /** has_all_types<A, Ts...>: every Ts is in A. */
  function HasAllTypes(a: seq<Component>, ts: seq<Component>): (r: bool)
    ensures r <==> forall t :: t in ts ==> t in a
  {
    if ts == [] then true
    else HasType(ts[0], a) && HasAllTypes(a, ts[1..])
  }

  /** has_any_type<A, Ts...>: some Ts is in A. */
  function HasAnyType(a: seq<Component>, ts: seq<Component>): (r: bool)
    ensures r <==> exists t :: t in ts && t in a
  {
    if ts == [] then false
    else HasType(ts[0], a) || HasAnyType(a, ts[1..])
  }

  /** tuple_type_cat: the lists one after the other. */
  function Concat(tuples: seq<seq<Component>>): (r: seq<Component>)
    ensures forall x :: x in r <==> exists i :: 0 <= i < |tuples| && x in tuples[i]
  {
    if tuples == [] then []
    else
      var rest := Concat(tuples[1..]);
      assert forall i :: 0 < i < |tuples| ==> tuples[i] == tuples[1..][i - 1];
      tuples[0] + rest
  }

  /**
   * unique_types (id_locked_types in necs.hpp): an element is dropped when it
   * occurs again further on, so each component keeps its last occurrence.
   */
  function UniqueTypes(ts: seq<Component>): (r: seq<Component>)
    ensures |r| <= |ts|
  {
    if ts == [] then []
    else if ts[0] in ts[1..] then UniqueTypes(ts[1..])
    else [ts[0]] + UniqueTypes(ts[1..])
  }

  /** unique_types keeps every element of the list, and each only once. */
  lemma {:induction false} UniqueTypesMembers(ts: seq<Component>)
    ensures Distinct(UniqueTypes(ts))
    ensures forall x :: x in UniqueTypes(ts) <==> x in ts
  {
    if ts != [] {
      var rt := UniqueTypes(ts[1..]);
      UniqueTypesMembers(ts[1..]);
      assert ts == [ts[0]] + ts[1..];
      if ts[0] !in ts[1..] {
        var r := [ts[0]] + rt;
        assert UniqueTypes(ts) == r;
        forall i, j | 0 <= i < j < |r| ensures r[i] != r[j] {
          assert r[j] == rt[j - 1];
          if i > 0 {
            assert r[i] == rt[i - 1];
          } else {
            assert rt[j - 1] in rt;
          }
        }
      }
    }
  }

  /** merge_types: the distinct components of several lists. */
  function MergeTypes(tuples: seq<seq<Component>>): (r: seq<Component>)
    ensures Distinct(r)
    ensures forall x :: x in r <==> x in Concat(tuples)
  {
    UniqueTypesMembers(Concat(tuples));
    UniqueTypes(Concat(tuples))
  }

  /** The position of the last occurrence of x in ts. */
  function LastIndex(ts: seq<Component>, x: Component): (i: nat)
    requires x in ts
    ensures i < |ts| && ts[i] == x && x !in ts[i + 1..]
  {
    if x !in ts[1..] then
      assert ts == [ts[0]] + ts[1..];
      0
    else
      var i := LastIndex(ts[1..], x);
      assert ts[i + 2..] == ts[1..][i + 1..];
      i + 1
  }

  /** The position of the first occurrence of t in ts (how std::get<C> finds a column). */
  function IndexOf(ts: seq<Component>, t: Component): (i: nat)
    requires t in ts
    ensures i < |ts| && ts[i] == t && t !in ts[..i]
  {
    if ts[0] == t then 0
    else
      var i := IndexOf(ts[1..], t);
      assert ts[..i + 1] == [ts[0]] + ts[1..][..i];
      i + 1
  }

  /** In a duplicate-free list the column of the j-th component is j. */
  lemma {:induction false} IndexOfDistinct(ts: seq<Component>, j: nat)
    requires Distinct(ts) && j < |ts|
    ensures IndexOf(ts, ts[j]) == j
  {
  }

  /**
   * unique_types keeps the surviving components in the order of their last
   * occurrences.
   */
  lemma {:induction false} UniqueTypesKeepsLastOccurrenceOrder(ts: seq<Component>, i: nat, j: nat)
    requires i < j < |UniqueTypes(ts)|
    ensures UniqueTypes(ts)[i] in ts && UniqueTypes(ts)[j] in ts
    ensures LastIndex(ts, UniqueTypes(ts)[i]) < LastIndex(ts, UniqueTypes(ts)[j])
    decreases |ts|, 1
  {
    if ts[0] in ts[1..] {
      DroppedHeadOrder(ts, i, j);
    } else if i == 0 {
      FirstKeptIsFirst(ts, j);
    } else {
      KeptHeadOrder(ts, i, j);
    }
  }

  /** The case of a head that occurs again: the order is the tail's. */
  lemma {:induction false} DroppedHeadOrder(ts: seq<Component>, i: nat, j: nat)
    requires ts != [] && ts[0] in ts[1..] && i < j < |UniqueTypes(ts)|
    ensures UniqueTypes(ts)[i] in ts && UniqueTypes(ts)[j] in ts
    ensures LastIndex(ts, UniqueTypes(ts)[i]) < LastIndex(ts, UniqueTypes(ts)[j])
    decreases |ts|, 0
  {
    var rt := UniqueTypes(ts[1..]);
    assert UniqueTypes(ts) == rt;
    UniqueTypesKeepsLastOccurrenceOrder(ts[1..], i, j);
    LastIndexOfTail(ts, rt[i]);
    LastIndexOfTail(ts, rt[j]);
  }

  /** The case of a head kept in front: positions shift by one against the tail's. */
  lemma {:induction false} KeptHeadOrder(ts: seq<Component>, i: nat, j: nat)
    requires ts != [] && ts[0] !in ts[1..] && 0 < i < j < |UniqueTypes(ts)|
    ensures UniqueTypes(ts)[i] in ts && UniqueTypes(ts)[j] in ts
    ensures LastIndex(ts, UniqueTypes(ts)[i]) < LastIndex(ts, UniqueTypes(ts)[j])
    decreases |ts|, 0
  {
    var rt := UniqueTypes(ts[1..]);
    assert UniqueTypes(ts) == [ts[0]] + rt;
    assert UniqueTypes(ts)[i] == rt[i - 1] && UniqueTypes(ts)[j] == rt[j - 1];
    UniqueTypesKeepsLastOccurrenceOrder(ts[1..], i - 1, j - 1);
    LastIndexOfTail(ts, rt[i - 1]);
    LastIndexOfTail(ts, rt[j - 1]);
  }

  /** A head that does not occur again is kept first, at position 0, before everything else. */
  lemma FirstKeptIsFirst(ts: seq<Component>, j: nat)
    requires ts != [] && ts[0] !in ts[1..] && 0 < j < |UniqueTypes(ts)|
    ensures UniqueTypes(ts)[0] == ts[0] && UniqueTypes(ts)[j] in ts[1..]
    ensures LastIndex(ts, UniqueTypes(ts)[0]) == 0 < LastIndex(ts, UniqueTypes(ts)[j])
  {
    var rt := UniqueTypes(ts[1..]);
    assert UniqueTypes(ts) == [ts[0]] + rt;
    assert UniqueTypes(ts)[j] == rt[j - 1] && rt[j - 1] in rt;
    UniqueTypesMembers(ts[1..]);
    LastIndexOfTail(ts, rt[j - 1]);
  }

  /** The last occurrence of an element of the tail is one further on in the whole list. */
  lemma LastIndexOfTail(ts: seq<Component>, x: Component)
    requires |ts| > 0 && x in ts[1..]
    ensures x in ts && LastIndex(ts, x) == LastIndex(ts[1..], x) + 1
  {
  }

  /**
   * The static check of a Storage: merge_types of its own component list is
   * the list itself exactly when no component repeats.
   */
  lemma {:induction false} UniqueTypesIdentity(ts: seq<Component>)
    ensures UniqueTypes(ts) == ts <==> Distinct(ts)
  {
    if ts != [] {
      var tail := ts[1..];
      UniqueTypesIdentity(tail);
      if ts[0] in tail {
        assert UniqueTypes(ts) == UniqueTypes(tail);
        var k :| 0 <= k < |tail| && tail[k] == ts[0];
        assert ts[k + 1] == ts[0];
      } else {
        var rt := UniqueTypes(tail);
        assert UniqueTypes(ts) == [ts[0]] + rt;
        DistinctCons(ts);
        assert ts == [ts[0]] + tail;
        assert ([ts[0]] + rt)[1..] == rt;
      }
    }
  }

  /** A list whose head does not occur again is duplicate-free exactly when its tail is. */
  lemma DistinctCons(ts: seq<Component>)
    requires ts != [] && ts[0] !in ts[1..]
    ensures Distinct(ts) <==> Distinct(ts[1..])
  {
    var tail := ts[1..];
    if Distinct(tail) {
      forall i, j | 0 <= i < j < |ts| ensures ts[i] != ts[j] {
        assert ts[j] == tail[j - 1];
        if i > 0 {
          assert ts[i] == tail[i - 1];
        }
      }
    }
    if Distinct(ts) {
      forall i, j | 0 <= i < j < |tail| ensures tail[i] != tail[j] {
        assert tail[i] == ts[i + 1] && tail[j] == ts[j + 1];
      }
    }
  }

  /** merge_types: a component is in the merge exactly when some list has it. */
  lemma MergeTypesMembers(tuples: seq<seq<Component>>, x: Component)
    ensures Distinct(MergeTypes(tuples))
    ensures x in MergeTypes(tuples) <==> exists i :: 0 <= i < |tuples| && x in tuples[i]
  {
    UniqueTypesMembers(Concat(tuples));
  }

  /**
   * The test match_index applies to one archetype: it has every component of
   * `with` and none of `without`.
   */
  predicate Matches(a: Archetype, with: seq<Component>, without: seq<Component>): (r: bool)
    ensures r <==> (forall c | c in with :: c in a) && (forall c | c in without :: c !in a)
  {
    HasAllTypes(a, with) && !HasAnyType(a, without)
  }

  /** Strictly increasing. */
  predicate Increasing(s: seq<nat>) {
    forall i, j | 0 <= i < j < |s| :: s[i] < s[j]
  }

  /** A smaller element in front of an increasing list keeps it increasing. */
  lemma PrependIncreasing(x: nat, tail: seq<nat>)
    requires Increasing(tail) && forall k | k in tail :: x < k
    ensures Increasing([x] + tail)
  {
    forall i, j | 0 <= i < j < |[x] + tail| ensures ([x] + tail)[i] < ([x] + tail)[j] {
      assert ([x] + tail)[j] == tail[j - 1] && tail[j - 1] in tail;
    }
  }

  /** match_index over the archetype positions from `from` on. */
  function MatchFrom(archetypes: seq<Archetype>, from: nat, with: seq<Component>, without: seq<Component>): (r: seq<nat>)
    requires from <= |archetypes|
    ensures forall k :: k in r <==> from <= k < |archetypes| && Matches(archetypes[k], with, without)
    ensures Increasing(r)
    ensures r == [] <==> forall k :: from <= k < |archetypes| ==> !Matches(archetypes[k], with, without)
    decreases |archetypes| - from
  {
    if from == |archetypes| then []
    else
      var tail := MatchFrom(archetypes, from + 1, with, without);
      if Matches(archetypes[from], with, without) then
        PrependIncreasing(from, tail);
        [from] + tail
      else tail
  }

  /** Filter::Match: the positions of the matching archetypes, in registration order. */
  function Match(archetypes: seq<Archetype>, with: seq<Component>, without: seq<Component>): (r: seq<nat>)
    ensures Increasing(r)
    ensures forall k: nat :: k in r <==> k < |archetypes| && Matches(archetypes[k], with, without)
  {
    MatchFrom(archetypes, 0, with, without)
  }

  /**
   * A filter that both requires and excludes one component matches nothing,
   * so a query built from it is rejected as redundant.
   */
  lemma ExclusionRejects(archetypes: seq<Archetype>, with: seq<Component>, without: seq<Component>, c: Component)
    requires c in with && c in without
    ensures Match(archetypes, with, without) == []
  {
  }
}
