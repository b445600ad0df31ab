/**
 * The `VectorClock` class of ExamenFinal-C8286-extension/Pregunta2/Ejercicio2.py:
 * a dictionary from node id to counter, with increment and pointwise-maximum merge.
 */
module VectorClocks {

  function Max(a: nat, b: nat): nat {
    if a < b then b else a
  }

  /** The clock `update` leaves: every own entry raised to the other clock's entry when that is larger. */
  function Merge(mine: map<int, nat>, other: map<int, nat>): (r: map<int, nat>)
    requires mine.Keys <= other.Keys
    ensures r.Keys == mine.Keys
    ensures forall k :: k in r ==> r[k] >= mine[k] && r[k] >= other[k]
    ensures forall k :: k in r ==> r[k] == mine[k] || r[k] == other[k]
  {
    map k | k in mine :: Max(mine[k], other[k])
  }

  /** The merge is the least clock over the own keys that dominates both inputs. */
  lemma MergeIsLeast(mine: map<int, nat>, other: map<int, nat>, bound: map<int, nat>)
    requires mine.Keys <= other.Keys && mine.Keys <= bound.Keys
    requires forall k :: k in mine ==> bound[k] >= mine[k] && bound[k] >= other[k]
    ensures forall k :: k in mine ==> Merge(mine, other)[k] <= bound[k]
  {
  }

  /** Repeating `update` with the same other clock changes nothing. */
  lemma MergeIdempotent(mine: map<int, nat>, other: map<int, nat>)
    requires mine.Keys <= other.Keys
    ensures Merge(Merge(mine, other), other) == Merge(mine, other)
  {
  }

  /** On clocks over the same ids, the merge does not depend on argument order. */
  lemma MergeCommutes(a: map<int, nat>, b: map<int, nat>)
    requires a.Keys == b.Keys
    ensures Merge(a, b) == Merge(b, a)
  {
  }

  /** Merging in two clocks one after the other is merging in their merge. */
  lemma MergeAssociates(a: map<int, nat>, b: map<int, nat>, c: map<int, nat>)
    requires a.Keys <= b.Keys <= c.Keys
    ensures Merge(Merge(a, b), c) == Merge(a, Merge(b, c))
  {
  }

  class VectorClock {
    /** The ids given to the constructor: the dictionary's key order, which `update` follows. */
    const order: seq<int>
    var clock: map<int, nat>

    ghost predicate Valid()
      reads this
    {
      clock.Keys == set id | id in order
    }

    /** Every given id starts at 0. */
    constructor (ids: seq<int>)
      ensures Valid() && order == ids
      ensures forall id :: id in clock ==> clock[id] == 0
    {
      order := ids;
      clock := map id | id in ids :: 0;
    }

    /** `increment`: the named entry goes up by exactly one; a missing id is a `KeyError` in the source. */
    method Increment(id: int)
      requires Valid() && id in clock
      modifies this
      ensures Valid()
      ensures clock.Keys == old(clock.Keys)
      ensures clock[id] == old(clock[id]) + 1
      ensures forall k :: k in clock && k != id ==> clock[k] == old(clock[k])
    {
      clock := clock[id := clock[id] + 1];
    }

    /** `update`: entry by entry, in key order; every own key must be in `other`. */
    method Update(other: map<int, nat>)
      requires Valid() && clock.Keys <= other.Keys
      modifies this
      ensures Valid()
      ensures clock == Merge(old(clock), other)
    {
      ghost var start := clock;
      for i := 0 to |order|
        invariant clock.Keys == start.Keys
        invariant forall k :: k in clock ==> clock[k] == if k in order[..i] then Max(start[k], other[k]) else start[k]
      {
        var k := order[i];
        assert order[..i + 1] == order[..i] + [k];
        clock := clock[k := Max(clock[k], other[k])];
      }
      assert order[..|order|] == order;
      assert forall k :: k in clock ==> clock[k] == Merge(start, other)[k];
    }
  }
}
