/**
 * The `CheneyCollector` of ExamenFinal-C8286-extension/Pregunta3/Ejercicio3.py:
 * two arrays of `size` slots and a bump pointer.  `collect` copies every
 * occupied slot, in address order, into a fresh array and swaps the spaces.
 * It tests no liveness, so it keeps every object; an empty slot is `None`.
 */
module Cheney {
  import opened Wrappers

  /** The objects in the occupied slots, in address order. */
  function Live<T>(s: seq<Option<T>>): (r: seq<T>)
    ensures |r| <= |s|
    decreases |s|
  {
    if s == [] then []
    else
      var last := |s| - 1;
      Live(s[..last]) + (if s[last].Some? then [s[last].value] else [])
  }

  function Nones<T>(n: nat): (r: seq<Option<T>>)
    ensures |r| == n && forall i :: 0 <= i < n ==> r[i] == None
  {
    seq(n, _ => None)
  }

  function Occupied<T>(xs: seq<T>): (r: seq<Option<T>>)
    ensures |r| == |xs| && forall i :: 0 <= i < |xs| ==> r[i] == Some(xs[i])
  {
    seq(|xs|, i requires 0 <= i < |xs| => Some(xs[i]))
  }

  /** The space that `collect` leaves: the live objects at addresses 0.. in order, then empty slots. */
  function Compacted<T>(s: seq<Option<T>>): (r: seq<Option<T>>)
    ensures |r| == |s|
  {
    Occupied(Live(s)) + Nones(|s| - |Live(s)|)
  }

  /** Slots below `k` are occupied and the rest are empty. */
  predicate Packed<T>(s: seq<Option<T>>, k: nat) {
    k <= |s| && (forall i :: 0 <= i < k ==> s[i].Some?) && (forall i :: k <= i < |s| ==> s[i] == None)
  }

  lemma {:induction false} LiveOfOccupied<T>(xs: seq<T>)
    ensures Live(Occupied(xs)) == xs
    decreases |xs|
  {
    if xs != [] {
      var last := |xs| - 1;
      LiveOfOccupied(xs[..last]);
      assert Occupied(xs)[..last] == Occupied(xs[..last]);
      assert xs == xs[..last] + [xs[last]];
    }
  }

  lemma {:induction false} LiveOfNones<T>(n: nat)
    ensures Live(Nones<T>(n)) == []
    decreases n
  {
    if n > 0 {
      LiveOfNones<T>(n - 1);
      assert Nones<T>(n)[..n - 1] == Nones<T>(n - 1);
    }
  }

  lemma {:induction false} LiveAppend<T>(a: seq<Option<T>>, b: seq<Option<T>>)
    ensures Live(a + b) == Live(a) + Live(b)
    decreases |b|
  {
    if b == [] {
      assert a + b == a;
    } else {
      var last := |b| - 1;
      LiveAppend(a, b[..last]);
      assert (a + b)[..|a + b| - 1] == a + b[..last];
    }
  }

  /** Compacting keeps exactly the same objects in the same order. */
  lemma LiveOfCompacted<T>(s: seq<Option<T>>)
    ensures Live(Compacted(s)) == Live(s)
  {
    LiveAppend(Occupied(Live(s)), Nones<T>(|s| - |Live(s)|));
    LiveOfOccupied(Live(s));
    LiveOfNones<T>(|s| - |Live(s)|);
  }

  /** The space `collect` leaves is packed, up to the number of objects it holds. */
  lemma CompactedIsPacked<T>(s: seq<Option<T>>)
    ensures Packed(Compacted(s), |Live(s)|)
  {
  }

  lemma {:induction false} LiveOfPacked<T>(s: seq<Option<T>>, k: nat)
    requires Packed(s, k)
    ensures |Live(s)| == k
    ensures forall i :: 0 <= i < k ==> s[i] == Some(Live(s)[i])
    decreases |s|
  {
    if s != [] {
      var last := |s| - 1;
      if k == |s| {
        LiveOfPacked(s[..last], last);
      } else {
        LiveOfPacked(s[..last], k);
      }
    }
  }

  /** Collecting a packed space gives back the same space: nothing is ever reclaimed. */
  lemma PackedIsCompacted<T>(s: seq<Option<T>>, k: nat)
    requires Packed(s, k)
    ensures Compacted(s) == s
  {
    LiveOfPacked(s, k);
  }

  /** `collect` twice is `collect` once. */
  lemma CompactedIdempotent<T>(s: seq<Option<T>>)
    ensures Compacted(Compacted(s)) == Compacted(s)
  {
    CompactedIsPacked(s);
    PackedIsCompacted(Compacted(s), |Live(s)|);
  }

  class CheneyCollector<T> {
    const size: nat
    var fromSpace: array<Option<T>>
    var toSpace: array<Option<T>>
    var freePtr: nat

    /** Both spaces have `size` slots, and `freePtr` is the number of occupied slots, all at the bottom. */
    ghost predicate Valid()
      reads this, fromSpace
    {
      && fromSpace.Length == size && toSpace.Length == size && fromSpace != toSpace
      && Packed(fromSpace[..], freePtr)
    }

    constructor (n: nat)
      ensures Valid() && size == n && freePtr == 0 && fresh(fromSpace) && fresh(toSpace)
      ensures fromSpace[..] == Nones(n) && toSpace[..] == Nones(n)
    {
      size := n;
      fromSpace := new Option<T>[n](_ => None);
      toSpace := new Option<T>[n](_ => None);
      freePtr := 0;
    }

    /** `copy`: the object goes to the next free slot of the to-space. */
    method Copy(obj: T) returns (addr: nat)
      requires freePtr < toSpace.Length
      modifies toSpace, this`freePtr
      ensures addr == old(freePtr) && freePtr == old(freePtr) + 1
      ensures toSpace[..] == old(toSpace[..])[addr := Some(obj)]
    {
      addr := freePtr;
      toSpace[addr] := Some(obj);
      freePtr := freePtr + 1;
    }

    /** `collect`: every occupied slot is copied, in address order, and the spaces swap. */
    method Collect()
      requires Valid()
      modifies this
      ensures Valid() && fresh(fromSpace)
      ensures fromSpace[..] == Compacted(old(fromSpace[..]))
      ensures freePtr == |Live(old(fromSpace[..]))|
      ensures toSpace == old(fromSpace)
    {
      toSpace := new Option<T>[size](_ => None);
      freePtr := 0;
      for i := 0 to size
        invariant toSpace.Length == size && fresh(toSpace)
        invariant fromSpace == old(fromSpace) && fromSpace.Length == size
        invariant freePtr == |Live(fromSpace[..i])| <= i
        invariant toSpace[..] == Occupied(Live(fromSpace[..i])) + Nones(size - freePtr)
      {
        assert fromSpace[..i + 1][..i] == fromSpace[..i];
        var obj := fromSpace[i];
        if obj.Some? {
          var addr := Copy(obj.value);
          assert Live(fromSpace[..i + 1]) == Live(fromSpace[..i]) + [obj.value];
        }
      }
      assert fromSpace[..size] == fromSpace[..];
      CompactedIsPacked(fromSpace[..]);
      fromSpace, toSpace := toSpace, fromSpace;
    }

    /**
     * `allocate`: with a free slot, the object goes to `freePtr` and its
     * address is returned.  With none, `collect` runs first; since it frees
     * nothing, the following store is out of range (`None` here), after the
     * collection's effects have taken place.
     */
    method Allocate(obj: T) returns (addr: Option<nat>)
      requires Valid()
      modifies this, fromSpace
      ensures Valid()
      ensures old(freePtr) < size ==>
        && addr == Some(old(freePtr)) && freePtr == old(freePtr) + 1
        && fromSpace == old(fromSpace) && toSpace == old(toSpace)
        && fromSpace[..] == old(fromSpace[..])[old(freePtr) := Some(obj)]
      ensures old(freePtr) >= size ==>
        && addr == None && freePtr == size && fresh(fromSpace)
        && fromSpace[..] == old(fromSpace[..]) && toSpace == old(fromSpace)
    {
      if freePtr >= size {
        PackedIsCompacted(fromSpace[..], freePtr);
        Collect();
      }
      if freePtr < size {
        addr := Some(freePtr);
        fromSpace[freePtr] := Some(obj);
        freePtr := freePtr + 1;
      } else {
        addr := None;
      }
    }
  }

  /** A one-slot heap takes one object; the second allocation finds it full, collects nothing and fails. */
  method FullHeapScenario<T>(x: T, y: T) returns (first: Option<nat>, second: Option<nat>)
    ensures first == Some(0) && second == None
  {
    var c := new CheneyCollector<T>(1);
    first := c.Allocate(x);
    second := c.Allocate(y);
  }
}
