/**
 * `GenerationalGarbageCollector` of ExamenFinal-C8286-extension/Pregunta2/Ejercicio2.py:
 * three generation lists; `collect` sweeps generations 2, 1, 0 in that order,
 * removing dead objects from each list while iterating over it, and promotes
 * the survivors of generations 0 and 1 by one generation.
 *
 * Objects are values of a type `T` compared with `==` (Python's `remove`
 * compares with `==`, which is identity for the source's `Object`), and
 * `is_alive()` is the parameter `alive`.
 */
module GenerationalGc {

  /** The position of the first element equal to `x`. */
  function FirstIndex<T(==)>(s: seq<T>, x: T): (k: nat)
    requires x in s
    ensures k < |s| && s[k] == x && x !in s[..k]
  {
    if s[0] == x then 0
    else
      assert s[1..][..FirstIndex(s[1..], x)] == s[1..FirstIndex(s[1..], x) + 1];
      FirstIndex(s[1..], x) + 1
  }

  lemma SpliceAfterHead<T>(s: seq<T>, k: nat)
    requires k + 1 < |s|
    ensures s[..k + 1] + s[k + 2..] == [s[0]] + (s[1..][..k] + s[1..][k + 1..])
  {
    assert s[..k + 1] == [s[0]] + s[1..][..k];
  }

  lemma MultisetRemoveAt<T>(s: seq<T>, k: nat)
    requires k < |s|
    ensures multiset(s[..k] + s[k + 1..]) == multiset(s) - multiset{s[k]}
  {
    assert s == s[..k] + [s[k]] + s[k + 1..];
  }

  /** Python's `list.remove(x)`: drops the first element equal to `x`. */
  function RemoveFirst<T(==,!new)>(s: seq<T>, x: T): (r: seq<T>)
    requires x in s
    ensures |r| == |s| - 1
    ensures r == s[..FirstIndex(s, x)] + s[FirstIndex(s, x) + 1..]
    ensures multiset(r) == multiset(s) - multiset{x}
  {
    MultisetRemoveAt(s, FirstIndex(s, x));
    if s[0] == x then
      assert s[..0] + s[1..] == s[1..];
      s[1..]
    else
      var k := FirstIndex(s[1..], x);
      assert FirstIndex(s, x) == k + 1;
      SpliceAfterHead(s, k);
      [s[0]] + RemoveFirst(s[1..], x)
  }

  /**
   * The loop `for obj in g: if not alive(obj): g.remove(obj)` from the list
   * iterator's position `i` on.  After a removal the iterator still moves on
   * by one, so the element that slid into the removed slot is never looked at.
   */
  function SweepFrom<T(==,!new)>(g: seq<T>, i: nat, alive: T -> bool): (r: seq<T>)
    ensures multiset(r) <= multiset(g)
    ensures forall x :: alive(x) ==> multiset(r)[x] == multiset(g)[x]
    decreases |g| - i
  {
    if i >= |g| then g
    else if alive(g[i]) then SweepFrom(g, i + 1, alive)
    else SweepFrom(RemoveFirst(g, g[i]), i + 1, alive)
  }

  function Sweep<T(==,!new)>(g: seq<T>, alive: T -> bool): seq<T> {
    SweepFrom(g, 0, alive)
  }

  /** `a` occurs in `b` in the same order, possibly with gaps (greedy matching). */
  predicate Subseq<T(==,!new)>(a: seq<T>, b: seq<T>)
    decreases |b|
  {
    if a == [] then true
    else if b == [] then false
    else if a[0] == b[0] then Subseq(a[1..], b[1..])
    else Subseq(a, b[1..])
  }

  lemma {:induction false} SubseqRefl<T(!new)>(s: seq<T>)
    ensures Subseq(s, s)
    decreases |s|
  {
    if s != [] {
      SubseqRefl(s[1..]);
    }
  }

  lemma {:induction false} SubseqDropHead<T(!new)>(a: seq<T>, b: seq<T>)
    requires a != [] && Subseq(a, b)
    ensures Subseq(a[1..], b)
    decreases |b|, 0
  {
    if a[0] == b[0] {
      SubseqSkip(a[1..], b[1..], b[0]);
      assert [b[0]] + b[1..] == b;
    } else {
      SubseqDropHead(a, b[1..]);
      SubseqSkip(a[1..], b[1..], b[0]);
      assert [b[0]] + b[1..] == b;
    }
  }

  /** Putting an element in front of `b` keeps every subsequence of `b` one. */
  lemma {:induction false} SubseqSkip<T(!new)>(a: seq<T>, b: seq<T>, y: T)
    requires Subseq(a, b)
    ensures Subseq(a, [y] + b)
    decreases |b|, 1
  {
    var yb := [y] + b;
    assert yb[1..] == b;
    if a != [] && a[0] == y {
      SubseqDropHead(a, b);
    }
  }

  lemma {:induction false} SubseqTrans<T(!new)>(a: seq<T>, b: seq<T>, c: seq<T>)
    requires Subseq(a, b) && Subseq(b, c)
    ensures Subseq(a, c)
    decreases |c|
  {
    if a != [] {
      assert b != [] && c != [];
      if b[0] == c[0] {
        if a[0] == b[0] {
          SubseqTrans(a[1..], b[1..], c[1..]);
        } else {
          SubseqTrans(a, b[1..], c[1..]);
        }
      } else {
        SubseqTrans(a, b, c[1..]);
        if a[0] == c[0] {
          SubseqDropHead(a, c[1..]);
        }
      }
    }
  }

  lemma {:induction false} RemoveFirstSubseq<T(!new)>(s: seq<T>, x: T)
    requires x in s
    ensures Subseq(RemoveFirst(s, x), s)
    decreases |s|
  {
    if s[0] == x {
      SubseqRefl(s[1..]);
      SubseqSkip(s[1..], s[1..], s[0]);
      assert [s[0]] + s[1..] == s;
    } else {
      RemoveFirstSubseq(s[1..], x);
      var r := RemoveFirst(s, x);
      assert r[0] == s[0] && r[1..] == RemoveFirst(s[1..], x);
    }
  }

  /** A sweep keeps the survivors in their original order and adds nothing. */
  lemma {:induction false} SweepFromSubseq<T(!new)>(g: seq<T>, i: nat, alive: T -> bool)
    ensures Subseq(SweepFrom(g, i, alive), g)
    decreases |g| - i
  {
    if i >= |g| {
      SubseqRefl(g);
    } else if alive(g[i]) {
      SweepFromSubseq(g, i + 1, alive);
    } else {
      var g' := RemoveFirst(g, g[i]);
      SweepFromSubseq(g', i + 1, alive);
      RemoveFirstSubseq(g, g[i]);
      SubseqTrans(SweepFrom(g', i + 1, alive), g', g);
    }
  }

  /** No object occurs twice. */
  predicate Distinct<T(==)>(s: seq<T>) {
    forall a, b :: 0 <= a < b < |s| ==> s[a] != s[b]
  }

  /** Of any two neighbouring objects, at least one is alive. */
  predicate NoTwoDeadInARow<T>(s: seq<T>, alive: T -> bool) {
    forall j :: 0 <= j < |s| - 1 ==> alive(s[j]) || alive(s[j + 1])
  }

  /**
   * From position `i` on, with every object before `i` alive, the sweep of a
   * list without duplicates and without two dead neighbours leaves only live
   * objects: each dead object is the first occurrence removed, and the object
   * that slides into its slot and is skipped is alive.
   */
  lemma {:induction false} SweepFromKeepsOnlyLive<T(!new)>(g: seq<T>, i: nat, alive: T -> bool)
    requires Distinct(g) && NoTwoDeadInARow(g, alive)
    requires forall j :: 0 <= j < i && j < |g| ==> alive(g[j])
    ensures forall j :: 0 <= j < |SweepFrom(g, i, alive)| ==> alive(SweepFrom(g, i, alive)[j])
    decreases |g| - i
  {
    if i >= |g| {
    } else if alive(g[i]) {
      SweepFromKeepsOnlyLive(g, i + 1, alive);
    } else {
      RemoveDeadKeepsShape(g, i, alive);
      SweepFromKeepsOnlyLive(RemoveFirst(g, g[i]), i + 1, alive);
    }
  }

  /** Without duplicates, the first occurrence of `g[i]` is at `i`. */
  lemma FirstIndexOfDistinct<T>(g: seq<T>, i: nat)
    requires Distinct(g) && i < |g|
    ensures FirstIndex(g, g[i]) == i
  {
  }

  /** `g` without its element at `i`, position by position. */
  lemma DropAt<T>(g: seq<T>, h: seq<T>, i: nat)
    requires i < |g| && h == g[..i] + g[i + 1..]
    ensures |h| == |g| - 1
    ensures forall j :: 0 <= j < i ==> h[j] == g[j]
    ensures forall j :: i <= j < |h| ==> h[j] == g[j + 1]
  {
  }

  /**
   * A list `h` that is `g` without its dead element at `i`, when everything
   * before `i` is alive: `h` stays free of duplicates and of dead neighbours,
   * and everything up to `i` (the object that slid into the slot included)
   * is alive.
   */
  lemma DroppedKeepsShape<T>(g: seq<T>, h: seq<T>, i: nat, alive: T -> bool)
    requires Distinct(g) && NoTwoDeadInARow(g, alive) && i < |g| && !alive(g[i])
    requires forall j :: 0 <= j < i ==> alive(g[j])
    requires |h| == |g| - 1
    requires forall j :: 0 <= j < i ==> h[j] == g[j]
    requires forall j :: i <= j < |h| ==> h[j] == g[j + 1]
    ensures Distinct(h) && NoTwoDeadInARow(h, alive)
    ensures forall j :: 0 <= j < i + 1 && j < |h| ==> alive(h[j])
  {
    forall a, b | 0 <= a < b < |h|
      ensures h[a] != h[b]
    {
      var a' := if a < i then a else a + 1;
      var b' := if b < i then b else b + 1;
      assert h[a] == g[a'] && h[b] == g[b'];
    }
    forall j | 0 <= j < |h| - 1
      ensures alive(h[j]) || alive(h[j + 1])
    {
      if j >= i {
        assert h[j] == g[j + 1] && h[j + 1] == g[j + 2];
      }
    }
  }

  /** Removing the dead object at `i` keeps what the sweep needs for the next position. */
  lemma RemoveDeadKeepsShape<T(!new)>(g: seq<T>, i: nat, alive: T -> bool)
    requires Distinct(g) && NoTwoDeadInARow(g, alive) && i < |g| && !alive(g[i])
    requires forall j :: 0 <= j < i ==> alive(g[j])
    ensures var g' := RemoveFirst(g, g[i]);
      && Distinct(g') && NoTwoDeadInARow(g', alive)
      && forall j :: 0 <= j < i + 1 && j < |g'| ==> alive(g'[j])
  {
    FirstIndexOfDistinct(g, i);
    DropAt(g, g[..i] + g[i + 1..], i);
    DroppedKeepsShape(g, g[..i] + g[i + 1..], i, alive);
  }

  /**
   * For a list without duplicates and without two dead neighbours, the sweep
   * keeps exactly the live objects: an object is in the result iff it was in
   * the list and is alive.
   */
  lemma SweepRemovesDead<T(!new)>(g: seq<T>, alive: T -> bool)
    requires Distinct(g) && NoTwoDeadInARow(g, alive)
    ensures forall x :: x in Sweep(g, alive) <==> x in g && alive(x)
  {
    SweepFromKeepsOnlyLive(g, 0, alive);
    forall x
      ensures x in Sweep(g, alive) <==> x in g && alive(x)
    {
      assert x in Sweep(g, alive) <==> multiset(Sweep(g, alive))[x] > 0;
      assert x in g <==> multiset(g)[x] > 0;
    }
  }

  /** Two dead objects in a row: the second one slides into the first one's slot, is skipped, and survives. */
  lemma DeadAfterRemovedSurvives<T(!new)>(a: T, b: T, alive: T -> bool)
    requires a != b && !alive(a) && !alive(b)
    ensures Sweep([a, b], alive) == [b]
  {
    assert RemoveFirst([a, b], a) == [b];
    assert SweepFrom([a, b], 0, alive) == SweepFrom([b], 1, alive);
  }

  /** The three generations after `collect`. */
  datatype Generations<T> = Generations(gen0: seq<T>, gen1: seq<T>, gen2: seq<T>)

  function Collected<T(==,!new)>(g: Generations<T>, alive: T -> bool): Generations<T> {
    Generations([], Sweep(g.gen0, alive), Sweep(g.gen2, alive) + Sweep(g.gen1, alive))
  }

  function All<T>(g: Generations<T>): seq<T> {
    g.gen0 + g.gen1 + g.gen2
  }

  /**
   * After `collect`: generation 0 is empty; generation 1 holds former
   * generation-0 objects in order; generation 2 holds old generation-2
   * survivors followed by old generation-1 survivors; no object is added or
   * duplicated, and no live object is lost.
   */
  lemma CollectSpec<T(!new)>(g: Generations<T>, alive: T -> bool)
    ensures Collected(g, alive).gen0 == []
    ensures Subseq(Collected(g, alive).gen1, g.gen0)
    ensures Subseq(Sweep(g.gen2, alive), g.gen2) && Subseq(Sweep(g.gen1, alive), g.gen1)
    ensures multiset(All(Collected(g, alive))) <= multiset(All(g))
    ensures forall x :: alive(x) ==> multiset(All(Collected(g, alive)))[x] == multiset(All(g))[x]
    ensures
      && Distinct(g.gen0) && NoTwoDeadInARow(g.gen0, alive)
      && Distinct(g.gen1) && NoTwoDeadInARow(g.gen1, alive)
      && Distinct(g.gen2) && NoTwoDeadInARow(g.gen2, alive)
      ==> forall x :: x in All(Collected(g, alive)) ==> alive(x)
  {
    if && Distinct(g.gen0) && NoTwoDeadInARow(g.gen0, alive)
       && Distinct(g.gen1) && NoTwoDeadInARow(g.gen1, alive)
       && Distinct(g.gen2) && NoTwoDeadInARow(g.gen2, alive)
    {
      CollectKeepsOnlyLive(g, alive);
    }
    SweepFromSubseq(g.gen0, 0, alive);
    SweepFromSubseq(g.gen1, 0, alive);
    SweepFromSubseq(g.gen2, 0, alive);
  }

  /** When no generation holds an object twice or two dead neighbours, `collect` leaves only live objects. */
  lemma CollectKeepsOnlyLive<T(!new)>(g: Generations<T>, alive: T -> bool)
    requires Distinct(g.gen0) && NoTwoDeadInARow(g.gen0, alive)
    requires Distinct(g.gen1) && NoTwoDeadInARow(g.gen1, alive)
    requires Distinct(g.gen2) && NoTwoDeadInARow(g.gen2, alive)
    ensures forall x :: x in All(Collected(g, alive)) ==> alive(x)
  {
    SweepRemovesDead(g.gen0, alive);
    SweepRemovesDead(g.gen1, alive);
    SweepRemovesDead(g.gen2, alive);
    var c := Collected(g, alive);
    assert All(c) == Sweep(g.gen0, alive) + (Sweep(g.gen2, alive) + Sweep(g.gen1, alive));
  }

  class GenerationalCollector<T(==,!new)> {
    var gen0: seq<T>
    var gen1: seq<T>
    var gen2: seq<T>

    function Contents(): Generations<T>
      reads this
    {
      Generations(gen0, gen1, gen2)
    }

    constructor ()
      ensures Contents() == Generations([], [], [])
    {
      gen0, gen1, gen2 := [], [], [];
    }

    /** `allocate`: the object joins generation 0 at the back. */
    method Allocate(obj: T)
      modifies this
      ensures Contents() == old(Contents()).(gen0 := old(gen0) + [obj])
    {
      gen0 := gen0 + [obj];
    }

    /** The `for obj in ...: ... remove(obj)` loop of `collect` on one list. */
    static method SweepList(g: seq<T>, alive: T -> bool) returns (r: seq<T>)
      ensures r == Sweep(g, alive)
    {
      r := g;
      var i := 0;
      while i < |r|
        invariant SweepFrom(r, i, alive) == Sweep(g, alive)
        decreases |r| - i
      {
        var obj := r[i];
        i := i + 1;
        if !alive(obj) {
          r := RemoveFirst(r, obj);
        }
      }
    }

    method Collect(alive: T -> bool)
      modifies this
      ensures Contents() == Collected(old(Contents()), alive)
    {
      gen2 := SweepList(gen2, alive);
      gen1 := SweepList(gen1, alive);
      gen2 := gen2 + gen1;
      gen1 := [];
      gen0 := SweepList(gen0, alive);
      gen1 := gen1 + gen0;
      gen0 := [];
    }
  }
}
