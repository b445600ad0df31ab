/**
 * Round-robin distribution, as both robot networks do it in
 * `distribute_tasks`: the task at position i goes to robot i mod n.
 */
module RoundRobin {

  /** The tasks that robot `r` of `n` receives, in the order they are handed out. */
  function Share<T>(tasks: seq<T>, n: nat, r: nat): seq<T>
    requires n > 0
    decreases |tasks|
  {
    if tasks == [] then []
    else
      var last := |tasks| - 1;
      Share(tasks[..last], n, r) + (if last % n == r then [tasks[last]] else [])
  }

  lemma MulLess(a: nat, b: nat, n: nat)
    requires n > 0
    ensures a < b <==> a * n < b * n
  {
    if a < b {
      assert b * n == a * n + (b - a) * n;
    } else {
      assert a * n == b * n + (a - b) * n;
    }
  }

  lemma MulSucc(a: nat, n: nat)
    ensures (a + 1) * n == a * n + n
  {
  }

  /** If a < b then the multiple a*n is at least n below b*n. */
  lemma MulGap(a: nat, b: nat, n: nat)
    requires a < b
    ensures a * n + n <= b * n
  {
    MulSucc(a, n);
    if n > 0 && a + 1 < b {
      MulLess(a + 1, b, n);
    }
  }

  lemma ModOfMulAdd(q: nat, n: nat, r: nat)
    requires r < n
    ensures (q * n + r) % n == r
  {
    var k := q * n + r;
    DivMod(k, n);
    var q0 := k / n;
    if q < q0 {
      MulGap(q, q0, n);
      assert false;
    } else if q0 < q {
      MulGap(q0, q, n);
      assert false;
    }
  }

  lemma DivMod(k: nat, n: nat)
    requires n > 0
    ensures k == (k / n) * n + k % n && k % n < n
  {
  }

  /**
   * Robot `r` receives exactly the tasks at positions r, r + n, r + 2n, ...:
   * the q-th task it receives is the task at position q*n + r.
   */
  lemma {:induction false} ShareAt<T>(tasks: seq<T>, n: nat, r: nat, q: nat)
    requires 0 < n && r < n
    ensures q < |Share(tasks, n, r)| <==> q * n + r < |tasks|
    ensures q < |Share(tasks, n, r)| ==> Share(tasks, n, r)[q] == tasks[q * n + r]
    decreases |tasks|
  {
    if tasks != [] {
      var last := |tasks| - 1;
      var prefix := tasks[..last];
      var s := Share(prefix, n, r);
      ShareAt(prefix, n, r, q);
      if last % n == r {
        var q0 := last / n;
        DivMod(last, n);
        ShareAt(prefix, n, r, q0);
        MulLess(q0, q0, n);
        if q0 > 0 {
          ShareAt(prefix, n, r, q0 - 1);
          MulLess(q0 - 1, q0, n);
        }
        assert |s| == q0;
        MulLess(q, q0, n);
        MulLess(q0, q, n);
        if q < q0 {
          assert s[q] == prefix[q * n + r];
        }
      } else if q * n + r == last {
        ModOfMulAdd(q, n, r);
      }
    }
  }
}
