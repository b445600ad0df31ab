/**
 * The per-node handlers of `RicartAgrawalaMutex` in
 * ExamenFinal-C8286-extension/Pregunta3/Ejercicio3.py: a Lamport clock, a
 * queue of `(timestamp, node id)` requests kept sorted on receipt, and a
 * reply counter.
 *
 * A mutex reaches other mutexes through the list `nodes` it was given, and
 * every call on another node is returned as the list of ids it goes to.
 * The network of that file builds all mutexes over one list that is still
 * empty at that time, so in that program every such list is empty.
 */
module RicartAgrawala {

  /** The tuple `(timestamp, node_id)`. */
  datatype Request = Request(timestamp: int, nodeId: int)

  /** Python's ordering of the tuples: by timestamp, then by node id. */
  predicate Le(a: Request, b: Request) {
    a.timestamp < b.timestamp || (a.timestamp == b.timestamp && a.nodeId <= b.nodeId)
  }

  predicate Sorted(s: seq<Request>) {
    forall i, j :: 0 <= i < j < |s| ==> Le(s[i], s[j])
  }

  function Insert(x: Request, s: seq<Request>): (r: seq<Request>)
    requires Sorted(s)
    ensures Sorted(r) && multiset(r) == multiset(s) + multiset{x}
    decreases |s|
  {
    if s == [] then [x]
    else if Le(x, s[0]) then [x] + s
    else
      assert s == [s[0]] + s[1..];
      var t := Insert(x, s[1..]);
      assert forall k :: 0 <= k < |t| ==> Le(s[0], t[k]) by {
        forall k | 0 <= k < |t|
          ensures Le(s[0], t[k])
        {
          assert t[k] in multiset(t);
          if t[k] != x {
            assert t[k] in multiset(s[1..]);
          }
        }
      }
      [s[0]] + t
  }

  /** `list.sort()` on the request tuples. */
  function SortRequests(s: seq<Request>): (r: seq<Request>)
    ensures Sorted(r) && multiset(r) == multiset(s)
    decreases |s|
  {
    if s == [] then []
    else
      var last := |s| - 1;
      assert s == s[..last] + [s[last]];
      Insert(s[last], SortRequests(s[..last]))
  }

  lemma SortedHeadIsLeast(s: seq<Request>, x: Request)
    requires Sorted(s) && x in s
    ensures Le(s[0], x)
  {
  }

  /**
   * A sorted arrangement of a multiset of requests is unique, so
   * `SortRequests` is the result of any correct sort, Python's included.
   */
  lemma {:induction false} SortedIsUnique(a: seq<Request>, b: seq<Request>)
    requires Sorted(a) && Sorted(b) && multiset(a) == multiset(b)
    ensures a == b
    decreases |a|
  {
    if a != [] {
      assert a[0] in multiset(b);
      assert b != [];
      assert b[0] in multiset(a);
      SortedHeadIsLeast(a, b[0]);
      SortedHeadIsLeast(b, a[0]);
      assert a[0] == b[0];
      assert a == [a[0]] + a[1..] && b == [b[0]] + b[1..];
      assert multiset(a[1..]) == multiset(a) - multiset{a[0]};
      assert multiset(b[1..]) == multiset(b) - multiset{b[0]};
      SortedIsUnique(a[1..], b[1..]);
    } else {
      assert |multiset(b)| == 0;
    }
  }

  /** `max(clock, timestamp) + 1`: strictly above both. */
  function NextClock(clock: int, timestamp: int): (r: int)
    ensures r > clock && r > timestamp
    ensures r == clock + 1 || r == timestamp + 1
  {
    if clock < timestamp then timestamp + 1 else clock + 1
  }

  /** The ids of the listed nodes a request goes to: every one except the sender's own id. */
  function Others(nodes: seq<int>, self: int): (r: seq<int>)
    ensures forall x :: x in r <==> x in nodes && x != self
    decreases |nodes|
  {
    if nodes == [] then []
    else
      var last := |nodes| - 1;
      Others(nodes[..last], self) + (if nodes[last] != self then [nodes[last]] else [])
  }

  /** The listed nodes `send_reply(target)` calls: each one whose id is `target`. */
  function Matching(nodes: seq<int>, target: int): (r: seq<int>)
    ensures forall x :: x in r ==> x == target
    ensures |r| == multiset(nodes)[target]
    decreases |nodes|
  {
    if nodes == [] then []
    else
      var last := |nodes| - 1;
      assert nodes == nodes[..last] + [nodes[last]];
      Matching(nodes[..last], target) + (if nodes[last] == target then [nodes[last]] else [])
  }

  /** The list comprehension of `leave_critical_section`: drop the entries carrying `self`. */
  function Without(q: seq<Request>, self: int): (r: seq<Request>)
    ensures forall x :: x in r ==> x.nodeId != self && x in q
    decreases |q|
  {
    if q == [] then []
    else
      var last := |q| - 1;
      Without(q[..last], self) + (if q[last].nodeId != self then [q[last]] else [])
  }

  /** Exactly the entries carrying `self` go; every other entry is kept as often as it was queued. */
  lemma {:induction false} WithoutCounts(q: seq<Request>, self: int, x: Request)
    ensures multiset(Without(q, self))[x] == if x.nodeId == self then 0 else multiset(q)[x]
    decreases |q|
  {
    if q != [] {
      var last := |q| - 1;
      WithoutCounts(q[..last], self, x);
      assert q == q[..last] + [q[last]];
    }
  }

  /** Removing one node's entries commutes with concatenation, so the kept entries keep their order. */
  lemma {:induction false} WithoutAppend(a: seq<Request>, b: seq<Request>, self: int)
    ensures Without(a + b, self) == Without(a, self) + Without(b, self)
    decreases |b|
  {
    if b == [] {
      assert a + b == a;
    } else {
      var last := |b| - 1;
      var tail := if b[last].nodeId != self then [b[last]] else [];
      WithoutAppend(a, b[..last], self);
      assert (a + b)[..|a + b| - 1] == a + b[..last];
      assert (a + b)[|a + b| - 1] == b[last];
      assert Without(a + b, self) == Without(a + b[..last], self) + tail;
      assert Without(b, self) == Without(b[..last], self) + tail;
    }
  }

  /** A sorted queue stays sorted after `leave_critical_section` filters it. */
  lemma {:induction false} WithoutKeepsSorted(q: seq<Request>, self: int)
    requires Sorted(q)
    ensures Sorted(Without(q, self))
    decreases |q|
  {
    if q != [] {
      var last := |q| - 1;
      WithoutKeepsSorted(q[..last], self);
      var w := Without(q[..last], self);
      if q[last].nodeId != self {
        forall i | 0 <= i < |w|
          ensures Le(w[i], q[last])
        {
          assert w[i] in q[..last];
        }
      }
    }
  }

  /** The replies `leave_critical_section` sends, one `send_reply` per queued request, in queue order. */
  function ReplyTargets(nodes: seq<int>, q: seq<Request>): seq<int>
    decreases |q|
  {
    if q == [] then []
    else
      var last := |q| - 1;
      ReplyTargets(nodes, q[..last]) + Matching(nodes, q[last].nodeId)
  }

  /** Every reply goes to a node with a queued request. */
  lemma {:induction false} ReplyTargetsQueued(nodes: seq<int>, q: seq<Request>, x: int)
    requires x in ReplyTargets(nodes, q)
    ensures exists i :: 0 <= i < |q| && q[i].nodeId == x
    decreases |q|
  {
    var last := |q| - 1;
    if x in ReplyTargets(nodes, q[..last]) {
      ReplyTargetsQueued(nodes, q[..last], x);
      var i :| 0 <= i < last && q[..last][i].nodeId == x;
      assert q[i].nodeId == x;
    } else {
      assert q[last].nodeId == x;
    }
  }

  class Mutex {
    const nodeId: int
    const numNodes: int
    /** The ids of the mutexes in the list this one was given. */
    const nodes: seq<int>
    var clock: int
    var requestQueue: seq<Request>
    var repliesReceived: nat

    constructor (id: int, n: int, others: seq<int>)
      ensures nodeId == id && numNodes == n && nodes == others
      ensures clock == 0 && requestQueue == [] && repliesReceived == 0
    {
      nodeId, numNodes, nodes := id, n, others;
      clock, requestQueue, repliesReceived := 0, [], 0;
    }

    /** `request_access`: tick, queue the own request, and send it to every other listed node. */
    method RequestAccess() returns (requestsTo: seq<int>)
      modifies this`clock, this`requestQueue
      ensures clock == old(clock) + 1
      ensures requestQueue == old(requestQueue) + [Request(clock, nodeId)]
      ensures requestsTo == Others(nodes, nodeId)
    {
      clock := clock + 1;
      requestQueue := requestQueue + [Request(clock, nodeId)];
      requestsTo := [];
      for i := 0 to |nodes|
        invariant requestsTo == Others(nodes[..i], nodeId)
      {
        assert nodes[..i + 1][..i] == nodes[..i];
        if nodes[i] != nodeId {
          requestsTo := requestsTo + [nodes[i]];
        }
      }
      assert nodes[..|nodes|] == nodes;
    }

    /** `send_reply`: the listed nodes whose id is `target`; it changes nothing here. */
    method SendReply(target: int) returns (repliesTo: seq<int>)
      ensures repliesTo == Matching(nodes, target)
    {
      repliesTo := [];
      for i := 0 to |nodes|
        invariant repliesTo == Matching(nodes[..i], target)
      {
        assert nodes[..i + 1][..i] == nodes[..i];
        if nodes[i] == target {
          repliesTo := repliesTo + [nodes[i]];
        }
      }
      assert nodes[..|nodes|] == nodes;
    }

    /** `receive_request`: move the clock past the timestamp, queue and sort, reply to the sender. */
    method ReceiveRequest(timestamp: int, sender: int) returns (repliesTo: seq<int>)
      modifies this`clock, this`requestQueue
      ensures clock == NextClock(old(clock), timestamp)
      ensures requestQueue == SortRequests(old(requestQueue) + [Request(timestamp, sender)])
      ensures repliesTo == Matching(nodes, sender)
    {
      clock := NextClock(clock, timestamp);
      requestQueue := SortRequests(requestQueue + [Request(timestamp, sender)]);
      repliesTo := SendReply(sender);
    }

    /** `leave_critical_section`: reset the count, drop the own requests, reply to every queued one. */
    method LeaveCriticalSection() returns (repliesTo: seq<int>)
      modifies this`requestQueue, this`repliesReceived
      ensures repliesReceived == 0
      ensures requestQueue == Without(old(requestQueue), nodeId)
      ensures repliesTo == ReplyTargets(nodes, requestQueue)
    {
      var kept := Without(requestQueue, nodeId);
      repliesTo := [];
      for i := 0 to |kept|
        invariant repliesTo == ReplyTargets(nodes, kept[..i])
      {
        var sent := SendReply(kept[i].nodeId);
        assert kept[..i + 1][..i] == kept[..i] && kept[..i + 1][i] == kept[i];
        assert ReplyTargets(nodes, kept[..i + 1]) == ReplyTargets(nodes, kept[..i]) + sent;
        repliesTo := repliesTo + sent;
      }
      assert kept[..|kept|] == kept;
      repliesReceived := 0;
      requestQueue := kept;
    }

    /**
     * `receive_reply`: count the reply; the count reaching `num_nodes - 1`
     * enters the critical section, which at once leaves it again.
     */
    method ReceiveReply(sender: int) returns (entered: bool, repliesTo: seq<int>)
      modifies this`requestQueue, this`repliesReceived
      ensures entered <==> old(repliesReceived) + 1 == numNodes - 1
      ensures entered ==>
        && repliesReceived == 0 && requestQueue == Without(old(requestQueue), nodeId)
        && repliesTo == ReplyTargets(nodes, requestQueue)
      ensures !entered ==>
        repliesReceived == old(repliesReceived) + 1 && requestQueue == old(requestQueue) && repliesTo == []
    {
      repliesReceived := repliesReceived + 1;
      entered := repliesReceived == numNodes - 1;
      if entered {
        repliesTo := LeaveCriticalSection();
      } else {
        repliesTo := [];
      }
    }
  }

  /**
   * The mutexes of the network are built over an empty list: requests and
   * replies reach nobody, so no reply is ever counted and the requesting
   * node keeps its own request queued.
   */
  method EmptyNetworkScenario() returns (requestsTo: seq<int>, repliesTo: seq<int>, queue: seq<Request>)
    ensures requestsTo == [] && repliesTo == []
    ensures queue == [Request(1, 0)]
  {
    var m := new Mutex(0, 3, []);
    requestsTo := m.RequestAccess();
    repliesTo := m.SendReply(1);
    queue := m.requestQueue;
  }
}
