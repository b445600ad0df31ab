/**
 * Term-based leader election with heartbeats, crashes, recoveries and
 * partitions, as in ExamenFinal-C8286/Pregunta4/Ejercicio4.py.
 *
 * The per-node rules are pure functions on `NodeRec`; the cluster-level
 * steps are functions on the node list; the class `Cluster` performs the
 * same steps in place and each of its methods is proved equal to the
 * function that specifies it.  `Run` applies any interleaving of steps,
 * which is what the asyncio scheduler of the source may produce.
 */
module Election {
  import opened Wrappers

  datatype Role = Follower | Candidate | Leader | Crashed

  /** One node.  `peers` is `None` until `partition` or `heal` first assigns it. */
  datatype NodeRec = NodeRec(
    id: nat,
    term: nat,
    votedFor: Option<nat>,
    role: Role,
    votesReceived: nat,
    peers: Option<seq<nat>>)

  /** The two calls one node makes on another. */
  datatype Message =
    | VoteRequest(candidate: nat, term: nat)
    | Heartbeat(leader: nat, term: nat)

  function InitialNode(id: nat): NodeRec {
    NodeRec(id, 0, None, Follower, 0, None)
  }

  function InitialCluster(n: nat): seq<NodeRec> {
    seq(n, j requires 0 <= j < n => InitialNode(j))
  }

  /** The network builds its list as node 0, node 1, ...: node `j` sits at index `j`. */
  ghost predicate WellFormed(nodes: seq<NodeRec>) {
    forall j :: 0 <= j < |nodes| ==> nodes[j].id == j
  }

  // ---------------------------------------------------------------------
  // Rules of a single node
  // ---------------------------------------------------------------------

  /** The begin phase of `start_election`, before any vote request is sent. */
  function Begun(n: NodeRec): NodeRec {
    n.(role := Candidate, term := n.term + 1, votedFor := Some(n.id), votesReceived := 1)
  }

  /**
   * `request_vote` and `receive_heartbeat` on the receiving node.  Neither
   * looks at the role, so a crashed node answers like any other, and a
   * granted vote is counted in the RECEIVER's own `votesReceived`.
   */
  function Receive(n: NodeRec, m: Message): (r: NodeRec)
    ensures r.id == n.id && r.peers == n.peers
    ensures r.term >= n.term
    ensures r.term == n.term ==> r.votedFor == n.votedFor
  {
    match m
    case VoteRequest(c, t) =>
      if t > n.term
      then n.(term := t, votedFor := Some(c), role := Follower, votesReceived := n.votesReceived + 1)
      else n
    case Heartbeat(_, t) =>
      if t >= n.term then n.(term := t, role := Follower) else n
  }

  /** The value `request_vote` returns. */
  predicate Grants(n: NodeRec, term: nat) {
    term > n.term
  }

  /** The tally after the election timeout: `votes_received > len(nodes) / 2`, in integers. */
  function Tallied(n: NodeRec, clusterSize: nat): NodeRec {
    if 2 * n.votesReceived > clusterSize then n.(role := Leader) else n.(role := Follower)
  }

  function CrashedNode(n: NodeRec): NodeRec {
    n.(role := Crashed)
  }

  function RecoveredNode(n: NodeRec): NodeRec {
    n.(role := Follower, term := n.term + 1)
  }

  // ---------------------------------------------------------------------
  // Steps of the whole cluster
  // ---------------------------------------------------------------------

  /** Node `from` calls every node whose id differs from its own, in list order. */
  function SendToAll(nodes: seq<NodeRec>, from: nat, m: Message): (r: seq<NodeRec>)
    requires from < |nodes|
    ensures |r| == |nodes|
  {
    seq(|nodes|, j requires 0 <= j < |nodes| =>
      if nodes[j].id == nodes[from].id then nodes[j] else Receive(nodes[j], m))
  }

  /** `start_election` up to its timeout: begin, then one vote request per other node. */
  function ElectionBegin(nodes: seq<NodeRec>, i: nat): (r: seq<NodeRec>)
    requires i < |nodes|
    ensures |r| == |nodes|
  {
    var c := Begun(nodes[i]);
    SendToAll(nodes[i := c], i, VoteRequest(c.id, c.term))
  }

  /** `start_election` after its timeout. */
  function ElectionTally(nodes: seq<NodeRec>, i: nat): (r: seq<NodeRec>)
    requires i < |nodes|
    ensures |r| == |nodes| && forall j :: 0 <= j < |r| && j != i ==> r[j] == nodes[j]
    ensures r[i].role == Leader || r[i].role == Follower
    ensures r[i].(role := nodes[i].role) == nodes[i]
  {
    nodes[i := Tallied(nodes[i], |nodes|)]
  }

  /** A whole `start_election` with nothing interleaved. */
  function Election(nodes: seq<NodeRec>, i: nat): (r: seq<NodeRec>)
    requires i < |nodes|
    ensures |r| == |nodes|
  {
    ElectionTally(ElectionBegin(nodes, i), i)
  }

  /** One pass of the `send_heartbeats` loop: it runs only while the node is leader. */
  function HeartbeatRound(nodes: seq<NodeRec>, i: nat): (r: seq<NodeRec>)
    requires i < |nodes|
    ensures |r| == |nodes|
  {
    if nodes[i].role == Leader then SendToAll(nodes, i, Heartbeat(nodes[i].id, nodes[i].term)) else nodes
  }

  /** One pass of `run_simulation`, with the node drawn at random given as `i`. */
  function SimulationStep(nodes: seq<NodeRec>, i: nat): (r: seq<NodeRec>)
    requires i < |nodes|
    ensures |r| == |nodes|
  {
    if nodes[i].role != Crashed then Election(nodes, i) else nodes
  }

  function Ids(nodes: seq<NodeRec>): seq<nat> {
    seq(|nodes|, j requires 0 <= j < |nodes| => nodes[j].id)
  }

  /** The list comprehension `[n for n in nodes if keep(n.node_id)]`, by id. */
  function Select(ids: seq<nat>, keep: nat -> bool): seq<nat> {
    if ids == [] then [] else (if keep(ids[0]) then [ids[0]] else []) + Select(ids[1..], keep)
  }

  /** `partition`: a node listed in `p1` gets the `p1` nodes as peers, itself included; else likewise for `p2`. */
  function Partitioned(nodes: seq<NodeRec>, p1: seq<int>, p2: seq<int>): (r: seq<NodeRec>)
    ensures |r| == |nodes|
  {
    seq(|nodes|, j requires 0 <= j < |nodes| =>
      if nodes[j].id in p1 then nodes[j].(peers := Some(Select(Ids(nodes), x => x in p1)))
      else if nodes[j].id in p2 then nodes[j].(peers := Some(Select(Ids(nodes), x => x in p2)))
      else nodes[j])
  }

  /** `heal`: every node gets every other node as peers. */
  function Healed(nodes: seq<NodeRec>): (r: seq<NodeRec>)
    ensures |r| == |nodes|
  {
    seq(|nodes|, j requires 0 <= j < |nodes| =>
      nodes[j].(peers := Some(Select(Ids(nodes), x => x != nodes[j].id))))
  }

  /** Every step the source can take, at the granularity of its suspension points. */
  datatype Op =
    | StartElection(i: nat)
    | Tally(i: nat)
    | Deliver(j: nat, m: Message)
    | SendHeartbeats(i: nat)
    | Crash(i: nat)
    | Recover(i: nat)
    | Partition(p1: seq<int>, p2: seq<int>)
    | Heal

  predicate Fits(n: nat, op: Op) {
    match op
    case StartElection(i) => i < n
    case Tally(i) => i < n
    case Deliver(j, _) => j < n
    case SendHeartbeats(i) => i < n
    case Crash(i) => i < n
    case Recover(i) => i < n
    case Partition(_, _) => true
    case Heal => true
  }

  function Apply(nodes: seq<NodeRec>, op: Op): (r: seq<NodeRec>)
    requires Fits(|nodes|, op)
    ensures |r| == |nodes|
  {
    match op
    case StartElection(i) => ElectionBegin(nodes, i)
    case Tally(i) => ElectionTally(nodes, i)
    case Deliver(j, m) => nodes[j := Receive(nodes[j], m)]
    case SendHeartbeats(i) => HeartbeatRound(nodes, i)
    case Crash(i) => nodes[i := CrashedNode(nodes[i])]
    case Recover(i) => nodes[i := RecoveredNode(nodes[i])]
    case Partition(p1, p2) => Partitioned(nodes, p1, p2)
    case Heal => Healed(nodes)
  }

  predicate AllFit(n: nat, ops: seq<Op>) {
    forall k :: 0 <= k < |ops| ==> Fits(n, ops[k])
  }

  function Run(nodes: seq<NodeRec>, ops: seq<Op>): (r: seq<NodeRec>)
    requires AllFit(|nodes|, ops)
    ensures |r| == |nodes|
    decreases |ops|
  {
    if ops == [] then nodes else Run(Apply(nodes, ops[0]), ops[1..])
  }

  // ---------------------------------------------------------------------
  // Properties of a single node
  // ---------------------------------------------------------------------

  /** `request_vote` grants iff the offered term is strictly larger; a refusal changes nothing. */
  lemma VoteRequestRule(n: NodeRec, c: nat, t: nat)
    ensures var r := Receive(n, VoteRequest(c, t));
      if t > n.term
      then r.term == t && r.votedFor == Some(c) && r.role == Follower
        && r.votesReceived == n.votesReceived + 1 && r.id == n.id && r.peers == n.peers
      else r == n
  {
  }

  /** Once a node has granted a vote for term `t`, any other request for `t` is refused. */
  lemma OneVotePerTerm(n: NodeRec, c1: nat, c2: nat, t: nat)
    requires Grants(n, t)
    ensures var once := Receive(n, VoteRequest(c1, t));
      !Grants(once, t) && Receive(once, VoteRequest(c2, t)) == once && once.votedFor == Some(c1)
  {
  }

  /** A heartbeat whose term is at least the node's own forces `Follower`, a leader included; a stale one changes nothing. */
  lemma HeartbeatRule(n: NodeRec, l: nat, t: nat)
    ensures var r := Receive(n, Heartbeat(l, t));
      (t >= n.term ==> r.role == Follower && r.term == t && r.votedFor == n.votedFor
                       && r.votesReceived == n.votesReceived)
      && (t < n.term ==> r == n)
  {
  }

  /** Neither handler checks for `crashed`: a crashed node answers and is made a follower. */
  lemma CrashedNodeStillAnswers(n: NodeRec, m: Message)
    requires n.role == Crashed
    ensures Receive(n, m).role == (if m.term > n.term || (m.Heartbeat? && m.term == n.term) then Follower else Crashed)
  {
  }

  /** The tally makes the node leader iff it holds a quorum, floor(n/2) + 1 votes. */
  lemma TallyQuorum(n: NodeRec, size: nat)
    ensures Tallied(n, size).role == (if n.votesReceived >= size / 2 + 1 then Leader else Follower)
    ensures Tallied(n, size).term == n.term && Tallied(n, size).votedFor == n.votedFor
  {
  }

  // ---------------------------------------------------------------------
  // Properties of the cluster steps
  // ---------------------------------------------------------------------

  /** Begin phase: the candidate holds term+1, votes for itself, counts one vote, and nobody else touches it. */
  lemma ElectionBeginCandidate(nodes: seq<NodeRec>, i: nat)
    requires i < |nodes|
    ensures var c := ElectionBegin(nodes, i)[i];
      c.role == Candidate && c.term == nodes[i].term + 1 && c.votedFor == Some(nodes[i].id)
      && c.votesReceived == 1
  {
  }

  /** Begin phase: every other node receives the request, partition or not, and grants iff its term was lower. */
  lemma ElectionBeginPeers(nodes: seq<NodeRec>, i: nat, j: nat)
    requires WellFormed(nodes) && i < |nodes| && j < |nodes| && j != i
    ensures ElectionBegin(nodes, i)[j] == Receive(nodes[j], VoteRequest(i, nodes[i].term + 1))
    ensures ElectionBegin(nodes, i)[j].votedFor == (if nodes[j].term <= nodes[i].term then Some(i) else nodes[j].votedFor)
  {
  }

  /**
   * Because `start_election` discards the value `request_vote` returns, a
   * candidate running alone ends the election with one vote, and so wins
   * only in a cluster of one node.
   */
  lemma SequentialCandidateWinsOnlyAlone(nodes: seq<NodeRec>, i: nat)
    requires i < |nodes|
    ensures Election(nodes, i)[i].votesReceived == 1
    ensures Election(nodes, i)[i].role == Leader <==> |nodes| == 1
  {
    ElectionBeginCandidate(nodes, i);
  }

  /**
   * The simulation loop never starts an election on a crashed node: the
   * cluster is left as it was.  Any other node runs one, and ends it with its
   * term one higher and its vote cast for itself.
   */
  lemma CrashedNodeIsSkipped(nodes: seq<NodeRec>, i: nat)
    requires i < |nodes|
    ensures nodes[i].role == Crashed ==> SimulationStep(nodes, i) == nodes
    ensures nodes[i].role != Crashed ==>
      && SimulationStep(nodes, i)[i].term == nodes[i].term + 1
      && SimulationStep(nodes, i)[i].votedFor == Some(nodes[i].id)
  {
    ElectionBeginCandidate(nodes, i);
  }

  /** `crash` then `recover`: the node is a follower with its pre-crash term plus one. */
  lemma CrashRecover(nodes: seq<NodeRec>, i: nat)
    requires i < |nodes|
    ensures var r := Apply(Apply(nodes, Crash(i)), Recover(i));
      r[i].role == Follower && r[i].term == nodes[i].term + 1 && r[i].votedFor == nodes[i].votedFor
      && (forall j :: 0 <= j < |nodes| && j != i ==> r[j] == nodes[j])
  {
  }

  /** No step lowers a term, and a step that keeps a node's term keeps its vote. */
  lemma StepKeepsTermsAndVotes(nodes: seq<NodeRec>, op: Op, j: nat)
    requires Fits(|nodes|, op) && j < |nodes|
    ensures Apply(nodes, op)[j].term >= nodes[j].term
    ensures Apply(nodes, op)[j].term == nodes[j].term ==> Apply(nodes, op)[j].votedFor == nodes[j].votedFor
  {
    match op
    case StartElection(i) =>
      var c := Begun(nodes[i]);
      var mid := nodes[i := c];
      assert ElectionBegin(nodes, i)[j] == (if mid[j].id == mid[i].id then mid[j] else Receive(mid[j], VoteRequest(c.id, c.term)));
    case _ =>
  }

  /**
   * Over any interleaving of steps, a node's term never decreases, and while
   * it stays the same the node's vote stays the same: at most one vote per term.
   */
  lemma {:induction false} RunKeepsTermsAndVotes(nodes: seq<NodeRec>, ops: seq<Op>, j: nat)
    requires AllFit(|nodes|, ops) && j < |nodes|
    ensures Run(nodes, ops)[j].term >= nodes[j].term
    ensures Run(nodes, ops)[j].term == nodes[j].term ==> Run(nodes, ops)[j].votedFor == nodes[j].votedFor
    decreases |ops|
  {
    if ops != [] {
      var mid := Apply(nodes, ops[0]);
      StepKeepsTermsAndVotes(nodes, ops[0], j);
      assert AllFit(|mid|, ops[1..]) by {
        forall k | 0 <= k < |ops[1..]| ensures Fits(|mid|, ops[1..][k]) {
          assert ops[1..][k] == ops[k + 1];
        }
      }
      RunKeepsTermsAndVotes(mid, ops[1..], j);
    }
  }

  /** Every member of `Select(ids, keep)` is an id that `keep` accepts, and conversely. */
  lemma {:induction false} SelectMembers(ids: seq<nat>, keep: nat -> bool, x: nat)
    ensures x in Select(ids, keep) <==> x in ids && keep(x)
    decreases |ids|
  {
    if ids != [] {
      SelectMembers(ids[1..], keep, x);
      assert x in ids <==> x == ids[0] || x in ids[1..];
    }
  }

  lemma IdsOfWellFormed(nodes: seq<NodeRec>, x: nat)
    requires WellFormed(nodes)
    ensures x in Ids(nodes) <==> x < |nodes|
  {
    if x < |nodes| {
      assert Ids(nodes)[x] == x;
    }
  }

  /**
   * `partition(p1, p2)`: a node listed in `p1` has exactly the `p1` nodes as
   * peers, itself included; a node listed only in `p2` exactly the `p2`
   * nodes; an unlisted node is untouched.  No other field changes.
   */
  lemma PartitionPeers(nodes: seq<NodeRec>, p1: seq<int>, p2: seq<int>, j: nat, x: nat)
    requires WellFormed(nodes) && j < |nodes|
    ensures var r := Partitioned(nodes, p1, p2)[j];
      r.(peers := nodes[j].peers) == nodes[j]
      && (j in p1 ==> r.peers.Some? && (x in r.peers.value <==> x < |nodes| && x in p1))
      && (j !in p1 && j in p2 ==> r.peers.Some? && (x in r.peers.value <==> x < |nodes| && x in p2))
      && (j !in p1 && j !in p2 ==> r == nodes[j])
  {
    SelectMembers(Ids(nodes), x => x in p1, x);
    SelectMembers(Ids(nodes), x => x in p2, x);
    IdsOfWellFormed(nodes, x);
  }

  /** `heal`: every node has exactly all the other nodes as peers; itself excluded. */
  lemma HealPeers(nodes: seq<NodeRec>, j: nat, x: nat)
    requires WellFormed(nodes) && j < |nodes|
    ensures var r := Healed(nodes)[j];
      r.(peers := nodes[j].peers) == nodes[j]
      && r.peers.Some? && (x in r.peers.value <==> x < |nodes| && x != j)
  {
    SelectMembers(Ids(nodes), x => x != nodes[j].id, x);
    IdsOfWellFormed(nodes, x);
  }

  // ---------------------------------------------------------------------
  // Peers are written but never read
  // ---------------------------------------------------------------------

  function Erase(n: NodeRec): NodeRec {
    n.(peers := None)
  }

  /** The protocol state of the cluster: everything but the peer lists. */
  function EraseAll(nodes: seq<NodeRec>): (r: seq<NodeRec>)
    ensures |r| == |nodes|
  {
    seq(|nodes|, j requires 0 <= j < |nodes| => Erase(nodes[j]))
  }

  lemma EraseAllAt(a: seq<NodeRec>, b: seq<NodeRec>, j: nat)
    requires |a| == |b| && EraseAll(a) == EraseAll(b) && j < |a|
    ensures Erase(a[j]) == Erase(b[j])
  {
    assert EraseAll(a)[j] == EraseAll(b)[j];
  }

  lemma SendToAllIgnoresPeers(a: seq<NodeRec>, b: seq<NodeRec>, from: nat, m: Message)
    requires |a| == |b| && EraseAll(a) == EraseAll(b) && from < |a|
    ensures EraseAll(SendToAll(a, from, m)) == EraseAll(SendToAll(b, from, m))
  {
    EraseAllAt(a, b, from);
    forall j | 0 <= j < |a| ensures EraseAll(SendToAll(a, from, m))[j] == EraseAll(SendToAll(b, from, m))[j] {
      EraseAllAt(a, b, j);
    }
  }

  lemma UpdateIgnoresPeers(a: seq<NodeRec>, b: seq<NodeRec>, i: nat, x: NodeRec, y: NodeRec)
    requires |a| == |b| && EraseAll(a) == EraseAll(b) && i < |a| && Erase(x) == Erase(y)
    ensures EraseAll(a[i := x]) == EraseAll(b[i := y])
  {
    var a', b' := a[i := x], b[i := y];
    forall j | 0 <= j < |a| ensures EraseAll(a')[j] == EraseAll(b')[j] {
      EraseAllAt(a, b, j);
    }
  }

  /** No step's effect on terms, votes and roles depends on the peer lists. */
  lemma StepIgnoresPeers(a: seq<NodeRec>, b: seq<NodeRec>, op: Op)
    requires |a| == |b| && EraseAll(a) == EraseAll(b) && Fits(|a|, op)
    ensures EraseAll(Apply(a, op)) == EraseAll(Apply(b, op))
  {
    match op
    case StartElection(i) =>
      EraseAllAt(a, b, i);
      UpdateIgnoresPeers(a, b, i, Begun(a[i]), Begun(b[i]));
      SendToAllIgnoresPeers(a[i := Begun(a[i])], b[i := Begun(b[i])], i, VoteRequest(a[i].id, a[i].term + 1));
    case Tally(i) =>
      EraseAllAt(a, b, i);
      UpdateIgnoresPeers(a, b, i, Tallied(a[i], |a|), Tallied(b[i], |b|));
    case Deliver(j, m) =>
      EraseAllAt(a, b, j);
      UpdateIgnoresPeers(a, b, j, Receive(a[j], m), Receive(b[j], m));
    case SendHeartbeats(i) =>
      EraseAllAt(a, b, i);
      SendToAllIgnoresPeers(a, b, i, Heartbeat(a[i].id, a[i].term));
    case Crash(i) =>
      EraseAllAt(a, b, i);
      UpdateIgnoresPeers(a, b, i, CrashedNode(a[i]), CrashedNode(b[i]));
    case Recover(i) =>
      EraseAllAt(a, b, i);
      UpdateIgnoresPeers(a, b, i, RecoveredNode(a[i]), RecoveredNode(b[i]));
    case Partition(p1, p2) =>
      forall j | 0 <= j < |a| ensures EraseAll(Apply(a, op))[j] == EraseAll(Apply(b, op))[j] {
        EraseAllAt(a, b, j);
      }
    case Heal =>
      forall j | 0 <= j < |a| ensures EraseAll(Apply(a, op))[j] == EraseAll(Apply(b, op))[j] {
        EraseAllAt(a, b, j);
      }
  }

  /** `partition` and `heal` change nothing but peer lists. */
  lemma PeerStepsChangeOnlyPeers(nodes: seq<NodeRec>, op: Op)
    requires op.Partition? || op.Heal?
    ensures EraseAll(Apply(nodes, op)) == EraseAll(nodes)
  {
  }

  /** Two clusters that differ only in peer lists stay so under any run. */
  lemma {:induction false} RunIgnoresPeers(a: seq<NodeRec>, b: seq<NodeRec>, ops: seq<Op>)
    requires |a| == |b| && EraseAll(a) == EraseAll(b) && AllFit(|a|, ops)
    ensures EraseAll(Run(a, ops)) == EraseAll(Run(b, ops))
    decreases |ops|
  {
    if ops != [] {
      StepIgnoresPeers(a, b, ops[0]);
      var a', b' := Apply(a, ops[0]), Apply(b, ops[0]);
      assert AllFit(|a'|, ops[1..]) by {
        forall k | 0 <= k < |ops[1..]| ensures Fits(|a'|, ops[1..][k]) {
          assert ops[1..][k] == ops[k + 1];
        }
      }
      RunIgnoresPeers(a', b', ops[1..]);
    }
  }

  /**
   * A partition is invisible to the protocol: inserting `partition(p1, p2)`
   * anywhere in a run leaves every term, vote, role and tally as without it.
   */
  lemma PartitionIsInvisible(nodes: seq<NodeRec>, before: seq<Op>, p1: seq<int>, p2: seq<int>, after: seq<Op>)
    requires AllFit(|nodes|, before) && AllFit(|nodes|, after)
    ensures AllFit(|nodes|, before + [Partition(p1, p2)] + after)
    ensures AllFit(|nodes|, before + after)
    ensures EraseAll(Run(nodes, before + [Partition(p1, p2)] + after)) == EraseAll(Run(nodes, before + after))
  {
    var rest := [Partition(p1, p2)] + after;
    assert AllFit(|nodes|, rest) by {
      forall k | 0 <= k < |rest| ensures Fits(|nodes|, rest[k]) {
        if k > 0 { assert rest[k] == after[k - 1]; }
      }
    }
    RunConcat(nodes, before, rest);
    RunConcat(nodes, before, after);
    assert before + [Partition(p1, p2)] + after == before + rest;
    var mid := Run(nodes, before);
    assert Run(mid, rest) == Run(Apply(mid, Partition(p1, p2)), after) by {
      assert rest[0] == Partition(p1, p2);
      assert rest[1..] == after;
    }
    PeerStepsChangeOnlyPeers(mid, Partition(p1, p2));
    RunIgnoresPeers(Apply(mid, Partition(p1, p2)), mid, after);
  }

  lemma {:induction false} RunConcat(nodes: seq<NodeRec>, xs: seq<Op>, ys: seq<Op>)
    requires AllFit(|nodes|, xs) && AllFit(|nodes|, ys)
    ensures AllFit(|nodes|, xs + ys)
    ensures Run(nodes, xs + ys) == Run(Run(nodes, xs), ys)
    decreases |xs|
  {
    assert AllFit(|nodes|, xs + ys) by {
      forall k | 0 <= k < |xs + ys| ensures Fits(|nodes|, (xs + ys)[k]) {
        if k < |xs| { assert (xs + ys)[k] == xs[k]; } else { assert (xs + ys)[k] == ys[k - |xs|]; }
      }
    }
    if xs == [] {
      assert xs + ys == ys;
    } else {
      var mid := Apply(nodes, xs[0]);
      assert AllFit(|mid|, xs[1..]) by {
        forall k | 0 <= k < |xs[1..]| ensures Fits(|mid|, xs[1..][k]) {
          assert xs[1..][k] == xs[k + 1];
        }
      }
      RunConcat(mid, xs[1..], ys);
      assert (xs + ys)[0] == xs[0];
      assert (xs + ys)[1..] == xs[1..] + ys;
    }
  }

  // ---------------------------------------------------------------------
  // Scenarios
  // ---------------------------------------------------------------------

  /**
   * Five fresh nodes, split {0, 1} | {2, 3, 4}, node 0 runs an election:
   * all four others grant (the partition does not stop delivery), yet node 0
   * ends as follower with one vote.
   */
  lemma PartitionedFiveNodeElection()
    ensures var r := Election(Partitioned(InitialCluster(5), [0, 1], [2, 3, 4]), 0);
      r[0].role == Follower && r[0].term == 1 && r[0].votesReceived == 1
      && forall j :: 1 <= j < 5 ==> r[j].term == 1 && r[j].votedFor == Some(0) && r[j].role == Follower
  {
    var p := Partitioned(InitialCluster(5), [0, 1], [2, 3, 4]);
    assert forall j :: 0 <= j < 5 ==> p[j].id == j && p[j].term == 0;
    SequentialCandidateWinsOnlyAlone(p, 0);
  }

  // ---------------------------------------------------------------------
  // The network object, updated in place
  // ---------------------------------------------------------------------

  class Cluster {
    var nodes: seq<NodeRec>
    var latency: map<(int, int), real>

    ghost predicate Valid()
      reads this
    {
      WellFormed(nodes)
    }

    constructor (numNodes: nat)
      ensures Valid() && nodes == InitialCluster(numNodes) && latency == map[]
    {
      nodes := InitialCluster(numNodes);
      latency := map[];
    }

    method RequestVote(j: nat, candidate: nat, term: nat) returns (granted: bool)
      requires Valid() && j < |nodes|
      modifies this`nodes
      ensures Valid()
      ensures granted == Grants(old(nodes[j]), term)
      ensures nodes == old(nodes)[j := Receive(old(nodes[j]), VoteRequest(candidate, term))]
    {
      granted := term > nodes[j].term;
      if granted {
        var n := nodes[j];
        nodes := nodes[j := n.(term := term, votedFor := Some(candidate), role := Follower,
                               votesReceived := n.votesReceived + 1)];
      }
    }

    method ReceiveHeartbeat(j: nat, leader: nat, term: nat)
      requires Valid() && j < |nodes|
      modifies this`nodes
      ensures Valid()
      ensures nodes == old(nodes)[j := Receive(old(nodes[j]), Heartbeat(leader, term))]
    {
      if term >= nodes[j].term {
        nodes := nodes[j := nodes[j].(term := term, role := Follower)];
      }
    }

    /** The part of `start_election` before the timeout. */
    method StartElectionBegin(i: nat)
      requires Valid() && i < |nodes|
      modifies this`nodes
      ensures Valid()
      ensures nodes == ElectionBegin(old(nodes), i)
    {
      var c := Begun(nodes[i]);
      nodes := nodes[i := c];
      ghost var begun := nodes;
      var j := 0;
      while j < |nodes|
        invariant Valid() && |nodes| == |begun| && 0 <= j <= |nodes|
        invariant nodes[i] == c
        invariant forall k :: 0 <= k < |nodes| ==>
          nodes[k] == (if k < j && begun[k].id != c.id then Receive(begun[k], VoteRequest(c.id, c.term)) else begun[k])
      {
        if nodes[j].id != nodes[i].id {
          var _ := RequestVote(j, nodes[i].id, nodes[i].term);
        }
        j := j + 1;
      }
    }

    /** The part of `start_election` after the timeout; `heartbeatsStarted` stands for `create_task(send_heartbeats())`. */
    method StartElectionTally(i: nat) returns (heartbeatsStarted: bool)
      requires Valid() && i < |nodes|
      modifies this`nodes
      ensures Valid()
      ensures nodes == ElectionTally(old(nodes), i)
      ensures heartbeatsStarted <==> nodes[i].role == Leader
    {
      if 2 * nodes[i].votesReceived > |nodes| {
        nodes := nodes[i := nodes[i].(role := Leader)];
        heartbeatsStarted := true;
      } else {
        nodes := nodes[i := nodes[i].(role := Follower)];
        heartbeatsStarted := false;
      }
    }

    method StartElection(i: nat) returns (heartbeatsStarted: bool)
      requires Valid() && i < |nodes|
      modifies this`nodes
      ensures Valid()
      ensures nodes == Election(old(nodes), i)
      ensures heartbeatsStarted <==> nodes[i].role == Leader
    {
      StartElectionBegin(i);
      heartbeatsStarted := StartElectionTally(i);
    }

    /** One iteration of the `send_heartbeats` loop. */
    method SendHeartbeats(i: nat)
      requires Valid() && i < |nodes|
      modifies this`nodes
      ensures Valid()
      ensures nodes == HeartbeatRound(old(nodes), i)
    {
      if nodes[i].role == Leader {
        ghost var start := nodes;
        var leader := nodes[i];
        var j := 0;
        while j < |nodes|
          invariant Valid() && |nodes| == |start| && 0 <= j <= |nodes|
          invariant nodes[i] == leader
          invariant forall k :: 0 <= k < |nodes| ==>
            nodes[k] == (if k < j && start[k].id != leader.id then Receive(start[k], Heartbeat(leader.id, leader.term)) else start[k])
        {
          if nodes[j].id != nodes[i].id {
            ReceiveHeartbeat(j, nodes[i].id, nodes[i].term);
          }
          j := j + 1;
        }
      }
    }

    method Crash(i: nat)
      requires Valid() && i < |nodes|
      modifies this`nodes
      ensures Valid()
      ensures nodes == old(nodes)[i := CrashedNode(old(nodes[i]))]
    {
      nodes := nodes[i := nodes[i].(role := Crashed)];
    }

    method Recover(i: nat)
      requires Valid() && i < |nodes|
      modifies this`nodes
      ensures Valid()
      ensures nodes == old(nodes)[i := RecoveredNode(old(nodes[i]))]
    {
      nodes := nodes[i := nodes[i].(role := Follower, term := nodes[i].term + 1)];
    }

    method Partition(p1: seq<int>, p2: seq<int>)
      requires Valid()
      modifies this`nodes
      ensures Valid()
      ensures nodes == Partitioned(old(nodes), p1, p2)
    {
      ghost var start := nodes;
      var ids := Ids(nodes);
      var j := 0;
      while j < |nodes|
        invariant Valid() && |nodes| == |start| && 0 <= j <= |nodes|
        invariant forall k :: 0 <= k < |nodes| ==>
          nodes[k] == (if k < j then Partitioned(start, p1, p2)[k] else start[k])
      {
        if nodes[j].id in p1 {
          nodes := nodes[j := nodes[j].(peers := Some(Select(ids, x => x in p1)))];
        } else if nodes[j].id in p2 {
          nodes := nodes[j := nodes[j].(peers := Some(Select(ids, x => x in p2)))];
        }
        j := j + 1;
      }
    }

    method Heal()
      requires Valid()
      modifies this`nodes
      ensures Valid()
      ensures nodes == Healed(old(nodes))
    {
      ghost var start := nodes;
      var ids := Ids(nodes);
      var j := 0;
      while j < |nodes|
        invariant Valid() && |nodes| == |start| && 0 <= j <= |nodes|
        invariant forall k :: 0 <= k < |nodes| ==>
          nodes[k] == (if k < j then Healed(start)[k] else start[k])
      {
        var self := nodes[j].id;
        nodes := nodes[j := nodes[j].(peers := Some(Select(ids, x => x != self)))];
        j := j + 1;
      }
    }

    method SimulateLatency(a: int, b: int, delay: real)
      modifies this`latency
      ensures latency == old(latency)[(a, b) := delay]
    {
      latency := latency[(a, b) := delay];
    }

    /** One pass of `run_simulation`; the random choice of node is the parameter `i`. */
    method RunSimulationStep(i: nat) returns (heartbeatsStarted: bool)
      requires Valid() && i < |nodes|
      modifies this`nodes
      ensures Valid()
      ensures nodes == SimulationStep(old(nodes), i)
      ensures heartbeatsStarted ==> old(nodes[i].role) != Crashed
    {
      heartbeatsStarted := false;
      if nodes[i].role != Crashed {
        heartbeatsStarted := StartElection(i);
      }
    }
  }
}
