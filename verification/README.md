# Distributed-systems exercises, modelled in Dafny

This project models a collection of small teaching exercises on distributed
algorithms and memory management. Each exercise is a Python class whose
methods update its fields step by step. Each becomes a Dafny `class` holding
the fields those methods read or write; the fields no modelled method uses are listed under
"Left out". Its methods are proved against pure specification
functions, and lemmas state what the exercise promises about those
functions.

The exercises are:

- **Leader election with heartbeats** (`ExamenFinal-C8286/Pregunta4/Ejercicio4.py`, module `Election`).
  Nodes carry a term, a vote, a role, a vote counter and a peer list. The model covers the election in two
  phases (before and after the timeout), vote requests, heartbeat rounds, crash, recover, partition, heal,
  latency bookkeeping and the crashed-node filter of the simulation loop. The `Op` datatype and `Run`
  describe any interleaving the scheduler could produce. The model follows the code where it departs
  from the idealised protocol:
  - a granted vote is counted by the voter, not the candidate;
  - the candidate ignores the value `request_vote` returns, so in a cluster of two or more nodes it never
    wins;
  - vote requests and heartbeats go to every node whatever the partition, because `peers` is written but
    never read;
  - a crashed node still answers.
- **Vector clocks** (`VectorClocks`). This covers increment and the pointwise-maximum `update`.
- **Generational garbage collection** (`GenerationalGc`). Its `collect` removes from a list while
  iterating over it. The model keeps the index-based walk, which skips the element after each removal.
- **Chandy–Lamport marker handling for one process** (`ChandyLamport`). Outgoing markers are returned as
  a list of neighbour ids.
- **Robots and their network**, in two versions:
  - `Robots`, for `ExamenFinal-C8286/Pregunta2/Ejercicio2.py`. The snapshot is a copy.
  - `RobotNetwork`, for the extension file. The snapshot shares the live clock.

  Both hand out tasks round-robin, as defined in `RoundRobin`.
- **Cheney copying collector** (`Cheney`). It has two arrays of slots and a bump pointer.
- **Ricart–Agrawala mutual exclusion for one node** (`RicartAgrawala`). It has a Lamport clock, a sorted
  request queue and a reply counter.
- **Dijkstra–Scholten termination detection for one process** (`DijkstraScholten`).
- **Notebook cells and their event loop** (`ExamenFinal-C8286/Pregunta1/Ejercicio1.py`, module
  `Notebooks`).

In `ExamenFinal-C8286/Pregunta2/Ejercicio2.py` (module `Robots`), `Robot.request_token` and
`Robot.manage_memory` are stubs whose body is `pass`. They are methods without a `modifies` clause, so
they change nothing. In the extension file, `Robot.request_token` calls into `RaymondMutex` (left out),
and `Robot.manage_memory` is the filter modelled by `RobotNetwork.Robot.ManageMemory`.

The intended design of the election differs from the code in two ways:
- delivery should respect partitions;
- a candidate should count the votes it is granted.

The model follows the code. So in the five-node scenario with partition `{0, 1} | {2, 3, 4}`, node 0
is granted four votes but ends as a follower holding one vote (`Election.PartitionedFiveNodeElection`).

## Model

| member | source | states |
|---|---|---|
| Election.Receive | ExamenFinal-C8286/Pregunta4/Ejercicio4.py:38-59 | handling a vote request or a heartbeat keeps the node's id and peers, never lowers its term, and keeps its vote when the term stays the same |
| Election.ElectionTally | ExamenFinal-C8286/Pregunta4/Ejercicio4.py:30-36 | the tally changes only the candidate's role, to leader or follower; every other node and every other field is kept |
| Election.SendToAll | ExamenFinal-C8286/Pregunta4/Ejercicio4.py:26-28 | a call from one node to every node with a different id keeps the cluster size |
| Election.ElectionBegin | ExamenFinal-C8286/Pregunta4/Ejercicio4.py:20-28 | the begin phase of an election keeps the cluster size |
| Election.Election | ExamenFinal-C8286/Pregunta4/Ejercicio4.py:19-36 | a whole election with nothing interleaved keeps the cluster size |
| Election.HeartbeatRound | ExamenFinal-C8286/Pregunta4/Ejercicio4.py:48-53 | one heartbeat round, sent only while the node is leader, keeps the cluster size |
| Election.SimulationStep | ExamenFinal-C8286/Pregunta4/Ejercicio4.py:86-91 | one pass of the simulation loop keeps the cluster size |
| Election.Partitioned | ExamenFinal-C8286/Pregunta4/Ejercicio4.py:75-80 | partition keeps the cluster size |
| Election.Healed | ExamenFinal-C8286/Pregunta4/Ejercicio4.py:82-84 | heal keeps the cluster size |
| Election.Apply | ExamenFinal-C8286/Pregunta4/Ejercicio4.py:19-84 | every step keeps the cluster size |
| Election.Run | ExamenFinal-C8286/Pregunta4/Ejercicio4.py:19-91 | any interleaving of steps keeps the cluster size |
| Election.VoteRequestRule | ExamenFinal-C8286/Pregunta4/Ejercicio4.py:38-46 | a vote is granted iff the offered term is strictly greater than the voter's term; on a grant the voter adopts the term, records the candidate, becomes follower and increments its own vote counter; on a refusal nothing changes |
| Election.OneVotePerTerm | ExamenFinal-C8286/Pregunta4/Ejercicio4.py:39 | after a grant for term t, a second request for t is refused and leaves the node unchanged |
| Election.HeartbeatRule | ExamenFinal-C8286/Pregunta4/Ejercicio4.py:55-59 | a heartbeat whose term is at least the node's own makes the node a follower with that term, a leader included; a stale heartbeat changes nothing |
| Election.CrashedNodeStillAnswers | ExamenFinal-C8286/Pregunta4/Ejercicio4.py:38-59 | a crashed node handles vote requests and heartbeats like any other node, and leaves the crashed role when it accepts one |
| Election.TallyQuorum | ExamenFinal-C8286/Pregunta4/Ejercicio4.py:31-36 | the tally makes the node leader iff its votes reach floor(n/2)+1, and follower otherwise; term and vote are unchanged |
| Election.ElectionBeginCandidate | ExamenFinal-C8286/Pregunta4/Ejercicio4.py:20-23 | after the begin phase the node is candidate with term+1, a vote for itself and one vote counted |
| Election.ElectionBeginPeers | ExamenFinal-C8286/Pregunta4/Ejercicio4.py:26-28 | in the begin phase every other node receives the request, and it votes for the candidate iff its term was lower |
| Election.SequentialCandidateWinsOnlyAlone | ExamenFinal-C8286/Pregunta4/Ejercicio4.py:26-36 | since the grant is discarded, an election run alone leaves the candidate with one vote, and it becomes leader iff the cluster has exactly one node |
| Election.CrashedNodeIsSkipped | ExamenFinal-C8286/Pregunta4/Ejercicio4.py:89-90 | on a crashed node the simulation loop leaves the cluster unchanged; on any other node it runs an election, after which the node's term is one higher and its vote is for itself |
| Election.CrashRecover | ExamenFinal-C8286/Pregunta4/Ejercicio4.py:61-68 | crash followed by recover leaves a follower with its term plus one and its vote kept; no other node changes |
| Election.StepKeepsTermsAndVotes | ExamenFinal-C8286/Pregunta4/Ejercicio4.py:19-68 | no step lowers a term, and a step that keeps a node's term keeps its vote |
| Election.RunKeepsTermsAndVotes | ExamenFinal-C8286/Pregunta4/Ejercicio4.py:19-84 | over any interleaving a node's term never decreases, and its vote changes only with its term, so there is at most one vote per term |
| Election.SelectMembers | ExamenFinal-C8286/Pregunta4/Ejercicio4.py:78 | the peer-list comprehension holds exactly the ids it keeps |
| Election.PartitionPeers | ExamenFinal-C8286/Pregunta4/Ejercicio4.py:75-80 | after partition, a node in p1 has exactly the p1 nodes as peers, itself included; a node only in p2 has exactly the p2 nodes; an unlisted node is untouched; no other field changes |
| Election.HealPeers | ExamenFinal-C8286/Pregunta4/Ejercicio4.py:82-84 | after heal, every node has exactly all the other nodes as peers, and no other field changes |
| Election.StepIgnoresPeers | ExamenFinal-C8286/Pregunta4/Ejercicio4.py:19-84 | two clusters that differ only in peer lists still differ only in peer lists after any step |
| Election.PeerStepsChangeOnlyPeers | ExamenFinal-C8286/Pregunta4/Ejercicio4.py:75-84 | partition and heal change nothing but peer lists |
| Election.RunIgnoresPeers | ExamenFinal-C8286/Pregunta4/Ejercicio4.py:19-91 | clusters that differ only in peer lists stay so over any run |
| Election.PartitionIsInvisible | ExamenFinal-C8286/Pregunta4/Ejercicio4.py:75-80 | inserting a partition anywhere in a run leaves every term, vote, role and counter as without it |
| Election.RunConcat | ExamenFinal-C8286/Pregunta4/Ejercicio4.py:86-91 | running two step sequences one after the other is running their concatenation |
| Election.PartitionedFiveNodeElection | ExamenFinal-C8286/Pregunta4/Ejercicio4.py:97-106 | five fresh nodes split {0,1} and {2,3,4}: when node 0 runs an election, all four others vote for it in term 1, and it ends as follower with one vote |
| Election.Cluster.constructor | ExamenFinal-C8286/Pregunta4/Ejercicio4.py:71-73 | n follower nodes with ids 0..n-1 and term 0, and an empty latency map |
| Election.Cluster.RequestVote | ExamenFinal-C8286/Pregunta4/Ejercicio4.py:38-46 | returns whether the vote is granted, and updates only the voter, as the vote rule says |
| Election.Cluster.ReceiveHeartbeat | ExamenFinal-C8286/Pregunta4/Ejercicio4.py:55-59 | updates only the receiving node, as the heartbeat rule says |
| Election.Cluster.StartElectionBegin | ExamenFinal-C8286/Pregunta4/Ejercicio4.py:20-28 | its loop over all nodes leaves the cluster in the begin-phase state |
| Election.Cluster.StartElectionTally | ExamenFinal-C8286/Pregunta4/Ejercicio4.py:30-36 | leaves the tallied state, and reports that heartbeats start iff the node became leader |
| Election.Cluster.StartElection | ExamenFinal-C8286/Pregunta4/Ejercicio4.py:19-36 | the whole election, with heartbeats started iff the node won |
| Election.Cluster.SendHeartbeats | ExamenFinal-C8286/Pregunta4/Ejercicio4.py:48-53 | one heartbeat round, sent only by a leader, to every other node |
| Election.Cluster.Crash | ExamenFinal-C8286/Pregunta4/Ejercicio4.py:61-63 | the node becomes crashed and nothing else changes |
| Election.Cluster.Recover | ExamenFinal-C8286/Pregunta4/Ejercicio4.py:65-68 | the node becomes follower with term+1 |
| Election.Cluster.Partition | ExamenFinal-C8286/Pregunta4/Ejercicio4.py:75-80 | its loop leaves the partitioned peer lists |
| Election.Cluster.Heal | ExamenFinal-C8286/Pregunta4/Ejercicio4.py:82-84 | its loop leaves the healed peer lists |
| Election.Cluster.SimulateLatency | ExamenFinal-C8286/Pregunta4/Ejercicio4.py:93-94 | records the delay for the ordered pair of node ids and keeps every other entry |
| Election.Cluster.RunSimulationStep | ExamenFinal-C8286/Pregunta4/Ejercicio4.py:86-91 | one pass of the simulation loop on the chosen node; heartbeats start only if the node was not crashed |
| VectorClocks.Merge | ExamenFinal-C8286-extension/Pregunta2/Ejercicio2.py:72-74 | the merged clock has the own keys, dominates both clocks at every own key, and takes each entry from one of them |
| VectorClocks.MergeIsLeast | ExamenFinal-C8286-extension/Pregunta2/Ejercicio2.py:72-74 | the merge is below every clock that dominates both inputs on the own keys |
| VectorClocks.MergeIdempotent | ExamenFinal-C8286-extension/Pregunta2/Ejercicio2.py:72-74 | repeating update with the same other clock changes nothing |
| VectorClocks.MergeCommutes | ExamenFinal-C8286-extension/Pregunta2/Ejercicio2.py:72-74 | on clocks with the same ids the merge does not depend on argument order |
| VectorClocks.MergeAssociates | ExamenFinal-C8286-extension/Pregunta2/Ejercicio2.py:72-74 | merging in two clocks one after the other is merging in their merge |
| VectorClocks.VectorClock.constructor | ExamenFinal-C8286-extension/Pregunta2/Ejercicio2.py:66-67 | every given id starts at 0 and no other id is present |
| VectorClocks.VectorClock.Increment | ExamenFinal-C8286-extension/Pregunta2/Ejercicio2.py:69-70 | the named entry goes up by exactly one; the key set and every other entry are unchanged; a missing id is a precondition (KeyError) |
| VectorClocks.VectorClock.Update | ExamenFinal-C8286-extension/Pregunta2/Ejercicio2.py:72-74 | its loop in key order leaves the merge of the old clock with the other clock; the other clock must hold every own key |
| GenerationalGc.FirstIndex | ExamenFinal-C8286-extension/Pregunta2/Ejercicio2.py:91 | the position list.remove searches for: an occurrence of the object with none before it |
| GenerationalGc.RemoveFirst | ExamenFinal-C8286-extension/Pregunta2/Ejercicio2.py:91 | list.remove drops the first occurrence of the object and keeps every other element in place, so the list is one shorter and one copy of the object is gone |
| GenerationalGc.SweepFromKeepsOnlyLive | ExamenFinal-C8286-extension/Pregunta2/Ejercicio2.py:89-91 | on a list without duplicates and without two dead objects in a row, the walk from a point before which all are live leaves only live objects |
| GenerationalGc.SweepRemovesDead | ExamenFinal-C8286-extension/Pregunta2/Ejercicio2.py:89-91 | on such a list the sweep holds exactly the live objects of the list: every dead object is removed |
| GenerationalGc.SweepFrom | ExamenFinal-C8286-extension/Pregunta2/Ejercicio2.py:89-91 | the remove-while-iterating loop adds nothing, and keeps every copy of every live object |
| GenerationalGc.SweepFromSubseq | ExamenFinal-C8286-extension/Pregunta2/Ejercicio2.py:89-91 | the survivors keep their original order |
| GenerationalGc.DeadAfterRemovedSurvives | ExamenFinal-C8286-extension/Pregunta2/Ejercicio2.py:89-91 | of two dead objects in a row, the second slides into the removed slot, is skipped, and survives |
| GenerationalGc.CollectSpec | ExamenFinal-C8286-extension/Pregunta2/Ejercicio2.py:87-94 | after collect: generation 0 is empty; generation 1 is an order-preserving subsequence of the old generation 0; the sweeps of generations 2 and 1, which make up the new generation 2, each keep their order; across all generations nothing is added or duplicated and every copy of a live object is kept; when no generation has duplicates or two dead objects in a row, every collected object is live |
| GenerationalGc.CollectKeepsOnlyLive | ExamenFinal-C8286-extension/Pregunta2/Ejercicio2.py:87-94 | under the same conditions, no dead object survives collect in any generation |
| GenerationalGc.GenerationalCollector.constructor | ExamenFinal-C8286-extension/Pregunta2/Ejercicio2.py:81-82 | three empty generations |
| GenerationalGc.GenerationalCollector.Allocate | ExamenFinal-C8286-extension/Pregunta2/Ejercicio2.py:84-85 | the object joins generation 0 at the back |
| GenerationalGc.GenerationalCollector.SweepList | ExamenFinal-C8286-extension/Pregunta2/Ejercicio2.py:89-91 | its loop computes the sweep, skipped elements included |
| GenerationalGc.GenerationalCollector.Collect | ExamenFinal-C8286-extension/Pregunta2/Ejercicio2.py:87-94 | sweeps generations 2, 1 and 0 in that order and promotes the survivors, leaving the collected generations |
| ChandyLamport.Received | ExamenFinal-C8286-extension/Pregunta2/Ejercicio2.py:133-151 | the handler keeps the state, the neighbours and the set of senders that have a marker flag; it sends markers only on a marker, and then to all neighbours; it processes only basic messages, and then changes nothing |
| ChandyLamport.FirstMarkerRule | ExamenFinal-C8286-extension/Pregunta2/Ejercicio2.py:136-144 | the first marker from a sender sets its flag to true; with no snapshot held, the process records its state and sends markers to all neighbours; otherwise it appends the marker to that sender's channel |
| ChandyLamport.RepeatedMarkerRule | ExamenFinal-C8286-extension/Pregunta2/Ejercicio2.py:145-146 | a repeated marker only appends its content to the sender's channel |
| ChandyLamport.BasicMessageRule | ExamenFinal-C8286-extension/Pregunta2/Ejercicio2.py:147-151 | a basic message is appended to its sender's channel iff a snapshot is held, and processed iff none is held |
| ChandyLamport.NoneSnapshotIsRetaken | ExamenFinal-C8286-extension/Pregunta2/Ejercicio2.py:105-142 | while the state is still None, the snapshot taken on a first marker is None again, so a first marker from another sender triggers a second snapshot and a second round of markers |
| ChandyLamport.SomeSnapshotIsTakenOnce | ExamenFinal-C8286-extension/Pregunta2/Ejercicio2.py:139-144 | with a real state, the second sender's first marker is recorded and sends no markers |
| ChandyLamport.ResetMarkersSpec | ExamenFinal-C8286-extension/Pregunta2/Ejercicio2.py:114-117 | set_neighbors sets exactly the listed neighbours' flags to false and keeps every other entry |
| ChandyLamport.StepGrows | ExamenFinal-C8286-extension/Pregunta2/Ejercicio2.py:119-157 | no handler resets a true marker flag, adds or drops a flag, shortens a channel or changes the neighbours; only initiate_snapshot replaces a snapshot that is held |
| ChandyLamport.RunGrows | ExamenFinal-C8286-extension/Pregunta2/Ejercicio2.py:119-157 | over any run, true flags stay true and channels only grow at the end; without initiate_snapshot, a snapshot once held never changes |
| ChandyLamport.Process.constructor | ExamenFinal-C8286-extension/Pregunta2/Ejercicio2.py:105-112 | state None, no channels, neighbours, flags or snapshot |
| ChandyLamport.Process.SetNeighbors | ExamenFinal-C8286-extension/Pregunta2/Ejercicio2.py:114-117 | its loop stores the neighbours and resets their flags |
| ChandyLamport.Process.InitiateSnapshot | ExamenFinal-C8286-extension/Pregunta2/Ejercicio2.py:119-127 | records the state as the snapshot and returns every neighbour as a marker recipient |
| ChandyLamport.Process.ReceiveMessage | ExamenFinal-C8286-extension/Pregunta2/Ejercicio2.py:133-151 | performs the handler's five cases, returning the marker recipients and whether the message was processed |
| ChandyLamport.Process.UpdateState | ExamenFinal-C8286-extension/Pregunta2/Ejercicio2.py:156-157 | the state becomes the given value, None included, and nothing else changes |
| RobotNetwork.Robot.constructor | ExamenFinal-C8286-extension/Pregunta2/Ejercicio2.py:161-167 | no tasks, no snapshot, empty memory, and a new clock over the robot's own id at 0 |
| RobotNetwork.Robot.AddTask | ExamenFinal-C8286-extension/Pregunta2/Ejercicio2.py:175-177 | the task goes to the back and the robot's clock goes up by exactly one |
| RobotNetwork.Robot.TakeSnapshot | ExamenFinal-C8286-extension/Pregunta2/Ejercicio2.py:191-192 | the snapshot holds a copy of the tasks and the robot's own clock object, not a copy |
| RobotNetwork.Robot.ManageMemory | ExamenFinal-C8286-extension/Pregunta2/Ejercicio2.py:195-200 | its filter loop keeps every item, since none is garbage |
| RobotNetwork.LiveClockScenario | ExamenFinal-C8286-extension/Pregunta2/Ejercicio2.py:175-192 | a task added after a snapshot is missing from the snapshot's tasks but counted in the snapshot's clock |
| RobotNetwork.Network.constructor | ExamenFinal-C8286-extension/Pregunta2/Ejercicio2.py:249-250 | robots 0..n-1, each with its own clock at 0 |
| RobotNetwork.Network.Give | ExamenFinal-C8286-extension/Pregunta2/Ejercicio2.py:260 | one iteration of the loop: one robot gets the task, every other robot is left alone, and no robot's snapshot or memory changes |
| RobotNetwork.Network.DistributeTasks | ExamenFinal-C8286-extension/Pregunta2/Ejercicio2.py:258-260 | robot k gets the tasks at positions k, k+n, k+2n, ... at the back of its deque, in input order, and its clock rises by their number; no snapshot or memory changes |
| Robots.BumpedEntries | ExamenFinal-C8286/Pregunta2/Ejercicio2.py:15-21 | bumping a defaultdict entry adds exactly that amount to it and leaves every other entry |
| Robots.BumpedTwice | ExamenFinal-C8286/Pregunta2/Ejercicio2.py:21 | two bumps of one entry are one bump by their sum |
| Robots.Robot.constructor | ExamenFinal-C8286/Pregunta2/Ejercicio2.py:11-15 | no tasks, no snapshot, an empty clock |
| Robots.Robot.AddTask | ExamenFinal-C8286/Pregunta2/Ejercicio2.py:19-21 | the task goes to the back and only the robot's own clock entry goes up, by one |
| Robots.Robot.ExecuteStep | ExamenFinal-C8286/Pregunta2/Ejercicio2.py:26-27 | one pass takes the front task, if there is one, and changes nothing else |
| Robots.Robot.RequestToken | ExamenFinal-C8286/Pregunta2/Ejercicio2.py:32-34 | the stub changes no task, snapshot or clock |
| Robots.Robot.ManageMemory | ExamenFinal-C8286/Pregunta2/Ejercicio2.py:40-42 | the stub changes no task, snapshot or clock |
| Robots.Robot.TakeSnapshot | ExamenFinal-C8286/Pregunta2/Ejercicio2.py:36-37 | the snapshot holds copies of the tasks and the clock |
| Robots.FifoScenario | ExamenFinal-C8286/Pregunta2/Ejercicio2.py:19-27 | tasks come out in the order they went in |
| Robots.SnapshotScenario | ExamenFinal-C8286/Pregunta2/Ejercicio2.py:19-37 | tasks and clock ticks after a snapshot do not show in it |
| Robots.Network.constructor | ExamenFinal-C8286/Pregunta2/Ejercicio2.py:45-46 | robots 0..n-1, all empty |
| Robots.Network.DistributeTasks | ExamenFinal-C8286/Pregunta2/Ejercicio2.py:49-51 | robot k gets the tasks at positions k, k+n, k+2n, ... at the back of its deque, in input order, and its own clock entry rises by their number |
| Robots.TaskGoesToRobotModN | ExamenFinal-C8286/Pregunta2/Ejercicio2.py:50-51 | task i is the (i div n)-th task that robot i mod n receives |
| RoundRobin.ShareAt | ExamenFinal-C8286/Pregunta2/Ejercicio2.py:50-51 | the q-th task robot r receives is the task at position q*n + r, and it receives one iff that position exists |
| Cheney.Live | ExamenFinal-C8286-extension/Pregunta3/Ejercicio3.py:135-136 | a space holds at most as many objects as it has slots |
| Cheney.Compacted | ExamenFinal-C8286-extension/Pregunta3/Ejercicio3.py:132-138 | collecting keeps the number of slots |
| Cheney.LiveOfCompacted | ExamenFinal-C8286-extension/Pregunta3/Ejercicio3.py:132-138 | collecting keeps exactly the same objects, in address order |
| Cheney.CompactedIsPacked | ExamenFinal-C8286-extension/Pregunta3/Ejercicio3.py:132-138 | after collect the objects sit at addresses 0..k-1 and every other slot is empty |
| Cheney.PackedIsCompacted | ExamenFinal-C8286-extension/Pregunta3/Ejercicio3.py:132-138 | collecting a packed space gives the same space back, so nothing is reclaimed |
| Cheney.CompactedIdempotent | ExamenFinal-C8286-extension/Pregunta3/Ejercicio3.py:132-138 | collecting twice is collecting once |
| Cheney.CheneyCollector.constructor | ExamenFinal-C8286-extension/Pregunta3/Ejercicio3.py:118-122 | two empty spaces of the given size, and the pointer at 0 |
| Cheney.CheneyCollector.Copy | ExamenFinal-C8286-extension/Pregunta3/Ejercicio3.py:140-144 | the object goes to the free slot of the to-space, whose address is returned, and the pointer advances by one |
| Cheney.CheneyCollector.Collect | ExamenFinal-C8286-extension/Pregunta3/Ejercicio3.py:132-138 | its copy loop leaves the compacted old from-space in a fresh from-space, with the pointer at the object count and the old from-space as to-space |
| Cheney.CheneyCollector.Allocate | ExamenFinal-C8286-extension/Pregunta3/Ejercicio3.py:124-130 | with a free slot, stores the object at the pointer, returns that address and advances the pointer by one; with none, collects first (which frees nothing) and fails with the index out of range |
| Cheney.FullHeapScenario | ExamenFinal-C8286-extension/Pregunta3/Ejercicio3.py:124-138 | a one-slot heap takes one object at address 0 and refuses the next |
| RicartAgrawala.Insert | ExamenFinal-C8286-extension/Pregunta3/Ejercicio3.py:70 | inserting into a sorted queue gives a sorted queue with one more copy of the request |
| RicartAgrawala.SortRequests | ExamenFinal-C8286-extension/Pregunta3/Ejercicio3.py:70 | the sort gives a sorted permutation, ordered by (timestamp, node id) |
| RicartAgrawala.SortedIsUnique | ExamenFinal-C8286-extension/Pregunta3/Ejercicio3.py:70 | two sorted permutations of one queue are equal, so the model's sort agrees with any correct sort |
| RicartAgrawala.NextClock | ExamenFinal-C8286-extension/Pregunta3/Ejercicio3.py:68 | the new clock is strictly above both the own clock and the timestamp, and is one above the larger |
| RicartAgrawala.Others | ExamenFinal-C8286-extension/Pregunta3/Ejercicio3.py:63-65 | a request goes to exactly the listed nodes other than the requester |
| RicartAgrawala.Matching | ExamenFinal-C8286-extension/Pregunta3/Ejercicio3.py:73-76 | a reply goes only to the target, once for each listed node with that id |
| RicartAgrawala.Without | ExamenFinal-C8286-extension/Pregunta3/Ejercicio3.py:90 | the filtered queue holds only queued entries, none of them the node's own |
| RicartAgrawala.WithoutCounts | ExamenFinal-C8286-extension/Pregunta3/Ejercicio3.py:90 | exactly the own entries go, and every other entry is kept as often as it was queued |
| RicartAgrawala.WithoutAppend | ExamenFinal-C8286-extension/Pregunta3/Ejercicio3.py:90 | the filter commutes with concatenation, so the kept entries keep their order |
| RicartAgrawala.WithoutKeepsSorted | ExamenFinal-C8286-extension/Pregunta3/Ejercicio3.py:90 | a sorted queue stays sorted after the filter |
| RicartAgrawala.ReplyTargetsQueued | ExamenFinal-C8286-extension/Pregunta3/Ejercicio3.py:91-92 | every reply sent on leaving goes to a node with a queued request |
| RicartAgrawala.Mutex.constructor | ExamenFinal-C8286-extension/Pregunta3/Ejercicio3.py:52-58 | clock 0, empty queue, no replies |
| RicartAgrawala.Mutex.RequestAccess | ExamenFinal-C8286-extension/Pregunta3/Ejercicio3.py:60-65 | the clock goes up by one, the own request joins the queue, and its loop sends the request to every other listed node |
| RicartAgrawala.Mutex.SendReply | ExamenFinal-C8286-extension/Pregunta3/Ejercicio3.py:73-76 | its loop returns the listed nodes with the target id |
| RicartAgrawala.Mutex.ReceiveRequest | ExamenFinal-C8286-extension/Pregunta3/Ejercicio3.py:67-71 | the clock moves past both itself and the timestamp, the queue is the old queue plus the request, sorted, and the sender gets a reply |
| RicartAgrawala.Mutex.ReceiveReply | ExamenFinal-C8286-extension/Pregunta3/Ejercicio3.py:78-86 | the node enters the critical section (and leaves it at once) exactly when the count reaches num_nodes - 1; otherwise only the count goes up |
| RicartAgrawala.Mutex.LeaveCriticalSection | ExamenFinal-C8286-extension/Pregunta3/Ejercicio3.py:88-92 | resets the count, drops the own requests, and replies to every remaining request in queue order |
| RicartAgrawala.EmptyNetworkScenario | ExamenFinal-C8286-extension/Pregunta3/Ejercicio3.py:149-153 | over the empty node list the network passes, requests and replies reach nobody |
| DijkstraScholten.Notice | ExamenFinal-C8286-extension/Pregunta3/Ejercicio3.py:41-44 | a termination notice goes to the parent iff the process is passive, has no children and has a parent |
| DijkstraScholten.MessageReceived | ExamenFinal-C8286-extension/Pregunta3/Ejercicio3.py:30-39 | after a message the sender is a child, no child is lost, the process is passive, and no notice is sent |
| DijkstraScholten.TerminationReceived | ExamenFinal-C8286-extension/Pregunta3/Ejercicio3.py:46-48 | the child is removed and nothing else joins; a notice, if sent, goes to the parent and only once no child is left |
| DijkstraScholten.MessageRule | ExamenFinal-C8286-extension/Pregunta3/Ejercicio3.py:30-39 | a message sets the parent only if there was none, adds the sender as a child, leaves the process passive, and never sends a notice |
| DijkstraScholten.TerminationRule | ExamenFinal-C8286-extension/Pregunta3/Ejercicio3.py:46-48 | the child is removed, and a notice goes to the parent iff it was the last child, the process is passive and there is a parent |
| DijkstraScholten.StepKeepsParentAndPassivity | ExamenFinal-C8286-extension/Pregunta3/Ejercicio3.py:30-48 | no handler changes a parent once set or reactivates a passive process |
| DijkstraScholten.RunKeepsParentAndPassivity | ExamenFinal-C8286-extension/Pregunta3/Ejercicio3.py:30-48 | the same holds over any run of handler calls without a KeyError |
| DijkstraScholten.MessageThenTerminationNotifiesParent | ExamenFinal-C8286-extension/Pregunta3/Ejercicio3.py:30-48 | a message from s followed by s's termination makes the process notify s |
| DijkstraScholten.Process.constructor | ExamenFinal-C8286-extension/Pregunta3/Ejercicio3.py:20-25 | no parent, no children, active |
| DijkstraScholten.Process.CheckTermination | ExamenFinal-C8286-extension/Pregunta3/Ejercicio3.py:41-44 | returns the notice for the current state and changes nothing |
| DijkstraScholten.Process.ProcessTask | ExamenFinal-C8286-extension/Pregunta3/Ejercicio3.py:36-39 | the process goes passive and checks for termination |
| DijkstraScholten.Process.ReceiveMessage | ExamenFinal-C8286-extension/Pregunta3/Ejercicio3.py:30-34 | performs the message handler |
| DijkstraScholten.Process.ReceiveTermination | ExamenFinal-C8286-extension/Pregunta3/Ejercicio3.py:46-48 | performs the termination handler; an unknown child is a precondition (KeyError) |
| Notebooks.Handled | ExamenFinal-C8286/Pregunta1/Ejercicio1.py:63-92 | an add event appends its data and keeps the other cells; a remove event removes at most one cell (exactly which one is stated by `OnlyEditsChangeCells`); execute and save events keep the cells |
| Notebooks.CellRemoved | ExamenFinal-C8286/Pregunta1/Ejercicio1.py:34-40 | an index in range removes exactly that cell and shifts the later cells down by one; any other index, a negative one included, changes nothing |
| Notebooks.AddThenRemoveLast | ExamenFinal-C8286/Pregunta1/Ejercicio1.py:29-38 | removing the cell just added gives the cells back |
| Notebooks.OnlyEditsChangeCells | ExamenFinal-C8286/Pregunta1/Ejercicio1.py:42-68 | execute and save events never change the cells; an add event appends its data; a remove event with an integer index removes as the cell-removal rule (`CellRemoved`) says; a remove event with a non-integer index fails and changes nothing |
| Notebooks.HandledAllConcat | ExamenFinal-C8286/Pregunta1/Ejercicio1.py:83-93 | handling two batches of events one after the other is handling their concatenation |
| Notebooks.ProducerLeavesNoCells | ExamenFinal-C8286/Pregunta1/Ejercicio1.py:72-77 | the producer's four events, handled in order on an empty notebook, leave no cells |
| Notebooks.Notebook.constructor | ExamenFinal-C8286/Pregunta1/Ejercicio1.py:25-26 | no cells |
| Notebooks.Notebook.AddCell | ExamenFinal-C8286/Pregunta1/Ejercicio1.py:29-32 | the content goes at the end and the existing cells are unchanged |
| Notebooks.Notebook.RemoveCell | ExamenFinal-C8286/Pregunta1/Ejercicio1.py:34-40 | removes as the cell-removal rule says, and returns the removed cell if there was one |
| Notebooks.Notebook.ExecuteCell | ExamenFinal-C8286/Pregunta1/Ejercicio1.py:42-50 | returns the cell iff the index is in range, and changes nothing |
| Notebooks.Notebook.SaveNotebook | ExamenFinal-C8286/Pregunta1/Ejercicio1.py:52-57 | reports the number of cells and changes nothing |
| Notebooks.EventLoop.constructor | ExamenFinal-C8286/Pregunta1/Ejercicio1.py:60-62 | an empty queue and a new, empty notebook |
| Notebooks.EventLoop.Post | ExamenFinal-C8286/Pregunta1/Ejercicio1.py:80 | the event joins the queue at the back |
| Notebooks.EventLoop.DispatchOne | ExamenFinal-C8286/Pregunta1/Ejercicio1.py:85-92 | takes the front event, if any, off the queue and applies its handler; a handler's TypeError is caught and changes nothing |
| Notebooks.EventLoop.Drain | ExamenFinal-C8286/Pregunta1/Ejercicio1.py:83-93 | its loop empties the queue, handling the events in FIFO order |
| Notebooks.ProducerConsumerScenario | ExamenFinal-C8286/Pregunta1/Ejercicio1.py:70-93 | posting the producer's events and draining the queue leaves the notebook empty |

## Left out

- asyncio scheduling is not modelled: `sleep`, `gather`, `create_task`, `asyncio.Lock` and `threading.Lock`. Each `while True` loop (`run_simulation`, `send_heartbeats`, `execute_task`, `event_consumer`) becomes one pass or a finite drain. The election's interleavings are covered by `Election.Run` over arbitrary step sequences.
- Randomness is not modelled. The election timeout, the node `random.choice` draws and all random intervals become parameters or are dropped, because they affect only timing.
- Floating-point values are kept only as the latency map's `real` values. `BerkeleyNode`/`BerkeleyMaster` is left out because its average uses float division.
- `RaymondMutex` is left out. It relies on a module-global `nodes` that is never defined, and its token passing is unbounded mutual recursion across objects. `RobotNetwork.Robot` therefore has no mutex field.
- Chandy–Lamport propagation across processes is left out. Nested `receive_message` calls under a non-reentrant lock would deadlock, so only the single-process handler is modelled, with the markers it sends returned as ids.
- The Chandy–Lamport methods duplicated on the extension's `Robot` are not modelled again: `set_neighbors`, `initiate_snapshot`, `receive_message` and `update_state` are the same code as `Process`. Neither is the neighbour wiring in the extension `Network` constructor.
- The unused Election placeholders `log`, `commit_index` and `last_applied` are left out, and so are all `print` and `logging` output and the `main()` drivers. The scripted parts of those drivers appear as scenario members.
- Robot `execute_task` is modelled as one loop pass, `Robots.Robot.ExecuteStep`. The extension's identical loop is not modelled again. The extension's `run` and `take_global_snapshot` are drivers and are left out.
- Fields no modelled method uses are left out: `Robot.queue`, `Robot.token_holder` and `Network.token_holder` in both robot files, and, in the extension's `Robot`, `mutex` and the Chandy–Lamport fields `state`, `channels`, `neighbors`, `marker_received`, `local_snapshot` and `lock` (that code is modelled once, on `ChandyLamport.Process`).
- Exceptions the source would raise on a bad call are preconditions rather than error results:
  - `ZeroDivisionError` in `distribute_tasks` over zero robots, in `RobotNetwork.Network.DistributeTasks` and `Robots.Network.DistributeTasks` (both require at least one robot when there are tasks);
  - `KeyError` on a marker from a sender that `set_neighbors` never registered, in `ChandyLamport.Process.ReceiveMessage` (through `Accepts`);
  - `KeyError` on an id the clock does not hold, in `VectorClocks.VectorClock.Increment`, and in `VectorClocks.VectorClock.Update`, which requires the other clock to hold every own key;
  - `KeyError` on an unknown child, in `DijkstraScholten.Process.ReceiveTermination`.
- Ricart–Agrawala and Dijkstra–Scholten call other objects' handlers synchronously from inside a handler. The model returns the recipients as id lists instead, so the reentrant interleaving of a nested call with the caller's remaining steps is not captured.
- RoundRobin.Share: it has no contract of its own. What it hands each robot is stated by `RoundRobin.ShareAt`, and the two `DistributeTasks` methods state their results through it.
- GenerationalGc: objects are values compared with `==`. The source's `Object` compares by identity, so two distinct objects that are equal as values are not distinguished.
- Cheney: `allocate(None)` is not modelled (objects are non-`None` values). The failing store after an unproductive collection is returned as `None` instead of raising `IndexError`.
- Notebooks: event data is limited to strings, integers and `None`. Other Python values would behave like one of these three in the handlers.
- Election.SendToAll: its own contract states only the cluster size; what each node receives is stated by `ElectionBeginPeers`, `VoteRequestRule` and `HeartbeatRule`.
- Election.ElectionBegin: its own contract states only the cluster size; the candidate's and the peers' states are stated by `ElectionBeginCandidate` and `ElectionBeginPeers`.
- Election.Election: its own contract states only the cluster size; the outcome is stated by `SequentialCandidateWinsOnlyAlone` and `TallyQuorum`.
- Election.HeartbeatRound: its own contract states only the cluster size; its effect is stated by `HeartbeatRule` and `StepKeepsTermsAndVotes`.
- Election.SimulationStep: its own contract states only the cluster size; its effect is stated by `CrashedNodeIsSkipped`.
- Election.Partitioned: its own contract states only the cluster size; the peer lists are stated by `PartitionPeers`.
- Election.Healed: its own contract states only the cluster size; the peer lists are stated by `HealPeers`.
- Election.Apply: its own contract states only the cluster size; each step's effect is stated by the lemmas about it.
- Election.Run: its own contract states only the cluster size; runs are described by `RunKeepsTermsAndVotes`, `RunIgnoresPeers` and `RunConcat`.
- Cheney.Live: its own contract bounds only the length; the contents are stated by `LiveOfCompacted` and `LiveOfPacked`.
- Cheney.Compacted: its own contract states only the length; the contents are stated by `LiveOfCompacted` and `CompactedIsPacked`.
