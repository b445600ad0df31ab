/**
 * The robot network of ExamenFinal-C8286/Pregunta2/Ejercicio2.py: each robot
 * keeps a FIFO task deque and a vector clock (a `defaultdict(int)`), takes
 * snapshots by copying both, and the network hands tasks out round-robin.
 */
module Robots {
  import opened Wrappers
  import RoundRobin

  /** Reading a `defaultdict(int)`: a missing entry is 0. */
  function Entry(clock: map<int, nat>, id: int): nat {
    if id in clock then clock[id] else 0
  }

  /** The clock after `clock[id] += 1` has run `times` times (no entry is created when it never runs). */
  function Bumped(clock: map<int, nat>, id: int, times: nat): map<int, nat> {
    if times == 0 then clock else clock[id := Entry(clock, id) + times]
  }

  /** Bumping one entry adds exactly `times` to it and leaves every other entry as it was. */
  lemma BumpedEntries(clock: map<int, nat>, id: int, times: nat, other: int)
    ensures Entry(Bumped(clock, id, times), id) == Entry(clock, id) + times
    ensures other != id ==> Entry(Bumped(clock, id, times), other) == Entry(clock, other)
    ensures Bumped(clock, id, times).Keys == if times == 0 then clock.Keys else clock.Keys + {id}
  {
  }

  lemma BumpedTwice(clock: map<int, nat>, id: int, t1: nat, t2: nat)
    ensures Bumped(Bumped(clock, id, t1), id, t2) == Bumped(clock, id, t1 + t2)
  {
    if t1 > 0 && t2 > 0 {
      assert Entry(Bumped(clock, id, t1), id) == Entry(clock, id) + t1;
    }
  }

  /** The copied pair `{"tasks": list(tasks), "vector_clock": dict(clock)}`. */
  datatype RobotSnapshot<T> = RobotSnapshot(tasks: seq<T>, vectorClock: map<int, nat>)

  class Robot<T> {
    const robotId: int
    var tasks: seq<T>
    var snapshot: Option<RobotSnapshot<T>>
    var vectorClock: map<int, nat>

    /** The initial `snapshot = {}` is `None` here. */
    constructor (id: int)
      ensures robotId == id && tasks == [] && snapshot == None && vectorClock == map[]
    {
      robotId := id;
      tasks := [];
      snapshot := None;
      vectorClock := map[];
    }

    /** `add_task`: the task goes to the back, and only this robot's own clock entry goes up, by one. */
    method AddTask(task: T)
      modifies this
      ensures tasks == old(tasks) + [task]
      ensures vectorClock == Bumped(old(vectorClock), robotId, 1)
      ensures snapshot == old(snapshot)
    {
      tasks := tasks + [task];
      vectorClock := vectorClock[robotId := Entry(vectorClock, robotId) + 1];
    }

    /** One pass of the `execute_task` loop: the front task is taken, if there is one. */
    method ExecuteStep() returns (executed: Option<T>)
      modifies this
      ensures old(tasks) == [] ==> executed == None && tasks == []
      ensures old(tasks) != [] ==> executed == Some(old(tasks)[0]) && tasks == old(tasks)[1..]
      ensures vectorClock == old(vectorClock) && snapshot == old(snapshot)
    {
      if tasks != [] {
        executed := Some(tasks[0]);
        tasks := tasks[1..];
      } else {
        executed := None;
      }
    }

    /** `take_snapshot`: copies of the deque and of the clock. */
    method TakeSnapshot()
      modifies this`snapshot
      ensures snapshot == Some(RobotSnapshot(tasks, vectorClock))
    {
      snapshot := Some(RobotSnapshot(tasks, vectorClock));
    }

    /** `request_token` is a stub in the source: it changes nothing (no `modifies`). */
    method RequestToken()
      ensures tasks == old(tasks) && snapshot == old(snapshot) && vectorClock == old(vectorClock)
    {
    }

    /** `manage_memory` is a stub in the source: it changes nothing (no `modifies`). */
    method ManageMemory()
      ensures tasks == old(tasks) && snapshot == old(snapshot) && vectorClock == old(vectorClock)
    {
    }
  }

  /** Tasks added to a fresh robot come out in the order they went in. */
  method FifoScenario<T>(a: T, b: T) returns (first: Option<T>, second: Option<T>, third: Option<T>)
    ensures first == Some(a) && second == Some(b) && third == None
  {
    var r := new Robot<T>(0);
    r.AddTask(a);
    r.AddTask(b);
    assert r.tasks == [a, b];
    first := r.ExecuteStep();
    assert r.tasks == [b];
    second := r.ExecuteStep();
    third := r.ExecuteStep();
  }

  /** A snapshot is a copy: tasks added after it do not show in it. */
  method SnapshotScenario<T>(a: T, b: T) returns (inSnapshot: seq<T>, clockInSnapshot: nat, live: seq<T>, liveClock: nat)
    ensures inSnapshot == [a] && clockInSnapshot == 1
    ensures live == [a, b] && liveClock == 2
  {
    var r := new Robot<T>(7);
    r.AddTask(a);
    r.TakeSnapshot();
    r.AddTask(b);
    inSnapshot := r.snapshot.value.tasks;
    clockInSnapshot := Entry(r.snapshot.value.vectorClock, 7);
    live := r.tasks;
    liveClock := Entry(r.vectorClock, 7);
  }

  class Network<T> {
    var robots: seq<Robot<T>>

    ghost predicate Valid()
      reads this, robots
    {
      && (forall a, b :: 0 <= a < b < |robots| ==> robots[a] != robots[b])
      && (forall k :: 0 <= k < |robots| ==> robots[k].robotId == k)
    }

    constructor (numRobots: nat)
      ensures Valid() && |robots| == numRobots
      ensures forall k :: 0 <= k < numRobots ==>
        fresh(robots[k]) && robots[k].tasks == [] && robots[k].vectorClock == map[] && robots[k].snapshot == None
    {
      var made: seq<Robot<T>> := [];
      var k := 0;
      while k < numRobots
        invariant 0 <= k <= numRobots && |made| == k
        invariant forall a, b :: 0 <= a < b < k ==> made[a] != made[b]
        invariant forall j :: 0 <= j < k ==>
          fresh(made[j]) && made[j].robotId == j && made[j].tasks == [] && made[j].vectorClock == map[] && made[j].snapshot == None
      {
        var r := new Robot<T>(k);
        made := made + [r];
        k := k + 1;
      }
      robots := made;
    }

    /**
     * `distribute_tasks`: robot k receives, at the back of its deque and in
     * input order, exactly the tasks at positions k, k + n, k + 2n, ...; its
     * own clock entry goes up once per task received.
     */
    method DistributeTasks(tasks: seq<T>)
      requires Valid() && (|robots| > 0 || tasks == [])
      modifies set k | 0 <= k < |robots| :: robots[k]
      ensures Valid()
      ensures forall k :: 0 <= k < |robots| ==>
        && robots[k].tasks == old(robots[k].tasks) + RoundRobin.Share(tasks, |robots|, k)
        && robots[k].vectorClock == Bumped(old(robots[k].vectorClock), k, |RoundRobin.Share(tasks, |robots|, k)|)
        && robots[k].snapshot == old(robots[k].snapshot)
    {
      var n := |robots|;
      var i := 0;
      while i < |tasks|
        invariant 0 <= i <= |tasks| && Valid()
        invariant forall k :: 0 <= k < n ==>
          && robots[k].tasks == old(robots[k].tasks) + RoundRobin.Share(tasks[..i], n, k)
          && robots[k].vectorClock == Bumped(old(robots[k].vectorClock), k, |RoundRobin.Share(tasks[..i], n, k)|)
          && robots[k].snapshot == old(robots[k].snapshot)
      {
        var target := i % n;
        robots[target].AddTask(tasks[i]);
        assert tasks[..i + 1][..i] == tasks[..i];
        forall k | 0 <= k < n
          ensures robots[k].vectorClock == Bumped(old(robots[k].vectorClock), k, |RoundRobin.Share(tasks[..i + 1], n, k)|)
        {
          if k == target {
            BumpedTwice(old(robots[k].vectorClock), k, |RoundRobin.Share(tasks[..i], n, k)|, 1);
          }
        }
        i := i + 1;
      }
      assert tasks[..|tasks|] == tasks;
    }
  }

  /** Task i of the input is the (i / n)-th task robot i mod n receives. */
  lemma TaskGoesToRobotModN<T>(tasks: seq<T>, n: nat, i: nat)
    requires n > 0 && i < |tasks|
    ensures i / n < |RoundRobin.Share(tasks, n, i % n)|
    ensures RoundRobin.Share(tasks, n, i % n)[i / n] == tasks[i]
  {
    RoundRobin.DivMod(i, n);
    RoundRobin.ShareAt(tasks, n, i % n, i / n);
  }
}
