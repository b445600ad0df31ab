/**
 * The robots and the network of ExamenFinal-C8286-extension/Pregunta2/Ejercicio2.py.
 *
 * Unlike the robots of ExamenFinal-C8286/Pregunta2/Ejercicio2.py, each robot
 * here owns a `VectorClock` object over its own id only, and `take_snapshot`
 * stores the clock's live dictionary rather than a copy: the snapshot keeps
 * a reference to the robot's clock object, so later increments show in it.
 */
module RobotNetwork {
  import opened Wrappers
  import RoundRobin
  import VectorClocks

  /** `{"tasks": list(tasks), "vector_clock": clock.get_clock()}`: a copied list and a shared clock. */
  datatype LiveSnapshot<T> = LiveSnapshot(tasks: seq<T>, clock: VectorClocks.VectorClock)

  /** `is_garbage` answers False for every item. */
  predicate IsGarbage<M>(item: M) {
    false
  }

  class Robot<T, M> {
    const robotId: int
    var tasks: seq<T>
    var snapshot: Option<LiveSnapshot<T>>
    const vectorClock: VectorClocks.VectorClock
    var memory: seq<M>

    /** The robot's clock holds exactly its own id. */
    ghost predicate Valid()
      reads this, vectorClock
    {
      vectorClock.Valid() && vectorClock.order == [robotId]
    }

    /** The robot's own clock entry, the only one there is. */
    function Time(): nat
      reads this, vectorClock
      requires Valid()
    {
      vectorClock.clock[robotId]
    }

    /** The initial `snapshot = {}` is `None` here. */
    constructor (id: int)
      ensures Valid() && fresh(vectorClock)
      ensures robotId == id && tasks == [] && snapshot == None && memory == [] && Time() == 0
    {
      robotId := id;
      tasks := [];
      snapshot := None;
      memory := [];
      vectorClock := new VectorClocks.VectorClock([id]);
    }

    /** `add_task`: the task goes to the back and the robot's clock goes up by one. */
    method AddTask(task: T)
      requires Valid()
      modifies this`tasks, vectorClock
      ensures Valid()
      ensures tasks == old(tasks) + [task]
      ensures Time() == old(Time()) + 1
    {
      tasks := tasks + [task];
      vectorClock.Increment(robotId);
    }

    /** `take_snapshot`: a copy of the deque, and the clock object itself. */
    method TakeSnapshot()
      modifies this`snapshot
      ensures snapshot == Some(LiveSnapshot(tasks, vectorClock))
    {
      snapshot := Some(LiveSnapshot(tasks, vectorClock));
    }

    /** `manage_memory`: keeps the items that are not garbage, which is all of them. */
    method ManageMemory()
      modifies this`memory
      ensures memory == old(memory)
    {
      var kept: seq<M> := [];
      for i := 0 to |memory|
        invariant kept == memory[..i]
      {
        if !IsGarbage(memory[i]) {
          kept := kept + [memory[i]];
        }
      }
      assert memory[..|memory|] == memory;
      memory := kept;
    }
  }

  /**
   * A snapshot shares the robot's clock: a task added after the snapshot is
   * absent from the snapshot's task list but counted in the snapshot's clock.
   */
  method LiveClockScenario<T, M>(a: T, b: T) returns (inSnapshot: seq<T>, clockInSnapshot: nat)
    ensures inSnapshot == [a] && clockInSnapshot == 2
  {
    var r := new Robot<T, M>(7);
    r.AddTask(a);
    r.TakeSnapshot();
    r.AddTask(b);
    inSnapshot := r.snapshot.value.tasks;
    clockInSnapshot := r.snapshot.value.clock.clock[7];
  }

  class Network<T, M> {
    var robots: seq<Robot<T, M>>

    /** Robot k has id k, and no two robots share a robot object or a clock object. */
    ghost predicate Valid()
      reads this, robots, set k | 0 <= k < |robots| :: robots[k].vectorClock
    {
      && (forall k :: 0 <= k < |robots| ==> robots[k].robotId == k && robots[k].Valid())
      && (forall a, b :: 0 <= a < b < |robots| ==> robots[a] != robots[b] && robots[a].vectorClock != robots[b].vectorClock)
    }

    constructor (numRobots: nat)
      ensures Valid() && |robots| == numRobots
      ensures forall k :: 0 <= k < numRobots ==> robots[k].tasks == [] && robots[k].Time() == 0
    {
      var made: seq<Robot<T, M>> := [];
      for k := 0 to numRobots
        invariant |made| == k
        invariant forall j :: 0 <= j < k ==> fresh(made[j]) && fresh(made[j].vectorClock)
        invariant forall j :: 0 <= j < k ==>
          made[j].robotId == j && made[j].Valid() && made[j].tasks == [] && made[j].Time() == 0
        invariant forall a, b :: 0 <= a < b < k ==> made[a] != made[b] && made[a].vectorClock != made[b].vectorClock
      {
        var r := new Robot<T, M>(k);
        made := made + [r];
      }
      robots := made;
    }

    /** One iteration of `distribute_tasks`: robot k gets the task, every other robot is left alone. */
    method Give(k: nat, task: T)
      requires Valid() && k < |robots|
      modifies {robots[k]}`tasks, robots[k].vectorClock
      ensures Valid()
      ensures robots[k].tasks == old(robots[k].tasks) + [task] && robots[k].Time() == old(robots[k].Time()) + 1
      ensures forall j :: 0 <= j < |robots| && j != k ==>
        robots[j].tasks == old(robots[j].tasks) && robots[j].Time() == old(robots[j].Time())
      ensures forall j :: 0 <= j < |robots| ==>
        robots[j].snapshot == old(robots[j].snapshot) && robots[j].memory == old(robots[j].memory)
    {
      robots[k].AddTask(task);
    }

    /**
     * `distribute_tasks`: robot k receives, at the back of its deque and in
     * input order, exactly the tasks at positions k, k + n, k + 2n, ..., and
     * its clock goes up once per task received.  With no robots, any task
     * is a division by zero in the source.
     */
    method DistributeTasks(tasks: seq<T>)
      requires Valid() && (|robots| > 0 || tasks == [])
      modifies (set k | 0 <= k < |robots| :: robots[k])`tasks
      modifies set k | 0 <= k < |robots| :: robots[k].vectorClock
      ensures Valid()
      ensures forall k :: 0 <= k < |robots| ==>
        && robots[k].tasks == old(robots[k].tasks) + RoundRobin.Share(tasks, |robots|, k)
        && robots[k].Time() == old(robots[k].Time()) + |RoundRobin.Share(tasks, |robots|, k)|
      ensures forall k :: 0 <= k < |robots| ==>
        robots[k].snapshot == old(robots[k].snapshot) && robots[k].memory == old(robots[k].memory)
    {
      var n := |robots|;
      for i := 0 to |tasks|
        invariant Valid()
        invariant forall k :: 0 <= k < n ==>
          && robots[k].tasks == old(robots[k].tasks) + RoundRobin.Share(tasks[..i], n, k)
          && robots[k].Time() == old(robots[k].Time()) + |RoundRobin.Share(tasks[..i], n, k)|
      {
        Give(i % n, tasks[i]);
        assert tasks[..i + 1][..i] == tasks[..i];
      }
      assert tasks[..|tasks|] == tasks;
    }
  }
}
