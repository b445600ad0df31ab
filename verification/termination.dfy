/**
 * The Dijkstra-Scholten `Process` of ExamenFinal-C8286-extension/Pregunta3/Ejercicio3.py:
 * a parent link, a set of children and an activity flag.
 *
 * Processes are identified by their ids; `parent` holds the sender of the
 * first message (the process object in the source), `children` its id.  The
 * termination notice `parent.receive_termination(process_id)` is returned as
 * the id of the parent it goes to.  A process object is always true in the
 * source's `if self.parent:`, so only a missing parent sends nothing.
 */
module DijkstraScholten {
  import opened Wrappers

  datatype ProcessState = ProcessState(parent: Option<int>, children: set<int>, active: bool)

  function Initial(): ProcessState {
    ProcessState(None, {}, true)
  }

  /** `check_termination`: the notice that goes to the parent, if any. */
  function Notice(p: ProcessState): (r: Option<int>)
    ensures r.Some? <==> !p.active && p.children == {} && p.parent.Some?
    ensures r.Some? ==> r == p.parent
  {
    if !p.active && p.children == {} then p.parent else None
  }

  /** A call followed by `check_termination`: the state it leaves and the notice it sends. */
  datatype Outcome = Outcome(next: ProcessState, notice: Option<int>)

  /** `process_task`: the process goes passive and checks for termination. */
  function TaskProcessed(p: ProcessState): Outcome {
    var q := p.(active := false);
    Outcome(q, Notice(q))
  }

  /** `receive_message`: adopt the sender as parent if there is none yet, record it as a child, process. */
  function MessageReceived(p: ProcessState, sender: int): (r: Outcome)
    ensures sender in r.next.children && p.children <= r.next.children
    ensures !r.next.active && r.notice == None
  {
    var q := p.(parent := if p.parent == None then Some(sender) else p.parent, children := p.children + {sender});
    TaskProcessed(q)
  }

  /** `receive_termination`: forget the child and check for termination; an unknown child is a `KeyError`. */
  function TerminationReceived(p: ProcessState, child: int): (r: Outcome)
    requires child in p.children
    ensures child !in r.next.children && r.next.children < p.children
    ensures r.notice.Some? ==> r.next.children == {} && r.notice == p.parent
  {
    var q := p.(children := p.children - {child});
    Outcome(q, Notice(q))
  }

  /**
   * After a message the parent is the old one, or the sender when there was
   * none; the sender is a child; the process is passive; and, since it has
   * just gained a child, it never sends a termination notice.
   */
  lemma MessageRule(p: ProcessState, sender: int)
    ensures var o := MessageReceived(p, sender);
      && o.next.parent == (if p.parent.Some? then p.parent else Some(sender))
      && o.next.children == p.children + {sender}
      && !o.next.active
      && o.notice == None
  {
  }

  /** A termination notice goes to the parent exactly when the last child reports and the process is passive. */
  lemma TerminationRule(p: ProcessState, child: int)
    requires child in p.children
    ensures var o := TerminationReceived(p, child);
      && o.next.children == p.children - {child}
      && o.next.parent == p.parent && o.next.active == p.active
      && (o.notice.Some? <==> p.children == {child} && !p.active && p.parent.Some?)
      && (o.notice.Some? ==> o.notice == p.parent)
  {
    var o := TerminationReceived(p, child);
    assert p.children == o.next.children + {child};
    if p.children == {child} {
      assert o.next.children == {};
    }
  }

  datatype Event = Message(sender: int) | Termination(child: int) | Task

  predicate Accepts(p: ProcessState, e: Event) {
    e.Termination? ==> e.child in p.children
  }

  function Step(p: ProcessState, e: Event): Outcome
    requires Accepts(p, e)
  {
    match e
    case Message(s) => MessageReceived(p, s)
    case Termination(c) => TerminationReceived(p, c)
    case Task => TaskProcessed(p)
  }

  /** Once set, the parent never changes, and once passive, a process never becomes active again. */
  lemma StepKeepsParentAndPassivity(p: ProcessState, e: Event)
    requires Accepts(p, e)
    ensures p.parent.Some? ==> Step(p, e).next.parent == p.parent
    ensures !p.active ==> !Step(p, e).next.active
  {
  }

  function Run(p: ProcessState, events: seq<Event>): Option<ProcessState>
    decreases |events|
  {
    if events == [] then Some(p)
    else if !Accepts(p, events[0]) then None
    else Run(Step(p, events[0]).next, events[1..])
  }

  /** Over any run of calls without a `KeyError`, a parent once set stays and a passive process stays passive. */
  lemma {:induction false} RunKeepsParentAndPassivity(p: ProcessState, events: seq<Event>)
    requires Run(p, events).Some?
    ensures p.parent.Some? ==> Run(p, events).value.parent == p.parent
    ensures !p.active ==> !Run(p, events).value.active
    decreases |events|
  {
    if events != [] {
      StepKeepsParentAndPassivity(p, events[0]);
      RunKeepsParentAndPassivity(Step(p, events[0]).next, events[1..]);
    }
  }

  /**
   * A process that receives one message from `s` and then the termination
   * of child `s` notifies `s`, its parent: the round trip of the algorithm.
   */
  lemma MessageThenTerminationNotifiesParent(s: int)
    ensures var o1 := MessageReceived(Initial(), s);
      && s in o1.next.children
      && TerminationReceived(o1.next, s).notice == Some(s)
  {
    var o1 := MessageReceived(Initial(), s);
    assert o1.next.children == {s};
  }

  class Process {
    const processId: int
    /** Unused by the handlers. */
    const neighbors: seq<int>
    var parent: Option<int>
    var children: set<int>
    var active: bool

    function Contents(): ProcessState
      reads this
    {
      ProcessState(parent, children, active)
    }

    constructor (id: int, ns: seq<int>)
      ensures processId == id && neighbors == ns && Contents() == Initial()
    {
      processId, neighbors := id, ns;
      parent, children, active := None, {}, true;
    }

    /** `check_termination`: reads the state only. */
    method CheckTermination() returns (notice: Option<int>)
      ensures notice == Notice(Contents())
    {
      if !active && children == {} && parent.Some? {
        notice := parent;
      } else {
        notice := None;
      }
    }

    method ProcessTask() returns (notice: Option<int>)
      modifies this`active
      ensures Contents() == TaskProcessed(old(Contents())).next
      ensures notice == TaskProcessed(old(Contents())).notice
    {
      active := false;
      notice := CheckTermination();
    }

    method ReceiveMessage(sender: int) returns (notice: Option<int>)
      modifies this
      ensures Contents() == MessageReceived(old(Contents()), sender).next
      ensures notice == MessageReceived(old(Contents()), sender).notice
    {
      if parent == None {
        parent := Some(sender);
      }
      children := children + {sender};
      notice := ProcessTask();
    }

    method ReceiveTermination(child: int) returns (notice: Option<int>)
      requires child in children
      modifies this`children
      ensures Contents() == TerminationReceived(old(Contents()), child).next
      ensures notice == TerminationReceived(old(Contents()), child).notice
    {
      children := children - {child};
      notice := CheckTermination();
    }
  }
}
