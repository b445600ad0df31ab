/**
 * The Chandy-Lamport marker handler of one `Process` in
 * ExamenFinal-C8286-extension/Pregunta2/Ejercicio2.py.
 *
 * Neighbours are identified by their process ids.  Instead of calling
 * `receive_message` on each neighbour, a handler returns the ids it sends a
 * marker to.  The process's `state` is `None` until `update_state` runs, and
 * `local_snapshot := state` copies that `None` as it is, so a snapshot of the
 * initial state looks exactly like "no snapshot taken yet".
 */
module ChandyLamport {
  import opened Wrappers

  datatype MessageType = Marker | Basic

  /** The tuple `(message_type, sender_id, content)`; markers carry no content (`None`). */
  datatype Message<C> = Message(kind: MessageType, sender: int, content: Option<C>)

  /** The fields of one process that the handlers read or write. */
  datatype ProcessState<V, C> = ProcessState(
    state: Option<V>,
    channels: map<int, seq<Option<C>>>,
    neighbors: seq<int>,
    markerReceived: map<int, bool>,
    localSnapshot: Option<V>)

  /** What one call of a handler leaves behind. */
  datatype Outcome<V, C> = Outcome(
    next: ProcessState<V, C>,
    markersTo: seq<int>,
    processed: bool)

  /** Reading the `defaultdict(list)` of recorded channel contents. */
  function Channel<C>(channels: map<int, seq<Option<C>>>, sender: int): seq<Option<C>> {
    if sender in channels then channels[sender] else []
  }

  /** `channels[sender].append(content)`. */
  function Record<V, C>(p: ProcessState<V, C>, sender: int, content: Option<C>): ProcessState<V, C> {
    p.(channels := p.channels[sender := Channel(p.channels, sender) + [content]])
  }

  function Initial<V, C>(): ProcessState<V, C> {
    ProcessState(None, map[], [], map[], None)
  }

  /** `initiate_snapshot`: record the state and send a marker to every neighbour. */
  function Initiated<V, C>(p: ProcessState<V, C>): Outcome<V, C> {
    Outcome(p.(localSnapshot := p.state), p.neighbors, false)
  }

  /** A marker whose sender has no `marker_received` entry is a `KeyError`. */
  predicate Accepts<V, C>(p: ProcessState<V, C>, m: Message<C>) {
    m.kind == Marker ==> m.sender in p.markerReceived
  }

  /** `receive_message`: the handler's three cases for a marker and two for a basic message. */
  function Received<V, C>(p: ProcessState<V, C>, m: Message<C>): (r: Outcome<V, C>)
    requires Accepts(p, m)
    ensures r.markersTo == [] || (m.kind == Marker && r.markersTo == p.neighbors)
    ensures r.processed ==> m.kind == Basic && r.next == p
    ensures r.next.neighbors == p.neighbors && r.next.markerReceived.Keys == p.markerReceived.Keys
    ensures r.next.state == p.state
  {
    match m.kind
    case Marker =>
      if !p.markerReceived[m.sender] then
        var p' := p.(markerReceived := p.markerReceived[m.sender := true]);
        if p.localSnapshot == None then
          Outcome(p'.(localSnapshot := p.state), p.neighbors, false)
        else
          Outcome(Record(p', m.sender, m.content), [], false)
      else
        Outcome(Record(p, m.sender, m.content), [], false)
    case Basic =>
      if p.localSnapshot != None then Outcome(Record(p, m.sender, m.content), [], false)
      else Outcome(p, [], true)
  }

  /** What `set_neighbors` does to `marker_received`, one neighbour after another. */
  function ResetMarkers(markers: map<int, bool>, ids: seq<int>): map<int, bool>
    decreases |ids|
  {
    if ids == [] then markers
    else ResetMarkers(markers[ids[0] := false], ids[1..])
  }

  // ---------------------------------------------------------------------
  // Properties of one call
  // ---------------------------------------------------------------------

  /**
   * The first marker from a sender sets its flag to true; the process then
   * either records its state and sends markers to all neighbours (no snapshot
   * yet) or appends the marker's content to that sender's channel.
   */
  lemma FirstMarkerRule<V, C>(p: ProcessState<V, C>, s: int, c: Option<C>)
    requires s in p.markerReceived && !p.markerReceived[s]
    ensures var o := Received(p, Message(Marker, s, c));
      && o.next.markerReceived == p.markerReceived[s := true]
      && o.next.state == p.state && o.next.neighbors == p.neighbors && !o.processed
      && (p.localSnapshot == None ==>
            o.next.localSnapshot == p.state && o.markersTo == p.neighbors && o.next.channels == p.channels)
      && (p.localSnapshot != None ==>
            o.next.localSnapshot == p.localSnapshot && o.markersTo == []
            && Channel(o.next.channels, s) == Channel(p.channels, s) + [c]
            && forall t :: t != s ==> Channel(o.next.channels, t) == Channel(p.channels, t))
  {
  }

  /** A repeated marker only appends its content to the sender's channel. */
  lemma RepeatedMarkerRule<V, C>(p: ProcessState<V, C>, s: int, c: Option<C>)
    requires s in p.markerReceived && p.markerReceived[s]
    ensures var o := Received(p, Message(Marker, s, c));
      && o.next == Record(p, s, c) && o.markersTo == [] && !o.processed
      && Channel(o.next.channels, s) == Channel(p.channels, s) + [c]
  {
  }

  /**
   * A basic message is appended to its sender's channel exactly when a
   * snapshot is held, and handed to `process_message` exactly when it is not.
   */
  lemma BasicMessageRule<V, C>(p: ProcessState<V, C>, s: int, c: Option<C>)
    ensures var o := Received(p, Message(Basic, s, c));
      && o.markersTo == []
      && o.next.markerReceived == p.markerReceived && o.next.localSnapshot == p.localSnapshot
      && (Channel(o.next.channels, s) == Channel(p.channels, s) + [c] <==> p.localSnapshot != None)
      && (o.next == p <==> p.localSnapshot == None)
      && (o.processed <==> p.localSnapshot == None)
  {
    var o := Received(p, Message(Basic, s, c));
    if p.localSnapshot != None {
      assert |Channel(o.next.channels, s)| == |Channel(p.channels, s)| + 1;
    }
  }

  /**
   * Because the state starts as `None`, the snapshot taken on a first marker
   * is `None` again: a first marker from another sender makes the process
   * take its "first" snapshot once more and send every neighbour a second
   * marker, and nothing is recorded in that sender's channel.
   */
  lemma NoneSnapshotIsRetaken<V, C>(p: ProcessState<V, C>, a: int, b: int, ca: Option<C>, cb: Option<C>)
    requires p.state == None && p.localSnapshot == None
    requires a != b && a in p.markerReceived && b in p.markerReceived
    requires !p.markerReceived[a] && !p.markerReceived[b]
    ensures var o1 := Received(p, Message(Marker, a, ca));
      && Accepts(o1.next, Message(Marker, b, cb))
      && var o2 := Received(o1.next, Message(Marker, b, cb));
      && o1.markersTo == p.neighbors && o2.markersTo == p.neighbors
      && o2.next.localSnapshot == None
      && Channel(o2.next.channels, b) == Channel(p.channels, b)
  {
  }

  /** With a real state the same two markers give one snapshot, and the second marker is recorded. */
  lemma SomeSnapshotIsTakenOnce<V, C>(p: ProcessState<V, C>, v: V, a: int, b: int, ca: Option<C>, cb: Option<C>)
    requires p.state == Some(v) && p.localSnapshot == None
    requires a != b && a in p.markerReceived && b in p.markerReceived
    requires !p.markerReceived[a] && !p.markerReceived[b]
    ensures var o1 := Received(p, Message(Marker, a, ca));
      && Accepts(o1.next, Message(Marker, b, cb))
      && var o2 := Received(o1.next, Message(Marker, b, cb));
      && o1.markersTo == p.neighbors && o2.markersTo == []
      && o2.next.localSnapshot == Some(v)
      && Channel(o2.next.channels, b) == Channel(p.channels, b) + [cb]
  {
  }

  /** `set_neighbors` sets exactly the listed neighbours' flags to false and keeps every other entry. */
  lemma {:induction false} ResetMarkersSpec(markers: map<int, bool>, ids: seq<int>, k: int)
    ensures k in ResetMarkers(markers, ids) <==> k in markers || k in ids
    ensures k in ids ==> !ResetMarkers(markers, ids)[k]
    ensures k !in ids && k in markers ==> ResetMarkers(markers, ids)[k] == markers[k]
    decreases |ids|
  {
    if ids != [] {
      ResetMarkersSpec(markers[ids[0] := false], ids[1..], k);
      assert ids == [ids[0]] + ids[1..];
    }
  }

  // ---------------------------------------------------------------------
  // Runs of handler calls
  // ---------------------------------------------------------------------

  datatype Event<V, C> =
    | Deliver(m: Message<C>)
    | Initiate
    | UpdateState(v: Option<V>)

  function Step<V, C>(p: ProcessState<V, C>, e: Event<V, C>): ProcessState<V, C>
    requires e.Deliver? ==> Accepts(p, e.m)
  {
    match e
    case Deliver(m) => Received(p, m).next
    case Initiate => Initiated(p).next
    case UpdateState(v) => p.(state := v)
  }

  /** Every marker in the run comes from a sender that has a `marker_received` entry. */
  predicate AllAccepted<V, C>(keys: set<int>, events: seq<Event<V, C>>) {
    forall i :: 0 <= i < |events| ==> events[i].Deliver? && events[i].m.kind == Marker ==> events[i].m.sender in keys
  }

  function Run<V, C>(p: ProcessState<V, C>, events: seq<Event<V, C>>): ProcessState<V, C>
    requires AllAccepted(p.markerReceived.Keys, events)
    decreases |events|
  {
    if events == [] then p
    else
      var e := events[0];
      assert e.Deliver? ==> Accepts(p, e.m) by {
        assert events[0] == e;
      }
      var p' := Step(p, e);
      assert p'.markerReceived.Keys == p.markerReceived.Keys;
      assert AllAccepted(p'.markerReceived.Keys, events[1..]) by {
        forall i | 0 <= i < |events[1..]|
          ensures events[1..][i].Deliver? && events[1..][i].m.kind == Marker ==> events[1..][i].m.sender in p'.markerReceived.Keys
        {
          assert events[1..][i] == events[i + 1];
        }
      }
      Run(p', events[1..])
  }

  /** Ordered "no less recorded" relation between two process states. */
  ghost predicate Grown<V, C>(p: ProcessState<V, C>, q: ProcessState<V, C>) {
    && q.markerReceived.Keys == p.markerReceived.Keys
    && (forall s :: s in p.markerReceived && p.markerReceived[s] ==> q.markerReceived[s])
    && (forall s :: Channel(p.channels, s) <= Channel(q.channels, s))
    && q.neighbors == p.neighbors
  }

  lemma StepGrows<V, C>(p: ProcessState<V, C>, e: Event<V, C>)
    requires e.Deliver? ==> Accepts(p, e.m)
    ensures Grown(p, Step(p, e))
    ensures !e.Initiate? && p.localSnapshot != None ==> Step(p, e).localSnapshot == p.localSnapshot
  {
    var q := Step(p, e);
    forall s
      ensures Channel(p.channels, s) <= Channel(q.channels, s)
    {
      if e.Deliver? && s == e.m.sender && Channel(q.channels, s) != Channel(p.channels, s) {
        assert Channel(q.channels, s) == Channel(p.channels, s) + [e.m.content];
      }
    }
  }

  /**
   * Over any run of deliveries, snapshot initiations and state updates: a
   * marker flag that is true stays true, no flag appears or disappears, every
   * recorded channel only grows at its end, and the neighbours stay the same.
   * Without an `initiate_snapshot` call, a snapshot once held never changes.
   */
  lemma {:induction false} RunGrows<V, C>(p: ProcessState<V, C>, events: seq<Event<V, C>>)
    requires AllAccepted(p.markerReceived.Keys, events)
    ensures Grown(p, Run(p, events))
    ensures (forall i :: 0 <= i < |events| ==> !events[i].Initiate?) && p.localSnapshot != None ==>
      Run(p, events).localSnapshot == p.localSnapshot
    decreases |events|
  {
    if events != [] {
      var p' := Step(p, events[0]);
      StepGrows(p, events[0]);
      assert AllAccepted(p'.markerReceived.Keys, events[1..]) by {
        forall i | 0 <= i < |events[1..]|
          ensures events[1..][i].Deliver? && events[1..][i].m.kind == Marker ==> events[1..][i].m.sender in p'.markerReceived.Keys
        {
          assert events[1..][i] == events[i + 1];
        }
      }
      RunGrows(p', events[1..]);
      var q := Run(p', events[1..]);
      assert Run(p, events) == q;
      forall s
        ensures Channel(p.channels, s) <= Channel(q.channels, s)
      {
        assert Channel(p.channels, s) <= Channel(p'.channels, s);
      }
      if (forall i :: 0 <= i < |events| ==> !events[i].Initiate?) && p.localSnapshot != None {
        assert !events[0].Initiate?;
        assert forall i :: 0 <= i < |events[1..]| ==> !events[1..][i].Initiate? by {
          forall i | 0 <= i < |events[1..]|
            ensures !events[1..][i].Initiate?
          {
            assert events[1..][i] == events[i + 1];
          }
        }
      }
    }
  }

  // ---------------------------------------------------------------------
  // The process object
  // ---------------------------------------------------------------------

  class Process<V, C> {
    const processId: int
    var state: Option<V>
    var channels: map<int, seq<Option<C>>>
    var neighbors: seq<int>
    var markerReceived: map<int, bool>
    var localSnapshot: Option<V>

    function Contents(): ProcessState<V, C>
      reads this
    {
      ProcessState(state, channels, neighbors, markerReceived, localSnapshot)
    }

    constructor (id: int)
      ensures processId == id && Contents() == Initial()
    {
      processId := id;
      state, channels, neighbors, markerReceived, localSnapshot := None, map[], [], map[], None;
    }

    /** `set_neighbors`: each listed neighbour's marker flag is (re)set to false. */
    method SetNeighbors(ids: seq<int>)
      modifies this`neighbors, this`markerReceived
      ensures neighbors == ids
      ensures markerReceived == ResetMarkers(old(markerReceived), ids)
    {
      neighbors := ids;
      for i := 0 to |ids|
        invariant neighbors == ids
        invariant ResetMarkers(markerReceived, ids[i..]) == ResetMarkers(old(markerReceived), ids)
      {
        assert ids[i..][1..] == ids[i + 1..];
        markerReceived := markerReceived[ids[i] := false];
      }
    }

    method InitiateSnapshot() returns (markersTo: seq<int>)
      modifies this`localSnapshot
      ensures Contents() == Initiated(old(Contents())).next
      ensures markersTo == neighbors
    {
      localSnapshot := state;
      markersTo := neighbors;
    }

    /** `receive_message`; `processed` says whether `process_message` was called. */
    method ReceiveMessage(m: Message<C>) returns (markersTo: seq<int>, processed: bool)
      requires Accepts(Contents(), m)
      modifies this
      ensures Contents() == Received(old(Contents()), m).next
      ensures markersTo == Received(old(Contents()), m).markersTo
      ensures processed == Received(old(Contents()), m).processed
    {
      markersTo, processed := [], false;
      if m.kind == Marker {
        if !markerReceived[m.sender] {
          markerReceived := markerReceived[m.sender := true];
          if localSnapshot == None {
            localSnapshot := state;
            markersTo := neighbors;
          } else {
            channels := channels[m.sender := Channel(channels, m.sender) + [m.content]];
          }
        } else {
          channels := channels[m.sender := Channel(channels, m.sender) + [m.content]];
        }
      } else {
        if localSnapshot != None {
          channels := channels[m.sender := Channel(channels, m.sender) + [m.content]];
        } else {
          processed := true;
        }
      }
    }

    /** `update_state`: any new state, `None` included. */
    method UpdateState(v: Option<V>)
      modifies this`state
      ensures Contents() == old(Contents()).(state := v)
    {
      state := v;
    }
  }
}
