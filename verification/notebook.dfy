/**
 * The notebook and its event loop from ExamenFinal-C8286/Pregunta1/Ejercicio1.py.
 *
 * Event data is untyped in the source; `Value` covers the three kinds the
 * handlers meet: a string, an integer and `None`.  A cell handler given a
 * non-integer index fails on the comparison `0 <= index` with a `TypeError`,
 * which the consumer catches: such an event leaves the notebook unchanged.
 */
module Notebooks {
  import opened Wrappers

  datatype Value = Str(text: string) | Int(n: int) | Nothing

  datatype EventType = ExecuteCell | SaveNotebook | AddCell | RemoveCell

  datatype Event = Event(eventType: EventType, data: Value)

  /** The cells after `remove_cell(index)`; an index out of range, negative included, changes nothing. */
  function CellRemoved(cells: seq<Value>, index: int): (r: seq<Value>)
    ensures 0 <= index < |cells| ==>
      && |r| == |cells| - 1
      && (forall k :: 0 <= k < index ==> r[k] == cells[k])
      && (forall k :: index <= k < |r| ==> r[k] == cells[k + 1])
    ensures !(0 <= index < |cells|) ==> r == cells
  {
    if 0 <= index < |cells| then cells[..index] + cells[index + 1..] else cells
  }

  /** Removing the cell that was just added gives back the cells as they were. */
  lemma AddThenRemoveLast(cells: seq<Value>, c: Value)
    ensures CellRemoved(cells + [c], |cells|) == cells
  {
    assert (cells + [c])[..|cells|] == cells;
  }

  /** The cells after the consumer hands one event to its handler. */
  function Handled(cells: seq<Value>, e: Event): (r: seq<Value>)
    ensures e.eventType == AddCell ==> |r| == |cells| + 1 && r[..|cells|] == cells && r[|cells|] == e.data
    ensures e.eventType == RemoveCell ==> |r| == |cells| || |r| == |cells| - 1
    ensures e.eventType == ExecuteCell || e.eventType == SaveNotebook ==> r == cells
  {
    match e.eventType
    case AddCell => cells + [e.data]
    case RemoveCell => if e.data.Int? then CellRemoved(cells, e.data.n) else cells
    case ExecuteCell => cells
    case SaveNotebook => cells
  }

  /** The cells after the consumer has handled the events one after another, front first. */
  function HandledAll(cells: seq<Value>, events: seq<Event>): seq<Value>
    decreases |events|
  {
    if events == [] then cells else HandledAll(Handled(cells, events[0]), events[1..])
  }

  /**
   * Only adding and removing cells change the notebook; executing and saving
   * never do.  A remove event with an integer index removes as the
   * cell-removal rule says; one with any other index fails and changes nothing.
   */
  lemma OnlyEditsChangeCells(cells: seq<Value>, e: Event)
    ensures e.eventType == ExecuteCell || e.eventType == SaveNotebook ==> Handled(cells, e) == cells
    ensures e.eventType == AddCell ==> Handled(cells, e) == cells + [e.data]
    ensures e.eventType == RemoveCell && e.data.Int? ==> Handled(cells, e) == CellRemoved(cells, e.data.n)
    ensures e.eventType == RemoveCell && !e.data.Int? ==> Handled(cells, e) == cells
  {
  }

  lemma {:induction false} HandledAllConcat(cells: seq<Value>, xs: seq<Event>, ys: seq<Event>)
    ensures HandledAll(cells, xs + ys) == HandledAll(HandledAll(cells, xs), ys)
    decreases |xs|
  {
    if xs == [] {
      assert xs + ys == ys;
    } else {
      assert (xs + ys)[0] == xs[0] && (xs + ys)[1..] == xs[1..] + ys;
      HandledAllConcat(Handled(cells, xs[0]), xs[1..], ys);
    }
  }

  /** The four events of `event_producer`. */
  function ProducerEvents(): seq<Event> {
    [ Event(AddCell, Str("print('Hola mundo')")),
      Event(ExecuteCell, Int(0)),
      Event(SaveNotebook, Nothing),
      Event(RemoveCell, Int(0)) ]
  }

  /** Handling the producer's events on an empty notebook adds one cell and removes it again. */
  lemma {:induction false} ProducerLeavesNoCells()
    ensures HandledAll([], ProducerEvents()) == []
  {
    var es := ProducerEvents();
    var c := Str("print('Hola mundo')");
    assert HandledAll([], es) == HandledAll([c], es[1..]);
    assert HandledAll([c], es[1..]) == HandledAll([c], es[2..]);
    assert HandledAll([c], es[2..]) == HandledAll([c], es[3..]);
    assert HandledAll([c], es[3..]) == HandledAll(CellRemoved([c], 0), es[4..]);
  }

  class Notebook {
    var cells: seq<Value>

    constructor ()
      ensures cells == []
    {
      cells := [];
    }

    /** `add_cell`: the content goes at the end. */
    method AddCell(content: Value)
      modifies this
      ensures cells == old(cells) + [content]
    {
      cells := cells + [content];
    }

    /** `remove_cell`: returns the removed cell, or `None` for an index out of range. */
    method RemoveCell(index: int) returns (removed: Option<Value>)
      modifies this
      ensures cells == CellRemoved(old(cells), index)
      ensures removed == if 0 <= index < |old(cells)| then Some(old(cells)[index]) else None
    {
      if 0 <= index < |cells| {
        removed := Some(cells[index]);
        cells := cells[..index] + cells[index + 1..];
      } else {
        removed := None;
      }
    }

    /** `execute_cell`: reads the cell at the index, if there is one; the cells stay as they are. */
    method ExecuteCell(index: int) returns (executed: Option<Value>)
      ensures 0 <= index < |cells| <==> executed.Some?
      ensures executed.Some? ==> executed.value == cells[index]
    {
      if 0 <= index < |cells| {
        executed := Some(cells[index]);
      } else {
        executed := None;
      }
    }

    /** `save_notebook`: reports the number of cells; the cells stay as they are. */
    method SaveNotebook() returns (count: nat)
      ensures count == |cells|
    {
      count := |cells|;
    }
  }

  class EventLoop {
    var queue: seq<Event>
    const notebook: Notebook

    constructor ()
      ensures queue == [] && fresh(notebook) && notebook.cells == []
    {
      queue := [];
      notebook := new Notebook();
    }

    /** The producer appends an event at the back of the queue. */
    method Post(e: Event)
      modifies this`queue
      ensures queue == old(queue) + [e]
    {
      queue := queue + [e];
    }

    /**
     * One pass of the consumer: the front event, if any, is taken off the
     * queue and handed to the handler for its type; a `TypeError` from the
     * handler is caught and changes nothing.
     */
    method DispatchOne() returns (dispatched: Option<Event>)
      modifies this`queue, notebook
      ensures old(queue) == [] ==> dispatched == None && queue == [] && notebook.cells == old(notebook.cells)
      ensures old(queue) != [] ==>
        && dispatched == Some(old(queue)[0]) && queue == old(queue)[1..]
        && notebook.cells == Handled(old(notebook.cells), old(queue)[0])
    {
      if queue == [] {
        return None;
      }
      var e := queue[0];
      queue := queue[1..];
      dispatched := Some(e);
      match e.eventType
      case AddCell =>
        notebook.AddCell(e.data);
      case RemoveCell =>
        if e.data.Int? {
          var _ := notebook.RemoveCell(e.data.n);
        }
      case ExecuteCell =>
        if e.data.Int? {
          var _ := notebook.ExecuteCell(e.data.n);
        }
      case SaveNotebook =>
        var _ := notebook.SaveNotebook();
    }

    /** The consumer runs until the queue is empty, in FIFO order. */
    method Drain()
      modifies this`queue, notebook
      ensures queue == []
      ensures notebook.cells == HandledAll(old(notebook.cells), old(queue))
    {
      while queue != []
        invariant HandledAll(notebook.cells, queue) == HandledAll(old(notebook.cells), old(queue))
        decreases |queue|
      {
        var _ := DispatchOne();
      }
    }
  }

  /** The program's run: the producer's four events, consumed in order, leave the notebook empty. */
  method ProducerConsumerScenario() returns (cells: seq<Value>)
    ensures cells == []
  {
    var loop := new EventLoop();
    var es := ProducerEvents();
    for i := 0 to |es|
      invariant loop.queue == es[..i]
      invariant loop.notebook.cells == []
    {
      loop.Post(es[i]);
      assert es[..i + 1] == es[..i] + [es[i]];
    }
    assert es[..|es|] == es;
    loop.Drain();
    ProducerLeavesNoCells();
    cells := loop.notebook.cells;
  }
}
