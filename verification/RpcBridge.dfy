/** The object behind one end of the sandbox RPC: a counter, the table of
    pending futures, and what its methods do to them. `SandboxRpc` says what
    these effects amount to over whole runs of both processes. */
module RpcBridge {
  import opened SandboxRpc
  import opened Options

  class FutureCell {
    ghost const id: nat
    var state: Future

    constructor (ghost id: nat)
      ensures this.id == id && state == Waiting
    {
      this.id := id;
      state := Waiting;
    }
  }

  function AfterExit(f: Future, failed: bool): Future {
    if failed && f == Waiting then ReaderGone else f
  }

  lemma CallIs(e: End, side: Side, issuer: Option<nat>, written: bool, now: nat)
    requires e.counter + 1 !in e.pending
    ensures var id, after := e.counter + 1, Call(e, side, issuer, written, now);
      && after.counter == id && after.reading == e.reading && after.futures == e.futures[id := Waiting]
      && after.pending == if written || side == Worker then e.pending + {id} else e.pending + {id} - {id}
  {
  }

  lemma ExitIs(e: End)
    ensures var after := SandboxRpc.StopReading(e, Parent);
      && after.counter == e.counter && after.pending == {} && !after.reading
      && after.futures.Keys == e.futures.Keys
      && forall id :: id in e.futures ==> after.futures[id] == AfterExit(e.futures[id], id in e.pending)
  {
  }

  class Bridge {
    const side: Side
    var counter: nat
    var pending: map<nat, FutureCell>
    var reading: bool
    var written: seq<Line>               // lines handed to the pipe so far
    ghost var issued: map<nat, FutureCell>  // every future ever created, by request number

    constructor (side: Side)
      ensures this.side == side && Represents(FreshEnd) && written == []
    {
      this.side := side;
      counter, pending, reading, written, issued := 0, map[], true, [], map[];
    }

    ghost function Cells(): set<object>
      reads this
    {
      set id | id in issued :: issued[id]
    }

    /** The fields and the futures are those of `e`. */
    ghost predicate Represents(e: End)
      reads this, Cells()
    {
      Holds(e.counter, e.pending, e.futures, e.reading)
    }

    ghost predicate Holds(last: nat, ids: set<nat>, states: map<nat, Future>, alive: bool)
      reads this, Cells()
    {
      && counter == last && reading == alive
      && pending.Keys == ids && issued.Keys == states.Keys
      && (forall id :: id in issued ==> 1 <= id <= counter)
      && (forall id :: id in pending ==> id in issued && pending[id] == issued[id])
      && (forall id :: id in issued ==> issued[id].id == id && issued[id].state == states[id])
    }

    /** Numbers a new request and registers its future. */
    method Register(ghost ids: set<nat>, ghost states: map<nat, Future>) returns (id: nat, future: FutureCell)
      requires Holds(counter, ids, states, reading)
      modifies this
      ensures fresh(future) && id == old(counter) + 1 && id !in ids
      ensures issued == old(issued)[id := future] && written == old(written)
      ensures Holds(id, ids + {id}, states[id := Waiting], old(reading))
    {
      counter := counter + 1;
      id := counter;
      future := new FutureCell(id);
      pending := pending[id := future];
      issued := issued[id := future];
    }

    method Unregister(id: nat, ghost ids: set<nat>, ghost states: map<nat, Future>)
      requires Holds(counter, ids, states, reading)
      modifies this`pending
      ensures pending.Keys == ids - {id}
      ensures Holds(counter, ids - {id}, states, reading)
    {
      pending := pending - {id};
    }

    method WriteLine(line: Line, ghost ids: set<nat>, ghost states: map<nat, Future>)
      requires Holds(counter, ids, states, reading)
      modifies this`written
      ensures written == old(written) + [line]
      ensures Holds(counter, ids, states, reading)
    {
      written := written + [line];
    }

    /** Starts a request; `pipeWorks` says whether writing the line succeeds. */
    method Request(pipeWorks: bool, ghost e: End, ghost issuer: Option<nat>, ghost now: nat)
        returns (id: nat, future: FutureCell)
      requires Represents(e)
      modifies this
      ensures fresh(future) && id == old(counter) + 1
      ensures issued == old(issued)[id := future]
      ensures Represents(Call(e, side, issuer, pipeWorks, now))
      ensures written == old(written) + if pipeWorks then [SandboxRpc.Request(id)] else []
    {
      ghost var ids := e.pending + {e.counter + 1};
      ghost var states := e.futures[e.counter + 1 := Waiting];
      id, future := Register(e.pending, e.futures);
      if pipeWorks {
        WriteLine(SandboxRpc.Request(id), ids, states);
      } else if side == Parent {
        Unregister(id, ids, states);
        ids := ids - {id};
      }
      CallIs(e, side, issuer, pipeWorks, now);
      Same(Call(e, side, issuer, pipeWorks, now), id, ids, states, e.reading);
    }

    lemma Same(e: End, last: nat, ids: set<nat>, states: map<nat, Future>, alive: bool)
      requires Holds(last, ids, states, alive)
      requires e.counter == last && e.pending == ids && e.futures == states && e.reading == alive
      ensures Represents(e)
    {
    }

    /** Handles one line; a request is handed to a task of its own. */
    method ReadLine(line: Line, ghost e: End) returns (task: Option<nat>)
      requires Represents(e)
      modifies this, Cells()
      ensures issued == old(issued) && written == old(written)
      ensures Represents(Receive(e, line))
      ensures task == if line.Request? then Some(line.id) else None
      ensures line.Response? && line.id in old(pending) && old(pending[line.id].state) == Waiting ==>
        old(pending)[line.id].state == Completed(line.answer)
      ensures pending == if line.Response? then old(pending) - {line.id} else old(pending)
      ensures forall id :: id in issued && !(line.Response? && line.id == id && id in old(pending)) ==>
        issued[id].state == old(issued[id].state)
    {
      match line
      case Noise => task := None;
      case Request(id) => task := Some(id);
      case Response(id, answer) =>
        task := None;
        if id in pending {
          var future := pending[id];
          pending := pending - {id};
          if future.state == Waiting {
            future.state := Completed(answer);
          }
        }
    }

    /** The caller of `id` resumes, by answer, failure or timeout. */
    method Return(id: nat, ghost e: End)
      requires Represents(e)
      modifies this
      ensures issued == old(issued) && written == old(written)
      ensures Represents(Resume(e, id))
    {
      Unregister(id, e.pending, e.futures);
    }

    method TimeOut(id: nat, future: FutureCell, ghost e: End)
      requires Represents(e) && id in issued && issued[id] == future && future.state == Waiting
      modifies future
      ensures Represents(Expire(e, id))
    {
      future.state := Cancelled;
    }

    /** The reader ends: the framework side fails whatever is pending. */
    method StopReading(ghost e: End)
      requires Represents(e)
      modifies this, Cells()
      ensures issued == old(issued) && written == old(written)
      ensures Represents(SandboxRpc.StopReading(e, side))
    {
      reading := false;
      if side == Parent {
        FailPending(e.futures);
        pending := map[];
        ExitIs(e);
      }
    }

    /** Fails every registered future that is still waiting. */
    method FailPending(ghost states: map<nat, Future>)
      requires Holds(counter, pending.Keys, states, reading)
      modifies Cells()
      ensures forall id :: id in issued ==>
        issued[id].id == id && issued[id].state == AfterExit(states[id], id in pending)
    {
      var ids := pending.Keys;
      while ids != {}
        invariant ids <= pending.Keys
        invariant forall id :: id in issued ==> issued[id].id == id
        invariant forall id :: id in issued ==> issued[id].state == AfterExit(states[id], id in pending && id !in ids)
      {
        var id :| id in ids;
        if pending[id].state == Waiting {
          pending[id].state := ReaderGone;
        }
        ids := ids - {id};
      }
    }
  }
}
