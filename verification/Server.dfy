/**
 * The server's callbacks and the workers' critical sections as methods on shared fields; each does
 * exactly one step of the protocol and keeps all of its invariants, and so does any schedule of them.
 */
module Server {
  import opened Wrappers
  import opened Protocol
  import opened ProtocolRuns

  class Server {
    var messageList: seq<Item>
    var workers: seq<Worker>
    var conns: map<Id, Conn>
    var connections: set<Id>
    var loop: Loop
    var notify: bool
    var halt: Halt
    ghost var pushed: seq<Id>
    ghost var popped: seq<Id>
    ghost var cleared: seq<Id>

    ghost function View(): State
      reads this
    {
      State(messageList, workers, conns, connections, loop, notify, pushed, popped, cleared, halt)
    }

    ghost predicate Valid()
      reads this
    {
      Inv(View())
    }

    constructor (count: nat)
      ensures View() == Init(count) && Valid()
    {
      messageList, conns, connections, loop, notify := [], map[], {}, Serving, false;
      workers := Repeat(count);
      pushed, popped, cleared, halt := [], [], [], Going;
      new;
      InitInv(count);
    }

    // ----- The event loop

    method OnAccept(id: Id)
      requires Valid() && Enabled(View(), Accept(id))
      modifies this
      ensures Valid() && View() == Do(old(View()), Accept(id))
    {
      hide Inv;
      InvKept(View(), Accept(id));
      connections := connections + {id};
      conns := conns[id := NEW_CONNECTION];
    }

    /** `read` says how the read ended and what the parser made of it. */
    method OnRead(id: Id, read: ReadResult)
      requires Valid() && Enabled(View(), Step.OnRead(id, read))
      modifies this
      ensures Valid() && View() == Do(old(View()), Step.OnRead(id, read))
    {
      hide Inv;
      InvKept(View(), Step.OnRead(id, read));
      if read == ReadAborted {
        conns := conns[id := conns[id].(phase := Done)];
        return;
      }
      if read == ReadFailed {
        Close(id);
        return;
      }
      if read == Bad {
        conns := conns[id := conns[id].(requests := conns[id].requests + 1)];
        SendResponse(id);
        assert conns == DoRead(old(View()), id, read).conns;
        return;
      }
      if read == More {
        return;
      }
      if read == ReadThrew {
        halt := Crashed;
        return;
      }
      if read == ReadHung {
        halt := Stuck;
        return;
      }
      conns := conns[id := conns[id].(requests := conns[id].requests + 1)];
      Enqueue(id);
      assert conns == DoRead(old(View()), id, read).conns;
    }

    method OnWrite(id: Id, write: WriteResult)
      requires Valid() && Enabled(View(), Step.OnWrite(id, write))
      modifies this
      ensures Valid() && View() == Do(old(View()), Step.OnWrite(id, write))
    {
      hide Inv;
      InvKept(View(), Step.OnWrite(id, write));
      if write == WriteAborted {
        conns := conns[id := conns[id].(phase := Done)];
      } else if write == WriteFailed {
        Close(id);
      } else {
        conns := conns[id := conns[id].(written := conns[id].written + 1)];
        if write.keepAlive {
          conns := conns[id := conns[id].(phase := Reading)];
        } else {
          Close(id);
        }
        assert conns == DoWrite(old(View()), id, write).conns;
      }
    }

    /** Starts writing the response. */
    method SendResponse(id: Id)
      requires id in conns
      modifies this`conns
      ensures conns == old(conns)[id := old(conns[id]).(phase := Writing, responses := old(conns[id]).responses + 1)]
    {
      conns := conns[id := conns[id].(responses := conns[id].responses + 1)];
      conns := conns[id := conns[id].(phase := Writing)];
    }

    method Close(id: Id)
      requires id in conns
      modifies this`conns, this`connections
      ensures connections == old(connections) - {id}
      ensures conns == old(conns)[id := old(conns[id]).(open := false, phase := Done)]
    {
      connections := connections - {id};
      conns := conns[id := conns[id].(open := false, phase := Done)];
    }

    /** The push; its notification is a step of its own. */
    method Enqueue(id: Id)
      requires id in conns
      modifies this`conns, this`messageList, this`notify, this`pushed
      ensures conns == old(conns)[id := old(conns[id]).(phase := Queued)]
      ensures messageList == old(messageList) + [Some(id)] && notify && pushed == old(pushed) + [id]
    {
      conns := conns[id := conns[id].(phase := Queued)];
      messageList := messageList + [Some(id)];
      pushed := pushed + [id];
      notify := true;
    }

    method NotifyOne(woken: Option<nat>)
      requires Valid() && Enabled(View(), Notify(woken))
      modifies this
      ensures Valid() && View() == Do(old(View()), Notify(woken))
    {
      hide Inv;
      InvKept(View(), Notify(woken));
      if woken.Some? {
        workers := workers[woken.value := Awakened];
      }
      notify := false;
    }

    /** The parts of the stop handler, up to waiting for the workers. */
    method OnSignal()
      requires Valid() && Enabled(View(), Stop)
      modifies this
      ensures Valid() && View() == Do(old(View()), Stop)
    {
      hide Inv;
      InvKept(View(), Stop);
      loop := Stopping;
    }

    method ClearQueue()
      requires Valid() && Enabled(View(), Clear)
      modifies this
      ensures Valid() && View() == Do(old(View()), Clear)
    {
      hide Inv;
      InvKept(View(), Clear);
      var gone := Ids(messageList);
      messageList := [];
      conns := map id | id in conns :: if id in gone then conns[id].(phase := Dropped) else conns[id];
      cleared := cleared + gone;
      loop := Cleared;
    }

    method PushSentinel()
      requires Valid() && Enabled(View(), PushNull)
      modifies this
      ensures Valid() && View() == Do(old(View()), PushNull)
    {
      hide Inv;
      InvKept(View(), PushNull);
      messageList := messageList + [None];
      notify := true;
      loop := Joining;
    }

    /** All workers have left. */
    method JoinWorkers()
      requires Valid() && Enabled(View(), Join)
      modifies this
      ensures Valid() && View() == Do(old(View()), Join)
    {
      hide Inv;
      InvKept(View(), Join);
      loop := Closing;
    }

    method CloseConnections()
      requires Valid() && Enabled(View(), CloseAll)
      modifies this
      ensures Valid() && View() == Do(old(View()), CloseAll)
    {
      hide Inv;
      InvKept(View(), CloseAll);
      CloseSockets();
      connections := {};
      loop := Ended;
    }

    /** Closes the sockets of the pool one by one. */
    method CloseSockets()
      modifies this`conns
      ensures conns == DoCloseAll(old(View())).conns
    {
      var rest := connections;
      ghost var before := conns;
      while rest != {}
        invariant rest <= connections && conns.Keys == before.Keys
        invariant forall id <- before :: conns[id] == Closed(before[id], id in connections && id !in rest)
        decreases |rest|
      {
        var id :| id in rest;
        if id in conns {
          conns := conns[id := conns[id].(open := false)];
        }
        rest := rest - {id};
      }
      assert conns == DoCloseAll(old(View())).conns;
    }

    static function Closed(c: Conn, closed: bool): Conn {
      if closed then c.(open := false) else c
    }

    // ----- A worker

    /** One look at the queue: the worker goes to sleep or takes the first entry. */
    method PopOrWait(w: nat) returns (slept: bool)
      requires Valid() && Looking(View(), w)
      modifies this
      ensures slept == (old(messageList) == [])
      ensures Valid() && View() == Do(old(View()), if slept then Sleep(w) else Pop(w))
    {
      hide Inv;
      InvKept(View(), if messageList == [] then Sleep(w) else Pop(w));
      if messageList == [] {
        workers := workers[w := Sleeping];
        return true;
      }
      var connection := messageList[0];
      messageList := messageList[1..];
      if connection == None {
        workers := workers[w := Passing];
      } else {
        workers := workers[w := Handling(connection.value)];
        popped := popped + [connection.value];
        if connection.value in conns {
          conns := conns[connection.value := conns[connection.value].(phase := Held)];
        }
      }
      return false;
    }

    /** The condition variable wakes a worker for no reason. */
    method WakeSpuriously(w: nat)
      requires Valid() && Enabled(View(), Wake(w))
      modifies this
      ensures Valid() && View() == Do(old(View()), Wake(w))
    {
      hide Inv;
      InvKept(View(), Wake(w));
      workers := workers[w := Awakened];
    }

    method HandleConnection(w: nat)
      requires Valid() && Enabled(View(), Respond(w))
      modifies this
      ensures Valid() && View() == Do(old(View()), Respond(w))
    {
      hide Inv;
      InvKept(View(), Respond(w));
      SendResponse(workers[w].id);
      workers := workers[w := Ready];
    }

    /** Nothing catches what a handler throws. */
    method HandlerThrew(w: nat)
      requires Valid() && Enabled(View(), Throw(w))
      modifies this
      ensures Valid() && View() == Do(old(View()), Throw(w))
    {
      hide Inv;
      InvKept(View(), Throw(w));
      halt := Crashed;
    }

    method PassOnNull(w: nat)
      requires Valid() && Enabled(View(), PassOn(w))
      modifies this
      ensures Valid() && View() == Do(old(View()), PassOn(w))
    {
      hide Inv;
      InvKept(View(), PassOn(w));
      messageList := messageList + [None];
      workers := workers[w := Notifying];
    }

    method NotifyAndLeave(w: nat, woken: Option<nat>)
      requires Valid() && Enabled(View(), Exit(w, woken))
      modifies this
      ensures Valid() && View() == Do(old(View()), Exit(w, woken))
    {
      hide Inv;
      InvKept(View(), Exit(w, woken));
      if woken.Some? {
        workers := workers[woken.value := Awakened];
      }
      workers := workers[w := Exited];
    }

    // ----- Schedules

    method Take(step: Step)
      requires Valid() && Enabled(View(), step)
      modifies this
      ensures Valid() && View() == Do(old(View()), step)
    {
      hide Inv, Do, Enabled;
      match step
      case Accept(id) => OnAccept(id);
      case OnRead(id, read) => OnRead(id, read);
      case OnWrite(id, write) => OnWrite(id, write);
      case Notify(woken) => NotifyOne(woken);
      case Stop => OnSignal();
      case Clear => ClearQueue();
      case PushNull => PushSentinel();
      case Join => JoinWorkers();
      case CloseAll => CloseConnections();
      case Pop(w) => LookAt(w, step);
      case Sleep(w) => LookAt(w, step);
      case Wake(w) => WakeSpuriously(w);
      case Respond(w) => HandleConnection(w);
      case Throw(w) => HandlerThrew(w);
      case PassOn(w) => PassOnNull(w);
      case Exit(w, woken) => NotifyAndLeave(w, woken);
    }

    /** Whether a look at the queue is a pop or a sleep is up to the queue. */
    method LookAt(w: nat, ghost step: Step)
      requires Valid() && Enabled(View(), step) && (step == Pop(w) || step == Sleep(w))
      modifies this
      ensures Valid() && View() == Do(old(View()), step)
    {
      hide Inv, Do;
      var slept := PopOrWait(w);
    }

    /** Any schedule of the threads at all: the shared fields follow the run, and the invariants hold throughout. */
    method Schedule(steps: seq<Step>)
      requires Valid() && Run(View(), steps).Some?
      modifies this
      ensures Valid() && Run(old(View()), steps) == Some(View())
    {
      hide Inv, Do, Enabled;
      for i := 0 to |steps|
        invariant Valid() && Run(View(), steps[i..]) == Run(old(View()), steps)
      {
        assert steps[i..][0] == steps[i] && steps[i..][1..] == steps[i + 1..];
        Take(steps[i]);
      }
    }
  }
}
