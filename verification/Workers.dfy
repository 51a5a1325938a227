/** The queue, the pool and the worker routine as objects, each run by one thread at a time. */
module Workers {
  import opened Wrappers
  import opened Protocol

  class Queue<T(0)> {
    var messageList: seq<T>

    constructor ()
      ensures messageList == []
    {
      messageList := [];
    }

    /** The critical section of `PopOrWait` once the wait is over. */
    method PopFront() returns (message: T)
      requires messageList != []
      modifies this
      ensures old(messageList) == [message] + messageList
    {
      message := messageList[0];
      messageList := messageList[1..];
    }

    /** The pop that does not wait. */
    method Pop() returns (message: Option<T>)
      modifies this
      ensures match message
              case None => old(messageList) == [] == messageList
              case Some(m) => old(messageList) == [m] + messageList
    {
      if messageList == [] {
        return None;
      }
      var m := PopFront();
      return Some(m);
    }

    method Clear()
      modifies this
      ensures messageList == []
    {
      messageList := [];
    }

    method Push(message: T)
      modifies this
      ensures messageList == old(messageList) + [message]
    {
      messageList := messageList + [message];
    }
  }

  class Connection {
    var open: bool

    constructor ()
      ensures open
    {
      open := true;
    }

    method Close()
      modifies this
      ensures !open
    {
      open := false;
    }
  }

  class ConnectionPool {
    var connections: set<Connection>

    constructor ()
      ensures connections == {}
    {
      connections := {};
    }

    method Start(c: Connection)
      modifies this
      ensures connections == old(connections) + {c}
    {
      connections := connections + {c};
    }

    method Close(c: Connection)
      modifies this, c
      ensures connections == old(connections) - {c} && !c.open
    {
      connections := connections - {c};
      c.Close();
    }

    /** All that were in the pool are closed, no other is touched, and the pool is empty. */
    method CloseAll()
      modifies this, connections
      ensures connections == {} && forall c <- old(connections) :: !c.open
    {
      var rest := connections;
      while rest != {}
        invariant rest <= connections && connections == old(connections)
        invariant forall c <- connections - rest :: !c.open
        decreases |rest|
      {
        var c :| c in rest;
        c.Close();
        rest := rest - {c};
      }
      connections := {};
    }
  }

  /** The number of entries before the first null one. */
  function UntilNull(queue: seq<Item>): (k: nat)
    requires None in queue
    ensures k < |queue| && queue[k] == None && None !in queue[..k]
  {
    if queue[0] == None then 0
    else
      assert None in queue[1..];
      assert queue[..UntilNull(queue[1..]) + 1] == [queue[0]] + queue[1..][..UntilNull(queue[1..])];
      1 + UntilNull(queue[1..])
  }

  lemma OneMoreBefore(queue: seq<Item>)
    requires None in queue && queue[0] != None
    ensures None in queue[1..] && UntilNull(queue) == 1 + UntilNull(queue[1..])
    ensures Ids(queue[..UntilNull(queue)]) == [queue[0].value] + Ids(queue[1..][..UntilNull(queue[1..])])
    ensures queue[UntilNull(queue) + 1..] == queue[1..][UntilNull(queue[1..]) + 1..]
  {
    var k := UntilNull(queue[1..]);
    assert queue[..k + 1] == [queue[0]] + queue[1..][..k];
    assert queue[..k + 1][1..] == queue[1..][..k];
  }

  /**
   * The routine of a worker that nobody interferes with: it handles what comes before the null
   * connection, in order, and passes that one on.
   */
  method WorkerRoutine(queue: Queue<Item>) returns (handled: seq<Id>)
    requires None in queue.messageList
    modifies queue
    ensures var was := old(queue.messageList);
            && handled == Ids(was[..UntilNull(was)])
            && queue.messageList == was[UntilNull(was) + 1..] + [None]
  {
    handled := [];
    ghost var was := queue.messageList;
    ghost var all := Ids(was[..UntilNull(was)]);
    assert [] + all == all;
    while true
      invariant None in queue.messageList
      invariant var now := queue.messageList;
                && handled + Ids(now[..UntilNull(now)]) == all
                && now[UntilNull(now) + 1..] == was[UntilNull(was) + 1..]
      decreases |queue.messageList|
    {
      ghost var now := queue.messageList;
      var connection := queue.PopFront();
      assert queue.messageList == now[1..] && connection == now[0];
      if connection == None {
        assert now[..0] == [] && handled + [] == handled;
        queue.Push(None);
        break;
      }
      OneMoreBefore(now);
      ghost var rest := Ids(now[1..][..UntilNull(now[1..])]);
      assert handled + ([connection.value] + rest) == handled + [connection.value] + rest;
      handled := handled + [connection.value];
    }
  }

  /** Stopping workers that run one after another: none handles anything more, and the null connection is left. */
  method Stop(queue: Queue<Item>, workers: nat) returns (handled: seq<Id>)
    modifies queue
    ensures handled == [] && queue.messageList == [None]
  {
    queue.Clear();
    queue.Push(None);
    handled := [];
    for i := 0 to workers
      invariant handled == [] && queue.messageList == [None]
    {
      ghost var left: seq<Item> := [None];
      assert UntilNull(left) == 0 && left[..0] == [] && left[1..] + [None] == left;
      var more := WorkerRoutine(queue);
      handled := handled + more;
    }
  }
}
