/** What every run keeps of the connections: who has them, and how many responses they have been given. */
module ProtocolConns {
  import opened Wrappers
  import opened Protocol
  import opened ProtocolSafety

  // ----- One owner

  predicate Distinct(ids: seq<Id>) {
    forall i, j :: 0 <= i < j < |ids| ==> ids[i] != ids[j]
  }

  /** A connection waits in the queue once, or is held by one worker, or neither, as its phase says. */
  ghost predicate Owned(s: State) {
    && Distinct(Ids(s.queue))
    && (forall id <- Ids(s.queue) :: InPhase(s, id, Queued))
    && (forall id <- s.conns :: s.conns[id].phase == Queued ==> id in Ids(s.queue))
    && (forall id <- s.conns :: s.conns[id].phase == Held ==> Handling(id) in s.workers)
    && Holders(s)
  }

  ghost predicate Holders(s: State) {
    && (forall w :: 0 <= w < |s.workers| && s.workers[w].Handling? ==> InPhase(s, s.workers[w].id, Held))
    && (forall v, w :: 0 <= v < w < |s.workers| && s.workers[v].Handling? ==> s.workers[v] != s.workers[w])
  }

  lemma StillHandling(ws: seq<Worker>, w: nat, worker: Worker, id: Id)
    requires w < |ws| && Handling(id) in ws && ws[w] != Handling(id)
    ensures Handling(id) in ws[w := worker]
  {
    var v :| 0 <= v < |ws| && ws[v] == Handling(id);
    assert ws[w := worker][v] == Handling(id);
  }

  /** A worker that handles nothing turns to something else, or to a connection nobody has. */
  lemma WorkerTurns(s: State, w: nat, worker: Worker)
    requires Owned(s) && w < |s.workers| && !s.workers[w].Handling? && !worker.Handling?
    ensures Owned(SetWorker(s, w, worker))
  {
    hide Ids;
    forall id <- s.conns | s.conns[id].phase == Held ensures Handling(id) in s.workers[w := worker] {
      StillHandling(s.workers, w, worker, id);
    }
  }

  lemma WorkersWoken(s: State, woken: Option<nat>)
    requires Owned(s) && CanWake(s.workers, woken)
    ensures Owned(s.(workers := Wakened(s.workers, woken)))
  {
    hide Owned;
    if woken.Some? {
      WorkerTurns(s, woken.value, Awakened);
    }
  }

  /** A connection nobody has changes phase, and nobody gets it. */
  lemma ConnTurns(s: State, id: Id, c: Conn)
    requires Owned(s) && c.phase != Queued && c.phase != Held
    requires id in s.conns ==> s.conns[id].phase != Queued && s.conns[id].phase != Held
    ensures Owned(SetConn(s, id, c))
  {
    hide Ids;
  }

  lemma Enqueued(s: State, id: Id, c: Conn)
    requires Owned(s) && InPhase(s, id, Reading) && c.phase == Queued
    ensures Owned(SetConn(s, id, c).(queue := s.queue + [Some(id)]))
  {
    hide Ids, Distinct;
    IdsAppend(s.queue, Some(id));
    assert id !in Ids(s.queue);
    OneMoreDistinct(Ids(s.queue), id);
  }

  lemma OneMoreDistinct(ids: seq<Id>, id: Id)
    requires Distinct(ids) && id !in ids
    ensures Distinct(ids + [id])
    ensures forall x :: x in ids + [id] <==> x == id || x in ids
  {
  }

  lemma HeadIsQueued(s: State)
    requires Owned(s) && s.queue != [] && s.queue[0].Some?
    ensures var id := s.queue[0].value;
            && InPhase(s, id, Queued)
            && Ids(s.queue) == [id] + Ids(s.queue[1..])
            && id !in Ids(s.queue[1..]) && Distinct(Ids(s.queue[1..]))
  {
    hide Ids;
    FirstId(s.queue);
    var ids, rest := Ids(s.queue), Ids(s.queue[1..]);
    assert ids[0] == s.queue[0].value && ids[0] in ids;
    assert forall i :: 0 <= i < |rest| ==> rest[i] == ids[i + 1];
  }

  lemma Dequeued(s: State, w: nat, id: Id)
    requires Owned(s) && Looking(s, w) && s.queue != [] && s.queue[0] == Some(id)
    ensures id in s.conns && s.conns[id].phase == Queued
    ensures Owned(SetConn(SetWorker(s, w, Handling(id)), id, s.conns[id].(phase := Held)).(queue := s.queue[1..]))
  {
    hide Ids;
    HeadIsQueued(s);
    var ws, rest := s.workers[w := Handling(id)], Ids(s.queue[1..]);
    assert forall x :: x in [id] + rest <==> x == id || x in rest;
    assert ws[w] == Handling(id);
    forall x <- s.conns | x != id && s.conns[x].phase == Held ensures Handling(x) in ws {
      StillHandling(s.workers, w, Handling(id), x);
    }
  }

  lemma Responded(s: State, w: nat)
    requires Owned(s) && w < |s.workers| && s.workers[w].Handling?
    ensures s.workers[w].id in s.conns
    ensures Owned(DoRespond(s, w))
  {
    hide Ids;
    var id := s.workers[w].id;
    assert InPhase(s, id, Held);
    forall x <- s.conns | x != id && s.conns[x].phase == Held ensures Handling(x) in s.workers[w := Ready] {
      StillHandling(s.workers, w, Ready, x);
    }
  }

  lemma NullMoved(s: State)
    requires Owned(s)
    ensures Owned(s.(queue := s.queue + [None]))
    ensures s.queue != [] && s.queue[0] == None ==> Owned(s.(queue := s.queue[1..]))
  {
    hide Ids;
    IdsAppend(s.queue, None);
    assert Ids(s.queue) + [] == Ids(s.queue);
    if s.queue != [] {
      FirstId(s.queue);
      assert [] + Ids(s.queue[1..]) == Ids(s.queue[1..]);
    }
  }

  lemma AllCleared(s: State)
    requires Owned(s)
    ensures Owned(DoClear(s))
  {
    hide Ids;
    NoIds();
  }

  /** Parts of the state that ownership does not depend on. */
  lemma OwnedIgnores(s: State, t: State)
    requires Owned(s) && t == s.(pool := t.pool, loop := t.loop, notify := t.notify, pushed := t.pushed,
                                 popped := t.popped, cleared := t.cleared, halt := t.halt)
    ensures Owned(t)
  {
    hide Ids;
  }

  lemma AllClosed(s: State)
    requires Owned(s)
    ensures Owned(DoCloseAll(s))
  {
    hide Ids;
  }

  lemma OwnedByRead(s: State, id: Id, read: ReadResult)
    requires Owned(s) && InPhase(s, id, Reading)
    ensures Owned(DoRead(s, id, read))
  {
    hide Owned;
    var t, c := DoRead(s, id, read), s.conns[id];
    if read == Whole {
      var d := c.(phase := Queued, requests := c.requests + 1);
      Enqueued(s, id, d);
      OwnedIgnores(SetConn(s, id, d).(queue := s.queue + [Some(id)]), t);
    } else if read.More? || read.ReadThrew? || read.ReadHung? {
      OwnedIgnores(s, t);
    } else {
      ConnTurns(s, id, t.conns[id]);
      OwnedIgnores(SetConn(s, id, t.conns[id]), t);
    }
  }

  lemma OwnedByWrite(s: State, id: Id, write: WriteResult)
    requires Owned(s) && InPhase(s, id, Writing)
    ensures Owned(DoWrite(s, id, write))
  {
    hide Owned;
    var t := DoWrite(s, id, write);
    ConnTurns(s, id, t.conns[id]);
    OwnedIgnores(SetConn(s, id, t.conns[id]), t);
  }

  lemma OwnedByPop(s: State, w: nat)
    requires Owned(s) && Looking(s, w) && s.queue != []
    ensures Owned(DoPop(s, w))
  {
    hide Owned;
    if s.queue[0] == None {
      NullMoved(s);
      WorkerTurns(s.(queue := s.queue[1..]), w, Passing);
    } else {
      var id := s.queue[0].value;
      Dequeued(s, w, id);
      OwnedIgnores(SetConn(SetWorker(s, w, Handling(id)), id, s.conns[id].(phase := Held)).(queue := s.queue[1..]),
                   DoPop(s, w));
    }
  }

  lemma OwnedKept(s: State, step: Step)
    requires Owned(s) && Enabled(s, step)
    ensures Owned(Do(s, step))
  {
    hide Owned, DoRead, DoWrite, DoPop, DoRespond, DoClear, DoCloseAll;
    match step
    case Accept(id) =>
      ConnTurns(s, id, NEW_CONNECTION);
      OwnedIgnores(SetConn(s, id, NEW_CONNECTION), Do(s, step));
    case OnRead(id, read) => OwnedByRead(s, id, read);
    case OnWrite(id, write) => OwnedByWrite(s, id, write);
    case Notify(woken) =>
      WorkersWoken(s, woken);
      OwnedIgnores(s.(workers := Wakened(s.workers, woken)), Do(s, step));
    case Stop => OwnedIgnores(s, Do(s, step));
    case Clear => AllCleared(s);
    case PushNull =>
      NullMoved(s);
      OwnedIgnores(s.(queue := s.queue + [None]), Do(s, step));
    case Join => OwnedIgnores(s, Do(s, step));
    case CloseAll => AllClosed(s);
    case Pop(w) => OwnedByPop(s, w);
    case Sleep(w) => WorkerTurns(s, w, Sleeping);
    case Wake(w) => WorkerTurns(s, w, Awakened);
    case Respond(w) => Responded(s, w);
    case Throw(w) => OwnedIgnores(s, Do(s, step));
    case PassOn(w) =>
      NullMoved(s);
      WorkerTurns(s.(queue := s.queue + [None]), w, Notifying);
    case Exit(w, woken) =>
      WorkersWoken(s, woken);
      WorkerTurns(s.(workers := Wakened(s.workers, woken)), w, Exited);
  }

  // ----- One response a request, and no read before it is written

  predicate Orderly(c: Conn) {
    && c.written <= c.responses <= c.requests <= c.written + 1
    && match c.phase
       case Reading => c.requests == c.written
       case Writing => c.responses == c.written + 1
       case Done => true
       case _ => c.responses == c.written && c.requests == c.written + 1
  }

  ghost predicate AllOrderly(s: State) {
    forall id <- s.conns :: Orderly(s.conns[id])
  }

  lemma OrderlySet(s: State, id: Id, c: Conn, t: State)
    requires AllOrderly(s) && Orderly(c) && t.conns == s.conns[id := c]
    ensures AllOrderly(t)
  {
  }

  lemma OrderlyByRead(s: State, id: Id, read: ReadResult)
    requires AllOrderly(s) && InPhase(s, id, Reading)
    ensures AllOrderly(DoRead(s, id, read))
  {
    hide AllOrderly;
    OrderlyConn(s, id);
    var t := DoRead(s, id, read);
    OrderlySet(s, id, t.conns[id], t);
  }

  lemma OrderlyByWrite(s: State, id: Id, write: WriteResult)
    requires AllOrderly(s) && InPhase(s, id, Writing)
    ensures AllOrderly(DoWrite(s, id, write))
  {
    hide AllOrderly;
    OrderlyConn(s, id);
    var t := DoWrite(s, id, write);
    OrderlySet(s, id, t.conns[id], t);
  }

  lemma OrderlyByPop(s: State, w: nat)
    requires AllOrderly(s) && Owned(s) && Looking(s, w) && s.queue != []
    ensures AllOrderly(DoPop(s, w))
  {
    hide AllOrderly, Owned, Ids;
    var t := DoPop(s, w);
    if s.queue[0].Some? {
      HeadIsQueued(s);
      OrderlyConn(s, s.queue[0].value);
      OrderlySet(s, s.queue[0].value, t.conns[s.queue[0].value], t);
    } else {
      OrderlySame(s, t);
    }
  }

  lemma OrderlyByRespond(s: State, w: nat)
    requires AllOrderly(s) && Owned(s) && w < |s.workers| && s.workers[w].Handling? && s.workers[w].id in s.conns
    ensures AllOrderly(DoRespond(s, w))
  {
    hide AllOrderly, Owned, Ids;
    var id, t := s.workers[w].id, DoRespond(s, w);
    HeldByWorker(s, w);
    OrderlyConn(s, id);
    OrderlySet(s, id, t.conns[id], t);
  }

  lemma OrderlyKept(s: State, step: Step)
    requires AllOrderly(s) && Owned(s) && Enabled(s, step)
    ensures AllOrderly(Do(s, step))
  {
    hide Ids, Owned, AllOrderly, Wakened, CanWake, DoRead, DoWrite, DoPop, DoRespond, DoClear, DoCloseAll;
    var t := Do(s, step);
    match step
    case Accept(id) => OrderlySet(s, id, NEW_CONNECTION, t);
    case OnRead(id, read) => OrderlyByRead(s, id, read);
    case OnWrite(id, write) => OrderlyByWrite(s, id, write);
    case Pop(w) => OrderlyByPop(s, w);
    case Respond(w) => OrderlyByRespond(s, w);
    case Clear => OrderlyCleared(s);
    case CloseAll => OrderlyClosed(s);
    case _ => OrderlySame(s, t);
  }

  lemma OrderlyConn(s: State, id: Id)
    requires AllOrderly(s) && id in s.conns
    ensures Orderly(s.conns[id])
  {
  }

  lemma HeldByWorker(s: State, w: nat)
    requires Owned(s) && w < |s.workers| && s.workers[w].Handling?
    ensures InPhase(s, s.workers[w].id, Held)
  {
    hide Ids;
  }

  lemma OrderlySame(s: State, t: State)
    requires AllOrderly(s) && s.conns == t.conns
    ensures AllOrderly(t)
  {
  }

  lemma OrderlyCleared(s: State)
    requires AllOrderly(s) && Owned(s)
    ensures AllOrderly(DoClear(s))
  {
    hide Ids;
  }

  lemma OrderlyClosed(s: State)
    requires AllOrderly(s)
    ensures AllOrderly(DoCloseAll(s))
  {
  }

  // ----- The pool

  /** The pool holds exactly the connections that are open, and all that anything is still done with. */
  ghost predicate Pooled(s: State) {
    PoolIsRight(s.pool, s.conns, s.loop == Ended)
  }

  ghost predicate PoolIsRight(pool: set<Id>, conns: map<Id, Conn>, ended: bool) {
    && pool <= conns.Keys
    && (forall id <- conns :: conns[id].open <==> id in pool)
    && (!ended ==> forall id <- conns :: conns[id].phase != Done ==> id in pool)
    && (ended ==> pool == {})
  }

  lemma PooledSet(s: State, id: Id, c: Conn, t: State)
    requires Pooled(s) && t.conns == s.conns[id := c] && t.loop == s.loop
    requires id in s.conns || s.loop != Ended
    requires t.pool == if id in s.conns && c.open then s.pool else if c.open then s.pool + {id} else s.pool - {id}
    requires id in s.conns && c.open ==> s.conns[id].open
    requires id in s.conns && s.conns[id].phase == Done ==> c.phase == Done
    requires !c.open && s.loop != Ended ==> c.phase == Done
    ensures Pooled(t)
  {
  }

  lemma PooledKept(s: State, step: Step)
    requires Pooled(s) && Owned(s) && Enabled(s, step)
    ensures Pooled(Do(s, step))
  {
    hide Ids, Owned, Pooled, Wakened, CanWake;
    var t := Do(s, step);
    match step
    case Accept(id) => PooledSet(s, id, NEW_CONNECTION, t);
    case OnRead(id, read) =>
      OpenWhileUsed(s, id);
      PooledSet(s, id, t.conns[id], t);
    case OnWrite(id, write) =>
      OpenWhileUsed(s, id);
      PooledSet(s, id, t.conns[id], t);
    case Pop(w) =>
      if s.queue[0].Some? {
        HeadIsQueued(s);
        OpenWhileUsed(s, s.queue[0].value);
        PooledSet(s, s.queue[0].value, t.conns[s.queue[0].value], t);
      } else {
        PooledSame(s, t);
      }
    case Respond(w) =>
      HeldByWorker(s, w);
      OpenWhileUsed(s, s.workers[w].id);
      PooledSet(s, s.workers[w].id, t.conns[s.workers[w].id], t);
    case Clear => PooledCleared(s);
    case CloseAll => PooledClosed(s);
    case _ => PooledSame(s, t);
  }

  /** Before the end, a connection that somebody is still busy with is open, and in the pool. */
  lemma OpenWhileUsed(s: State, id: Id)
    requires Pooled(s) && id in s.conns
    ensures s.conns[id].open <==> id in s.pool
    ensures s.conns[id].phase != Done && s.loop != Ended ==> s.conns[id].open
    ensures s.loop == Ended ==> !s.conns[id].open
  {
  }

  lemma PooledSame(s: State, t: State)
    requires Pooled(s) && s.conns == t.conns && s.pool == t.pool && (s.loop == Ended <==> t.loop == Ended)
    ensures Pooled(t)
  {
  }

  lemma PooledCleared(s: State)
    requires Pooled(s) && s.loop == Stopping && Owned(s)
    ensures Pooled(DoClear(s))
  {
    hide Ids;
  }

  lemma PooledClosed(s: State)
    requires Pooled(s)
    ensures Pooled(DoCloseAll(s))
  {
  }
}
