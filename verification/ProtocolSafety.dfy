/** What holds in every state that any interleaving of the threads reaches. */
module ProtocolSafety {
  import opened Wrappers
  import opened Protocol

  // ----- Counting workers

  function Total(ws: seq<Worker>, weight: Worker -> nat): nat {
    if ws == [] then 0 else Total(ws[..|ws| - 1], weight) + weight(ws[|ws| - 1])
  }

  lemma {:induction false} TotalUpdate(ws: seq<Worker>, w: nat, worker: Worker, weight: Worker -> nat)
    requires w < |ws|
    ensures Total(ws[w := worker], weight) + weight(ws[w]) == Total(ws, weight) + weight(worker)
  {
    var n := |ws| - 1;
    if w < n {
      TotalUpdate(ws[..n], w, worker, weight);
      assert ws[w := worker][..n] == ws[..n][w := worker];
    } else {
      assert ws[w := worker][..n] == ws[..n];
    }
  }

  lemma {:induction false} TotalAtLeast(ws: seq<Worker>, w: nat, weight: Worker -> nat)
    requires w < |ws|
    ensures Total(ws, weight) >= weight(ws[w])
  {
    if w < |ws| - 1 {
      TotalAtLeast(ws[..|ws| - 1], w, weight);
    }
  }

  lemma {:induction false} TotalZero(ws: seq<Worker>, weight: Worker -> nat)
    requires forall w <- ws :: weight(w) == 0
    ensures Total(ws, weight) == 0
  {
    if ws != [] {
      TotalZero(ws[..|ws| - 1], weight);
    }
  }

  const AWAKENED: Worker -> nat := w => if w == Awakened then 1 else 0
  const NOTIFYING: Worker -> nat := w => if w == Notifying then 1 else 0
  const PASSING: Worker -> nat := w => if w == Passing then 1 else 0

  function Nulls(queue: seq<Item>): nat {
    if queue == [] then 0 else (if queue[0] == None then 1 else 0) + Nulls(queue[1..])
  }

  lemma {:induction false} NullsAppend(queue: seq<Item>, item: Item)
    ensures Nulls(queue + [item]) == Nulls(queue) + if item == None then 1 else 0
  {
    if queue == [] {
      assert queue + [item] == [item];
    } else {
      assert (queue + [item])[1..] == queue[1..] + [item];
      NullsAppend(queue[1..], item);
    }
  }

  lemma {:induction false} IdsAppend(queue: seq<Item>, item: Item)
    ensures Ids(queue + [item]) == Ids(queue) + if item.Some? then [item.value] else []
  {
    var last := if item.Some? then [item.value] else [];
    if queue == [] {
      assert queue + [item] == [item] && [item][1..] == [];
      assert Ids([item]) == last + [] == [] + last;
    } else {
      var first := if queue[0].Some? then [queue[0].value] else [];
      assert (queue + [item])[1..] == queue[1..] + [item] && (queue + [item])[0] == queue[0];
      IdsAppend(queue[1..], item);
      assert first + (Ids(queue[1..]) + last) == first + Ids(queue[1..]) + last;
    }
  }

  // ----- No wake-up is lost

  function Owed(s: State): nat {
    (if s.notify then 1 else 0) + Total(s.workers, NOTIFYING)
  }

  /** Nobody sleeps, or every entry of the queue has a worker that is awake for it or a notification on its way. */
  predicate WakeUps(s: State) {
    Sleeping !in s.workers || |s.queue| <= Total(s.workers, AWAKENED) + Owed(s)
  }

  lemma NoSleeperIn(ws: seq<Worker>, w: nat, worker: Worker)
    requires w < |ws| && worker != Sleeping
    ensures Sleeping !in ws ==> Sleeping !in ws[w := worker]
  {
  }

  lemma WakeUpsKept(s: State, step: Step)
    requires WakeUps(s) && Enabled(s, step)
    ensures WakeUps(Do(s, step))
  {
    hide Total, Ids;
    match step
    case Notify(woken) => WakenCounts(s.workers, woken);
    case Pop(w) => PopCounts(s, w);
    case Sleep(w) =>
    case Wake(w) => OneChanged(s.workers, w, Awakened);
    case Respond(w) => OneChanged(s.workers, w, Ready);
    case PassOn(w) => OneChanged(s.workers, w, Notifying);
    case Exit(w, woken) =>
      WakenCounts(s.workers, woken);
      OneChanged(Wakened(s.workers, woken), w, Exited);
    case _ =>
  }

  lemma OneChanged(ws: seq<Worker>, w: nat, worker: Worker)
    requires w < |ws| && worker != Sleeping
    ensures var after := ws[w := worker];
            && (Sleeping !in ws ==> Sleeping !in after)
            && Total(after, AWAKENED) + AWAKENED(ws[w]) == Total(ws, AWAKENED) + AWAKENED(worker)
            && Total(after, NOTIFYING) + NOTIFYING(ws[w]) == Total(ws, NOTIFYING) + NOTIFYING(worker)
  {
    hide Total;
    TotalUpdate(ws, w, worker, AWAKENED);
    TotalUpdate(ws, w, worker, NOTIFYING);
    NoSleeperIn(ws, w, worker);
  }

  lemma WakenCounts(ws: seq<Worker>, woken: Option<nat>)
    requires CanWake(ws, woken)
    ensures var after := Wakened(ws, woken);
            && |after| == |ws|
            && (woken == None ==> Sleeping !in after)
            && Total(after, AWAKENED) == Total(ws, AWAKENED) + (if woken.Some? then 1 else 0)
            && Total(after, NOTIFYING) == Total(ws, NOTIFYING)
            && (forall w :: 0 <= w < |ws| && ws[w] != Sleeping ==> after[w] == ws[w])
  {
    hide Total;
    if woken.Some? {
      OneChanged(ws, woken.value, Awakened);
    }
  }

  lemma PopCounts(s: State, w: nat)
    requires Looking(s, w) && s.queue != []
    ensures var t := DoPop(s, w);
            && |t.queue| == |s.queue| - 1 && t.notify == s.notify
            && Total(t.workers, AWAKENED) + 1 >= Total(s.workers, AWAKENED)
            && Total(t.workers, NOTIFYING) == Total(s.workers, NOTIFYING)
            && (Sleeping !in s.workers ==> Sleeping !in t.workers)
  {
    hide Total;
    OneChanged(s.workers, w, if s.queue[0] == None then Passing else Handling(s.queue[0].value));
  }

  // ----- One sentinel

  predicate AfterPush(loop: Loop) {
    loop == Joining || loop == Closing || loop == Ended
  }

  /** From the push of the null connection on there is exactly one, in the queue or in a worker's hands. */
  predicate OneSentinel(s: State) {
    Nulls(s.queue) + Total(s.workers, PASSING) == if AfterPush(s.loop) then 1 else 0
  }

  /** Workers leave only after the push, and the loop goes on only when all have left. */
  predicate Leaving(s: State) {
    && (forall w <- s.workers :: w == Notifying || w == Exited ==> AfterPush(s.loop))
    && (s.loop == Closing || s.loop == Ended ==> forall w <- s.workers :: w == Exited)
  }

  /** Between clearing the queue and the exit of the last worker no connection is in it. */
  predicate Quiet(s: State) {
    && (s.loop == Cleared ==> s.queue == [])
    && (s.loop == Joining || s.loop == Closing ==> Ids(s.queue) == [])
  }

  predicate Shutdown(s: State) {
    OneSentinel(s) && Leaving(s) && Quiet(s)
  }

  lemma PassingCounts(ws: seq<Worker>, w: nat, worker: Worker)
    requires w < |ws|
    ensures Total(ws[w := worker], PASSING) + PASSING(ws[w]) == Total(ws, PASSING) + PASSING(worker)
    ensures Total(ws, PASSING) >= PASSING(ws[w])
  {
    TotalUpdate(ws, w, worker, PASSING);
    TotalAtLeast(ws, w, PASSING);
  }

  lemma WakenPassing(ws: seq<Worker>, woken: Option<nat>)
    requires CanWake(ws, woken)
    ensures Total(Wakened(ws, woken), PASSING) == Total(ws, PASSING)
  {
    hide Total;
    if woken.Some? {
      PassingCounts(ws, woken.value, Awakened);
    }
  }

  lemma SentinelKept(s: State, step: Step)
    requires OneSentinel(s) && Enabled(s, step)
    ensures OneSentinel(Do(s, step))
  {
    hide Total, Ids, Wakened, CanWake, DoRead, DoWrite, DoPop;
    match step
    case OnRead(id, read) => SentinelByRead(s, id, read);
    case OnWrite(id, write) => SentinelByWrite(s, id, write);
    case PushNull => NullsAppend(s.queue, None);
    case Notify(woken) => WakenPassing(s.workers, woken);
    case Pop(w) => SentinelByPop(s, w);
    case Sleep(w) => PassingCounts(s.workers, w, Sleeping);
    case Wake(w) => PassingCounts(s.workers, w, Awakened);
    case Respond(w) => PassingCounts(s.workers, w, Ready);
    case PassOn(w) =>
      NullsAppend(s.queue, None);
      PassingCounts(s.workers, w, Notifying);
    case Exit(w, woken) => SentinelByExit(s, w, woken);
    case _ =>
  }

  lemma SentinelByPop(s: State, w: nat)
    requires OneSentinel(s) && Looking(s, w) && s.queue != []
    ensures OneSentinel(DoPop(s, w))
  {
    hide Total;
    PassingCounts(s.workers, w, if s.queue[0] == None then Passing else Handling(s.queue[0].value));
  }

  lemma SentinelByExit(s: State, w: nat, woken: Option<nat>)
    requires OneSentinel(s) && Enabled(s, Exit(w, woken))
    ensures OneSentinel(Do(s, Exit(w, woken)))
  {
    hide Total, Nulls;
    WakenPassing(s.workers, woken);
    PassingCounts(Wakened(s.workers, woken), w, Exited);
  }

  lemma SentinelByRead(s: State, id: Id, read: ReadResult)
    requires OneSentinel(s) && id in s.conns
    ensures OneSentinel(DoRead(s, id, read))
  {
    hide Total, Nulls;
    NullsAppend(s.queue, Some(id));
  }

  lemma SentinelByWrite(s: State, id: Id, write: WriteResult)
    requires OneSentinel(s) && id in s.conns
    ensures OneSentinel(DoWrite(s, id, write))
  {
    hide Total, Nulls;
  }

  /** A worker that is not asleep or gone can only be found before the last has left. */
  lemma StillWorking(s: State, w: nat)
    requires Shutdown(s) && w < |s.workers| && s.workers[w] != Exited
    ensures s.loop != Closing && s.loop != Ended
    ensures s.workers[w] == Passing ==> s.loop == Joining
    ensures s.workers[w] == Notifying ==> s.loop == Joining
  {
    hide Total, Nulls, Ids;
    assert s.workers[w] in s.workers;
    TotalAtLeast(s.workers, w, PASSING);
  }

  lemma LeavingKept(s: State, step: Step)
    requires Shutdown(s) && Enabled(s, step)
    ensures Leaving(Do(s, step))
  {
    hide Total, Nulls, Ids, OneSentinel, Quiet, Leaving;
    var t := Do(s, step);
    match step
    case Pop(w) => StaysWith(s, w, t);
    case Sleep(w) => StaysWith(s, w, t);
    case Wake(w) => StaysWith(s, w, t);
    case Respond(w) => StaysWith(s, w, t);
    case PassOn(w) => LeavesAtLast(s, w, t);
    case Exit(w, woken) => LeavesAtLast(s, w, t);
    case Notify(woken) => NotifyLeaving(s, woken, t);
    case Join => AllHaveLeft(s, t);
    case _ => LoopMoves(s, t);
  }

  /** A worker turns to something other than leaving. */
  lemma StaysWith(s: State, w: nat, t: State)
    requires Shutdown(s) && w < |s.workers| && s.workers[w] != Exited
    requires |t.workers| == |s.workers| && t.workers == s.workers[w := t.workers[w]]
    requires t.workers[w] != Notifying && t.workers[w] != Exited && t.loop == s.loop
    ensures Leaving(t)
  {
    hide Nulls, Ids, Total, OneSentinel, Quiet;
    StillWorking(s, w);
    forall x <- t.workers | x == Notifying || x == Exited ensures AfterPush(t.loop) {
      assert x in s.workers;
    }
  }

  lemma LeavesAtLast(s: State, w: nat, t: State)
    requires Shutdown(s) && w < |s.workers| && (s.workers[w] == Passing || s.workers[w] == Notifying)
             && t.loop == s.loop
    ensures Leaving(t)
  {
    hide Nulls, Ids, Total, OneSentinel, Quiet;
    StillWorking(s, w);
  }

  lemma NotifyLeaving(s: State, woken: Option<nat>, t: State)
    requires Leaving(s) && CanWake(s.workers, woken) && t.workers == Wakened(s.workers, woken) && t.loop == s.loop
    ensures Leaving(t)
  {
    WokenOnly(s.workers, woken);
  }

  lemma AllHaveLeft(s: State, t: State)
    requires (forall w <- s.workers :: w == Exited) && t.workers == s.workers && AfterPush(t.loop)
    ensures Leaving(t)
  {
  }

  lemma LoopMoves(s: State, t: State)
    requires Leaving(s) && t.workers == s.workers && (AfterPush(s.loop) ==> AfterPush(t.loop))
    requires t.loop == Closing || t.loop == Ended ==> s.loop == Closing || s.loop == Ended
    ensures Leaving(t)
  {
  }

  lemma WokenOnly(ws: seq<Worker>, woken: Option<nat>)
    requires CanWake(ws, woken)
    ensures forall w <- Wakened(ws, woken) :: w in ws || w == Awakened
    ensures (forall w <- ws :: w == Exited) ==> Wakened(ws, woken) == ws
  {
    if woken.Some? {
      assert ws[woken.value] in ws;
    }
  }

  lemma QuietKept(s: State, step: Step)
    requires Shutdown(s) && Enabled(s, step)
    ensures Quiet(Do(s, step))
  {
    hide Total, Nulls;
    match step
    case PushNull => IdsAppend(s.queue, None);
    case Pop(w) => StillWorking(s, w);
    case PassOn(w) =>
      StillWorking(s, w);
      IdsAppend(s.queue, None);
    case _ =>
  }

  // ----- Every connection is dequeued once, or cleared, or still waits

  predicate Accounted(s: State) {
    && s.pushed == s.popped + s.cleared + Ids(s.queue)
    && (s.loop == Serving || s.loop == Stopping ==> s.cleared == [])
  }

  lemma FirstId(queue: seq<Item>)
    requires queue != []
    ensures Ids(queue) == (if queue[0].Some? then [queue[0].value] else []) + Ids(queue[1..])
  {
  }

  lemma AccountedKept(s: State, step: Step)
    requires Shutdown(s) && Accounted(s) && Enabled(s, step)
    ensures Accounted(Do(s, step))
  {
    hide Total, Nulls, OneSentinel, Ids, Leaving;
    match step
    case OnRead(id, read) =>
      IdsAppend(s.queue, Some(id));
      assert s.popped + s.cleared + (Ids(s.queue) + [id]) == s.popped + s.cleared + Ids(s.queue) + [id];
    case Clear => NoIds();
    case PushNull => IdsAppend(s.queue, None);
    case PassOn(w) => IdsAppend(s.queue, None);
    case Pop(w) =>
      StillWorking(s, w);
      FirstId(s.queue);
      if s.queue[0].Some? {
        var first, rest := [s.queue[0].value], Ids(s.queue[1..]);
        assert s.popped + [] + (first + rest) == s.popped + first + [] + rest;
      }
    case _ =>
  }

  lemma NoIds()
    ensures Ids([]) == []
  {
  }
}
