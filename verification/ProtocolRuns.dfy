/** The theorems about whole runs: safety in every reachable state, and the end of every shutdown. */
module ProtocolRuns {
  import opened Wrappers
  import opened Protocol
  import opened ProtocolSafety
  import opened ProtocolConns

  ghost predicate Inv(s: State) {
    && WakeUps(s) && Shutdown(s) && Accounted(s) && Owned(s) && AllOrderly(s) && Pooled(s)
    && Loops(s)
  }

  /** What the event loop can be doing when it still has to notify, and when it is stuck. */
  predicate Loops(s: State) {
    && (s.notify ==> s.loop == Serving || s.loop == Joining || s.loop == Ended)
    && (s.halt == Stuck ==> !s.notify && (s.loop == Serving || s.loop == Ended))
  }

  lemma {:induction false} NobodyPasses(n: nat)
    ensures Total(Repeat(n), PASSING) == 0
  {
    TotalZero(Repeat(n), PASSING);
  }

  lemma InitInv(n: nat)
    ensures Inv(Init(n))
  {
    hide Total, Repeat;
    NobodyPasses(n);
    var ws := Repeat(n);
    assert Sleeping !in ws && forall w <- ws :: w == Ready;
    assert Nulls([]) == 0 && Ids([]) == [];
  }

  lemma InvKept(s: State, step: Step)
    requires Inv(s) && Enabled(s, step)
    ensures Inv(Do(s, step))
  {
    WakeUpsKept(s, step);
    SentinelKept(s, step);
    LeavingKept(s, step);
    QuietKept(s, step);
    AccountedKept(s, step);
    OwnedKept(s, step);
    OrderlyKept(s, step);
    PooledKept(s, step);
    LoopsKept(s, step);
  }

  lemma LoopsKept(s: State, step: Step)
    requires Loops(s) && Enabled(s, step)
    ensures Loops(Do(s, step))
  {
    hide Wakened, CanWake, Ids;
  }

  /** Every state of every run, whatever the interleaving and the number of workers. */
  lemma {:induction false} RunKeepsInv(s: State, steps: seq<Step>)
    requires Inv(s) && Run(s, steps).Some?
    ensures Inv(Run(s, steps).value)
    decreases |steps|
  {
    hide Inv, Enabled, Do;
    if steps != [] {
      InvKept(s, steps[0]);
      RunKeepsInv(Do(s, steps[0]), steps[1..]);
    }
  }

  ghost predicate Reached(n: nat, s: State) {
    exists steps :: Run(Init(n), steps) == Some(s)
  }

  lemma ReachedInv(n: nat, s: State)
    requires Reached(n, s)
    ensures Inv(s)
  {
    hide Inv, Init, Run;
    var steps :| Run(Init(n), steps) == Some(s);
    InitInv(n);
    RunKeepsInv(Init(n), steps);
  }

  // ----- Safety

  /** One sentinel from the push on; the connections are closed only when all workers have left, and only then. */
  lemma OrderOfShutdown(n: nat, s: State)
    requires Reached(n, s)
    ensures Nulls(s.queue) + Total(s.workers, PASSING) == if AfterPush(s.loop) then 1 else 0
    ensures s.loop == Closing || s.loop == Ended ==> forall w <- s.workers :: w == Exited
    ensures s.loop == Ended ==> s.pool == {} && forall id <- s.conns :: !s.conns[id].open
    ensures (exists w <- s.workers :: w == Exited) ==> AfterPush(s.loop)
  {
    ReachedInv(n, s);
  }

  /** First in, first out: what was enqueued is what was dequeued, then what shutdown cleared, then what waits. */
  lemma NothingLost(n: nat, s: State)
    requires Reached(n, s)
    ensures s.pushed == s.popped + s.cleared + Ids(s.queue)
  {
    ReachedInv(n, s);
  }

  /** No connection is waiting twice, held twice, or both. */
  lemma OneOwner(n: nat, s: State, id: Id)
    requires Reached(n, s)
    ensures multiset(Ids(s.queue))[id] + Total(s.workers, w => if w == Handling(id) then 1 else 0)
         == if InPhase(s, id, Queued) || InPhase(s, id, Held) then 1 else 0
  {
    hide Ids, Total;
    ReachedInv(n, s);
    TimesInQueue(Ids(s.queue), id);
    TimesHeld(s, id);
  }

  lemma {:induction false} TimesInQueue(ids: seq<Id>, id: Id)
    requires Distinct(ids)
    ensures multiset(ids)[id] == if id in ids then 1 else 0
  {
    if ids != [] {
      var n := |ids| - 1;
      assert ids == ids[..n] + [ids[n]];
      TimesInQueue(ids[..n], id);
    }
  }

  lemma TimesHeld(s: State, id: Id)
    requires Owned(s)
    ensures Total(s.workers, w => if w == Handling(id) then 1 else 0) == if InPhase(s, id, Held) then 1 else 0
  {
    hide Ids, Total;
    var weight: Worker -> nat := w => if w == Handling(id) then 1 else 0;
    if Handling(id) in s.workers {
      var v :| 0 <= v < |s.workers| && s.workers[v] == Handling(id);
      assert InPhase(s, s.workers[v].id, Held);
      forall w | 0 <= w < |s.workers| && w != v ensures weight(s.workers[w]) == 0 {
        OneHolder(s, v, w);
      }
      TotalOne(s.workers, v, weight);
    } else {
      TotalZero(s.workers, weight);
    }
  }

  lemma OneHolder(s: State, v: nat, w: nat)
    requires Owned(s) && v < |s.workers| && w < |s.workers| && v != w && s.workers[v].Handling?
    ensures s.workers[w] != s.workers[v]
  {
    hide Ids;
  }

  lemma TotalOne(ws: seq<Worker>, v: nat, weight: Worker -> nat)
    requires v < |ws| && forall w :: 0 <= w < |ws| && w != v ==> weight(ws[w]) == 0
    requires weight(Exited) == 0
    ensures Total(ws, weight) == weight(ws[v])
  {
    TotalUpdate(ws, v, Exited, weight);
    TotalZero(ws[v := Exited], weight);
  }

  /**
   * A request gets at most one response, none before it is read in full, and the next is read only when
   * it is written.
   */
  lemma OneResponseEach(n: nat, s: State, id: Id)
    requires Reached(n, s) && id in s.conns
    ensures var c := s.conns[id];
            && c.written <= c.responses <= c.requests <= c.written + 1
            && (c.phase == Reading ==> c.requests == c.responses == c.written)
            && (c.phase == Queued || c.phase == Held || c.phase == Dropped ==> c.requests == c.responses + 1)
  {
    hide Ids, Total;
    ReachedInv(n, s);
    OrderlyConn(s, id);
  }

  /** A worker's connection is never closed while the worker has it. */
  lemma NotClosedUnderWorker(n: nat, s: State, w: nat)
    requires Reached(n, s) && w < |s.workers| && s.workers[w].Handling?
    ensures var id := s.workers[w].id; id in s.conns && s.conns[id].open && id in s.pool
  {
    hide Ids, Total;
    ReachedInv(n, s);
    HeldByWorker(s, w);
    StillWorking(s, w);
    OpenWhileUsed(s, s.workers[w].id);
  }

  // ----- Progress

  /** What a worker does next when it is neither asleep nor gone. */
  predicate Busy(w: Worker) {
    w != Sleeping && w != Exited
  }

  lemma ChooseWoken(ws: seq<Worker>) returns (woken: Option<nat>)
    ensures CanWake(ws, woken)
  {
    woken := None;
    if Sleeping in ws {
      var i :| 0 <= i < |ws| && ws[i] == Sleeping;
      woken := Some(i);
    }
  }

  lemma BusyStep(s: State, w: nat) returns (step: Step)
    requires Owned(s) && Alive(s, w) && Busy(s.workers[w])
    ensures Enabled(s, step) && ByWorker(step)
  {
    hide Ids;
    match s.workers[w]
    case Handling(id) =>
      HeldByWorker(s, w);
      step := Respond(w);
    case Passing => step := PassOn(w);
    case Notifying =>
      var woken := ChooseWoken(s.workers);
      step := Exit(w, woken);
    case _ => step := if s.queue == [] then Sleep(w) else Pop(w);
  }

  /** Steps that threads take by themselves, other than waking for no reason. */
  predicate ByWorker(step: Step) {
    step.Notify? || step.Pop? || step.Sleep? || step.Respond? || step.PassOn? || step.Exit?
  }

  lemma AllAsleep(s: State)
    requires Inv(s) && !s.notify && Sleeping in s.workers && forall w <- s.workers :: !Busy(w)
    ensures s.queue == [] && s.loop != Joining
  {
    hide Ids;
    TotalZero(s.workers, AWAKENED);
    TotalZero(s.workers, NOTIFYING);
    TotalZero(s.workers, PASSING);
    assert s.queue == [] ==> Nulls(s.queue) == 0;
  }

  /**
   * With something in the queue, or at shutdown, some thread can go on until all workers have left,
   * even if the event loop is stuck.
   */
  lemma SomeStep(s: State) returns (step: Step)
    requires Inv(s) && (s.queue != [] || s.loop == Joining) && s.halt != Crashed
    requires s.notify || exists w <- s.workers :: w != Exited
    ensures Enabled(s, step) && ByWorker(step)
  {
    hide Ids, Total, Nulls;
    if s.notify {
      var woken := ChooseWoken(s.workers);
      step := Notify(woken);
    } else if w :| 0 <= w < |s.workers| && Busy(s.workers[w]) {
      step := BusyStep(s, w);
    } else {
      AllAsleep(s);
      assert false;
    }
  }

  const EFFORT: Worker -> nat := (w: Worker) =>
    match w
    case Exited => 0
    case Notifying => 2
    case Passing => 3
    case Sleeping => 4
    case Awakened => 5
    case Ready => 5
    case Handling(_) => 6

  /** An upper bound on the steps left at shutdown. */
  function Effort(s: State): nat {
    Total(s.workers, EFFORT) + if s.notify then 2 else 0
  }

  lemma EffortUpdate(ws: seq<Worker>, w: nat, worker: Worker)
    requires w < |ws|
    ensures Total(ws[w := worker], EFFORT) + EFFORT(ws[w]) == Total(ws, EFFORT) + EFFORT(worker)
  {
    TotalUpdate(ws, w, worker, EFFORT);
  }

  lemma EffortOfWaking(ws: seq<Worker>, woken: Option<nat>)
    requires CanWake(ws, woken)
    ensures Total(Wakened(ws, woken), EFFORT) <= Total(ws, EFFORT) + 1
  {
    hide Total;
    if woken.Some? {
      EffortUpdate(ws, woken.value, Awakened);
    }
  }

  lemma OnlyNullsLeft(s: State)
    requires Inv(s) && s.loop == Joining && s.queue != []
    ensures s.queue[0] == None
  {
    hide Owned, WakeUps, AllOrderly, Pooled, Accounted;
    FirstId(s.queue);
  }

  /**
   * At shutdown every step of a thread brings the end nearer; waking for no reason puts it off by one
   * step, and a handler that throws brings it about at once.
   */
  lemma EffortFalls(s: State, step: Step)
    requires Inv(s) && s.loop == Joining && Enabled(s, step) && !step.Join?
    ensures var t := Do(s, step);
            && t.loop == Joining
            && (if ByWorker(step) then Effort(t) < Effort(s) && t.halt == s.halt
                else if step.Wake? then Effort(t) == Effort(s) + 1 && t.halt == s.halt
                else step.Throw? && t.halt == Crashed && Effort(s) > 0)
  {
    hide Total, Ids, Nulls, Inv;
    match step
    case Throw(w) => TotalAtLeast(s.workers, w, EFFORT);
    case Notify(woken) => EffortOfWaking(s.workers, woken);
    case Pop(w) =>
      OnlyNullsLeft(s);
      EffortUpdate(s.workers, w, Passing);
    case Sleep(w) => EffortUpdate(s.workers, w, Sleeping);
    case Wake(w) => EffortUpdate(s.workers, w, Awakened);
    case Respond(w) => EffortUpdate(s.workers, w, Ready);
    case PassOn(w) => EffortUpdate(s.workers, w, Notifying);
    case Exit(w, woken) =>
      EffortOfWaking(s.workers, woken);
      EffortUpdate(Wakened(s.workers, woken), w, Exited);
    case _ =>
  }

  function Wakes(steps: seq<Step>): nat {
    if steps == [] then 0 else (if steps[0].Wake? then 1 else 0) + Wakes(steps[1..])
  }

  /** No shutdown goes on for ever: its length is bounded, but for workers that wake for no reason. */
  lemma {:induction false} ShutdownIsBounded(s: State, steps: seq<Step>)
    requires Inv(s) && s.loop == Joining && Run(s, steps).Some? && Run(s, steps).value.loop == Joining
    ensures |steps| <= Effort(s) + 2 * Wakes(steps)
    decreases |steps|
  {
    hide Inv, Enabled, Do, Effort;
    if steps != [] {
      if steps[0].Join? {
        AfterJoin(s, steps[1..]);
      } else {
        EffortFalls(s, steps[0]);
        if steps[0].Throw? {
          NothingAfterCrash(Do(s, steps[0]), steps[1..]);
        } else {
          InvKept(s, steps[0]);
          ShutdownIsBounded(Do(s, steps[0]), steps[1..]);
        }
      }
    }
  }

  lemma NothingAfterCrash(s: State, steps: seq<Step>)
    requires s.halt == Crashed && Run(s, steps).Some?
    ensures steps == []
  {
    hide CanWake;
  }

  /** Once a callback never returns, the server is never stopped, and no connection is accepted, read or closed. */
  lemma {:induction false} StuckForEver(s: State, steps: seq<Step>)
    requires s.halt == Stuck && Run(s, steps).Some?
    ensures var t := Run(s, steps).value;
            && t.loop == s.loop && t.pool == s.pool && t.halt != Going && t.pushed == s.pushed
            && t.conns.Keys == s.conns.Keys && forall id <- s.conns :: t.conns[id].open == s.conns[id].open
    decreases |steps|
  {
    if steps != [] {
      var t := Do(s, steps[0]);
      StuckStays(s, steps[0]);
      if t.halt == Crashed {
        NothingAfterCrash(t, steps[1..]);
      } else {
        StuckForEver(t, steps[1..]);
      }
    }
  }

  lemma StuckStays(s: State, step: Step)
    requires s.halt == Stuck && Enabled(s, step)
    ensures var t := Do(s, step);
            && t.loop == s.loop && t.pool == s.pool && t.halt != Going && t.pushed == s.pushed
            && t.conns.Keys == s.conns.Keys && forall id <- s.conns :: t.conns[id].open == s.conns[id].open
  {
    hide Wakened, CanWake, Ids;
  }

  /** The loop never goes back to joining. */
  lemma {:induction false} AfterJoin(s: State, steps: seq<Step>)
    requires Enabled(s, Join) && Run(Do(s, Join), steps).Some?
    ensures Run(Do(s, Join), steps).value.loop != Joining
  {
    NeverBack(Do(s, Join), steps);
  }

  lemma {:induction false} NeverBack(s: State, steps: seq<Step>)
    requires s.loop == Closing || s.loop == Ended
    requires Run(s, steps).Some?
    ensures Run(s, steps).value.loop == Closing || Run(s, steps).value.loop == Ended
    decreases |steps|
  {
    if steps != [] {
      LoopGoesOn(s, steps[0]);
      NeverBack(Do(s, steps[0]), steps[1..]);
    }
  }

  lemma LoopGoesOn(s: State, step: Step)
    requires (s.loop == Closing || s.loop == Ended) && Enabled(s, step)
    ensures Do(s, step).loop == Closing || Do(s, step).loop == Ended
  {
    hide Wakened, CanWake, Ids;
  }

  /** And it can always go on to its end: all workers leave, and the event loop can close the connections. */
  lemma {:induction false} ShutdownCompletes(s: State) returns (steps: seq<Step>)
    requires Inv(s) && s.loop == Joining && s.halt != Crashed
    ensures |steps| <= Effort(s) && Run(s, steps).Some?
    ensures var t := Run(s, steps).value; t.loop == Joining && Enabled(t, Join)
    decreases Effort(s)
  {
    hide Inv, Effort, Do;
    if s.notify || exists w <- s.workers :: w != Exited {
      var step := SomeStep(s);
      EffortFalls(s, step);
      InvKept(s, step);
      var rest := ShutdownCompletes(Do(s, step));
      steps := [step] + rest;
      assert steps[1..] == rest;
    } else {
      NotStuckJoining(s);
      steps := [];
    }
  }

  lemma NotStuckJoining(s: State)
    requires Inv(s) && s.loop == Joining
    ensures s.halt != Stuck
  {
    hide Ids, Total, Nulls;
  }
}
