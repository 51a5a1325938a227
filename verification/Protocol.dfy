/**
 * The server's threads as a state machine: the event loop, which runs all connection callbacks and
 * the shutdown, and the workers, which share one queue under a mutex and a condition variable.
 * Each step is one critical section, one notification or one callback.
 */
module Protocol {
  import opened Wrappers

  type Id = nat

  /** A queue entry; `None` is the null connection that stops a worker. */
  type Item = Option<Id>

  datatype Worker =
    | Ready                   // about to look at the queue
    | Sleeping                // waits on the condition variable
    | Awakened                // notified or woken for no reason, about to look again
    | Handling(id: Id)        // in HandleConnection
    | Passing                 // has popped the null connection
    | Notifying               // has pushed it again, still has to notify
    | Exited

  datatype Phase = Reading | Queued | Held | Writing | Dropped | Done

  /** A connection, with the number of requests read in full, of responses begun and of responses written. */
  datatype Conn = Conn(phase: Phase, open: bool, requests: nat, responses: nat, written: nat)

  const NEW_CONNECTION: Conn := Conn(Reading, true, 0, 0, 0)

  datatype Loop = Serving | Stopping | Cleared | Joining | Closing | Ended

  /** An event loop whose callback never returns is stuck, while the workers go on; an exception ends the process. */
  datatype Halt = Going | Stuck | Crashed

  datatype State = State(
    queue: seq<Item>,
    workers: seq<Worker>,
    conns: map<Id, Conn>,
    pool: set<Id>,
    loop: Loop,
    notify: bool,          // the event loop has pushed and still has to notify
    pushed: seq<Id>,       // all connections ever enqueued, dequeued, and cleared at shutdown
    popped: seq<Id>,
    cleared: seq<Id>,
    halt: Halt)

  datatype ReadResult = ReadAborted | ReadFailed | More | Bad | Whole | ReadThrew | ReadHung
  datatype WriteResult = WriteAborted | WriteFailed | Written(keepAlive: bool)

  datatype Step =
    | Accept(id: Id)
    | OnRead(id: Id, read: ReadResult)
    | OnWrite(id: Id, write: WriteResult)
    | Notify(woken: Option<nat>)
    | Stop
    | Clear
    | PushNull
    | Join
    | CloseAll
    | Pop(w: nat)
    | Sleep(w: nat)
    | Wake(w: nat)
    | Respond(w: nat)
    | Throw(w: nat)           // the handler throws
    | PassOn(w: nat)
    | Exit(w: nat, woken: Option<nat>)

  function Repeat(n: nat): (ws: seq<Worker>)
    ensures |ws| == n && forall i :: 0 <= i < n ==> ws[i] == Ready
  {
    if n == 0 then [] else Repeat(n - 1) + [Ready]
  }

  function Init(workers: nat): State {
    State([], Repeat(workers), map[], {}, Serving, false, [], [], [], Going)
  }

  // ----- When a step can be taken

  /** The event loop has nothing left to do in its present callback. */
  predicate Free(s: State) {
    !s.notify && s.halt == Going
  }

  /** The event loop is between two callbacks. */
  predicate Idle(s: State) {
    (s.loop == Serving || s.loop == Ended) && Free(s)
  }

  /** `notify_one` wakes some sleeper if there is one. */
  predicate CanWake(ws: seq<Worker>, woken: Option<nat>) {
    if woken.Some? then woken.value < |ws| && ws[woken.value] == Sleeping
    else Sleeping !in ws
  }

  predicate Looking(s: State, w: nat) {
    Alive(s, w) && (s.workers[w] == Ready || s.workers[w] == Awakened)
  }

  predicate Alive(s: State, w: nat) {
    w < |s.workers| && s.halt != Crashed
  }

  predicate InPhase(s: State, id: Id, phase: Phase) {
    id in s.conns && s.conns[id].phase == phase
  }

  predicate Enabled(s: State, step: Step) {
    match step
    case Accept(id) => s.loop == Serving && Free(s) && id !in s.conns
    case OnRead(id, _) => Idle(s) && InPhase(s, id, Reading)
    case OnWrite(id, _) => Idle(s) && InPhase(s, id, Writing)
    case Notify(woken) => s.notify && s.halt == Going && CanWake(s.workers, woken)
    case Stop => s.loop == Serving && Free(s)
    case Clear => s.loop == Stopping && Free(s)
    case PushNull => s.loop == Cleared && Free(s)
    case Join => s.loop == Joining && Free(s) && forall w <- s.workers :: w == Exited
    case CloseAll => s.loop == Closing && Free(s)
    case Pop(w) => Looking(s, w) && s.queue != []
    case Sleep(w) => Looking(s, w) && s.queue == []
    case Wake(w) => Alive(s, w) && s.workers[w] == Sleeping
    case Respond(w) => Alive(s, w) && s.workers[w].Handling? && s.workers[w].id in s.conns
    case Throw(w) => Alive(s, w) && s.workers[w].Handling?
    case PassOn(w) => Alive(s, w) && s.workers[w] == Passing
    case Exit(w, woken) => Alive(s, w) && s.workers[w] == Notifying && CanWake(s.workers, woken)
  }

  // ----- What a step does

  function SetWorker(s: State, w: nat, worker: Worker): State
    requires w < |s.workers|
  {
    s.(workers := s.workers[w := worker])
  }

  function SetConn(s: State, id: Id, c: Conn): State {
    s.(conns := s.conns[id := c])
  }

  /** Takes the connection out of the pool and closes its socket. */
  function Close(s: State, id: Id, c: Conn): State {
    SetConn(s, id, c.(open := false, phase := Done)).(pool := s.pool - {id})
  }

  function Wakened(ws: seq<Worker>, woken: Option<nat>): seq<Worker>
    requires CanWake(ws, woken)
  {
    if woken.Some? then ws[woken.value := Awakened] else ws
  }

  function DoRead(s: State, id: Id, read: ReadResult): State
    requires id in s.conns
  {
    var c := s.conns[id];
    match read
    case ReadAborted => SetConn(s, id, c.(phase := Done))
    case ReadFailed => Close(s, id, c)
    case More => s
    case ReadThrew => s.(halt := Crashed)
    case ReadHung => s.(halt := Stuck)
    case Bad => SetConn(s, id, c.(phase := Writing, requests := c.requests + 1, responses := c.responses + 1))
    case Whole =>
      SetConn(s, id, c.(phase := Queued, requests := c.requests + 1))
        .(queue := s.queue + [Some(id)], notify := true, pushed := s.pushed + [id])
  }

  function DoWrite(s: State, id: Id, write: WriteResult): State
    requires id in s.conns
  {
    var c := s.conns[id];
    match write
    case WriteAborted => SetConn(s, id, c.(phase := Done))
    case WriteFailed => Close(s, id, c)
    case Written(keepAlive) =>
      var d := c.(written := c.written + 1);
      if keepAlive then SetConn(s, id, d.(phase := Reading)) else Close(s, id, d)
  }

  function DoPop(s: State, w: nat): State
    requires Looking(s, w) && s.queue != []
  {
    var t := s.(queue := s.queue[1..]);
    match s.queue[0]
    case None => SetWorker(t, w, Passing)
    case Some(id) =>
      var u := SetWorker(t, w, Handling(id)).(popped := s.popped + [id]);
      if id in s.conns then SetConn(u, id, s.conns[id].(phase := Held)) else u
  }

  function DoRespond(s: State, w: nat): State
    requires w < |s.workers| && s.workers[w].Handling? && s.workers[w].id in s.conns
  {
    var id := s.workers[w].id;
    var c := s.conns[id];
    SetConn(SetWorker(s, w, Ready), id, c.(phase := Writing, responses := c.responses + 1))
  }

  /** The connections in the queue. */
  function Ids(queue: seq<Item>): seq<Id> {
    if queue == [] then []
    else (if queue[0].Some? then [queue[0].value] else []) + Ids(queue[1..])
  }

  function DoClear(s: State): State {
    var gone := Ids(s.queue);
    s.(loop := Cleared, queue := [], cleared := s.cleared + gone,
       conns := map id | id in s.conns :: if id in gone then s.conns[id].(phase := Dropped) else s.conns[id])
  }

  function DoCloseAll(s: State): State {
    s.(loop := Ended, pool := {},
       conns := map id | id in s.conns :: if id in s.pool then s.conns[id].(open := false) else s.conns[id])
  }

  function Do(s: State, step: Step): State
    requires Enabled(s, step)
  {
    match step
    case Accept(id) => SetConn(s, id, NEW_CONNECTION).(pool := s.pool + {id})
    case OnRead(id, read) => DoRead(s, id, read)
    case OnWrite(id, write) => DoWrite(s, id, write)
    case Notify(woken) => s.(notify := false, workers := Wakened(s.workers, woken))
    case Stop => s.(loop := Stopping)
    case Clear => DoClear(s)
    case PushNull => s.(loop := Joining, queue := s.queue + [None], notify := true)
    case Join => s.(loop := Closing)
    case CloseAll => DoCloseAll(s)
    case Pop(w) => DoPop(s, w)
    case Sleep(w) => SetWorker(s, w, Sleeping)
    case Wake(w) => SetWorker(s, w, Awakened)
    case Respond(w) => DoRespond(s, w)
    case Throw(w) => s.(halt := Crashed)
    case PassOn(w) => SetWorker(s, w, Notifying).(queue := s.queue + [None])
    case Exit(w, woken) => s.(workers := Wakened(s.workers, woken)[w := Exited])
  }

  /** The state after some steps; `None` if one of them cannot be taken. */
  function Run(s: State, steps: seq<Step>): Option<State>
    decreases |steps|
  {
    if steps == [] then Some(s)
    else if Enabled(s, steps[0]) then Run(Do(s, steps[0]), steps[1..])
    else None
  }
}
