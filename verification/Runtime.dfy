/**
 * The coroutine runtime as a transition system: workers running `Scheduler::run` and
 * `IOManager::idle` over one locked task queue, the event slots and the timers. One step is one
 * critical section or one atomic operation of the code.
 */
module Runtime {
  import opened Common

  type Cor = nat
  type Worker = nat

  datatype CorState = INIT | HOLD | EXEC | TERM | READY | EXCEPTION

  datatype Slot = Slot(fd: nat, ev: Event)

  /** A callback is user code, or the bound `schedule(cor)` of a sleeping coroutine. */
  datatype Callback = User(id: nat) | Wake(c: Cor)
  datatype Job = Resume(c: Cor) | Call(f: Callback)

  /** A queue entry; thread -1 means any worker; `from` is the registration that enqueued it, or -1. */
  datatype Task = Task(job: Job, thread: int, from: int)

  /**
   * What a coroutine may still do: anything, only yield, first reschedule `c`, or nothing
   * because its function is null.
   */
  datatype Mode = Code | MustHold | Waking(c: Cor) | Blank
  datatype CorInfo = CorInfo(state: CorState, mode: Mode)

  /** Where a worker stands in `run` and in its idle coroutine. */
  datatype Pc =
    | NotStarted                             // the calling thread before `stop`
    | Pick                                   // about to scan the queue
    | Hand(id: nat)                          // holds a dequeued task
    | Run(c: Cor)                            // inside the coroutine
    | Swapped(c: Cor)                        // switched back, active count not yet decremented
    | Dropped(c: Cor)                        // active count decremented, state not yet settled
    | Empty                                  // the scan found nothing
    | Idling                                 // idle coroutine entered, before `stopping()`
    | SawNoEvents(main: bool)                // in `stopping()`, past the pending count; main: called by `stop`
    | SawNoTimers(main: bool)                // in `stopping()`, past the timers as well
    | Waiting                                // in epoll_wait
    | Posting(cbs: seq<Callback>, k: nat)    // expired callbacks in a local, the first k posted
    | Handling                               // going through the ready events
    | Exited

  datatype TaskPlace = Queued | Held(w: Worker) | Done

  /** Where the wake-up of a suspended coroutine is. */
  datatype Place =
    | NoToken
    | AtSlot(slot: Slot)        // registered on an event
    | AtTimer(t: nat)           // in a sleep timer
    | AtLocal(w: Worker, i: nat)   // in the expired callbacks of a worker's idle coroutine
    | InTask(id: nat)           // in a task that is queued or in a worker's hand
    | AtBody(k: Cor)            // in the callback that coroutine k is running
    | AtUser(c: Cor)            // user code kept the coroutine and will schedule it

  datatype Reg = Reg(job: Job, park: nat)
  datatype TimerRec = TimerRec(cb: Callback, recurring: bool)

  /** One successful `addEvent`; `woken` is the task it turned into, or -1 while registered. */
  datatype ParkRec = ParkRec(slot: Slot, job: Job, woken: int)

  datatype State = State(
    queue: seq<nat>,            // m_coroutines, by task number
    tasks: seq<Task>,           // every task ever accepted
    taskAt: seq<TaskPlace>,     // where each of them is (auxiliary)
    cors: seq<CorInfo>,         // every coroutine ever created
    on: seq<int>,               // the worker whose stack it is on, or -1 (auxiliary)
    token: seq<Place>,          // where its wake-up is (auxiliary)
    pc: seq<Pc>,                // one per worker
    cb: seq<int>,               // cb_coroutine of each worker, -1 for null
    idleDone: set<Worker>,      // workers whose idle coroutine is TERM
    regs: map<Slot, Reg>,       // registered events
    owed: nat,                  // triggered events that m_pendingEventCount still counts
    timers: map<nat, TimerRec>,
    lent: set<Cor>,             // coroutines user code holds and will schedule once
    active: int,                // m_activeThreadCount
    stopped: bool,              // m_autoStop && m_stopping
    parks: seq<ParkRec>)        // every registration ever made (auxiliary)

  datatype Spawn = NewCor | CallUser(id: nat)

  /** What user code does inside a framework call. */
  datatype Op =
    | Schedule(what: Spawn, thread: int)      // schedule() of a new coroutine or a callback
    | Park(slot: Slot)                        // addEvent for the running coroutine
    | Listen(slot: Slot, id: nat)             // addEvent with a callback
    | Sleep(t: nat)
    | Lend                                    // the running coroutine leaves itself with user code
    | Return(c: Cor)                          // user code schedules such a coroutine
    | Arm(t: nat, id: nat, recurring: bool)
    | Disarm(t: nat)
    | Trigger(slot: Slot)                     // cancelEvent, cancelAll, or readiness in idle
    | CountDown                               // --m_pendingEventCount after a trigger
    | Deliver                                 // the body of a Wake callback

  /** What a worker does in `run`, in a yield, or in its idle coroutine. */
  datatype Move =
    | Take
    | Begin
    | YieldHold
    | YieldReady
    | Finish(ok: bool)
    | Decrement
    | Settle
    | EnterIdle
    | Leave
    | ReadEvents                              // the three reads of `stopping()`, by the idle
    | ReadTimers                              // coroutine or by the caller of `stop`, which enters
    | ReadQueue                               // `run` unless all three find nothing
    | Expire(ts: seq<nat>)
    | Post
    | EndIdle

  datatype Action = StopCall | Do(w: Worker, op: Op) | Go(w: Worker, move: Move)

  // ---- the scan ----

  /** `run` skips entries pinned to another thread and coroutines that are still running. */
  predicate Eligible(s: State, w: Worker, id: nat) {
    && id < |s.tasks|
    && (s.tasks[id].thread == -1 || s.tasks[id].thread == w)
    && !(s.tasks[id].job.Resume? && s.tasks[id].job.c < |s.cors| && s.cors[s.tasks[id].job.c].state == EXEC)
  }

  /** The first eligible entry from `i` on, or the end of the queue. */
  function FirstEligible(s: State, w: Worker, i: nat): (r: nat)
    requires i <= |s.queue|
    ensures i <= r <= |s.queue|
    ensures r < |s.queue| ==> Eligible(s, w, s.queue[r])
    ensures forall j :: i <= j < r ==> !Eligible(s, w, s.queue[j])
    decreases |s.queue| - i
  {
    if i == |s.queue| || Eligible(s, w, s.queue[i]) then i else FirstEligible(s, w, i + 1)
  }

  /** The loop of `run` over the queue. */
  method ScanQueue(s: State, w: Worker) returns (i: nat)
    ensures i == FirstEligible(s, w, 0)
  {
    i := 0;
    while i < |s.queue|
      invariant i <= |s.queue| && FirstEligible(s, w, i) == FirstEligible(s, w, 0)
    {
      if s.queue[i] < |s.tasks| && (s.tasks[s.queue[i]].thread == -1 || s.tasks[s.queue[i]].thread == w) {
        var j := s.tasks[s.queue[i]].job;
        if !(j.Resume? && j.c < |s.cors| && s.cors[j.c].state == EXEC) {
          return;
        }
      }
      i := i + 1;
    }
  }

  // ---- pieces of steps ----

  predicate Over(st: CorState) {
    st == TERM || st == EXCEPTION
  }

  /** The coroutine a callback or a job will wake, or -1. */
  function CbWaker(f: Callback): int {
    if f.Wake? then f.c else -1
  }

  function Waker(j: Job): int {
    if j.Resume? then j.c else CbWaker(j.f)
  }

  function Moved(token: seq<Place>, c: int, p: Place): (r: seq<Place>)
    ensures |r| == |token|
  {
    if 0 <= c < |token| then token[c := p] else token
  }

  /** `scheduleNoLock`: the task goes to the back of the queue; a wake-up it carries is now there. */
  function Push(s: State, j: Job, thread: int, from: int): State {
    s.(queue := s.queue + [|s.tasks|], tasks := s.tasks + [Task(j, thread, from)], taskAt := s.taskAt + [Queued],
       token := Moved(s.token, Waker(j), InTask(|s.tasks|)))
  }

  /** `Scheduler::stopping()`, the last of the three reads of `IOManager::stopping()`; one critical section. */
  predicate QueueStopping(s: State) {
    s.stopped && s.queue == [] && s.active == 0
  }

  /** Between the dequeue and the decrement. */
  function Busy(p: Pc): nat {
    if p.Hand? || p.Run? || p.Swapped? then 1 else 0
  }

  predicate Shaped(s: State) {
    |s.taskAt| == |s.tasks| && |s.on| == |s.cors| == |s.token| && |s.cb| == |s.pc|
  }

  /** The same tasks, or one more that no registration made. */
  predicate SameOrOneMore(before: seq<Task>, after: seq<Task>) {
    after == before || (|after| == |before| + 1 && after == before + [after[|before|]] && after[|before|].from == -1)
  }

  /**
   * Only the program counter of `w` moved, the active count followed it, no event was touched and
   * at most one task was enqueued.
   */
  predicate Moves(s: State, n: State, w: Worker) {
    && w < |s.pc| == |n.pc| && n.pc == s.pc[w := n.pc[w]]
    && n.active == s.active - Busy(s.pc[w]) + Busy(n.pc[w])
    && n.regs == s.regs && n.owed == s.owed && n.lent == s.lent && n.parks == s.parks && n.stopped == s.stopped
    && (n.idleDone == s.idleDone ||
         (s.pc[w] == SawNoTimers(false) && QueueStopping(s) && n.pc[w] == Pick && n.idleDone == s.idleDone + {w}))
    && SameOrOneMore(s.tasks, n.tasks) && (Shaped(s) ==> Shaped(n))
  }

  function SetPc(s: State, w: Worker, p: Pc): State
    requires w < |s.pc|
  {
    s.(pc := s.pc[w := p])
  }

  function SetCor(s: State, c: Cor, i: CorInfo): State
    requires c < |s.cors|
  {
    s.(cors := s.cors[c := i])
  }

  function DoSchedule(s: State, what: Spawn, thread: int): State {
    match what
    case NewCor =>
      Push(s.(cors := s.cors + [CorInfo(INIT, Code)], on := s.on + [-1], token := s.token + [NoToken]),
           Resume(|s.cors|), thread, -1)
    case CallUser(id) => Push(s, Call(User(id)), thread, -1)
  }

  /** The state with the entry at queue index `i` in the hands of `w`. */
  function DoTake(s: State, w: Worker, i: nat): (n: State)
    requires w < |s.pc| && i < |s.queue| && s.queue[i] < |s.taskAt| && s.pc[w] == Pick
    ensures Moves(s, n, w)
  {
    s.(queue := s.queue[..i] + s.queue[i + 1..], taskAt := s.taskAt[s.queue[i] := Held(w)],
       pc := s.pc[w := Hand(s.queue[i])], active := s.active + 1)
  }

  function DoScan(s: State, w: Worker): (n: State)
    requires w < |s.pc| && s.pc[w] == Pick && |s.taskAt| == |s.tasks|
    ensures Moves(s, n, w) && (n.pc[w].Hand? || n.pc[w].Empty?)
  {
    var i := FirstEligible(s, w, 0);
    if i < |s.queue| then DoTake(s, w, i) else SetPc(s, w, Empty)
  }

  /** `stopping()` said no: the caller of `stop` enters `run`, the idle coroutine waits. */
  function NotStopping(main: bool): Pc {
    if main then Pick else Waiting
  }

  /** First read of `stopping()`: the pending count. */
  function DoReadEvents(s: State, w: Worker): (n: State)
    requires w < |s.pc| && (s.pc[w] == Idling || s.pc[w] == NotStarted)
    ensures Moves(s, n, w) && (n.pc[w].SawNoEvents? || n.pc[w] == NotStopping(s.pc[w] == NotStarted))
  {
    var main := s.pc[w] == NotStarted;
    SetPc(s, w, if s.regs == map[] && s.owed == 0 then SawNoEvents(main) else NotStopping(main))
  }

  /** Second read: the timers. */
  function DoReadTimers(s: State, w: Worker): (n: State)
    requires w < |s.pc| && s.pc[w].SawNoEvents?
    ensures Moves(s, n, w) && (n.pc[w] == SawNoTimers(s.pc[w].main) || n.pc[w] == NotStopping(s.pc[w].main))
  {
    var main := s.pc[w].main;
    SetPc(s, w, if s.timers == map[] then SawNoTimers(main) else NotStopping(main))
  }

  /** Third read: the idle coroutine ends, or the caller of `stop` does not enter `run`. */
  function DoReadQueue(s: State, w: Worker): (n: State)
    requires w < |s.pc| && s.pc[w].SawNoTimers?
    ensures Moves(s, n, w) && (n.pc[w] == Pick || n.pc[w] == Waiting || (n.pc[w] == Exited && QueueStopping(s)))
  {
    var main := s.pc[w].main;
    if !QueueStopping(s) then SetPc(s, w, NotStopping(main))
    else if main then SetPc(s, w, Exited)
    else s.(pc := s.pc[w := Pick], idleDone := s.idleDone + {w})
  }

  /** First branch of `run`: the task is a coroutine that can still run. */
  function BeginCor(s: State, w: Worker, id: nat, c: Cor): (n: State)
    requires w < |s.pc| && id < |s.taskAt| && c < |s.cors| && |s.on| == |s.cors| && s.pc[w].Hand?
    ensures Moves(s, n, w)
  {
    s.(taskAt := s.taskAt[id := Done], token := Moved(s.token, c, NoToken),
       cors := s.cors[c := CorInfo(EXEC, Code)], on := s.on[c := w], pc := s.pc[w := Run(c)])
  }

  /** Second branch: a callback, on the worker's callback coroutine or on a new one. */
  function BeginCall(s: State, w: Worker, id: nat, f: Callback): (n: State)
    requires w < |s.pc| && id < |s.taskAt| && |s.on| == |s.cors| && |s.cb| == |s.pc|
    requires s.cb[w] < |s.cors| && s.pc[w].Hand?
    ensures Moves(s, n, w)
  {
    var info := CorInfo(EXEC, if f.Wake? then Waking(f.c) else Code);
    var k: nat := if s.cb[w] >= 0 then s.cb[w] else |s.cors|;
    var token := Moved(s.token, CbWaker(f), AtBody(k));
    if s.cb[w] >= 0 then
      s.(taskAt := s.taskAt[id := Done], pc := s.pc[w := Run(k)],
         cors := s.cors[k := info], on := s.on[k := w], token := token)
    else
      s.(taskAt := s.taskAt[id := Done], pc := s.pc[w := Run(k)],
         cors := s.cors + [info], on := s.on + [w], token := token + [NoToken], cb := s.cb[w := k])
  }

  /** Third branch: a coroutine that is already over. */
  function BeginOver(s: State, w: Worker, id: nat, c: Cor): (n: State)
    requires w < |s.pc| && id < |s.taskAt| && s.pc[w].Hand?
    ensures Moves(s, n, w)
  {
    s.(taskAt := s.taskAt[id := Done], token := Moved(s.token, c, NoToken),
       pc := s.pc[w := Pick], active := s.active - 1)
  }

  /** A registered event: the bit and the slot are cleared and the waiter is enqueued. */
  function DoTrigger(s: State, slot: Slot): State
    requires slot in s.regs
  {
    var p := s.regs[slot].park;
    Push(s.(regs := s.regs - {slot}, owed := s.owed + 1,
            parks := if p < |s.parks| then s.parks[p := s.parks[p].(woken := |s.tasks|)] else s.parks),
         s.regs[slot].job, -1, p)
  }

  function DoPark(s: State, slot: Slot, j: Job): State {
    s.(regs := s.regs[slot := Reg(j, |s.parks|)], parks := s.parks + [ParkRec(slot, j, -1)])
  }

  /** The running coroutine has left its wake-up at `p` and has only to yield. */
  function DoSuspend(s: State, c: Cor, p: Place): State
    requires c < |s.cors|
  {
    SetCor(s, c, CorInfo(s.cors[c].state, MustHold)).(token := Moved(s.token, c, p))
  }

  /** After the decrement: requeue, reset or hold the coroutine. */
  function DoSettle(s: State, w: Worker, c: Cor): (n: State)
    requires w < |s.pc| && c < |s.cors| && |s.on| == |s.cors| && |s.cb| == |s.pc| && s.pc[w] == Dropped(c)
    ensures Moves(s, n, w) && n.pc[w] == Pick
  {
    var pc := s.pc[w := Pick];
    var on := s.on[c := -1];
    var own := s.cb[w] == c;
    var st := s.cors[c].state;
    if Over(st) then
      s.(pc := pc, on := on, cors := if own then s.cors[c := CorInfo(INIT, Blank)] else s.cors)
    else
      var cb := if own then s.cb[w := -1] else s.cb;
      if st == READY then Push(s.(pc := pc, on := on, cb := cb), Resume(c), -1, -1)
      else s.(pc := pc, on := on, cb := cb, cors := s.cors[c := CorInfo(HOLD, Code)])
  }

  function IndexOf(ts: seq<nat>, t: nat): (i: nat)
    requires t in ts
    ensures i < |ts| && ts[i] == t
  {
    if ts[0] == t then 0 else 1 + IndexOf(ts[1..], t)
  }

  function Callbacks(timers: map<nat, TimerRec>, ts: seq<nat>): (r: seq<Callback>)
    requires forall i :: 0 <= i < |ts| ==> ts[i] in timers
    ensures |r| == |ts| && forall i :: 0 <= i < |ts| ==> r[i] == timers[ts[i]].cb
  {
    seq(|ts|, i requires 0 <= i < |ts| => timers[ts[i]].cb)
  }

  /** The wake-ups of the timers in `ts` are now in the local of `w`. */
  function Expired(p: Place, w: Worker, ts: seq<nat>): Place {
    if p.AtTimer? && p.t in ts then AtLocal(w, IndexOf(ts, p.t)) else p
  }

  /** The expired timers leave the set, except the recurring ones; their callbacks go to a local. */
  function DoExpire(s: State, w: Worker, ts: seq<nat>): (n: State)
    requires w < |s.pc| && s.pc[w] == Waiting && forall i :: 0 <= i < |ts| ==> ts[i] in s.timers
    ensures Moves(s, n, w) && n.pc[w].Posting?
  {
    s.(timers := map t | t in s.timers && (t !in ts || s.timers[t].recurring) :: s.timers[t],
       token := seq(|s.token|, c requires 0 <= c < |s.token| => Expired(s.token[c], w, ts)),
       pc := s.pc[w := Posting(Callbacks(s.timers, ts), 0)])
  }

  // ---- steps ----

  predicate At(s: State, w: Worker, p: Pc) {
    w < |s.pc| && s.pc[w] == p
  }

  predicate Runs(s: State, w: Worker) {
    w < |s.pc| && s.pc[w].Run? && s.pc[w].c < |s.cors|
  }

  predicate RunsCode(s: State, w: Worker) {
    Runs(s, w) && s.cors[s.pc[w].c].mode == Code
  }

  /** Framework calls come from a running coroutine or, until `stop`, from any other thread. */
  predicate MayCall(s: State, w: Worker) {
    RunsCode(s, w) || !s.stopped
  }

  predicate OpEnabled(s: State, w: Worker, op: Op) {
    match op
    case Schedule(_, _) => MayCall(s, w)
    case Park(slot) => RunsCode(s, w) && slot !in s.regs
    case Listen(slot, _) => MayCall(s, w) && slot !in s.regs
    case Sleep(t) => RunsCode(s, w) && t !in s.timers
    case Lend => RunsCode(s, w)
    case Return(c) => MayCall(s, w) && c in s.lent
    case Arm(t, _, _) => MayCall(s, w) && t !in s.timers
    case Disarm(t) => MayCall(s, w) && t in s.timers && s.timers[t].cb.User?
    case Trigger(slot) => MayCall(s, w) || At(s, w, Handling)
    case CountDown => s.owed > 0
    case Deliver => Runs(s, w) && s.cors[s.pc[w].c].mode.Waking?
  }

  predicate MoveEnabled(s: State, w: Worker, m: Move)
    requires Shaped(s)
  {
    w < |s.pc| &&
    match m
    case Take => s.pc[w] == Pick
    case Begin =>
      && s.pc[w].Hand? && s.pc[w].id < |s.tasks| && s.cb[w] < |s.cors|
      && (s.tasks[s.pc[w].id].job.Resume? ==> s.tasks[s.pc[w].id].job.c < |s.cors|)
    case YieldHold => Runs(s, w) && s.cors[s.pc[w].c].mode == MustHold
    case YieldReady => RunsCode(s, w)
    case Finish(_) => RunsCode(s, w)
    case Decrement => s.pc[w].Swapped?
    case Settle => s.pc[w].Dropped? && s.pc[w].c < |s.cors|
    case EnterIdle => s.pc[w] == Empty && w !in s.idleDone
    case Leave => s.pc[w] == Empty && w in s.idleDone
    case ReadEvents => s.pc[w] == Idling || (s.pc[w] == NotStarted && s.stopped)
    case ReadTimers => s.pc[w].SawNoEvents?
    case ReadQueue => s.pc[w].SawNoTimers?
    case Expire(ts) =>
      && s.pc[w] == Waiting
      && (forall i :: 0 <= i < |ts| ==> ts[i] in s.timers)
      && (forall i, j :: 0 <= i < j < |ts| ==> ts[i] != ts[j])
    case Post => s.pc[w].Posting?
    case EndIdle => s.pc[w] == Handling
  }

  /** When a step can be taken; the bounds on numbers hold in every reachable state. */
  predicate Enabled(s: State, a: Action) {
    Shaped(s) &&
    match a
    case StopCall => !s.stopped
    case Do(w, op) => OpEnabled(s, w, op)
    case Go(w, m) => MoveEnabled(s, w, m)
  }

  function NextOp(s: State, w: Worker, op: Op): State
    requires Shaped(s) && OpEnabled(s, w, op)
  {
    match op
    case Schedule(what, thread) => DoSchedule(s, what, thread)
    case Park(slot) => DoPark(DoSuspend(s, s.pc[w].c, AtSlot(slot)), slot, Resume(s.pc[w].c))
    case Listen(slot, id) => DoPark(s, slot, Call(User(id)))
    case Sleep(t) => DoSuspend(s, s.pc[w].c, AtTimer(t)).(timers := s.timers[t := TimerRec(Wake(s.pc[w].c), false)])
    case Lend => DoSuspend(s, s.pc[w].c, AtUser(s.pc[w].c)).(lent := s.lent + {s.pc[w].c})
    case Return(c) => Push(s.(lent := s.lent - {c}), Resume(c), -1, -1)
    case Arm(t, id, recurring) => s.(timers := s.timers[t := TimerRec(User(id), recurring)])
    case Disarm(t) => s.(timers := s.timers - {t})
    case Trigger(slot) => if slot in s.regs then DoTrigger(s, slot) else s
    case CountDown => s.(owed := s.owed - 1)
    case Deliver =>
      var k := s.pc[w].c;
      Push(SetCor(s, k, CorInfo(s.cors[k].state, Code)), Resume(s.cors[k].mode.c), -1, -1)
  }

  function DoBegin(s: State, w: Worker): (n: State)
    requires Shaped(s) && MoveEnabled(s, w, Begin)
    ensures Moves(s, n, w) && (n.pc[w].Run? || n.pc[w].Pick?)
  {
    var id := s.pc[w].id;
    match s.tasks[id].job
    case Resume(c) => if Over(s.cors[c].state) then BeginOver(s, w, id, c) else BeginCor(s, w, id, c)
    case Call(f) => BeginCall(s, w, id, f)
  }

  function DoPost(s: State, w: Worker, cbs: seq<Callback>, k: nat): (n: State)
    requires w < |s.pc| && s.pc[w] == Posting(cbs, k)
    ensures Moves(s, n, w) && (n.pc[w].Posting? || n.pc[w].Handling?)
  {
    if k < |cbs| then SetPc(Push(s, Call(cbs[k]), -1, -1), w, Posting(cbs, k + 1)) else SetPc(s, w, Handling)
  }

  function NextMove(s: State, w: Worker, m: Move): (n: State)
    requires Shaped(s) && MoveEnabled(s, w, m)
    ensures Moves(s, n, w)
  {
    match m
    case Take => DoScan(s, w)
    case Begin => DoBegin(s, w)
    case YieldHold => SetPc(s, w, Swapped(s.pc[w].c))
    case YieldReady => SetPc(SetCor(s, s.pc[w].c, CorInfo(READY, Code)), w, Swapped(s.pc[w].c))
    case Finish(ok) =>
      SetPc(SetCor(s, s.pc[w].c, CorInfo(if ok then TERM else EXCEPTION, Code)), w, Swapped(s.pc[w].c))
    case Decrement => SetPc(s, w, Dropped(s.pc[w].c)).(active := s.active - 1)
    case Settle => DoSettle(s, w, s.pc[w].c)
    case EnterIdle => SetPc(s, w, Idling)
    case Leave => SetPc(s, w, Exited)
    case ReadEvents => DoReadEvents(s, w)
    case ReadTimers => DoReadTimers(s, w)
    case ReadQueue => DoReadQueue(s, w)
    case Expire(ts) => DoExpire(s, w, ts)
    case Post => DoPost(s, w, s.pc[w].cbs, s.pc[w].k)
    case EndIdle => SetPc(s, w, Pick)
  }

  function Next(s: State, a: Action): State
    requires Enabled(s, a)
  {
    match a
    case StopCall => s.(stopped := true)
    case Do(w, op) => NextOp(s, w, op)
    case Go(w, m) => NextMove(s, w, m)
  }

  // ---- runs ----

  /** Before anything was scheduled: `workers` threads running, plus the caller if it takes part. */
  function Initial(workers: nat, useCaller: bool): State {
    var own := seq(workers, _ => Pick);
    var pc := if useCaller then own + [NotStarted] else own;
    State([], [], [], [], [], [], pc, seq(|pc|, _ => -1), {}, map[], 0, map[], {}, 0, false, [])
  }

  ghost predicate IsRun(s: State, acts: seq<Action>)
    decreases |acts|
  {
    acts == [] || (Enabled(s, acts[0]) && IsRun(Next(s, acts[0]), acts[1..]))
  }

  ghost function After(s: State, acts: seq<Action>): State
    requires IsRun(s, acts)
    decreases |acts|
  {
    if acts == [] then s else After(Next(s, acts[0]), acts[1..])
  }
}
