/** What holds in every state the runtime can reach, said without the auxiliary invariant. */
module RuntimeTheorems {
  import opened Runtime
  import opened RuntimeTasks
  import opened RuntimeTokens
  import opened RuntimeCors
  import opened RuntimeSafety

  ghost predicate Reachable(s: State) {
    exists workers: nat, useCaller: bool, acts: seq<Action> ::
      IsRun(Initial(workers, useCaller), acts) && After(Initial(workers, useCaller), acts) == s
  }

  lemma ReachableInv(s: State)
    requires Reachable(s)
    ensures Inv(s)
  {
    var workers: nat, useCaller: bool, acts: seq<Action> :|
      IsRun(Initial(workers, useCaller), acts) && After(Initial(workers, useCaller), acts) == s;
    InitialInv(workers, useCaller);
    RunInv(Initial(workers, useCaller), acts);
  }

  // ---- tasks ----

  /** Each accepted task is once in the queue, in one worker's hand, or begun. */
  lemma TaskConservation(s: State, id: nat)
    requires Reachable(s) && id < |s.tasks|
    ensures |s.taskAt| == |s.tasks|
    ensures id in s.queue <==> s.taskAt[id] == Queued
    ensures forall w :: 0 <= w < |s.pc| ==> (s.pc[w] == Hand(id) <==> s.taskAt[id] == Held(w))
    ensures forall i, j :: 0 <= i < j < |s.queue| ==> !(s.queue[i] == s.queue[j] == id)
  {
    ReachableInv(s);
  }

  predicate TaskFlows(before: TaskPlace, after: TaskPlace, a: Action) {
    || after == before
    || (before == Queued && a.Go? && a.move.Take? && after == Held(a.w))
    || (a.Go? && a.move.Begin? && before == Held(a.w) && after == Done)
  }

  /** Task `id` is the same task after the step, and moved as it may. */
  predicate Flows(s: State, n: State, a: Action, id: nat) {
    && id < |s.tasks| == |s.taskAt| && id < |n.tasks| == |n.taskAt|
    && n.tasks[id] == s.tasks[id] && TaskFlows(s.taskAt[id], n.taskAt[id], a)
  }

  lemma OpFlow(s: State, w: Worker, op: Op, id: nat)
    requires Shaped(s) && OpEnabled(s, w, op) && id < |s.tasks|
    ensures Flows(s, NextOp(s, w, op), Do(w, op), id)
  {
  }

  lemma PlainFlow(s: State, w: Worker, m: Move, id: nat)
    requires Shaped(s) && MoveEnabled(s, w, m) && !m.Take? && !m.Begin? && id < |s.tasks|
    ensures Flows(s, NextMove(s, w, m), Go(w, m), id)
  {
    AtMostPushes(s, w, m);
  }

  lemma MoveFlow(s: State, w: Worker, m: Move, id: nat)
    requires Shaped(s) && TaskInv(s.queue, s.taskAt, s.pc) && MoveEnabled(s, w, m) && id < |s.tasks|
    ensures Flows(s, NextMove(s, w, m), Go(w, m), id)
  {
    if !m.Take? && !m.Begin? {
      PlainFlow(s, w, m, id);
    }
  }

  /** A step never forgets or changes a task, and moves it only from queue to hand to begun. */
  lemma TaskFlow(s: State, a: Action, id: nat)
    requires Reachable(s) && Enabled(s, a) && id < |s.tasks|
    ensures Flows(s, Next(s, a), a, id)
  {
    ReachableInv(s);
    match a
    case StopCall =>
    case Do(w, op) => OpFlow(s, w, op, id);
    case Go(w, m) => MoveFlow(s, w, m, id);
  }

  lemma {:induction false} BusyBound(pc: seq<Pc>)
    ensures BusyCount(pc) <= |pc|
    ensures BusyCount(pc) == 0 ==> forall w :: 0 <= w < |pc| ==> Busy(pc[w]) == 0
  {
    if pc != [] {
      BusyBound(pc[1..]);
    }
  }

  /** The active count is the number of workers between a dequeue and its one decrement. */
  lemma ActiveCount(s: State)
    requires Reachable(s)
    ensures s.active == BusyCount(s.pc) && 0 <= s.active <= |s.pc|
    ensures s.active == 0 <==> forall w :: 0 <= w < |s.pc| ==> Busy(s.pc[w]) == 0
  {
    ReachableInv(s);
    BusyBound(s.pc);
    if forall w :: 0 <= w < |s.pc| ==> Busy(s.pc[w]) == 0 {
      NoneBusy(s.pc);
    }
  }

  // ---- coroutines ----

  /** No coroutine is on the stack of two workers. */
  lemma OneRunner(s: State, w: Worker, v: Worker)
    requires Reachable(s) && w < |s.pc| && v < |s.pc| && HasCor(s.pc[w]) && HasCor(s.pc[v]) && s.pc[w].c == s.pc[v].c
    ensures w == v
  {
    ReachableInv(s);
  }

  /** The coroutine a worker is about to resume has yielded: the assertion in `swapIn` holds. */
  lemma ResumeAfterYield(s: State, w: Worker)
    requires Reachable(s) && w < |s.pc| && s.pc[w].Hand?
    ensures s.pc[w].id < |s.tasks|
    ensures var j := s.tasks[s.pc[w].id].job;
      j.Resume? ==>
        && j.c < |s.cors| && (s.cors[j.c].state == INIT || s.cors[j.c].state == HOLD || s.cors[j.c].state == READY)
        && forall v :: 0 <= v < |s.pc| && HasCor(s.pc[v]) ==> s.pc[v].c != j.c
  {
    ReachableInv(s);
    InHand(s, w);
  }

  /** So do those in `reset`, `addEvent` and the yields. */
  lemma AssertionsHold(s: State, w: Worker)
    requires Reachable(s) && w < |s.pc|
    ensures |s.cb| == |s.pc| && -1 <= s.cb[w] < |s.cors|
    ensures s.pc[w].Hand? && s.cb[w] >= 0 ==> s.cors[s.cb[w]].state == INIT
    ensures s.pc[w].Run? ==> s.pc[w].c < |s.cors| && s.cors[s.pc[w].c].state == EXEC
  {
    ReachableInv(s);
    if s.pc[w].Hand? {
      InHand(s, w);
    } else if s.pc[w].Run? {
      var c := s.pc[w].c;
      assert CorOk(s.cors[c], s.token[c] != NoToken, s.on[c], s.pc, c);
    }
  }

  /** The wake-up of a coroutine is in at most one slot, timer, local, task or callback. */
  lemma OneWakeUp(s: State, p: Place, q: Place)
    requires Reachable(s) && Holder(s, p) == Holder(s, q) >= 0
    ensures p == q
  {
    ReachableInv(s);
    OnePlace(s, p, q);
  }

  ghost predicate OnWorker(s: State, c: Cor) {
    exists w :: 0 <= w < |s.pc| && HasCor(s.pc[w]) && s.pc[w].c == c
  }

  ghost predicate HasWakeUp(s: State, c: Cor) {
    exists p :: Holder(s, p) == c
  }

  /** No coroutine is lost: one on no worker is finished, is blank, or will be woken. */
  lemma NoLostCoroutine(s: State, c: Cor)
    requires Reachable(s) && c < |s.cors|
    ensures OnWorker(s, c) || HasWakeUp(s, c) || Over(s.cors[c].state) || s.cors[c] == CorInfo(INIT, Blank)
    ensures !OnWorker(s, c) ==>
      (HasWakeUp(s, c) <==> !Over(s.cors[c].state) && s.cors[c] != CorInfo(INIT, Blank))
  {
    ReachableInv(s);
    assert CorOk(s.cors[c], s.token[c] != NoToken, s.on[c], s.pc, c);
    if s.token[c] != NoToken {
      assert Holder(s, s.token[c]) == c;
    }
    if s.on[c] != -1 {
      assert HasCor(s.pc[s.on[c]]) && s.pc[s.on[c]].c == c;
    }
  }

  // ---- registrations ----

  /** A registration is still in the table, or exactly one task came out of it. */
  lemma OneWakePerPark(s: State, p: nat)
    requires Reachable(s) && p < |s.parks|
    ensures var r := s.parks[p];
      if r.slot in s.regs && s.regs[r.slot].park == p then
        s.regs[r.slot].job == r.job && forall id :: 0 <= id < |s.tasks| ==> s.tasks[id].from != p
      else
        && 0 <= r.woken < |s.tasks| && s.tasks[r.woken].job == r.job
        && forall id :: 0 <= id < |s.tasks| ==> (s.tasks[id].from == p <==> id == r.woken)
  {
    ReachableInv(s);
  }

  lemma OpDecided(s: State, w: Worker, op: Op, p: nat)
    requires Inv(s) && OpEnabled(s, w, op) && p < |s.parks|
    ensures var n := NextOp(s, w, op);
      p < |n.parks| && (n.parks[p] == s.parks[p] || (s.parks[p].woken == -1 && op == Trigger(s.parks[p].slot)))
  {
  }

  /** What became of a registration never changes again, and only a trigger of its slot decides it. */
  lemma DecidedOnce(s: State, a: Action, p: nat)
    requires Reachable(s) && Enabled(s, a) && p < |s.parks|
    ensures var n := Next(s, a);
      p < |n.parks| && (n.parks[p] == s.parks[p]
        || (s.parks[p].woken == -1 && a.Do? && a.op == Trigger(s.parks[p].slot)))
  {
    ReachableInv(s);
    if a.Do? {
      OpDecided(s, a.w, a.op, p);
    }
  }

  lemma {:induction false} StaysDecided(s: State, acts: seq<Action>, p: nat)
    requires Inv(s) && IsRun(s, acts) && p < |s.parks| && s.parks[p].woken != -1
    ensures p < |After(s, acts).parks| && After(s, acts).parks[p] == s.parks[p]
    decreases |acts|
  {
    if acts != [] {
      var a := acts[0];
      if a.Do? {
        OpDecided(s, a.w, a.op, p);
      }
      StepInv(s, a);
      StaysDecided(Next(s, a), acts[1..], p);
    }
  }

  /**
   * Whoever triggers a registration first decides it. Whatever is tried in any run from then on, the
   * one task it became stays the only task that ever came out of it.
   */
  lemma LaterTriggersLose(s: State, acts: seq<Action>, p: nat, id: nat)
    requires Reachable(s) && IsRun(s, acts) && p < |s.parks| && s.parks[p].woken != -1
    ensures p < |After(s, acts).parks| && After(s, acts).parks[p] == s.parks[p]
    ensures id < |After(s, acts).tasks| ==> (After(s, acts).tasks[id].from == p <==> id == s.parks[p].woken)
  {
    ReachableInv(s);
    StaysDecided(s, acts, p);
    RunInv(s, acts);
  }

  // ---- progress ----

  /** A step that worker `w` can take. */
  function Proceed(s: State, w: Worker): Action
    requires w < |s.pc|
  {
    match s.pc[w]
    case NotStarted => Go(w, ReadEvents)
    case Pick => Go(w, Take)
    case Hand(_) => Go(w, Begin)
    case Run(c) =>
      if c < |s.cors| && s.cors[c].mode.Waking? then Do(w, Deliver)
      else if c < |s.cors| && s.cors[c].mode == MustHold then Go(w, YieldHold)
      else Go(w, Finish(true))
    case Swapped(_) => Go(w, Decrement)
    case Dropped(_) => Go(w, Settle)
    case Empty => if w in s.idleDone then Go(w, Leave) else Go(w, EnterIdle)
    case Idling => Go(w, ReadEvents)
    case SawNoEvents(_) => Go(w, ReadTimers)
    case SawNoTimers(_) => Go(w, ReadQueue)
    case Waiting => Go(w, Expire([]))
    case Posting(_, _) => Go(w, Post)
    case Handling => Go(w, EndIdle)
    case Exited => StopCall
  }

  /** A worker that is in `run` can always take a step: no bound on a number ever stops it. */
  lemma NeverStuck(s: State, w: Worker)
    requires Reachable(s) && w < |s.pc| && s.pc[w] != Exited && (s.pc[w] == NotStarted ==> s.stopped)
    ensures Enabled(s, Proceed(s, w))
  {
    ReachableInv(s);
    match s.pc[w]
    case Hand(_) => InHand(s, w);
    case Run(c) => assert CorOk(s.cors[c], s.token[c] != NoToken, s.on[c], s.pc, c);
    case _ =>
  }
}
