/** Which tasks are accepted and which task a worker takes. */
module RuntimeQueue {
  import opened Common
  import opened Runtime
  import opened RuntimeTasks
  import opened RuntimeTokens
  import opened RuntimeCors
  import opened RuntimeSafety
  import opened RuntimeTheorems
  import opened RuntimeShutdown

  // ---- accepting a task ----

  /** The task a framework call makes, if it makes one. */
  function MadeBy(s: State, w: Worker, op: Op): Option<Task>
    requires Shaped(s) && OpEnabled(s, w, op)
  {
    match op
    case Schedule(what, thread) =>
      Some(Task(if what.NewCor? then Resume(|s.cors|) else Call(User(what.id)), thread, -1))
    case Return(c) => Some(Task(Resume(c), -1, -1))
    case Deliver => Some(Task(Resume(s.cors[s.pc[w].c].mode.c), -1, -1))
    case Trigger(slot) =>
      if slot in s.regs then Some(Task(s.regs[slot].job, -1, s.regs[slot].park)) else None
    case _ => None
  }

  /** The task a step makes, if it makes one. */
  function Made(s: State, a: Action): Option<Task>
    requires Enabled(s, a)
  {
    match a
    case Do(w, op) => MadeBy(s, w, op)
    case Go(w, Post) =>
      if s.pc[w].k < |s.pc[w].cbs| then Some(Task(Call(s.pc[w].cbs[s.pc[w].k]), -1, -1)) else None
    case Go(w, Settle) =>
      if s.cors[s.pc[w].c].state == READY then Some(Task(Resume(s.pc[w].c), -1, -1)) else None
    case _ => None
  }

  ghost predicate Accepted(s: State, n: State, t: Option<Task>) {
    match t
    case Some(task) => n.tasks == s.tasks + [task] && n.queue == s.queue + [|s.tasks|]
    case None => n.tasks == s.tasks && n.queue == s.queue
  }

  lemma OpAccepts(s: State, w: Worker, op: Op)
    requires Shaped(s) && OpEnabled(s, w, op)
    ensures Accepted(s, NextOp(s, w, op), MadeBy(s, w, op))
    ensures op.Schedule? && op.what.NewCor? ==> NextOp(s, w, op).cors == s.cors + [CorInfo(INIT, Code)]
  {
  }

  lemma MoveAccepts(s: State, w: Worker, m: Move)
    requires Shaped(s) && MoveEnabled(s, w, m)
    ensures if m.Take? then NextMove(s, w, m).tasks == s.tasks
            else Accepted(s, NextMove(s, w, m), Made(s, Go(w, m)))
  {
  }

  /** The task that is made goes to the back of the queue; only a worker's scan takes one out. */
  lemma Accepts(s: State, a: Action)
    requires Enabled(s, a)
    ensures if a.Go? && a.move.Take? then Next(s, a).tasks == s.tasks else Accepted(s, Next(s, a), Made(s, a))
    ensures s.tasks <= Next(s, a).tasks
    ensures a.Do? && a.op.Schedule? && a.op.what.NewCor? ==> Next(s, a).cors == s.cors + [CorInfo(INIT, Code)]
  {
    match a
    case StopCall =>
    case Do(w, op) => OpAccepts(s, w, op);
    case Go(w, m) => MoveAccepts(s, w, m);
  }

  // ---- taking a task ----

  /** Not for worker `w`: pinned to another thread, or a coroutine that some worker has not let go of. */
  ghost predicate NotFor(s: State, w: Worker, id: nat)
    requires id < |s.tasks|
  {
    var t := s.tasks[id];
    (t.thread != -1 && t.thread != w) || (t.job.Resume? && OnWorker(s, t.job.c))
  }

  /** A coroutine with a task in the queue is EXEC exactly as long as a worker has it. */
  lemma QueuedCor(s: State, id: nat)
    requires Base(s) && id < |s.tasks| && s.taskAt[id] == Queued && s.tasks[id].job.Resume?
    ensures var c := s.tasks[id].job.c; c < |s.cors| && (s.cors[c].state == EXEC <==> OnWorker(s, c))
  {
    TaskToken(s, id);
    var c := s.tasks[id].job.c;
    assert CorOk(s.cors[c], s.token[c] != NoToken, s.on[c], s.pc, c);
    if s.on[c] != -1 {
      assert HasCor(s.pc[s.on[c]]) && s.pc[s.on[c]].c == c;
    }
  }

  lemma EligibleIff(s: State, w: Worker, i: nat)
    requires Base(s) && i < |s.queue|
    ensures s.queue[i] < |s.tasks| && (Eligible(s, w, s.queue[i]) <==> !NotFor(s, w, s.queue[i]))
  {
    if s.tasks[s.queue[i]].job.Resume? {
      QueuedCor(s, s.queue[i]);
    }
  }

  /**
   * A worker takes the first task that is neither pinned to another thread nor a coroutine some worker
   * has, or finds nothing if there is none; the other tasks stay in the queue in their order.
   */
  lemma TakesFirst(s: State, w: Worker) returns (i: nat)
    requires Reachable(s) && Enabled(s, Go(w, Take))
    ensures i <= |s.queue| && forall j :: 0 <= j < |s.queue| ==> s.queue[j] < |s.tasks|
    ensures forall j :: 0 <= j < i ==> NotFor(s, w, s.queue[j])
    ensures i == |s.queue| ==> Next(s, Go(w, Take)) == s.(pc := s.pc[w := Empty])
    ensures i < |s.queue| ==> !NotFor(s, w, s.queue[i])
    ensures i < |s.queue| ==> var n := Next(s, Go(w, Take));
      n.pc == s.pc[w := Hand(s.queue[i])] && n.queue == s.queue[..i] + s.queue[i + 1..]
  {
    ReachableInv(s);
    i := FirstEligible(s, w, 0);
    forall j | 0 <= j < |s.queue|
      ensures s.queue[j] < |s.tasks| && (Eligible(s, w, s.queue[j]) <==> !NotFor(s, w, s.queue[j]))
    {
      EligibleIff(s, w, j);
    }
  }

  /** A worker holds no task that is pinned to another thread. */
  ghost predicate OwnHands(s: State) {
    forall w :: 0 <= w < |s.pc| && s.pc[w].Hand? ==>
      s.pc[w].id < |s.tasks| && (s.tasks[s.pc[w].id].thread == -1 || s.tasks[s.pc[w].id].thread == w)
  }

  lemma StepOwn(s: State, a: Action)
    requires Inv(s) && OwnHands(s) && Enabled(s, a)
    ensures OwnHands(Next(s, a))
  {
    var n := Next(s, a);
    Accepts(s, a);
    if a.Go? {
      if a.move.Take? {
        var i := FirstEligible(s, a.w, 0);
        if i < |s.queue| {
          EligibleIff(s, a.w, i);
        }
      } else if !a.move.Begin? {
        AtMostPushes(s, a.w, a.move);
      }
      assert forall w :: 0 <= w < |s.pc| && w != a.w ==> n.pc[w] == s.pc[w];
    } else {
      assert n.pc == s.pc by { if a.Do? { OpFrame(s, a.w, a.op); } }
    }
  }

  lemma {:induction false} RunOwn(s: State, acts: seq<Action>)
    requires Inv(s) && OwnHands(s) && IsRun(s, acts)
    ensures OwnHands(After(s, acts))
    decreases |acts|
  {
    if acts != [] {
      StepInv(s, acts[0]);
      StepOwn(s, acts[0]);
      RunOwn(Next(s, acts[0]), acts[1..]);
    }
  }

  /** A task pinned to a thread is never in another thread's hand. */
  lemma PinnedToHand(s: State, w: Worker)
    requires Reachable(s) && w < |s.pc| && s.pc[w].Hand?
    ensures s.pc[w].id < |s.tasks| && (s.tasks[s.pc[w].id].thread == -1 || s.tasks[s.pc[w].id].thread == w)
  {
    var workers: nat, useCaller: bool, acts: seq<Action> :|
      IsRun(Initial(workers, useCaller), acts) && After(Initial(workers, useCaller), acts) == s;
    InitialInv(workers, useCaller);
    RunOwn(Initial(workers, useCaller), acts);
  }
}
