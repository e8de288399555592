/** What becomes of timers, of their callbacks and of registered events, step by step and over runs. */
module RuntimeCallbacks {
  import opened Common
  import opened Runtime
  import opened RuntimeShutdown
  import opened RuntimeQueue

  // ---- the callbacks of expired timers ----

  /** The step posts a callback of `w`. */
  predicate PostsOne(s: State, w: Worker, a: Action)
    requires Enabled(s, a)
  {
    a == Go(w, Post) && Made(s, a).Some?
  }

  /** The tasks that the expired callbacks of `w` become in a run, by number. */
  ghost function Posts(s: State, w: Worker, acts: seq<Action>): seq<nat>
    requires IsRun(s, acts)
    decreases |acts|
  {
    if acts == [] then []
    else
      var rest := Posts(Next(s, acts[0]), w, acts[1..]);
      if PostsOne(s, w, acts[0]) then [|s.tasks|] + rest else rest
  }

  /** The expired callbacks that `w` has still to post. */
  function ToPost(s: State, w: Worker): seq<Callback> {
    if w < |s.pc| && s.pc[w].Posting? && s.pc[w].k <= |s.pc[w].cbs| then s.pc[w].cbs[s.pc[w].k..] else []
  }

  /** Inside the idle coroutine, behind epoll_wait. */
  predicate Serving(s: State, w: Worker) {
    w < |s.pc| && ((s.pc[w].Posting? && s.pc[w].k <= |s.pc[w].cbs|) || s.pc[w] == Handling)
  }

  /** The numbers in `ids` rise from `low` on, and their tasks call `cbs` in order. */
  ghost predicate CallsOf(tasks: seq<Task>, low: nat, ids: seq<nat>, cbs: seq<Callback>) {
    && |ids| == |cbs|
    && (forall i :: 0 <= i < |ids| ==> low <= ids[i] < |tasks| && tasks[ids[i]] == Task(Call(cbs[i]), -1, -1))
    && (forall i, j :: 0 <= i < j < |ids| ==> ids[i] < ids[j])
  }

  lemma CallsCons(tasks: seq<Task>, low: nat, next: nat, ids: seq<nat>, f: Callback, cbs: seq<Callback>)
    requires CallsOf(tasks, next, ids, cbs) && low < next <= |tasks| && tasks[low] == Task(Call(f), -1, -1)
    ensures CallsOf(tasks, low, [low] + ids, [f] + cbs)
  {
  }

  /** A step of somebody else, or one that posts the next callback. */
  lemma ServeStep(s: State, w: Worker, a: Action)
    requires Enabled(s, a) && Serving(s, w) && a != Go(w, EndIdle)
    ensures Serving(Next(s, a), w) && s.tasks <= Next(s, a).tasks
    ensures !PostsOne(s, w, a) ==> ToPost(Next(s, a), w) == ToPost(s, w)
    ensures PostsOne(s, w, a) ==> var f := s.pc[w].cbs[s.pc[w].k];
      ToPost(s, w) == [f] + ToPost(Next(s, a), w) && Next(s, a).tasks == s.tasks + [Task(Call(f), -1, -1)]
  {
    Accepts(s, a);
    if a.Go? && a.w == w {
      OwnServe(s, w, a.move);
    } else {
      OthersServe(s, w, a);
    }
  }

  /** Nobody else moves a worker's program counter. */
  lemma OthersServe(s: State, w: Worker, a: Action)
    requires Enabled(s, a) && w < |s.pc| && !(a.Go? && a.w == w)
    ensures w < |Next(s, a).pc| && Next(s, a).pc[w] == s.pc[w]
  {
    match a
    case StopCall =>
    case Do(v, op) => OpFrame(s, v, op);
    case Go(v, m) => assert NextMove(s, v, m).pc[w] == s.pc[w];
  }

  lemma OwnServe(s: State, w: Worker, m: Move)
    requires Shaped(s) && MoveEnabled(s, w, m) && Serving(s, w) && !m.EndIdle?
    ensures m.Post? && s.pc[w].Posting?
    ensures var n := NextMove(s, w, Post);
      if s.pc[w].k < |s.pc[w].cbs| then n.pc[w] == s.pc[w].(k := s.pc[w].k + 1) else n.pc[w] == Handling
  {
  }

  lemma {:induction false} PostRun(s: State, w: Worker, acts: seq<Action>)
    requires IsRun(s, acts) && Serving(s, w) && Go(w, EndIdle) !in acts && ToPost(After(s, acts), w) == []
    ensures CallsOf(After(s, acts).tasks, |s.tasks|, Posts(s, w, acts), ToPost(s, w))
    ensures s.tasks <= After(s, acts).tasks
    decreases |acts|
  {
    if acts != [] {
      var a, n := acts[0], Next(s, acts[0]);
      ServeStep(s, w, a);
      PostRun(n, w, acts[1..]);
      if PostsOne(s, w, a) {
        var f := s.pc[w].cbs[s.pc[w].k];
        CallsCons(After(s, acts).tasks, |s.tasks|, |n.tasks|, Posts(n, w, acts[1..]), f, ToPost(n, w));
      }
    }
  }

  /**
   * From the expiry check on, whatever the other workers do: when a worker has come to the ready events,
   * each of its expired callbacks has become one task of its own, in order.
   */
  lemma PostsInOrder(s: State, w: Worker, acts: seq<Action>, cbs: seq<Callback>)
    requires IsRun(s, acts) && w < |s.pc| && s.pc[w] == Posting(cbs, 0) && Go(w, EndIdle) !in acts
    requires w < |After(s, acts).pc| && After(s, acts).pc[w] == Handling
    ensures CallsOf(After(s, acts).tasks, |s.tasks|, Posts(s, w, acts), cbs)
  {
    PostRun(s, w, acts);
  }

  // ---- timers and registrations ----

  /** The step takes timer `t` out of the set. */
  predicate Removes(s: State, a: Action, t: nat)
    requires t in s.timers
  {
    || (a.Do? && a.op == Disarm(t))
    || (a.Go? && a.move.Expire? && t in a.move.ts && !s.timers[t].recurring)
  }

  /** The timer a step adds, if it adds one under the name `t`. */
  function Added(s: State, a: Action, t: nat): Option<TimerRec>
    requires Enabled(s, a)
  {
    match a
    case Do(w, Arm(u, id, recurring)) => if u == t then Some(TimerRec(User(id), recurring)) else None
    case Do(w, Sleep(u)) => if u == t then Some(TimerRec(Wake(s.pc[w].c), false)) else None
    case _ => None
  }

  /** A timer is in the set from the step that adds it to the one that removes it, with the same callback. */
  ghost predicate TimerMoves(s: State, a: Action, n: State, t: nat)
    requires Enabled(s, a)
  {
    if t in s.timers && !Removes(s, a, t) then t in n.timers && n.timers[t] == s.timers[t]
    else
      match Added(s, a, t)
      case Some(r) => t in n.timers && n.timers[t] == r
      case None => t !in n.timers
  }

  lemma OpTimer(s: State, w: Worker, op: Op, t: nat)
    requires Shaped(s) && OpEnabled(s, w, op)
    ensures TimerMoves(s, Do(w, op), NextOp(s, w, op), t)
  {
  }

  lemma MoveTimer(s: State, w: Worker, m: Move, t: nat)
    requires Shaped(s) && MoveEnabled(s, w, m)
    ensures TimerMoves(s, Go(w, m), NextMove(s, w, m), t)
  {
  }

  lemma TimerStep(s: State, a: Action, t: nat)
    requires Enabled(s, a)
    ensures TimerMoves(s, a, Next(s, a), t)
  {
    match a
    case StopCall =>
    case Do(w, op) => OpTimer(s, w, op, t);
    case Go(w, m) => MoveTimer(s, w, m, t);
  }

  /** An expiry check collects the callbacks of the timers it found, in order. */
  lemma ExpireCollects(s: State, w: Worker, ts: seq<nat>)
    requires Enabled(s, Go(w, Expire(ts)))
    ensures var p := Next(s, Go(w, Expire(ts))).pc[w];
      && p.Posting? && p.k == 0 && |p.cbs| == |ts|
      && forall i :: 0 <= i < |ts| ==> ts[i] in s.timers && p.cbs[i] == s.timers[ts[i]].cb
  {
  }

  /** No step of the run disarms timer `t` or finds it expired. */
  ghost predicate LeftAlone(acts: seq<Action>, t: nat) {
    forall i :: 0 <= i < |acts| ==>
      && (acts[i].Do? ==> acts[i].op != Disarm(t))
      && (acts[i].Go? && acts[i].move.Expire? ==> t !in acts[i].move.ts)
  }

  lemma {:induction false} StaysArmed(s: State, acts: seq<Action>, t: nat)
    requires IsRun(s, acts) && LeftAlone(acts, t) && t in s.timers
    ensures t in After(s, acts).timers && After(s, acts).timers[t] == s.timers[t]
    decreases |acts|
  {
    if acts != [] {
      assert !Removes(s, acts[0], t);
      TimerStep(s, acts[0], t);
      StaysArmed(Next(s, acts[0]), acts[1..], t);
    }
  }

  /**
   * The run `wait` leaves timer `t` alone, and then an expiry check of worker `w` finds it as the `i`-th
   * and leads to `found`.
   */
  ghost predicate Found(s: State, t: nat, wait: seq<Action>, w: Worker, ts: seq<nat>, i: nat, found: State) {
    && IsRun(s, wait) && LeftAlone(wait, t) && i < |ts| && ts[i] == t
    && Enabled(After(s, wait), Go(w, Expire(ts))) && found == Next(After(s, wait), Go(w, Expire(ts)))
  }

  lemma FoundTimer(s: State, t: nat, wait: seq<Action>, w: Worker, ts: seq<nat>, i: nat, found: State)
    requires t in s.timers && Found(s, t, wait, w, ts, i, found)
    ensures t in found.timers <==> s.timers[t].recurring
    ensures w < |found.pc| && found.pc[w].Posting? && found.pc[w].k == 0
    ensures i < |found.pc[w].cbs| && found.pc[w].cbs[i] == s.timers[t].cb
  {
    var due := After(s, wait);
    StaysArmed(s, wait, t);
    ExpireCollects(due, w, ts);
    TimerStep(due, Go(w, Expire(ts)), t);
  }

  /** The worker goes on to the ready events, with the others doing what they like. */
  ghost predicate Served(found: State, w: Worker, serve: seq<Action>) {
    && IsRun(found, serve) && Go(w, EndIdle) !in serve
    && w < |After(found, serve).pc| && After(found, serve).pc[w] == Handling
  }

  /**
   * The callback of a timer that is left alone until an expiry check finds it is a task of its own once
   * that worker has come to the ready events. Only a recurring timer is still in the set after the check.
   */
  lemma TimerRuns(s: State, t: nat, wait: seq<Action>, w: Worker, ts: seq<nat>, i: nat,
                  found: State, serve: seq<Action>)
      returns (task: nat)
    requires t in s.timers && Found(s, t, wait, w, ts, i, found) && Served(found, w, serve)
    ensures |found.tasks| <= task < |After(found, serve).tasks|
    ensures After(found, serve).tasks[task] == Task(Call(s.timers[t].cb), -1, -1)
    ensures t in found.timers <==> s.timers[t].recurring
  {
    FoundTimer(s, t, wait, w, ts, i, found);
    PostsInOrder(found, w, serve, found.pc[w].cbs);
    task := Posts(found, w, serve)[i];
  }

  /** So it is for the callback given to `addTimer`. */
  lemma ArmedRuns(s: State, v: Worker, t: nat, id: nat, recurring: bool, armed: State, wait: seq<Action>,
                  w: Worker, ts: seq<nat>, i: nat, found: State, serve: seq<Action>)
      returns (task: nat)
    requires Enabled(s, Do(v, Arm(t, id, recurring))) && armed == Next(s, Do(v, Arm(t, id, recurring)))
    requires Found(armed, t, wait, w, ts, i, found) && Served(found, w, serve)
    ensures |found.tasks| <= task < |After(found, serve).tasks|
    ensures After(found, serve).tasks[task] == Task(Call(User(id)), -1, -1)
    ensures t in found.timers <==> recurring
  {
    TimerStep(s, Do(v, Arm(t, id, recurring)), t);
    task := TimerRuns(armed, t, wait, w, ts, i, found, serve);
  }

  /** An event is registered from the call that adds it to its trigger, with what that call asked for. */
  lemma RegStep(s: State, a: Action, slot: Slot)
    requires Enabled(s, a)
    ensures var n := Next(s, a);
      if slot in s.regs then
        if a.Do? && a.op == Trigger(slot) then slot !in n.regs else slot in n.regs && n.regs[slot] == s.regs[slot]
      else
        && (slot in n.regs <==> a.Do? && (a.op == Park(slot) || (a.op.Listen? && a.op.slot == slot)))
        && (slot in n.regs ==>
             n.regs[slot].job == if a.op.Park? then Resume(s.pc[a.w].c) else Call(User(a.op.id)))
  {
  }

  lemma OpPending(s: State, w: Worker, op: Op)
    requires Shaped(s) && OpEnabled(s, w, op)
    ensures var n := NextOp(s, w, op);
      |n.regs| + n.owed == |s.regs| + s.owed + (if op.Park? || op.Listen? then 1 else if op.CountDown? then -1 else 0)
  {
    if op.Trigger? && op.slot in s.regs {
      var n := NextOp(s, w, op);
      assert s.regs.Keys == n.regs.Keys + {op.slot};
    }
  }

  /** The first read of `stopping()` tests the count for zero. */
  lemma ReadsZero(s: State, w: Worker)
    requires Enabled(s, Go(w, ReadEvents))
    ensures Next(s, Go(w, ReadEvents)).pc[w].SawNoEvents? <==> |s.regs| + s.owed == 0
  {
    assert s.regs == map[] <==> |s.regs| == 0;
  }

  /** The pending count goes up with every registration and down with every decrement, and not otherwise. */
  lemma PendingStep(s: State, a: Action)
    requires Enabled(s, a)
    ensures var n := Next(s, a);
      |n.regs| + n.owed == |s.regs| + s.owed
        + (if a.Do? && (a.op.Park? || a.op.Listen?) then 1 else if a.Do? && a.op.CountDown? then -1 else 0)
  {
    if a.Do? {
      OpPending(s, a.w, a.op);
    }
  }
}
