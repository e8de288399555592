/** What one worker can bring about alone: timers and tasks are served, and `run` can be left. */
module RuntimeProgress {
  import opened Runtime
  import opened RuntimeCors
  import opened RuntimeSafety
  import opened RuntimeTheorems
  import opened RuntimeQueue

  ghost predicate AllBy(w: Worker, acts: seq<Action>) {
    forall i :: 0 <= i < |acts| ==> acts[i].Go? && acts[i].w == w
  }

  /** Worker `w` alone can lead from `s` to `n`. */
  ghost predicate Alone(s: State, w: Worker, n: State) {
    exists acts: seq<Action> :: IsRun(s, acts) && After(s, acts) == n && AllBy(w, acts)
  }

  lemma {:induction false} Extend(s: State, acts: seq<Action>, a: Action)
    requires IsRun(s, acts) && Enabled(After(s, acts), a)
    ensures IsRun(s, acts + [a]) && After(s, acts + [a]) == Next(After(s, acts), a)
    decreases |acts|
  {
    var more := acts + [a];
    if acts == [] {
      assert more[1..] == [];
    } else {
      assert more[1..] == acts[1..] + [a];
      Extend(Next(s, acts[0]), acts[1..], a);
    }
  }

  lemma AloneStart(s: State, w: Worker)
    ensures Alone(s, w, s)
  {
    assert IsRun(s, []) && After(s, []) == s && AllBy(w, []);
  }

  lemma AloneStep(s: State, w: Worker, n: State, m: Move, n': State)
    requires Alone(s, w, n) && Shaped(n) && MoveEnabled(n, w, m) && NextMove(n, w, m) == n'
    ensures Alone(s, w, n')
  {
    var acts: seq<Action> :| IsRun(s, acts) && After(s, acts) == n && AllBy(w, acts);
    AllByMore(w, acts, m);
    Extend(s, acts, Go(w, m));
  }

  lemma AloneInv(s: State, w: Worker, n: State)
    requires Inv(s) && Alone(s, w, n)
    ensures Inv(n)
  {
    var acts: seq<Action> :| IsRun(s, acts) && After(s, acts) == n && AllBy(w, acts);
    RunInv(s, acts);
  }

  lemma AllByMore(w: Worker, acts: seq<Action>, m: Move)
    requires AllBy(w, acts)
    ensures AllBy(w, acts + [Go(w, m)])
  {
  }

  /** With a timer in the set, an idle worker comes to epoll_wait. */
  lemma ComesToWait(s: State, w: Worker)
    requires Shaped(s) && w < |s.pc| && s.pc[w] == Idling && s.timers != map[]
    ensures Alone(s, w, s.(pc := s.pc[w := Waiting]))
  {
    AloneStart(s, w);
    var n := s.(pc := s.pc[w := Waiting]);
    if s.regs == map[] && s.owed == 0 {
      var n1 := s.(pc := s.pc[w := SawNoEvents(false)]);
      AloneStep(s, w, s, ReadEvents, n1);
      assert n1.pc[w := Waiting] == n.pc;
      AloneStep(s, w, n1, ReadTimers, n);
    } else {
      AloneStep(s, w, s, ReadEvents, n);
    }
  }

  /** What an expiry check that finds one timer makes of the state. */
  lemma FindsOne(s: State, w: Worker, t: nat) returns (n: State)
    requires Shaped(s) && w < |s.pc| && s.pc[w] == Waiting && t in s.timers
    ensures MoveEnabled(s, w, Expire([t])) && n == NextMove(s, w, Expire([t]))
    ensures n.pc == s.pc[w := Posting([s.timers[t].cb], 0)] && n.queue == s.queue && n.tasks == s.tasks && Shaped(n)
  {
    n := NextMove(s, w, Expire([t]));
    assert Callbacks(s.timers, [t]) == [s.timers[t].cb];
  }

  /** A timer in the set can always be served: by any idle worker, on its own, and then its callback is queued. */
  lemma TimerServed(s: State, w: Worker, t: nat) returns (n: State)
    requires Shaped(s) && w < |s.pc| && s.pc[w] == Idling && t in s.timers
    ensures Alone(s, w, n) && n.pc == s.pc[w := Pick]
    ensures n.queue == s.queue + [|s.tasks|] && n.tasks == s.tasks + [Task(Call(s.timers[t].cb), -1, -1)]
  {
    ComesToWait(s, w);
    var n1 := s.(pc := s.pc[w := Waiting]);
    var n2 := FindsOne(n1, w, t);
    AloneStep(s, w, n1, Expire([t]), n2);
    n := PostsOneAndEnds(s, w, n2, s.timers[t].cb);
    assert n.pc == s.pc[w := Pick];
  }

  lemma PostsOneAndEnds(s: State, w: Worker, n: State, f: Callback) returns (n': State)
    requires Alone(s, w, n) && Shaped(n) && w < |n.pc| && n.pc[w] == Posting([f], 0)
    ensures Alone(s, w, n') && n'.pc == n.pc[w := Pick]
    ensures n'.queue == n.queue + [|n.tasks|] && n'.tasks == n.tasks + [Task(Call(f), -1, -1)]
  {
    var n1 := NextMove(n, w, Post);
    AloneStep(s, w, n, Post, n1);
    n' := EndsIdle(s, w, n1);
    assert n1.pc[w := Pick] == n.pc[w := Pick];
  }

  /** With nothing left to post, the idle coroutine gives way to the scheduler. */
  lemma EndsIdle(s: State, w: Worker, n: State) returns (n': State)
    requires Alone(s, w, n) && Shaped(n) && w < |n.pc| && n.pc[w].Posting? && n.pc[w].k >= |n.pc[w].cbs|
    ensures Alone(s, w, n') && n' == n.(pc := n.pc[w := Pick])
  {
    var n1 := n.(pc := n.pc[w := Handling]);
    AloneStep(s, w, n, Post, n1);
    n' := n.(pc := n.pc[w := Pick]);
    assert n1.pc[w := Pick] == n'.pc;
    AloneStep(s, w, n1, EndIdle, n');
  }

  /** An expiry check that finds nothing, and back to the scheduler. */
  lemma BackToScan(s: State, w: Worker) returns (n: State)
    requires Inv(s) && w < |s.pc| && s.pc[w] == Waiting
    ensures Alone(s, w, n) && Inv(n) && n.pc == s.pc[w := Pick] && n.queue == s.queue && n.tasks == s.tasks
  {
    AloneStart(s, w);
    var n1 := NextMove(s, w, Expire([]));
    AloneStep(s, w, s, Expire([]), n1);
    n := EndsIdle(s, w, n1);
    AloneInv(s, w, n);
    assert n.pc == s.pc[w := Pick];
  }

  /** A worker in epoll_wait can take up a queued task that is for it, or one that stands before it. */
  lemma QueueServed(s: State, w: Worker, i: nat) returns (n: State, j: nat)
    requires Reachable(s) && w < |s.pc| && s.pc[w] == Waiting
    requires i < |s.queue| && s.queue[i] < |s.tasks| && !NotFor(s, w, s.queue[i])
    ensures Alone(s, w, n) && j <= i && n.pc == s.pc[w := Hand(s.queue[j])]
  {
    ReachableInv(s);
    var n1 := BackToScan(s, w);
    assert !NotFor(n1, w, s.queue[i]) by {
      assert forall v :: 0 <= v < |s.pc| && HasCor(n1.pc[v]) ==> n1.pc[v] == s.pc[v];
    }
    EligibleIff(n1, w, i);
    j := FirstEligible(n1, w, 0);
    n := NextMove(n1, w, Take);
    AloneStep(s, w, n1, Take, n);
    assert n.pc == s.pc[w := Hand(s.queue[j])];
  }

  /** After `stop`, with nothing outstanding, an idle worker can leave `run`. */
  lemma IdleLeaves(s: State, w: Worker) returns (n: State)
    requires Shaped(s) && w < |s.pc| && s.pc[w] == Idling
    requires s.stopped && s.queue == [] && s.regs == map[] && s.owed == 0 && s.timers == map[] && s.active == 0
    ensures Alone(s, w, n) && n.pc == s.pc[w := Exited]
  {
    AloneStart(s, w);
    var n1 := s.(pc := s.pc[w := SawNoEvents(false)]);
    AloneStep(s, w, s, ReadEvents, n1);
    var n2 := s.(pc := s.pc[w := SawNoTimers(false)]);
    assert n1.pc[w := SawNoTimers(false)] == n2.pc;
    AloneStep(s, w, n1, ReadTimers, n2);
    n := QuitsAndLeaves(s, w, n2);
    assert n.pc == s.pc[w := Exited];
  }

  lemma QuitsAndLeaves(s: State, w: Worker, n: State) returns (n': State)
    requires Alone(s, w, n) && Shaped(n) && w < |n.pc| && n.pc[w] == SawNoTimers(false) && QueueStopping(n)
    ensures Alone(s, w, n') && n'.pc == n.pc[w := Exited]
  {
    var n1 := n.(pc := n.pc[w := Pick], idleDone := n.idleDone + {w});
    AloneStep(s, w, n, ReadQueue, n1);
    var n2 := n1.(pc := n.pc[w := Empty]);
    assert n1.pc[w := Empty] == n2.pc;
    AloneStep(s, w, n1, Take, n2);
    n' := n1.(pc := n.pc[w := Exited]);
    assert n2.pc[w := Exited] == n'.pc;
    AloneStep(s, w, n2, Leave, n');
  }

  /** What running code, or any thread before `stop`, may ask for at any time. */
  lemma CallsOpen(s: State, w: Worker)
    requires RunsCode(s, w) || !s.stopped
    ensures forall what, thread :: OpEnabled(s, w, Schedule(what, thread))
    ensures forall slot :: OpEnabled(s, w, Trigger(slot))
    ensures forall slot, id :: OpEnabled(s, w, Listen(slot, id)) <==> slot !in s.regs
    ensures forall t, id, recurring :: OpEnabled(s, w, Arm(t, id, recurring)) <==> t !in s.timers
    ensures forall c :: OpEnabled(s, w, Return(c)) <==> c in s.lent
    ensures forall t :: OpEnabled(s, w, Disarm(t)) <==> t in s.timers && s.timers[t].cb.User?
  {
  }

  /** Running code can park itself on any free event, sleep on a new timer, or leave itself with others. */
  lemma CodeMaySuspend(s: State, w: Worker)
    requires RunsCode(s, w)
    ensures OpEnabled(s, w, Lend)
    ensures forall slot :: OpEnabled(s, w, Park(slot)) <==> slot !in s.regs
    ensures forall t :: OpEnabled(s, w, Sleep(t)) <==> t !in s.timers
  {
  }

  /** Readiness can be served after `stop` as well: a worker behind epoll_wait may trigger any event. */
  lemma EventServed(s: State, w: Worker, slot: Slot) returns (n: State)
    requires Shaped(s) && w < |s.pc| && s.pc[w] == Handling && slot in s.regs
    ensures OpEnabled(s, w, Trigger(slot)) && n == NextOp(s, w, Trigger(slot)) && slot !in n.regs
    ensures n.queue == s.queue + [|s.tasks|] && n.tasks == s.tasks + [Task(s.regs[slot].job, -1, s.regs[slot].park)]
  {
    n := NextOp(s, w, Trigger(slot));
    OpAccepts(s, w, Trigger(slot));
  }
}
