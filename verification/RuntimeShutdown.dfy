/** What is left when every worker has returned from `run`. */
module RuntimeShutdown {
  import opened Runtime
  import opened RuntimeTasks
  import opened RuntimeTokens
  import opened RuntimeCors
  import opened RuntimeSafety
  import opened RuntimeSetups

  predicate InIdle(p: Pc) {
    p.Idling? || p.Waiting? || p.Posting? || p.Handling? || p == SawNoEvents(false) || p == SawNoTimers(false)
  }

  /** Before `stop` nobody leaves; an idle coroutine that is inside its loop is not TERM. */
  ghost predicate StopInv(s: State) {
    && |s.pc| > 0
    && (!s.stopped ==> s.idleDone == {} && forall w :: 0 <= w < |s.pc| ==> s.pc[w] != Exited)
    && (forall w :: 0 <= w < |s.pc| && InIdle(s.pc[w]) ==> w !in s.idleDone)
  }

  lemma OpFrame(s: State, w: Worker, op: Op)
    requires Shaped(s) && OpEnabled(s, w, op)
    ensures var n := NextOp(s, w, op);
      n.pc == s.pc && n.idleDone == s.idleDone && n.stopped == s.stopped && n.active == s.active
    ensures var n := NextOp(s, w, op);
      && (NoReady(s.cors) ==> NoReady(n.cors))
      && (!Adds(op) ==> n.regs.Keys <= s.regs.Keys && n.timers.Keys <= s.timers.Keys)
  {
  }

  lemma PcStep(s: State, w: Worker, m: Move)
    requires Shaped(s) && MoveEnabled(s, w, m)
    ensures var p := NextMove(s, w, m).pc[w];
      && (p == Exited ==> m.ReadQueue? || m.Leave?)
      && (p == Empty ==> m.Take?)
      && (InIdle(p) ==> InIdle(s.pc[w]) || m.EnterIdle?)
      && (p.SawNoEvents? ==> s.regs == map[])
      && (p.SawNoTimers? ==> s.pc[w].SawNoEvents? && s.timers == map[])
      && p != NotStarted && (s.pc[w] == NotStarted ==> s.stopped)
    ensures NextMove(s, w, m).timers.Keys <= s.timers.Keys
  {
  }

  lemma MoveStop(s: State, w: Worker, m: Move)
    requires Shaped(s) && StopInv(s) && MoveEnabled(s, w, m)
    ensures StopInv(NextMove(s, w, m))
  {
    PcStep(s, w, m);
    var n := NextMove(s, w, m);
    forall v | 0 <= v < |n.pc| && InIdle(n.pc[v])
      ensures v !in n.idleDone
    {
      assert v != w ==> n.pc[v] == s.pc[v];
    }
  }

  // ---- no unpinned task is left behind ----

  /** Still in `run` and not about to break out of it. */
  predicate Staying(s: State, w: Worker) {
    w < |s.pc| && s.pc[w] != Exited && !(s.pc[w] == Empty && w in s.idleDone)
  }

  ghost predicate SomeStaying(s: State) {
    exists w :: Staying(s, w)
  }

  ghost predicate AllPinned(s: State) {
    forall i :: 0 <= i < |s.queue| && s.queue[i] < |s.tasks| ==> s.tasks[s.queue[i]].thread != -1
  }

  ghost predicate LeaveInv(s: State) {
    StopInv(s) && (AllPinned(s) || SomeStaying(s))
  }

  lemma OpLeave(s: State, w: Worker, op: Op)
    requires Shaped(s) && LeaveInv(s) && OpEnabled(s, w, op)
    ensures LeaveInv(NextOp(s, w, op))
  {
    OpFrame(s, w, op);
    var n := NextOp(s, w, op);
    if !op.CountDown? {
      assert Staying(n, if s.stopped then w else 0);
    } else if !AllPinned(s) {
      var v :| Staying(s, v);
      assert Staying(n, v);
    }
  }

  /** A scan that finds nothing leaves unpinned entries only for coroutines running elsewhere. */
  lemma EmptyScan(s: State, w: Worker)
    requires Base(s) && MoveEnabled(s, w, Take) && FirstEligible(s, w, 0) == |s.queue|
    ensures AllPinned(s) || exists v: Worker :: v != w && v < |s.pc| && HasCor(s.pc[v])
  {
    if !AllPinned(s) {
      var i :| 0 <= i < |s.queue| && s.queue[i] < |s.tasks| && s.tasks[s.queue[i]].thread == -1;
      assert !Eligible(s, w, s.queue[i]);
      var c := s.tasks[s.queue[i]].job.c;
      assert CorOk(s.cors[c], s.token[c] != NoToken, s.on[c], s.pc, c);
      assert s.on[c] != w && HasCor(s.pc[s.on[c]]);
    }
  }

  lemma TakeLeave(s: State, w: Worker)
    requires Base(s) && LeaveInv(s) && MoveEnabled(s, w, Take)
    ensures LeaveInv(NextMove(s, w, Take))
  {
    MoveStop(s, w, Take);
    var n := NextMove(s, w, Take);
    if n.pc[w].Hand? {
      assert Staying(n, w);
    } else {
      EmptyScan(s, w);
      if !AllPinned(s) {
        var v: Worker :| v != w && v < |s.pc| && HasCor(s.pc[v]);
        assert Staying(n, v);
      }
    }
  }

  lemma MoveLeave(s: State, w: Worker, m: Move)
    requires Base(s) && LeaveInv(s) && MoveEnabled(s, w, m)
    ensures LeaveInv(NextMove(s, w, m))
  {
    var n := NextMove(s, w, m);
    if m.Take? {
      TakeLeave(s, w);
    } else {
      MoveStop(s, w, m);
      if m.ReadQueue? && n.pc[w] == Exited {
        assert n.queue == [];
      } else if m.Leave? {
        if !AllPinned(s) {
          var v :| Staying(s, v);
          assert Staying(n, v);
        }
      } else {
        PcStep(s, w, m);
        assert Staying(n, w);
      }
    }
  }

  lemma {:induction false} RunLeave(s: State, acts: seq<Action>)
    requires Inv(s) && LeaveInv(s) && IsRun(s, acts)
    ensures LeaveInv(After(s, acts))
    decreases |acts|
  {
    if acts != [] {
      var n := Next(s, acts[0]);
      match acts[0] {
        case StopCall =>
          if v :| Staying(s, v) {
            assert Staying(n, v);
          }
        case Do(w, op) => OpLeave(s, w, op);
        case Go(w, m) => MoveLeave(s, w, m);
      }
      StepInv(s, acts[0]);
      RunLeave(n, acts[1..]);
    }
  }

  lemma InitialStop(workers: nat, useCaller: bool)
    requires workers > 0 || useCaller
    ensures StopInv(Initial(workers, useCaller))
  {
  }

  /** However the workers interleave, those who leave `run` leave no unpinned task behind. */
  lemma CleanLeave(c: Setup, s: State)
    requires c.Threads() > 0 && Reached(c, s) && AllExited(s)
    ensures forall i :: 0 <= i < |s.queue| ==> s.queue[i] < |s.tasks| && s.tasks[s.queue[i]].thread != -1
  {
    var s0 := c.Start();
    var acts: seq<Action> :| IsRun(s0, acts) && After(s0, acts) == s;
    InitialInv(c.workers, c.useCaller);
    InitialStop(c.workers, c.useCaller);
    RunInv(s0, acts);
    RunLeave(s0, acts);
    assert !SomeStaying(s);
  }

  // ---- when nothing is left behind ----

  ghost predicate Outstanding(s: State) {
    s.queue != [] || s.active > 0 || s.regs != map[] || s.timers != map[]
  }

  /** Worker `v` has decremented the active count and will queue its READY coroutine again. */
  predicate InGap(s: State, v: Worker) {
    v < |s.pc| && s.pc[v].Dropped? && s.pc[v].c < |s.cors| && s.cors[s.pc[v].c].state == READY
  }

  ghost predicate Pending(s: State) {
    Outstanding(s) || exists v :: InGap(s, v)
  }

  /** Its idle coroutine is not TERM. */
  predicate Live(s: State, w: Worker) {
    w < |s.pc| && s.pc[w] != Exited && w !in s.idleDone
  }

  ghost predicate SomeLive(s: State) {
    exists w :: Live(s, w)
  }

  ghost predicate NoReady(cors: seq<CorInfo>) {
    forall c :: 0 <= c < |cors| ==> cors[c].state != READY
  }

  /** What a thread has read in `stopping()` is still so. */
  ghost predicate SoundReads(s: State) {
    forall w :: 0 <= w < |s.pc| ==>
      && (s.pc[w].SawNoEvents? ==> s.regs == map[])
      && (s.pc[w].SawNoTimers? ==> s.regs == map[] && s.timers == map[])
  }

  ghost predicate OutInv(s: State) {
    StopInv(s) && (|s.pc| == 1 || NoReady(s.cors)) && SoundReads(s) && (Pending(s) ==> SomeLive(s))
  }

  /** The only thread is the caller of `stop`. */
  predicate OnlyCaller(s: State) {
    |s.pc| == 1 && (s.pc[0] != NotStarted ==> s.stopped)
  }

  /** At most one of two things: `YieldToReady` and a second thread; events or timers added between reads. */
  predicate Safe(c: Setup, s: State) {
    (|s.pc| == 1 || !c.ready) && (c.io != Anywhere || OnlyCaller(s))
  }

  ghost predicate Allowed(s: State, a: Action) {
    && (a.Go? && a.move.YieldReady? ==> |s.pc| == 1)
    && (a.Do? && Adds(a.op) ==> !SomeReading(s))
  }

  /** While the caller of `stop` reads, it runs no coroutine, and nobody else may call. */
  lemma SafeStep(c: Setup, s: State, a: Action)
    requires Safe(c, s) && StepObeys(c, s, a) && Enabled(s, a)
    ensures Allowed(s, a) && Safe(c, Next(s, a))
  {
    match a
    case StopCall =>
    case Do(w, op) => OpFrame(s, w, op);
    case Go(w, m) => PcStep(s, w, m);
  }

  lemma OpReads(s: State, w: Worker, op: Op)
    requires Shaped(s) && OpEnabled(s, w, op) && SoundReads(s) && (Adds(op) ==> !SomeReading(s))
    ensures SoundReads(NextOp(s, w, op))
  {
    OpFrame(s, w, op);
    var n := NextOp(s, w, op);
    if Adds(op) {
      assert forall v :: 0 <= v < |s.pc| ==> !s.pc[v].SawNoEvents? && !s.pc[v].SawNoTimers?;
    } else {
      assert s.regs == map[] ==> n.regs == map[];
      assert s.timers == map[] ==> n.timers == map[];
    }
  }

  lemma MoveReads(s: State, w: Worker, m: Move)
    requires Shaped(s) && MoveEnabled(s, w, m) && SoundReads(s)
    ensures SoundReads(NextMove(s, w, m))
  {
    var n := NextMove(s, w, m);
    PcStep(s, w, m);
    assert s.timers == map[] ==> n.timers == map[];
    forall v | 0 <= v < |n.pc|
      ensures n.pc[v].SawNoEvents? ==> n.regs == map[]
      ensures n.pc[v].SawNoTimers? ==> n.regs == map[] && n.timers == map[]
    {
      assert v != w ==> n.pc[v] == s.pc[v];
    }
  }

  /** A call is made only while some worker is not done idling, and that worker stays so. */
  lemma OpLive(s: State, w: Worker, op: Op)
    requires Inv(s) && OutInv(s) && OpEnabled(s, w, op) && !op.CountDown?
    ensures SomeLive(NextOp(s, w, op))
  {
    OpFrame(s, w, op);
    var n := NextOp(s, w, op);
    if RunsCode(s, w) || Runs(s, w) {
      BusySome(s.pc, w);
      var v :| Live(s, v);
      assert Live(n, v);
    } else {
      assert Live(n, if s.stopped then w else 0);
    }
  }

  lemma OpOut(s: State, w: Worker, op: Op)
    requires Inv(s) && OutInv(s) && OpEnabled(s, w, op) && (Adds(op) ==> !SomeReading(s))
    ensures OutInv(NextOp(s, w, op))
  {
    OpFrame(s, w, op);
    OpReads(s, w, op);
    var n := NextOp(s, w, op);
    if !op.CountDown? {
      OpLive(s, w, op);
    } else if Pending(s) {
      var v :| Live(s, v);
      assert Live(n, v);
    } else {
      assert forall v :: InGap(n, v) ==> InGap(s, v);
    }
  }

  /** A worker that makes work where there was none is not done idling. */
  lemma NoWorkFromNothing(s: State, w: Worker, m: Move)
    requires Inv(s) && OutInv(s) && MoveEnabled(s, w, m) && Allowed(s, Go(w, m))
    ensures Outstanding(NextMove(s, w, m)) ==> Pending(s) || m.Post?
  {
    if Busy(s.pc[w]) == 1 {
      BusySome(s.pc, w);
    } else if m.Settle? {
      assert s.cors[s.pc[w].c].state == READY ==> InGap(s, w);
    } else if m.Expire? {
      assert s.timers == map[] ==> NextMove(s, w, m).timers == map[];
    }
  }

  lemma MoveReady(s: State, w: Worker, m: Move)
    requires Shaped(s) && MoveEnabled(s, w, m) && Allowed(s, Go(w, m)) && (|s.pc| == 1 || NoReady(s.cors))
    ensures |NextMove(s, w, m).pc| == 1 || NoReady(NextMove(s, w, m).cors)
  {
  }

  /** Only the one thread can be in the gap, and it gets there by the decrement. */
  lemma GapFromDecrement(s: State, w: Worker, m: Move, v: Worker)
    requires Shaped(s) && s.active == BusyCount(s.pc) && (|s.pc| == 1 || NoReady(s.cors))
    requires MoveEnabled(s, w, m) && Allowed(s, Go(w, m)) && InGap(NextMove(s, w, m), v)
    ensures m.Decrement? && Outstanding(s)
  {
    MoveReady(s, w, m);
    PcStep(s, w, m);
    BusySome(s.pc, w);
  }

  /** A worker is done idling only when nothing is outstanding. */
  lemma KeepsLive(s: State, w: Worker, m: Move)
    requires Shaped(s) && StopInv(s) && SoundReads(s) && MoveEnabled(s, w, m)
    requires Outstanding(NextMove(s, w, m)) || m.Decrement?
    requires SomeLive(s) || m.Post?
    ensures SomeLive(NextMove(s, w, m))
  {
    var n := NextMove(s, w, m);
    PcStep(s, w, m);
    if m.ReadQueue? {
      assert n.idleDone == s.idleDone && n.pc[w] != Exited;
    }
    if m.Post? {
      assert Live(n, w);
    } else {
      var v :| Live(s, v);
      assert Live(n, v);
    }
  }

  lemma MoveOut(s: State, w: Worker, m: Move)
    requires Inv(s) && OutInv(s) && MoveEnabled(s, w, m) && Allowed(s, Go(w, m))
    ensures OutInv(NextMove(s, w, m))
  {
    var n := NextMove(s, w, m);
    MoveStop(s, w, m);
    MoveReads(s, w, m);
    MoveReady(s, w, m);
    if Outstanding(n) {
      NoWorkFromNothing(s, w, m);
      KeepsLive(s, w, m);
    } else if v :| InGap(n, v) {
      GapFromDecrement(s, w, m, v);
      KeepsLive(s, w, m);
    }
  }

  lemma {:induction false} RunOut(c: Setup, s: State, acts: seq<Action>)
    requires Inv(s) && OutInv(s) && Safe(c, s) && IsRun(s, acts) && Obeys(c, s, acts)
    ensures OutInv(After(s, acts))
    decreases |acts|
  {
    if acts != [] {
      var n := Next(s, acts[0]);
      SafeStep(c, s, acts[0]);
      match acts[0] {
        case StopCall =>
          if v :| Live(s, v) {
            assert Live(n, v);
          }
          assert forall v :: InGap(n, v) ==> InGap(s, v);
        case Do(w, op) => OpOut(s, w, op);
        case Go(w, m) => MoveOut(s, w, m);
      }
      StepInv(s, acts[0]);
      RunOut(c, n, acts[1..]);
    }
  }

  lemma ExitedRest(s: State, c: Cor)
    requires Base(s) && AllExited(s) && !Outstanding(s) && c < |s.cors|
    ensures AtRest(s, c)
  {
    assert forall k :: 0 <= k < |s.cors| ==> CorOk(s.cors[k], s.token[k] != NoToken, s.on[k], s.pc, k);
    assert forall k :: 0 <= k < |s.cors| ==> OffOk(s.cors[k], s.token[k] != NoToken);
    assert s.token[c] != NoToken ==> Holder(s, s.token[c]) == c;
  }

  lemma ExitedClean(s: State)
    requires Inv(s) && OutInv(s) && AllExited(s)
    ensures Clean(s)
  {
    NoneBusy(s.pc);
    assert !SomeLive(s);
    forall c | 0 <= c < |s.cors|
      ensures AtRest(s, c)
    {
      ExitedRest(s, c);
    }
  }

  /** In a safe setup, once all threads have left nothing is left behind. */
  lemma CleanShutdown(c: Setup, s: State)
    requires c.Threads() > 0 && SafeSetup(c) && Reached(c, s) && AllExited(s)
    ensures Clean(s)
  {
    var s0 := c.Start();
    var acts: seq<Action> :| IsRun(s0, acts) && After(s0, acts) == s && Obeys(c, s0, acts);
    InitialInv(c.workers, c.useCaller);
    InitialStop(c.workers, c.useCaller);
    assert !Pending(s0) by {
      assert forall v :: !InGap(s0, v);
    }
    RunInv(s0, acts);
    RunOut(c, s0, acts);
    ExitedClean(s);
  }
}
