/**
 * Shutdowns that are not clean. Two gaps let `stopping()` succeed too early. The active count is
 * decremented before a READY coroutine is queued again. And the pending count, the timers and the
 * queue are read one after the other. Runs that go through these gaps are put together here.
 */
module RuntimeUnclean {
  import opened Common
  import opened Runtime
  import opened RuntimeSetups

  lemma {:induction false} Extend(c: Setup, s: State, acts: seq<Action>, a: Action)
    requires IsRun(s, acts) && Obeys(c, s, acts) && Enabled(After(s, acts), a) && StepObeys(c, After(s, acts), a)
    ensures IsRun(s, acts + [a]) && After(s, acts + [a]) == Next(After(s, acts), a) && Obeys(c, s, acts + [a])
    decreases |acts|
  {
    var more := acts + [a];
    if acts == [] {
      assert more[1..] == [];
    } else {
      assert more[1..] == acts[1..] + [a];
      Extend(c, Next(s, acts[0]), acts[1..], a);
    }
  }

  lemma ReachStep(c: Setup, s: State, a: Action, n: State)
    requires Reached(c, s) && Enabled(s, a) && StepObeys(c, s, a) && Next(s, a) == n
    ensures Reached(c, n)
  {
    var acts: seq<Action> :| IsRun(c.Start(), acts) && After(c.Start(), acts) == s && Obeys(c, c.Start(), acts);
    Extend(c, c.Start(), acts, a);
  }

  // ---- pieces of runs: workers without work ----

  lemma EntersIdle(c: Setup, s: State, v: Worker) returns (n: State)
    requires Reached(c, s) && Shaped(s) && v < |s.pc| && s.pc[v] == Pick && v !in s.idleDone && s.queue == []
    ensures Reached(c, n) && n == s.(pc := s.pc[v := Idling])
  {
    var s1 := s.(pc := s.pc[v := Empty]);
    ReachStep(c, s, Go(v, Take), s1);
    n := s.(pc := s.pc[v := Idling]);
    assert s1.pc[v := Idling] == n.pc;
    ReachStep(c, s1, Go(v, EnterIdle), n);
  }

  /** A worker scans an empty queue and goes through two reads of `stopping()`. */
  lemma Idles(c: Setup, s: State, v: Worker) returns (n: State)
    requires Reached(c, s) && Shaped(s) && v < |s.pc| && s.pc[v] == Pick && v !in s.idleDone
    requires s.queue == [] && s.regs == map[] && s.owed == 0 && s.timers == map[]
    ensures Reached(c, n) && n == s.(pc := s.pc[v := SawNoTimers(false)])
  {
    var s2 := EntersIdle(c, s, v);
    var s3 := s.(pc := s.pc[v := SawNoEvents(false)]);
    assert s2.pc[v := SawNoEvents(false)] == s3.pc;
    ReachStep(c, s2, Go(v, ReadEvents), s3);
    n := s.(pc := s.pc[v := SawNoTimers(false)]);
    assert s3.pc[v := SawNoTimers(false)] == n.pc;
    ReachStep(c, s3, Go(v, ReadTimers), n);
  }

  /** The third read succeeds and its idle coroutine ends. */
  lemma Quits(c: Setup, s: State, v: Worker) returns (n: State)
    requires Reached(c, s) && Shaped(s) && v < |s.pc| && s.pc[v] == SawNoTimers(false) && QueueStopping(s)
    ensures Reached(c, n) && n == s.(pc := s.pc[v := Pick], idleDone := s.idleDone + {v})
  {
    n := s.(pc := s.pc[v := Pick], idleDone := s.idleDone + {v});
    ReachStep(c, s, Go(v, ReadQueue), n);
  }

  /** It finds nothing more to do and leaves `run`. */
  lemma Leaves(c: Setup, s: State, v: Worker) returns (n: State)
    requires Reached(c, s) && Shaped(s) && v < |s.pc| && s.pc[v] == Pick && v in s.idleDone
    requires FirstEligible(s, v, 0) == |s.queue| && forall i :: 0 <= i < |s.queue| ==> s.queue[i] < |s.tasks|
    ensures Reached(c, n) && n == s.(pc := s.pc[v := Exited])
  {
    var s1 := s.(pc := s.pc[v := Empty]);
    ReachStep(c, s, Go(v, Take), s1);
    n := s.(pc := s.pc[v := Exited]);
    assert s1.pc[v := Exited] == n.pc;
    ReachStep(c, s1, Go(v, Leave), n);
  }

  /** The program counters with `p` from worker `i` on. */
  function From(pc: seq<Pc>, i: nat, p: Pc): (r: seq<Pc>)
    requires i <= |pc|
    ensures |r| == |pc| && forall v :: 0 <= v < |pc| ==> r[v] == if v < i then pc[v] else p
  {
    pc[..i] + seq(|pc| - i, _ => p)
  }

  /** All workers from `i` on do as in `Idles`. */
  lemma {:induction false} OthersIdle(c: Setup, s: State, i: nat) returns (n: State)
    requires Reached(c, s) && Shaped(s) && i <= |s.pc|
    requires forall v :: i <= v < |s.pc| ==> s.pc[v] == Pick && v !in s.idleDone
    requires s.queue == [] && s.regs == map[] && s.owed == 0 && s.timers == map[]
    ensures Reached(c, n) && n == s.(pc := From(s.pc, i, SawNoTimers(false)))
    decreases |s.pc| - i
  {
    if i == |s.pc| {
      n := s;
      assert From(s.pc, i, SawNoTimers(false)) == s.pc;
    } else {
      var s1 := Idles(c, s, i);
      n := OthersIdle(c, s1, i + 1);
      assert From(s1.pc, i + 1, SawNoTimers(false)) == From(s.pc, i, SawNoTimers(false));
    }
  }

  /** All workers from `i` on end their idle coroutines and leave. */
  lemma {:induction false} OthersLeave(c: Setup, s: State, i: nat) returns (n: State)
    requires Reached(c, s) && Shaped(s) && i <= |s.pc| && QueueStopping(s)
    requires forall v :: i <= v < |s.pc| ==> s.pc[v] == SawNoTimers(false)
    ensures Reached(c, n) && n == s.(pc := From(s.pc, i, Exited), idleDone := n.idleDone)
    ensures forall v :: v in n.idleDone <==> v in s.idleDone || i <= v < |s.pc|
    decreases |s.pc| - i
  {
    if i == |s.pc| {
      n := s;
      assert From(s.pc, i, Exited) == s.pc;
    } else {
      var s1 := Quits(c, s, i);
      var s2 := Leaves(c, s1, i);
      n := OthersLeave(c, s2, i + 1);
      assert From(s2.pc, i + 1, Exited) == From(s.pc, i, Exited);
    }
  }

  // ---- pieces of runs: the one coroutine ----

  /** The coroutine is on `w` with program counter `p`, or on no worker. */
  predicate Solo(s: State, info: CorInfo) {
    Shaped(s) && s.cors == [info] && s.stopped && forall w :: 0 <= w < |s.cb| ==> s.cb[w] == -1
  }

  /** Task `id`, the only one in the queue, resumes the coroutine. */
  predicate Waits(s: State, id: nat) {
    s.queue == [id] && id < |s.tasks| && s.tasks[id].job == Resume(0) && s.tasks[id].thread == -1
  }

  function Resumed(s: State, w: Worker, id: nat): State
    requires Shaped(s) && |s.cors| == 1 && w < |s.pc| && id < |s.tasks|
  {
    s.(queue := [], taskAt := s.taskAt[id := Done], token := [NoToken], cors := [CorInfo(EXEC, Code)], on := [w],
       pc := s.pc[w := Run(0)], active := s.active + 1)
  }

  /** The worker takes the coroutine and switches to it. */
  lemma Resumes(c: Setup, s: State, w: Worker, id: nat, info: CorInfo) returns (n: State)
    requires Reached(c, s) && Solo(s, info) && info.state != EXEC && !Over(info.state)
    requires w < |s.pc| && s.pc[w] == Pick && Waits(s, id)
    ensures Reached(c, n) && n == Resumed(s, w, id)
  {
    assert FirstEligible(s, w, 0) == 0 && s.queue[..0] + s.queue[1..] == [];
    var s1 := s.(queue := [], taskAt := s.taskAt[id := Held(w)], pc := s.pc[w := Hand(id)], active := s.active + 1);
    ReachStep(c, s, Go(w, Take), s1);
    n := Resumed(s, w, id);
    assert s1.pc[w := Run(0)] == n.pc && s1.taskAt[id := Done] == n.taskAt;
    assert [info][0 := CorInfo(EXEC, Code)] == n.cors && s1.on[0 := w] == n.on && s1.token[0 := NoToken] == n.token;
    ReachStep(c, s1, Go(w, Begin), n);
  }

  /** It yields READY, and the count is down again before it is queued. */
  lemma YieldsReady(c: Setup, s: State, w: Worker) returns (n: State)
    requires Reached(c, s) && c.ready && Solo(s, CorInfo(EXEC, Code)) && w < |s.pc| && s.pc[w] == Run(0)
    ensures Reached(c, n)
    ensures n == s.(cors := [CorInfo(READY, Code)], pc := s.pc[w := Dropped(0)], active := s.active - 1)
  {
    var s1 := s.(cors := [CorInfo(READY, Code)], pc := s.pc[w := Swapped(0)]);
    ReachStep(c, s, Go(w, YieldReady), s1);
    n := s.(cors := [CorInfo(READY, Code)], pc := s.pc[w := Dropped(0)], active := s.active - 1);
    assert s1.pc[w := Dropped(0)] == n.pc;
    ReachStep(c, s1, Go(w, Decrement), n);
  }

  lemma Requeues(c: Setup, s: State, w: Worker) returns (n: State)
    requires Reached(c, s) && Solo(s, CorInfo(READY, Code)) && w < |s.pc| && s.pc[w] == Dropped(0) && s.queue == []
    ensures Reached(c, n) && n == Push(s.(on := [-1], pc := s.pc[w := Pick]), Resume(0), -1, -1)
    ensures Solo(n, CorInfo(READY, Code)) && Waits(n, |s.tasks|)
  {
    n := Push(s.(on := [-1], pc := s.pc[w := Pick]), Resume(0), -1, -1);
    assert s.on[0 := -1] == [-1];
    ReachStep(c, s, Go(w, Settle), n);
  }

  function Parked(s: State, w: Worker, slot: Slot): State
    requires Shaped(s) && w < |s.pc|
  {
    s.(cors := [CorInfo(EXEC, MustHold)], token := [AtSlot(slot)], regs := s.regs[slot := Reg(Resume(0), |s.parks|)],
       parks := s.parks + [ParkRec(slot, Resume(0), -1)], pc := s.pc[w := Dropped(0)], active := s.active - 1)
  }

  /** It registers an event and goes to hold; the count is down. */
  lemma Parks(c: Setup, s: State, w: Worker, slot: Slot) returns (n: State)
    requires Reached(c, s) && c.io == Anywhere && Solo(s, CorInfo(EXEC, Code))
    requires w < |s.pc| && s.pc[w] == Run(0) && slot !in s.regs
    ensures Reached(c, n) && n == Parked(s, w, slot)
  {
    n := Parked(s, w, slot);
    var s1 := n.(pc := s.pc, active := s.active);
    assert s.cors[0 := CorInfo(EXEC, MustHold)] == n.cors && Moved(s.token, 0, AtSlot(slot)) == n.token;
    ReachStep(c, s, Do(w, Park(slot)), s1);
    var s2 := s1.(pc := s.pc[w := Swapped(0)]);
    ReachStep(c, s1, Go(w, YieldHold), s2);
    assert s2.pc[w := Dropped(0)] == n.pc;
    ReachStep(c, s2, Go(w, Decrement), n);
  }

  lemma Settles(c: Setup, s: State, w: Worker) returns (n: State)
    requires Reached(c, s) && Solo(s, CorInfo(EXEC, MustHold)) && w < |s.pc| && s.pc[w] == Dropped(0)
    ensures Reached(c, n) && n == s.(cors := [CorInfo(HOLD, Code)], on := [-1], pc := s.pc[w := Pick])
  {
    n := s.(cors := [CorInfo(HOLD, Code)], on := [-1], pc := s.pc[w := Pick]);
    assert s.on[0 := -1] == [-1] && s.cors[0 := CorInfo(HOLD, Code)] == n.cors;
    ReachStep(c, s, Go(w, Settle), n);
  }

  /** A worker idles, sees that an event is registered, and comes to the ready events. */
  lemma GoesToWait(c: Setup, s: State, w: Worker) returns (n: State)
    requires Reached(c, s) && Shaped(s) && w < |s.pc| && s.pc[w] == Pick && w !in s.idleDone
    requires s.queue == [] && s.regs != map[]
    ensures Reached(c, n) && n == s.(pc := s.pc[w := Waiting])
  {
    var s2 := EntersIdle(c, s, w);
    n := s.(pc := s.pc[w := Waiting]);
    assert s2.pc[w := Waiting] == n.pc;
    ReachStep(c, s2, Go(w, ReadEvents), n);
  }

  lemma Handles(c: Setup, s: State, w: Worker) returns (n: State)
    requires Reached(c, s) && Shaped(s) && w < |s.pc| && s.pc[w] == Waiting && s.timers == map[]
    ensures Reached(c, n) && n == s.(pc := s.pc[w := Handling])
  {
    var s1 := s.(pc := s.pc[w := Posting([], 0)]);
    assert DoExpire(s, w, []).token == s.token && DoExpire(s, w, []).timers == s.timers;
    assert Callbacks(s.timers, []) == [];
    ReachStep(c, s, Go(w, Expire([])), s1);
    n := s.(pc := s.pc[w := Handling]);
    assert s1.pc[w := Handling] == n.pc;
    ReachStep(c, s1, Go(w, Post), n);
  }

  /** The event is ready: the coroutine is queued, and the worker is done with the ready events. */
  lemma Wakes(c: Setup, s: State, w: Worker, slot: Slot, p: nat) returns (n: State)
    requires Reached(c, s) && Solo(s, CorInfo(HOLD, Code)) && w < |s.pc| && s.pc[w] == Handling && s.queue == []
    requires p < |s.parks| && s.regs == map[slot := Reg(Resume(0), p)] && s.owed == 0
    ensures Reached(c, n) && Solo(n, CorInfo(HOLD, Code)) && Waits(n, |s.tasks|)
    ensures n == s.(queue := n.queue, tasks := n.tasks, taskAt := n.taskAt, token := n.token, parks := n.parks,
                    regs := map[], pc := s.pc[w := Pick])
    ensures |n.tasks| == |s.tasks| + 1
  {
    var s1 := DoTrigger(s, slot);
    assert s1.regs == map[];
    ReachStep(c, s, Do(w, Trigger(slot)), s1);
    var s2 := s1.(owed := 0);
    ReachStep(c, s1, Do(w, CountDown), s2);
    n := s2.(pc := s.pc[w := Pick]);
    ReachStep(c, s2, Go(w, EndIdle), n);
  }

  /** The coroutine schedules a callback for one thread and ends. */
  lemma LeavesTask(c: Setup, s: State, w: Worker, thread: int) returns (n: State)
    requires Reached(c, s) && Solo(s, CorInfo(EXEC, Code)) && w < |s.pc| && s.pc[w] == Run(0) && s.queue == []
    ensures Reached(c, n) && Solo(n, CorInfo(TERM, Code)) && n.queue == [|s.tasks|]
    ensures |n.tasks| == |s.tasks| + 1 && n.tasks[|s.tasks|] == Task(Call(User(0)), thread, -1)
    ensures n.pc == s.pc[w := Pick] && n.idleDone == s.idleDone
  {
    var s1 := Next(s, Do(w, Schedule(CallUser(0), thread)));
    ReachStep(c, s, Do(w, Schedule(CallUser(0), thread)), s1);
    var s2 := s1.(cors := [CorInfo(TERM, Code)], pc := s.pc[w := Swapped(0)]);
    ReachStep(c, s1, Go(w, Finish(true)), s2);
    var s3 := s2.(pc := s.pc[w := Dropped(0)], active := s2.active - 1);
    assert s2.pc[w := Dropped(0)] == s3.pc;
    ReachStep(c, s2, Go(w, Decrement), s3);
    n := s3.(pc := s.pc[w := Pick], on := s3.on[0 := -1]);
    assert s3.pc[w := Pick] == n.pc;
    ReachStep(c, s3, Go(w, Settle), n);
  }

  // ---- how all runs begin ----

  /** A new coroutine waits in the queue, `stop` has been called, and all threads are in `run`. */
  predicate Begun(s: State, n: nat) {
    && Solo(s, CorInfo(INIT, Code)) && Waits(s, 0) && s.pc == seq(n, _ => Pick) && s.active == 0 && s.idleDone == {}
    && s.regs == map[] && s.timers == map[] && s.owed == 0 && s.parks == []
  }

  lemma Scheduled(c: Setup) returns (s: State)
    requires c.Threads() > 0
    ensures Reached(c, s) && Begun(s.(pc := seq(c.Threads(), _ => Pick)), c.Threads()) && s.pc == c.Start().pc
  {
    var s0 := c.Start();
    assert IsRun(s0, []) && After(s0, []) == s0 && Obeys(c, s0, []);
    var s1 := Next(s0, Do(0, Schedule(NewCor, -1)));
    ReachStep(c, s0, Do(0, Schedule(NewCor, -1)), s1);
    s := s1.(stopped := true);
    ReachStep(c, s1, StopCall, s);
  }

  /** The caller of `stop` finds a task in the queue and enters `run`. */
  lemma CallerEnters(c: Setup, s: State, w: Worker) returns (n: State)
    requires Reached(c, s) && Shaped(s) && w < |s.pc| && s.pc[w] == NotStarted && s.stopped && s.queue != []
    requires s.regs == map[] && s.owed == 0 && s.timers == map[]
    ensures Reached(c, n) && n == s.(pc := s.pc[w := Pick])
  {
    var s1, s2 := s.(pc := s.pc[w := SawNoEvents(true)]), s.(pc := s.pc[w := SawNoTimers(true)]);
    ReachStep(c, s, Go(w, ReadEvents), s1);
    assert s1.pc[w := SawNoTimers(true)] == s2.pc;
    ReachStep(c, s1, Go(w, ReadTimers), s2);
    n := s.(pc := s.pc[w := Pick]);
    assert s2.pc[w := Pick] == n.pc;
    ReachStep(c, s2, Go(w, ReadQueue), n);
  }

  lemma Begins(c: Setup) returns (s: State)
    requires c.Threads() > 0
    ensures Reached(c, s) && Begun(s, c.Threads())
  {
    s := Scheduled(c);
    if c.useCaller {
      s := CallerEnters(c, s, c.workers);
    }
    assert s.pc == seq(c.Threads(), _ => Pick);
  }

  /** The first worker has taken the count down, all others have made two reads of `stopping()`. */
  predicate InFirstGap(s: State, n: nat) {
    && Shaped(s) && QueueStopping(s) && |s.pc| == n >= 2 && s.pc[0] == Dropped(0) && s.idleDone == {}
    && forall v :: 1 <= v < n ==> s.pc[v] == SawNoTimers(false)
  }

  /** Only workers 0 and 1 are left, and the idle coroutine of worker 1 is TERM. */
  predicate TwoLeft(pc: seq<Pc>, done: set<Worker>, n: nat, a: Pc, b: Pc) {
    && |pc| == n >= 2 && pc[0] == a && pc[1] == b && (forall v :: 2 <= v < n ==> pc[v] == Exited)
    && 0 !in done && 1 in done
  }

  /** In the gap the others see nothing to do; all but workers 0 and 1 leave. */
  lemma OthersGo(c: Setup, s: State, n: nat) returns (t: State)
    requires Reached(c, s) && InFirstGap(s, n)
    ensures Reached(c, t) && TwoLeft(t.pc, t.idleDone, n, Dropped(0), Pick)
    ensures t == s.(pc := t.pc, idleDone := t.idleDone)
  {
    t := Quits(c, s, 1);
    t := OthersLeave(c, t, 2);
  }

  // ---- through the gap before a READY coroutine is queued ----

  /** Worker 0 yields the coroutine READY while all others are reading. */
  lemma ReadyGap(c: Setup, n: nat) returns (s: State)
    requires c.ready && n == c.Threads() >= 2
    ensures Reached(c, s) && InFirstGap(s, n) && Solo(s, CorInfo(READY, Code)) && s.queue == [] && s.active == 0
    ensures s.regs == map[] && s.timers == map[] && s.owed == 0
  {
    s := Begins(c);
    s := Resumes(c, s, 0, 0, CorInfo(INIT, Code));
    s := YieldsReady(c, s, 0);
    s := OthersIdle(c, s, 1);
  }

  /** Worker 1 takes the coroutine over and yields it READY again; in this gap worker 0 leaves as well. */
  lemma SecondGap(c: Setup, s0: State, n: nat) returns (s: State)
    requires c.ready && Reached(c, s0) && TwoLeft(s0.pc, s0.idleDone, n, Dropped(0), Pick)
    requires Solo(s0, CorInfo(READY, Code)) && s0.queue == [] && s0.active == 0
    requires s0.regs == map[] && s0.timers == map[] && s0.owed == 0
    ensures Reached(c, s) && Solo(s, CorInfo(READY, Code)) && s.queue == [] && s.active == 0 && 1 in s.idleDone
    ensures s.pc == From(s0.pc, 0, Exited)[1 := Dropped(0)]
  {
    s := Requeues(c, s0, 0);
    s := Resumes(c, s, 1, |s0.tasks|, CorInfo(READY, Code));
    s := YieldsReady(c, s, 1);
    s := Idles(c, s, 0);
    s := Quits(c, s, 0);
    s := Leaves(c, s, 0);
  }

  /** Any two or more threads can leave with a task queued, with no event or timer in the program. */
  lemma ReadyLeavesWork(c: Setup) returns (s: State)
    requires c.ready && c.Threads() >= 2
    ensures Reached(c, s) && AllExited(s) && s.queue != []
  {
    var n := c.Threads();
    s := ReadyGap(c, n);
    s := OthersGo(c, s, n);
    s := SecondGap(c, s, n);
    s := TaskForTheGone(c, s);
    s := Leaves(c, s, 1);
  }

  /** Worker 1, the last one there, resumes the coroutine, which schedules a task for worker 0. */
  lemma TaskForTheGone(c: Setup, s0: State) returns (s: State)
    requires Reached(c, s0) && Solo(s0, CorInfo(READY, Code)) && s0.queue == [] && 1 in s0.idleDone
    requires |s0.pc| >= 2 && s0.pc == From(s0.pc, 0, Exited)[1 := Dropped(0)]
    ensures Reached(c, s) && Shaped(s) && 1 in s.idleDone && s.pc == From(s0.pc, 0, Exited)[1 := Pick]
    ensures s.queue != [] && FirstEligible(s, 1, 0) == |s.queue|
    ensures forall i :: 0 <= i < |s.queue| ==> s.queue[i] < |s.tasks|
  {
    s := Requeues(c, s0, 1);
    s := Resumes(c, s, 1, |s0.tasks|, CorInfo(READY, Code));
    s := LeavesTask(c, s, 1, 0);
    assert !Eligible(s, 1, s.queue[0]);
  }

  // ---- between the reads of `stopping()` ----

  const SLOT := Slot(5, READ)

  /** The first worker parks the coroutine after all others have seen no event and no timer. */
  lemma ParkGap(c: Setup, n: nat) returns (s: State)
    requires c.io == Anywhere && n == c.Threads() >= 2
    ensures Reached(c, s) && InFirstGap(s, n) && Solo(s, CorInfo(EXEC, MustHold)) && s.queue == [] && s.active == 0
    ensures |s.parks| == 1 && s.regs == map[SLOT := Reg(Resume(0), 0)] && s.timers == map[] && s.owed == 0
  {
    s := Begins(c);
    s := Resumes(c, s, 0, 0, CorInfo(INIT, Code));
    s := OthersIdle(c, s, 1);
    s := Parks(c, s, 0, SLOT);
  }

  /** The event is ready, and worker 1 takes the coroutine while worker 0 goes through two reads. */
  lemma WokenElsewhere(c: Setup, s0: State, n: nat) returns (s: State)
    requires Reached(c, s0) && TwoLeft(s0.pc, s0.idleDone, n, Dropped(0), Pick)
    requires Solo(s0, CorInfo(EXEC, MustHold)) && s0.queue == [] && s0.active == 0
    requires |s0.parks| == 1 && s0.regs == map[SLOT := Reg(Resume(0), 0)] && s0.timers == map[] && s0.owed == 0
    ensures Reached(c, s) && Solo(s, CorInfo(EXEC, Code)) && s.queue == [] && s.active == 1
    ensures TwoLeft(s.pc, s.idleDone, n, SawNoTimers(false), Run(0)) && s.regs == map[]
  {
    s := Settles(c, s0, 0);
    assert SLOT in s.regs;
    s := GoesToWait(c, s, 0);
    s := Handles(c, s, 0);
    s := Wakes(c, s, 0, SLOT, 0);
    s := Resumes(c, s, 1, |s0.tasks|, CorInfo(HOLD, Code));
    s := Idles(c, s, 0);
  }

  /** Any two or more threads can leave with an event registered, with no `YieldToReady` in the program. */
  lemma ReadsLeaveEvent(c: Setup) returns (s: State)
    requires c.io == Anywhere && c.Threads() >= 2
    ensures Reached(c, s) && AllExited(s) && s.regs != map[]
  {
    var n := c.Threads();
    s := ParkGap(c, n);
    s := OthersGo(c, s, n);
    s := WokenElsewhere(c, s, n);
    s := Parks(c, s, 1, SLOT);
    s := Quits(c, s, 0);
    s := Leaves(c, s, 0);
    s := Settles(c, s, 1);
    s := Leaves(c, s, 1);
  }

  /** One worker can leave with a timer armed that another thread added before it called `stop`. */
  lemma ReadsLeaveTimer(c: Setup) returns (s: State)
    requires c.io == Anywhere && c.workers == 1 && !c.useCaller
    ensures Reached(c, s) && AllExited(s) && s.timers != map[]
  {
    var s0 := c.Start();
    assert IsRun(s0, []) && After(s0, []) == s0 && Obeys(c, s0, []);
    s := Idles(c, s0, 0);
    var s1 := s.(timers := map[0 := TimerRec(User(0), false)]);
    ReachStep(c, s, Do(0, Arm(0, 0, false)), s1);
    s := s1.(stopped := true);
    ReachStep(c, s1, StopCall, s);
    s := Quits(c, s, 0);
    s := Leaves(c, s, 0);
  }
}
