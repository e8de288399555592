/** Safety of every run of the coroutine runtime. */
module RuntimeSafety {
  import opened Runtime
  import opened RuntimeTasks
  import opened RuntimeTokens
  import opened RuntimeCors

  // ---- registrations ----

  /** A registration is in the event table or has turned into exactly one task. */
  ghost predicate ParkInv(regs: map<Slot, Reg>, parks: seq<ParkRec>, tasks: seq<Task>) {
    && (forall slot :: slot in regs ==>
          regs[slot].park < |parks| && parks[regs[slot].park] == ParkRec(slot, regs[slot].job, -1))
    && (forall p :: 0 <= p < |parks| && parks[p].woken == -1 ==>
          parks[p].slot in regs && regs[parks[p].slot] == Reg(parks[p].job, p))
    && (forall p :: 0 <= p < |parks| && parks[p].woken != -1 ==>
          0 <= parks[p].woken < |tasks| && tasks[parks[p].woken].job == parks[p].job && tasks[parks[p].woken].from == p)
    && (forall id :: 0 <= id < |tasks| && tasks[id].from != -1 ==>
          0 <= tasks[id].from < |parks| && parks[tasks[id].from].woken == id)
  }

  lemma RegisterPark(regs: map<Slot, Reg>, parks: seq<ParkRec>, tasks: seq<Task>, slot: Slot, j: Job)
    requires ParkInv(regs, parks, tasks) && slot !in regs
    ensures ParkInv(regs[slot := Reg(j, |parks|)], parks + [ParkRec(slot, j, -1)], tasks)
  {
  }

  lemma TriggerPark(regs: map<Slot, Reg>, parks: seq<ParkRec>, tasks: seq<Task>, slot: Slot)
    requires ParkInv(regs, parks, tasks) && slot in regs
    ensures var p := regs[slot].park;
      ParkInv(regs - {slot}, parks[p := parks[p].(woken := |tasks|)], tasks + [Task(regs[slot].job, -1, p)])
  {
  }

  lemma PushPark(regs: map<Slot, Reg>, parks: seq<ParkRec>, tasks: seq<Task>, j: Job, thread: int)
    requires ParkInv(regs, parks, tasks)
    ensures ParkInv(regs, parks, tasks + [Task(j, thread, -1)])
  {
  }

  lemma OpPark(s: State, w: Worker, op: Op)
    requires Shaped(s) && OpEnabled(s, w, op) && ParkInv(s.regs, s.parks, s.tasks)
    ensures var n := NextOp(s, w, op); ParkInv(n.regs, n.parks, n.tasks)
  {
    match op
    case Park(slot) => RegisterPark(s.regs, s.parks, s.tasks, slot, Resume(s.pc[w].c));
    case Listen(slot, id) => RegisterPark(s.regs, s.parks, s.tasks, slot, Call(User(id)));
    case Trigger(slot) =>
      if slot in s.regs {
        TriggerPark(s.regs, s.parks, s.tasks, slot);
      }
    case Schedule(what, thread) =>
      PushPark(s.regs, s.parks, s.tasks, if what.NewCor? then Resume(|s.cors|) else Call(User(what.id)), thread);
    case Return(c) => PushPark(s.regs, s.parks, s.tasks, Resume(c), -1);
    case Deliver => PushPark(s.regs, s.parks, s.tasks, Resume(s.cors[s.pc[w].c].mode.c), -1);
    case _ =>
  }

  lemma MovePark(s: State, w: Worker, m: Move)
    requires Shaped(s) && MoveEnabled(s, w, m) && ParkInv(s.regs, s.parks, s.tasks)
    ensures var n := NextMove(s, w, m); ParkInv(n.regs, n.parks, n.tasks)
  {
    var n := NextMove(s, w, m);
    if n.tasks != s.tasks {
      var t := n.tasks[|s.tasks|];
      PushPark(s.regs, s.parks, s.tasks, t.job, t.thread);
    }
  }

  // ---- the invariant ----

  ghost predicate Inv(s: State) {
    Base(s) && s.active == BusyCount(s.pc) && ParkInv(s.regs, s.parks, s.tasks)
  }

  lemma {:induction false} NoneBusy(pc: seq<Pc>)
    requires forall w :: 0 <= w < |pc| ==> Busy(pc[w]) == 0
    ensures BusyCount(pc) == 0
  {
    if pc != [] {
      NoneBusy(pc[1..]);
    }
  }

  lemma InitialInv(workers: nat, useCaller: bool)
    ensures Inv(Initial(workers, useCaller))
  {
    var s := Initial(workers, useCaller);
    assert forall w :: 0 <= w < |s.pc| ==> s.pc[w] == Pick || s.pc[w] == NotStarted;
    NoneBusy(s.pc);
    assert forall p :: Holder(s, p) == -1;
  }

  lemma OpInv(s: State, w: Worker, op: Op)
    requires Inv(s) && OpEnabled(s, w, op)
    ensures Inv(NextOp(s, w, op))
  {
    RunsQuiet(s, w);
    OpTask(s, w, op);
    OpTok(s, w, op);
    OpRecurring(s, w, op);
    OpCor(s, w, op);
    OpHeld(s, w, op);
    OpCb(s, w, op);
    OpPark(s, w, op);
  }

  lemma MoveBase(s: State, w: Worker, m: Move)
    requires Base(s) && MoveEnabled(s, w, m)
    ensures Base(NextMove(s, w, m))
  {
    MoveTask(s, w, m);
    MoveTok(s, w, m);
    MoveRecurring(s, w, m);
    MoveCor(s, w, m);
    MoveHeld(s, w, m);
  }

  lemma MoveInv(s: State, w: Worker, m: Move)
    requires Inv(s) && MoveEnabled(s, w, m)
    ensures Inv(NextMove(s, w, m))
  {
    MoveBase(s, w, m);
    MoveCount(s, w, m);
    MovePark(s, w, m);
  }

  lemma StepInv(s: State, a: Action)
    requires Inv(s) && Enabled(s, a)
    ensures Inv(Next(s, a))
  {
    match a
    case StopCall => Keep(s, Next(s, a));
    case Do(w, op) => OpInv(s, w, op);
    case Go(w, m) => MoveInv(s, w, m);
  }

  /** Every state of every run satisfies the invariant. */
  lemma {:induction false} RunInv(s: State, acts: seq<Action>)
    requires Inv(s) && IsRun(s, acts)
    ensures Inv(After(s, acts))
    decreases |acts|
  {
    if acts != [] {
      StepInv(s, acts[0]);
      RunInv(Next(s, acts[0]), acts[1..]);
    }
  }
}
