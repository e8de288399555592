/** Every accepted task is in one place; the active count is the number of busy workers. */
module RuntimeTasks {
  import opened Runtime

  /** The queue has no duplicates and holds the `Queued` tasks; the hands hold the `Held` ones. */
  ghost predicate TaskInv(queue: seq<nat>, taskAt: seq<TaskPlace>, pc: seq<Pc>) {
    && (forall i, j :: 0 <= i < j < |queue| ==> queue[i] != queue[j])
    && (forall i :: 0 <= i < |queue| ==> queue[i] < |taskAt| && taskAt[queue[i]] == Queued)
    && (forall id :: 0 <= id < |taskAt| && taskAt[id] == Queued ==> id in queue)
    && HandInv(taskAt, pc)
  }

  ghost predicate HandInv(taskAt: seq<TaskPlace>, pc: seq<Pc>) {
    && (forall w :: 0 <= w < |pc| && pc[w].Hand? ==> pc[w].id < |taskAt| && taskAt[pc[w].id] == Held(w))
    && (forall id :: 0 <= id < |taskAt| && taskAt[id].Held? ==> taskAt[id].w < |pc| && pc[taskAt[id].w] == Hand(id))
  }

  lemma PushTask(queue: seq<nat>, taskAt: seq<TaskPlace>, pc: seq<Pc>)
    requires TaskInv(queue, taskAt, pc)
    ensures TaskInv(queue + [|taskAt|], taskAt + [Queued], pc)
  {
    var q := queue + [|taskAt|];
    forall id | 0 <= id < |taskAt| + 1 && (taskAt + [Queued])[id] == Queued
      ensures id in q
    {
      assert q[|queue|] == |taskAt|;
    }
  }

  lemma SetPcTask(queue: seq<nat>, taskAt: seq<TaskPlace>, pc: seq<Pc>, w: Worker, p: Pc)
    requires TaskInv(queue, taskAt, pc) && w < |pc| && !pc[w].Hand? && !p.Hand?
    ensures TaskInv(queue, taskAt, pc[w := p])
  {
  }

  lemma TakeQueue(queue: seq<nat>, taskAt: seq<TaskPlace>, i: nat, w: Worker)
    requires forall k, j :: 0 <= k < j < |queue| ==> queue[k] != queue[j]
    requires forall k :: 0 <= k < |queue| ==> queue[k] < |taskAt| && taskAt[queue[k]] == Queued
    requires forall id :: 0 <= id < |taskAt| && taskAt[id] == Queued ==> id in queue
    requires i < |queue|
    ensures forall id :: 0 <= id < |taskAt| && taskAt[id] == Queued && id != queue[i] ==>
      id in queue[..i] + queue[i + 1..]
    ensures queue[i] !in queue[..i] + queue[i + 1..]
  {
    var q := queue[..i] + queue[i + 1..];
    forall id | 0 <= id < |taskAt| && taskAt[id] == Queued && id != queue[i]
      ensures id in q
    {
      var k :| 0 <= k < |queue| && queue[k] == id;
      assert q[if k < i then k else k - 1] == id;
    }
  }

  lemma TakeTask(queue: seq<nat>, taskAt: seq<TaskPlace>, pc: seq<Pc>, i: nat, w: Worker)
    requires TaskInv(queue, taskAt, pc) && w < |pc| && !pc[w].Hand? && i < |queue|
    ensures TaskInv(queue[..i] + queue[i + 1..], taskAt[queue[i] := Held(w)], pc[w := Hand(queue[i])])
  {
    TakeQueue(queue, taskAt, i, w);
  }

  lemma BeginTask(queue: seq<nat>, taskAt: seq<TaskPlace>, pc: seq<Pc>, w: Worker, p: Pc)
    requires TaskInv(queue, taskAt, pc) && w < |pc| && pc[w].Hand? && !p.Hand?
    ensures TaskInv(queue, taskAt[pc[w].id := Done], pc[w := p])
  {
  }

  lemma OpTask(s: State, w: Worker, op: Op)
    requires TaskInv(s.queue, s.taskAt, s.pc) && Shaped(s) && OpEnabled(s, w, op)
    ensures var n := NextOp(s, w, op); TaskInv(n.queue, n.taskAt, n.pc)
  {
    PushTask(s.queue, s.taskAt, s.pc);
  }

  lemma TakeOrBegin(s: State, w: Worker, m: Move)
    requires TaskInv(s.queue, s.taskAt, s.pc) && Shaped(s) && MoveEnabled(s, w, m) && (m.Take? || m.Begin?)
    ensures var n := NextMove(s, w, m); TaskInv(n.queue, n.taskAt, n.pc)
  {
    var p := NextMove(s, w, m).pc[w];
    if m.Begin? {
      BeginTask(s.queue, s.taskAt, s.pc, w, p);
    } else if p.Hand? {
      TakeTask(s.queue, s.taskAt, s.pc, FirstEligible(s, w, 0), w);
    } else {
      SetPcTask(s.queue, s.taskAt, s.pc, w, p);
    }
  }

  /** Every other move leaves the tasks alone or enqueues one. */
  lemma AtMostPushes(s: State, w: Worker, m: Move)
    requires Shaped(s) && MoveEnabled(s, w, m) && !m.Take? && !m.Begin?
    ensures var n := NextMove(s, w, m);
      !s.pc[w].Hand? && !n.pc[w].Hand?
      && ((n.queue == s.queue && n.taskAt == s.taskAt)
          || (n.queue == s.queue + [|s.taskAt|] && n.taskAt == s.taskAt + [Queued]))
  {
  }

  lemma MoveTask(s: State, w: Worker, m: Move)
    requires TaskInv(s.queue, s.taskAt, s.pc) && Shaped(s) && MoveEnabled(s, w, m)
    ensures var n := NextMove(s, w, m); TaskInv(n.queue, n.taskAt, n.pc)
  {
    if m.Take? || m.Begin? {
      TakeOrBegin(s, w, m);
    } else {
      var n := NextMove(s, w, m);
      AtMostPushes(s, w, m);
      SetPcTask(s.queue, s.taskAt, s.pc, w, n.pc[w]);
      PushTask(s.queue, s.taskAt, n.pc);
    }
  }

  // ---- the active count ----

  function BusyCount(pc: seq<Pc>): nat {
    if pc == [] then 0 else Busy(pc[0]) + BusyCount(pc[1..])
  }

  lemma {:induction false} BusyUpdate(pc: seq<Pc>, w: Worker, p: Pc)
    requires w < |pc|
    ensures BusyCount(pc[w := p]) == BusyCount(pc) - Busy(pc[w]) + Busy(p)
  {
    if w == 0 {
      assert pc[w := p][1..] == pc[1..];
    } else {
      assert pc[w := p][1..] == pc[1..][w - 1 := p];
      BusyUpdate(pc[1..], w - 1, p);
    }
  }

  lemma {:induction false} BusySome(pc: seq<Pc>, w: Worker)
    requires w < |pc| && Busy(pc[w]) == 1
    ensures BusyCount(pc) > 0
  {
    BusyUpdate(pc, w, Pick);
  }

  lemma MoveCount(s: State, w: Worker, m: Move)
    requires Shaped(s) && MoveEnabled(s, w, m) && s.active == BusyCount(s.pc)
    ensures NextMove(s, w, m).active == BusyCount(NextMove(s, w, m).pc)
  {
    BusyUpdate(s.pc, w, NextMove(s, w, m).pc[w]);
  }
}
