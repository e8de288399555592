/** Each coroutine has at most one wake-up, over all the places that can hold one. */
module RuntimeTokens {
  import opened Runtime

  // ---- which coroutine the wake-up stored at a place belongs to, or -1 ----

  function SlotHolder(regs: map<Slot, Reg>, slot: Slot): int {
    if slot in regs then Waker(regs[slot].job) else -1
  }

  function TimerHolder(timers: map<nat, TimerRec>, t: nat): int {
    if t in timers then CbWaker(timers[t].cb) else -1
  }

  function LocalHolder(pc: seq<Pc>, w: Worker, i: nat): int {
    if w < |pc| && pc[w].Posting? && pc[w].k <= i < |pc[w].cbs| then CbWaker(pc[w].cbs[i]) else -1
  }

  function TaskHolder(tasks: seq<Task>, taskAt: seq<TaskPlace>, id: nat): int {
    if id < |tasks| && id < |taskAt| && taskAt[id] != Done then Waker(tasks[id].job) else -1
  }

  function BodyHolder(cors: seq<CorInfo>, k: Cor): int {
    if k < |cors| && cors[k].mode.Waking? then cors[k].mode.c else -1
  }

  function Holder(s: State, p: Place): int {
    match p
    case NoToken => -1
    case AtSlot(slot) => SlotHolder(s.regs, slot)
    case AtTimer(t) => TimerHolder(s.timers, t)
    case AtLocal(w, i) => LocalHolder(s.pc, w, i)
    case InTask(id) => TaskHolder(s.tasks, s.taskAt, id)
    case AtBody(k) => BodyHolder(s.cors, k)
    case AtUser(c) => if c in s.lent then c else -1
  }

  /** The wake-ups stored anywhere are exactly the ones `token` locates. */
  ghost predicate TokInv(s: State) {
    && (forall c :: 0 <= c < |s.token| && s.token[c] != NoToken ==> Holder(s, s.token[c]) == c)
    && (forall p :: Holder(s, p) >= 0 ==> Holder(s, p) < |s.token| && s.token[Holder(s, p)] == p)
  }

  /** A coroutine's wake-up is never in two places. */
  lemma OnePlace(s: State, p: Place, q: Place)
    requires TokInv(s) && Holder(s, p) == Holder(s, q) >= 0
    ensures p == q
  {
  }

  // ---- moving one wake-up ----

  ghost predicate SameHolders(s: State, n: State) {
    forall p :: Holder(n, p) == Holder(s, p)
  }

  /** The holder at `src` is gone and `c` is held at `dst`. */
  ghost predicate HolderMoves(s: State, n: State, c: int, src: Place, dst: Place) {
    forall p :: Holder(n, p) == if p == dst && dst != NoToken then c else if p == src then -1 else Holder(s, p)
  }

  lemma Keep(s: State, n: State)
    requires TokInv(s) && n.token == s.token && SameHolders(s, n)
    ensures TokInv(n)
  {
    forall c | 0 <= c < |n.token| && n.token[c] != NoToken
      ensures Holder(n, n.token[c]) == c
    {
      assert Holder(s, s.token[c]) == c;
    }
  }

  lemma Relocate(s: State, n: State, c: nat, dst: Place)
    requires TokInv(s) && c < |s.token| && n.token == s.token[c := dst]
    requires Holder(s, dst) == -1
    requires HolderMoves(s, n, c, s.token[c], dst)
    ensures TokInv(n)
  {
    forall x | 0 <= x < |n.token| && n.token[x] != NoToken
      ensures Holder(n, n.token[x]) == x
    {
      if x != c {
        assert Holder(s, s.token[x]) == x;
      }
    }
  }

  /** A coroutine with no wake-up appears. */
  lemma Grow(s: State, n: State)
    requires TokInv(s) && n.token == s.token + [NoToken] && SameHolders(s, n)
    ensures TokInv(n)
  {
    forall c | 0 <= c < |n.token| && n.token[c] != NoToken
      ensures Holder(n, n.token[c]) == c
    {
      assert Holder(s, s.token[c]) == c;
    }
  }

  // ---- enqueueing ----

  /** `s1` is `s` with the wake-up at `src` taken out of its old place. */
  ghost predicate TakenFrom(s: State, s1: State, src: Place) {
    && s1.token == s.token && s1.tasks == s.tasks && s1.taskAt == s.taskAt
    && forall p :: Holder(s1, p) == if p == src then -1 else Holder(s, p)
  }

  lemma PushHolders(s: State, s1: State, src: Place, j: Job, thread: int, from: int)
    requires Shaped(s) && TakenFrom(s, s1, src)
    ensures HolderMoves(s, Push(s1, j, thread, from), Waker(j), src, InTask(|s.tasks|))
  {
    var n := Push(s1, j, thread, from);
    forall p
      ensures Holder(n, p) == if p == InTask(|s.tasks|) then Waker(j) else if p == src then -1 else Holder(s, p)
    {
      assert p != InTask(|s.tasks|) ==> Holder(n, p) == Holder(s1, p);
    }
  }

  lemma PushWake(s: State, s1: State, j: Job, thread: int, from: int)
    requires Shaped(s) && TokInv(s) && 0 <= Waker(j) < |s.token| && TakenFrom(s, s1, s.token[Waker(j)])
    ensures TokInv(Push(s1, j, thread, from))
  {
    PushHolders(s, s1, s.token[Waker(j)], j, thread, from);
    Relocate(s, Push(s1, j, thread, from), Waker(j), InTask(|s.tasks|));
  }

  lemma PushUser(s: State, s1: State, j: Job, thread: int, from: int)
    requires Shaped(s) && TokInv(s) && Waker(j) == -1 && TakenFrom(s, s1, NoToken)
    ensures TokInv(Push(s1, j, thread, from))
  {
    PushHolders(s, s1, NoToken, j, thread, from);
    Keep(s, Push(s1, j, thread, from));
  }

  // ---- framework calls ----

  /** A coroutine that runs ordinary code has no wake-up anywhere. */
  ghost predicate Quiet(s: State, w: Worker) {
    RunsCode(s, w) ==> s.pc[w].c < |s.token| && s.token[s.pc[w].c] == NoToken
  }

  lemma ScheduleTok(s: State, what: Spawn, thread: int)
    requires Shaped(s) && TokInv(s)
    ensures TokInv(DoSchedule(s, what, thread))
  {
    match what
    case NewCor =>
      var s1 := s.(cors := s.cors + [CorInfo(INIT, Code)], on := s.on + [-1], token := s.token + [NoToken]);
      assert SameHolders(s, s1);
      Grow(s, s1);
      PushWake(s1, s1, Resume(|s.cors|), thread, -1);
    case CallUser(id) =>
      PushUser(s, s, Call(User(id)), thread, -1);
  }

  lemma TriggerTok(s: State, slot: Slot)
    requires Shaped(s) && TokInv(s) && slot in s.regs
    ensures TokInv(DoTrigger(s, slot))
  {
    var r := s.regs[slot];
    var s1 := s.(regs := s.regs - {slot}, owed := s.owed + 1,
                 parks := if r.park < |s.parks|
                          then s.parks[r.park := s.parks[r.park].(woken := |s.tasks|)] else s.parks);
    assert Holder(s, AtSlot(slot)) == Waker(r.job);
    if Waker(r.job) >= 0 {
      assert TakenFrom(s, s1, AtSlot(slot));
      PushWake(s, s1, r.job, -1, r.park);
    } else {
      assert TakenFrom(s, s1, NoToken);
      PushUser(s, s1, r.job, -1, r.park);
    }
  }

  /** Park, Sleep and Lend: the running coroutine's wake-up appears at `p`. */
  lemma SuspendTok(s: State, n: State, c: Cor, p: Place)
    requires TokInv(s) && c < |s.token| && s.token[c] == NoToken && n.token == s.token[c := p]
    requires Holder(s, p) == -1 && Holder(n, p) == c
    requires forall q :: q != p ==> Holder(n, q) == Holder(s, q)
    ensures TokInv(n)
  {
    Relocate(s, n, c, p);
  }

  lemma DeliverTok(s: State, k: Cor)
    requires Shaped(s) && TokInv(s) && k < |s.cors| && s.cors[k].mode.Waking?
    ensures TokInv(Push(SetCor(s, k, CorInfo(s.cors[k].state, Code)), Resume(s.cors[k].mode.c), -1, -1))
  {
    var s1 := SetCor(s, k, CorInfo(s.cors[k].state, Code));
    assert Holder(s, AtBody(k)) == s.cors[k].mode.c;
    assert TakenFrom(s, s1, AtBody(k));
    PushWake(s, s1, Resume(s.cors[k].mode.c), -1, -1);
  }

  lemma ReturnTok(s: State, c: Cor)
    requires Shaped(s) && TokInv(s) && c in s.lent
    ensures TokInv(Push(s.(lent := s.lent - {c}), Resume(c), -1, -1))
  {
    assert Holder(s, AtUser(c)) == c;
    assert TakenFrom(s, s.(lent := s.lent - {c}), AtUser(c));
    PushWake(s, s.(lent := s.lent - {c}), Resume(c), -1, -1);
  }

  lemma OpTok(s: State, w: Worker, op: Op)
    requires Shaped(s) && TokInv(s) && OpEnabled(s, w, op) && Quiet(s, w)
    ensures TokInv(NextOp(s, w, op))
  {
    var n := NextOp(s, w, op);
    match op
    case Schedule(what, thread) => ScheduleTok(s, what, thread);
    case Park(slot) => SuspendTok(s, n, s.pc[w].c, AtSlot(slot));
    case Sleep(t) => SuspendTok(s, n, s.pc[w].c, AtTimer(t));
    case Lend =>
      assert Holder(s, AtUser(s.pc[w].c)) == -1;
      SuspendTok(s, n, s.pc[w].c, AtUser(s.pc[w].c));
    case Return(c) => ReturnTok(s, c);
    case Trigger(slot) =>
      if slot in s.regs {
        TriggerTok(s, slot);
      }
    case Deliver => DeliverTok(s, s.pc[w].c);
    case _ => Keep(s, n);
  }

  // ---- moves of a worker ----

  lemma BeginCorTok(s: State, w: Worker, id: nat, c: Cor)
    requires Shaped(s) && TokInv(s) && w < |s.pc| && s.pc[w] == Hand(id) && id < |s.tasks| && c < |s.cors|
    requires s.taskAt[id] == Held(w) && s.tasks[id].job == Resume(c) && !s.cors[c].mode.Waking?
    ensures TokInv(BeginCor(s, w, id, c)) && TokInv(BeginOver(s, w, id, c))
  {
    assert Holder(s, InTask(id)) == c;
    Relocate(s, BeginCor(s, w, id, c), c, NoToken);
    Relocate(s, BeginOver(s, w, id, c), c, NoToken);
  }

  /** The callback goes on the worker's own coroutine. */
  lemma BeginOwnTok(s: State, w: Worker, id: nat, f: Callback)
    requires Shaped(s) && TokInv(s) && w < |s.pc| && s.pc[w] == Hand(id) && id < |s.tasks| && 0 <= s.cb[w] < |s.cors|
    requires s.taskAt[id] == Held(w) && s.tasks[id].job == Call(f) && !s.cors[s.cb[w]].mode.Waking?
    ensures TokInv(BeginCall(s, w, id, f))
  {
    var n := BeginCall(s, w, id, f);
    assert Holder(s, InTask(id)) == CbWaker(f);
    if f.Wake? {
      Relocate(s, n, f.c, AtBody(s.cb[w]));
    } else {
      Keep(s, n);
    }
  }

  /** The callback goes on a new coroutine. */
  lemma BeginNewTok(s: State, w: Worker, id: nat, f: Callback)
    requires Shaped(s) && TokInv(s) && w < |s.pc| && s.pc[w] == Hand(id) && id < |s.tasks| && s.cb[w] < 0
    requires s.taskAt[id] == Held(w) && s.tasks[id].job == Call(f)
    ensures TokInv(BeginCall(s, w, id, f))
  {
    var n := BeginCall(s, w, id, f);
    var k := |s.cors|;
    assert Holder(s, InTask(id)) == CbWaker(f);
    var s1 := n.(token := s.token);
    if f.Wake? {
      s1 := n.(token := s.token[f.c := AtBody(k)]);
      assert HolderMoves(s, s1, f.c, InTask(id), AtBody(k));
      Relocate(s, s1, f.c, AtBody(k));
    } else {
      assert SameHolders(s, s1);
      Keep(s, s1);
    }
    Grow(s1, n);
  }

  lemma SettleTok(s: State, w: Worker, c: Cor)
    requires Shaped(s) && TokInv(s) && w < |s.pc| && s.pc[w] == Dropped(c) && c < |s.cors| && !s.cors[c].mode.Waking?
    requires s.cors[c].state == READY ==> s.token[c] == NoToken
    ensures TokInv(DoSettle(s, w, c))
  {
    var n := DoSettle(s, w, c);
    if s.cors[c].state == READY {
      var cb := if s.cb[w] == c then s.cb[w := -1] else s.cb;
      var s1 := s.(pc := s.pc[w := Pick], on := s.on[c := -1], cb := cb);
      assert TakenFrom(s, s1, NoToken);
      PushWake(s, s1, Resume(c), -1, -1);
    } else {
      Keep(s, n);
    }
  }

  lemma PostTok(s: State, w: Worker, cbs: seq<Callback>, k: nat)
    requires Shaped(s) && TokInv(s) && w < |s.pc| && s.pc[w] == Posting(cbs, k)
    ensures TokInv(DoPost(s, w, cbs, k))
  {
    var n := DoPost(s, w, cbs, k);
    if k < |cbs| {
      var s1 := SetPc(s, w, Posting(cbs, k + 1));
      assert Holder(s, AtLocal(w, k)) == CbWaker(cbs[k]);
      assert n == Push(s1, Call(cbs[k]), -1, -1);
      if cbs[k].Wake? {
        assert TakenFrom(s, s1, AtLocal(w, k));
        PushWake(s, s1, Call(cbs[k]), -1, -1);
      } else {
        assert TakenFrom(s, s1, NoToken);
        PushUser(s, s1, Call(cbs[k]), -1, -1);
      }
    } else {
      Keep(s, n);
    }
  }

  // ---- expiry moves many wake-ups at once ----

  ghost predicate RecurringIsUser(timers: map<nat, TimerRec>) {
    forall t :: t in timers && timers[t].recurring ==> timers[t].cb.User?
  }

  lemma {:induction false} IndexOfUnique(ts: seq<nat>, i: nat)
    requires i < |ts| && forall j, k :: 0 <= j < k < |ts| ==> ts[j] != ts[k]
    ensures IndexOf(ts, ts[i]) == i
  {
    var j := IndexOf(ts, ts[i]);
    assert ts[j] == ts[i];
  }

  lemma ExpireTok(s: State, w: Worker, ts: seq<nat>)
    requires Shaped(s) && TokInv(s) && MoveEnabled(s, w, Expire(ts)) && RecurringIsUser(s.timers)
    ensures TokInv(DoExpire(s, w, ts))
  {
    var n := DoExpire(s, w, ts);
    forall c | 0 <= c < |n.token| && n.token[c] != NoToken
      ensures Holder(n, n.token[c]) == c
    {
      assert Holder(s, s.token[c]) == c;
    }
    forall p | Holder(n, p) >= 0
      ensures Holder(n, p) < |n.token| && n.token[Holder(n, p)] == p
    {
      var c := Holder(n, p);
      if p.AtLocal? && p.w == w {
        assert Holder(s, AtTimer(ts[p.i])) == c;
        IndexOfUnique(ts, p.i);
      } else {
        assert Holder(s, p) == c;
      }
    }
  }

  lemma OpRecurring(s: State, w: Worker, op: Op)
    requires Shaped(s) && OpEnabled(s, w, op) && RecurringIsUser(s.timers)
    ensures RecurringIsUser(NextOp(s, w, op).timers)
  {
  }

  lemma MoveRecurring(s: State, w: Worker, m: Move)
    requires Shaped(s) && MoveEnabled(s, w, m) && RecurringIsUser(s.timers)
    ensures RecurringIsUser(NextMove(s, w, m).timers)
  {
    var n := NextMove(s, w, m);
    assert forall t :: t in n.timers ==> t in s.timers && n.timers[t] == s.timers[t];
  }
}
