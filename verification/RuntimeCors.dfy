/** A coroutine is on at most one worker and is resumed only after it has yielded. */
module RuntimeCors {
  import opened Runtime
  import opened RuntimeTokens
  import opened RuntimeTasks

  predicate HasCor(p: Pc) {
    p.Run? || p.Swapped? || p.Dropped?
  }

  /** Suspended with a wake-up somewhere, finished, or a callback coroutine without a function. */
  predicate OffOk(i: CorInfo, tok: bool) {
    if tok then i.mode == Code && (i.state == INIT || i.state == HOLD || i.state == READY)
    else (i.mode == Code && Over(i.state)) || (i.mode == Blank && i.state == INIT)
  }

  predicate RunOk(i: CorInfo, tok: bool) {
    i.state == EXEC && i.mode != Blank && (i.mode == MustHold <==> tok)
  }

  /** Switched out, not yet settled: still EXEC when it went to hold, and then it has a wake-up. */
  predicate OutOk(i: CorInfo, tok: bool) {
    if i.state == EXEC then tok && i.mode == MustHold
    else !tok && i.mode == Code && (i.state == READY || Over(i.state))
  }

  predicate CorOk(i: CorInfo, tok: bool, on: int, pc: seq<Pc>, c: Cor) {
    if on == -1 then OffOk(i, tok)
    else
      && 0 <= on < |pc| && HasCor(pc[on]) && pc[on].c == c
      && if pc[on].Run? then RunOk(i, tok) else OutOk(i, tok)
  }

  ghost predicate CorInv(cors: seq<CorInfo>, on: seq<int>, token: seq<Place>, pc: seq<Pc>) {
    && |on| == |cors| == |token|
    && (forall c :: 0 <= c < |cors| ==> CorOk(cors[c], token[c] != NoToken, on[c], pc, c))
    && (forall w :: 0 <= w < |pc| && HasCor(pc[w]) ==> pc[w].c < |on| && on[pc[w].c] == w)
  }

  /** A coroutine in a worker's hand is on no worker. */
  ghost predicate HeldOff(tasks: seq<Task>, taskAt: seq<TaskPlace>, on: seq<int>) {
    && |taskAt| == |tasks|
    && forall id :: 0 <= id < |tasks| && taskAt[id].Held? && tasks[id].job.Resume? ==>
         tasks[id].job.c < |on| && on[tasks[id].job.c] == -1
  }

  /** The callback coroutine of a worker is running on it or is blank; no two workers share one. */
  ghost predicate CbInv(cors: seq<CorInfo>, on: seq<int>, cb: seq<int>) {
    && |on| == |cors|
    && (forall w :: 0 <= w < |cb| ==> -1 <= cb[w] < |cors|)
    && (forall w :: 0 <= w < |cb| && cb[w] >= 0 ==> on[cb[w]] == w || (on[cb[w]] == -1 && cors[cb[w]].mode == Blank))
    && (forall w, v :: 0 <= w < v < |cb| && cb[w] >= 0 ==> cb[w] != cb[v])
  }

  // ---- CorInv, piece by piece ----

  lemma MoveWake(cors: seq<CorInfo>, on: seq<int>, token: seq<Place>, pc: seq<Pc>, c: int, p: Place)
    requires CorInv(cors, on, token, pc) && p != NoToken && (0 <= c < |token| ==> token[c] != NoToken)
    ensures CorInv(cors, on, Moved(token, c, p), pc)
  {
  }

  /** A worker that has no coroutine moves. */
  lemma FreeMove(cors: seq<CorInfo>, on: seq<int>, token: seq<Place>, pc: seq<Pc>, w: Worker, p: Pc)
    requires CorInv(cors, on, token, pc) && w < |pc| && !HasCor(pc[w]) && !HasCor(p)
    ensures CorInv(cors, on, token, pc[w := p])
  {
  }

  /** A suspended or new coroutine goes on a worker. */
  lemma GoOn(cors: seq<CorInfo>, on: seq<int>, token: seq<Place>, pc: seq<Pc>, w: Worker, c: Cor, i: CorInfo)
    requires CorInv(cors, on, token, pc) && w < |pc| && !HasCor(pc[w]) && c < |cors| && on[c] == -1 && RunOk(i, false)
    ensures CorInv(cors[c := i], on[c := w], token[c := NoToken], pc[w := Run(c)])
  {
  }

  lemma GoOnNew(cors: seq<CorInfo>, on: seq<int>, token: seq<Place>, pc: seq<Pc>, w: Worker, i: CorInfo)
    requires CorInv(cors, on, token, pc) && w < |pc| && !HasCor(pc[w]) && RunOk(i, false)
    ensures CorInv(cors + [i], on + [w], token + [NoToken], pc[w := Run(|cors|)])
  {
  }

  lemma NewOff(cors: seq<CorInfo>, on: seq<int>, token: seq<Place>, pc: seq<Pc>, p: Place)
    requires CorInv(cors, on, token, pc) && p != NoToken
    ensures CorInv(cors + [CorInfo(INIT, Code)], on + [-1], token + [p], pc)
  {
  }

  /** The coroutine on `w` changes and stays there. */
  lemma Change(cors: seq<CorInfo>, on: seq<int>, token: seq<Place>, pc: seq<Pc>, w: Worker, i: CorInfo, t: Place, p: Pc)
    requires CorInv(cors, on, token, pc) && w < |pc| && HasCor(pc[w]) && HasCor(p) && p.c == pc[w].c
    requires if p.Run? then RunOk(i, t != NoToken) else OutOk(i, t != NoToken)
    ensures var c := p.c; CorInv(cors[c := i], on, token[c := t], pc[w := p])
  {
  }

  /** The coroutine leaves its worker. */
  lemma GoOff(cors: seq<CorInfo>, on: seq<int>, token: seq<Place>, pc: seq<Pc>, w: Worker, i: CorInfo, t: Place)
    requires CorInv(cors, on, token, pc) && w < |pc| && HasCor(pc[w]) && OffOk(i, t != NoToken)
    ensures var c := pc[w].c; CorInv(cors[c := i], on[c := -1], token[c := t], pc[w := Pick])
  {
  }

  // ---- framework calls ----

  lemma TaskToken(s: State, id: nat)
    requires Shaped(s) && TokInv(s) && id < |s.tasks| && s.taskAt[id] != Done && Waker(s.tasks[id].job) >= 0
    ensures Waker(s.tasks[id].job) < |s.token| && s.token[Waker(s.tasks[id].job)] == InTask(id)
  {
    assert Holder(s, InTask(id)) == Waker(s.tasks[id].job);
  }

  /** The wake-up a framework call moves existed before it. */
  lemma OpToken(s: State, w: Worker, op: Op)
    requires Shaped(s) && TokInv(s) && OpEnabled(s, w, op)
    ensures op.Trigger? && op.slot in s.regs && 0 <= Waker(s.regs[op.slot].job) < |s.token|
      ==> s.token[Waker(s.regs[op.slot].job)] != NoToken
    ensures op.Deliver? ==> s.cors[s.pc[w].c].mode.c < |s.token| && s.token[s.cors[s.pc[w].c].mode.c] != NoToken
    ensures op.Return? ==> op.c < |s.token| && s.token[op.c] != NoToken
  {
    match op
    case Trigger(slot) => assert slot in s.regs ==> Holder(s, AtSlot(slot)) == Waker(s.regs[slot].job);
    case Deliver => assert Holder(s, AtBody(s.pc[w].c)) == s.cors[s.pc[w].c].mode.c;
    case Return(c) => assert Holder(s, AtUser(c)) == c;
    case _ =>
  }

  lemma RunsQuiet(s: State, w: Worker)
    requires CorInv(s.cors, s.on, s.token, s.pc)
    ensures Quiet(s, w)
  {
    if RunsCode(s, w) {
      var c := s.pc[w].c;
      assert s.on[c] == w;
      assert CorOk(s.cors[c], s.token[c] != NoToken, s.on[c], s.pc, c);
    }
  }

  lemma SuspendCor(s: State, w: Worker, p: Place)
    requires CorInv(s.cors, s.on, s.token, s.pc) && RunsCode(s, w) && p != NoToken
    ensures var n := DoSuspend(s, s.pc[w].c, p); CorInv(n.cors, n.on, n.token, n.pc)
  {
    var c := s.pc[w].c;
    assert CorOk(s.cors[c], s.token[c] != NoToken, s.on[c], s.pc, c);
    Change(s.cors, s.on, s.token, s.pc, w, CorInfo(s.cors[c].state, MustHold), p, s.pc[w]);
    assert s.pc[w := s.pc[w]] == s.pc;
  }

  lemma DeliverCor(s: State, w: Worker, p: Place)
    requires CorInv(s.cors, s.on, s.token, s.pc) && Runs(s, w) && s.cors[s.pc[w].c].mode.Waking? && p != NoToken
    requires s.cors[s.pc[w].c].mode.c < |s.token| && s.token[s.cors[s.pc[w].c].mode.c] != NoToken
    ensures var k := s.pc[w].c;
      CorInv(s.cors[k := CorInfo(s.cors[k].state, Code)], s.on, Moved(s.token, s.cors[k].mode.c, p), s.pc)
  {
    var k := s.pc[w].c;
    assert CorOk(s.cors[k], s.token[k] != NoToken, s.on[k], s.pc, k);
    var i := CorInfo(s.cors[k].state, Code);
    Change(s.cors, s.on, s.token, s.pc, w, i, NoToken, s.pc[w]);
    assert s.pc[w := s.pc[w]] == s.pc && s.token[k := NoToken] == s.token;
    MoveWake(s.cors[k := i], s.on, s.token, s.pc, s.cors[k].mode.c, p);
  }

  lemma OpCor(s: State, w: Worker, op: Op)
    requires Shaped(s) && TokInv(s) && CorInv(s.cors, s.on, s.token, s.pc) && OpEnabled(s, w, op)
    ensures var n := NextOp(s, w, op); CorInv(n.cors, n.on, n.token, n.pc)
  {
    OpToken(s, w, op);
    var at := InTask(|s.tasks|);
    match op
    case Schedule(what, _) =>
      if what.NewCor? {
        NewOff(s.cors, s.on, s.token, s.pc, at);
        assert Moved(s.token + [NoToken], |s.cors|, at) == s.token + [at];
      }
    case Park(slot) => SuspendCor(s, w, AtSlot(slot));
    case Sleep(t) => SuspendCor(s, w, AtTimer(t));
    case Lend => SuspendCor(s, w, AtUser(s.pc[w].c));
    case Return(c) => MoveWake(s.cors, s.on, s.token, s.pc, c, at);
    case Trigger(slot) =>
      if slot in s.regs {
        MoveWake(s.cors, s.on, s.token, s.pc, Waker(s.regs[slot].job), at);
      }
    case Deliver => DeliverCor(s, w, at);
    case _ =>
  }

  lemma HeldPush(tasks: seq<Task>, taskAt: seq<TaskPlace>, on: seq<int>, t: Task)
    requires HeldOff(tasks, taskAt, on)
    ensures HeldOff(tasks + [t], taskAt + [Queued], on)
  {
  }

  lemma OpHeld(s: State, w: Worker, op: Op)
    requires Shaped(s) && HeldOff(s.tasks, s.taskAt, s.on) && OpEnabled(s, w, op)
    ensures var n := NextOp(s, w, op); HeldOff(n.tasks, n.taskAt, n.on)
  {
    var n := NextOp(s, w, op);
    assert HeldOff(s.tasks, s.taskAt, n.on);
    if n.tasks != s.tasks {
      HeldPush(s.tasks, s.taskAt, n.on, n.tasks[|s.tasks|]);
    }
  }

  lemma CbChange(cors: seq<CorInfo>, on: seq<int>, cb: seq<int>, c: Cor, i: CorInfo)
    requires CbInv(cors, on, cb) && c < |cors| && on[c] != -1
    ensures CbInv(cors[c := i], on, cb)
  {
  }

  lemma CbGrow(cors: seq<CorInfo>, on: seq<int>, cb: seq<int>, i: CorInfo, w: int)
    requires CbInv(cors, on, cb)
    ensures CbInv(cors + [i], on + [w], cb)
  {
  }

  lemma OpCb(s: State, w: Worker, op: Op)
    requires Shaped(s) && CbInv(s.cors, s.on, s.cb) && OpEnabled(s, w, op)
    requires CorInv(s.cors, s.on, s.token, s.pc)
    ensures var n := NextOp(s, w, op); CbInv(n.cors, n.on, n.cb)
  {
    var n := NextOp(s, w, op);
    CbGrow(s.cors, s.on, s.cb, CorInfo(INIT, Code), -1);
    if op.Park? || op.Sleep? || op.Lend? || op.Deliver? {
      CbChange(s.cors, s.on, s.cb, s.pc[w].c, n.cors[s.pc[w].c]);
    }
  }

  // ---- moves of a worker ----

  lemma BeginCallCor(s: State, w: Worker, id: nat, f: Callback)
    requires Shaped(s) && w < |s.pc| && s.pc[w] == Hand(id) && id < |s.tasks|
    requires TokInv(s) && s.taskAt[id] != Done && s.tasks[id].job == Call(f)
    requires CorInv(s.cors, s.on, s.token, s.pc) && CbInv(s.cors, s.on, s.cb)
    ensures var n := BeginCall(s, w, id, f); CorInv(n.cors, n.on, n.token, n.pc)
  {
    var n := BeginCall(s, w, id, f);
    var i := CorInfo(EXEC, if f.Wake? then Waking(f.c) else Code);
    var at := AtBody(n.pc[w].c);
    if f.Wake? {
      TaskToken(s, id);
    }
    MoveWake(s.cors, s.on, s.token, s.pc, CbWaker(f), at);
    var token := Moved(s.token, CbWaker(f), at);
    if s.cb[w] >= 0 {
      var k := s.cb[w];
      assert s.on[k] == -1;
      assert CorOk(s.cors[k], s.token[k] != NoToken, s.on[k], s.pc, k);
      GoOn(s.cors, s.on, token, s.pc, w, k, i);
      assert token[k := NoToken] == token;
    } else {
      GoOnNew(s.cors, s.on, token, s.pc, w, i);
    }
  }

  lemma SettleCor(s: State, w: Worker, c: Cor)
    requires Shaped(s) && w < |s.pc| && s.pc[w] == Dropped(c) && CorInv(s.cors, s.on, s.token, s.pc)
    ensures c < |s.cors|
    ensures var n := DoSettle(s, w, c); CorInv(n.cors, n.on, n.token, n.pc)
  {
    assert CorOk(s.cors[c], s.token[c] != NoToken, s.on[c], s.pc, c);
    var n := DoSettle(s, w, c);
    GoOff(s.cors, s.on, s.token, s.pc, w, n.cors[c], n.token[c]);
    assert s.token[c := n.token[c]] == n.token && s.cors[c := n.cors[c]] == n.cors;
  }

  lemma PostCor(s: State, w: Worker, cbs: seq<Callback>, k: nat)
    requires Shaped(s) && TokInv(s) && w < |s.pc| && s.pc[w] == Posting(cbs, k) && CorInv(s.cors, s.on, s.token, s.pc)
    ensures var n := DoPost(s, w, cbs, k); CorInv(n.cors, n.on, n.token, n.pc)
  {
    var n := DoPost(s, w, cbs, k);
    FreeMove(s.cors, s.on, s.token, s.pc, w, n.pc[w]);
    if k < |cbs| {
      assert Holder(s, AtLocal(w, k)) == CbWaker(cbs[k]);
      MoveWake(s.cors, s.on, s.token, n.pc, CbWaker(cbs[k]), InTask(|s.tasks|));
    }
  }

  lemma ExpireCor(s: State, w: Worker, ts: seq<nat>)
    requires Shaped(s) && MoveEnabled(s, w, Expire(ts)) && CorInv(s.cors, s.on, s.token, s.pc)
    ensures var n := DoExpire(s, w, ts); CorInv(n.cors, n.on, n.token, n.pc)
  {
    var n := DoExpire(s, w, ts);
    FreeMove(s.cors, s.on, s.token, s.pc, w, n.pc[w]);
    assert forall c :: 0 <= c < |s.token| ==> (n.token[c] == NoToken <==> s.token[c] == NoToken);
  }

  lemma YieldCor(s: State, w: Worker, m: Move)
    requires Shaped(s) && MoveEnabled(s, w, m) && CorInv(s.cors, s.on, s.token, s.pc)
    requires m.YieldHold? || m.YieldReady? || m.Finish? || m.Decrement?
    ensures var n := NextMove(s, w, m); CorInv(n.cors, n.on, n.token, n.pc)
  {
    var n := NextMove(s, w, m);
    var c := s.pc[w].c;
    assert CorOk(s.cors[c], s.token[c] != NoToken, s.on[c], s.pc, c);
    Change(s.cors, s.on, s.token, s.pc, w, n.cors[c], s.token[c], n.pc[w]);
    assert s.token[c := s.token[c]] == s.token && s.cors[c := n.cors[c]] == n.cors;
  }

  // ---- all moves ----

  /** What the moves of a worker rely on. */
  ghost predicate Base(s: State) {
    && Shaped(s) && TaskInv(s.queue, s.taskAt, s.pc) && TokInv(s) && RecurringIsUser(s.timers)
    && CorInv(s.cors, s.on, s.token, s.pc) && HeldOff(s.tasks, s.taskAt, s.on) && CbInv(s.cors, s.on, s.cb)
  }

  /** The task in a worker's hand: its coroutine has yielded and still has something to run. */
  lemma InHand(s: State, w: Worker)
    requires Base(s) && w < |s.pc| && s.pc[w].Hand?
    ensures var id := s.pc[w].id; id < |s.tasks| && s.taskAt[id] == Held(w)
    ensures var j := s.tasks[s.pc[w].id].job; j.Resume? ==>
      j.c < |s.cors| && s.on[j.c] == -1 && s.token[j.c] == InTask(s.pc[w].id) && OffOk(s.cors[j.c], true)
    ensures s.cb[w] >= 0 ==>
      s.on[s.cb[w]] == -1 && s.token[s.cb[w]] == NoToken && s.cors[s.cb[w]] == CorInfo(INIT, Blank)
  {
    var id := s.pc[w].id;
    if s.tasks[id].job.Resume? {
      TaskToken(s, id);
      var c := s.tasks[id].job.c;
      assert CorOk(s.cors[c], s.token[c] != NoToken, s.on[c], s.pc, c);
    }
    if s.cb[w] >= 0 {
      var k := s.cb[w];
      assert CorOk(s.cors[k], s.token[k] != NoToken, s.on[k], s.pc, k);
    }
  }

  lemma BeginTok(s: State, w: Worker)
    requires Base(s) && MoveEnabled(s, w, Begin)
    ensures TokInv(DoBegin(s, w))
    ensures var n := DoBegin(s, w); CorInv(n.cors, n.on, n.token, n.pc)
  {
    InHand(s, w);
    var id := s.pc[w].id;
    match s.tasks[id].job
    case Resume(c) =>
      BeginCorTok(s, w, id, c);
      GoOn(s.cors, s.on, s.token, s.pc, w, c, CorInfo(EXEC, Code));
    case Call(f) =>
      BeginCallCor(s, w, id, f);
      if s.cb[w] >= 0 {
        BeginOwnTok(s, w, id, f);
      } else {
        BeginNewTok(s, w, id, f);
      }
  }

  predicate Plain(m: Move) {
    !m.Begin? && !m.Settle? && !m.Expire? && !m.Post?
  }

  lemma PlainMove(s: State, w: Worker, m: Move)
    requires Shaped(s) && MoveEnabled(s, w, m) && Plain(m) && TaskInv(s.queue, s.taskAt, s.pc)
    ensures var n := NextMove(s, w, m);
      |n.taskAt| == |s.taskAt| && forall id :: 0 <= id < |s.taskAt| ==> (n.taskAt[id] == Done <==> s.taskAt[id] == Done)
    ensures var n := NextMove(s, w, m);
      n.timers == s.timers && n.tasks == s.tasks && n.token == s.token && !s.pc[w].Posting? && !n.pc[w].Posting?
    ensures var n := NextMove(s, w, m);
      |n.cors| == |s.cors| &&
      forall k :: 0 <= k < |s.cors| && n.cors[k] != s.cors[k] ==> s.cors[k].mode == n.cors[k].mode == Code
  {
  }

  lemma PlainTok(s: State, w: Worker, m: Move)
    requires Base(s) && MoveEnabled(s, w, m) && Plain(m)
    ensures TokInv(NextMove(s, w, m))
  {
    PlainMove(s, w, m);
    Keep(s, NextMove(s, w, m));
  }

  lemma MoveTok(s: State, w: Worker, m: Move)
    requires Base(s) && MoveEnabled(s, w, m)
    ensures TokInv(NextMove(s, w, m))
  {
    match m
    case Begin => BeginTok(s, w);
    case Settle =>
      var c := s.pc[w].c;
      assert CorOk(s.cors[c], s.token[c] != NoToken, s.on[c], s.pc, c);
      SettleTok(s, w, c);
    case Expire(ts) => ExpireTok(s, w, ts);
    case Post => PostTok(s, w, s.pc[w].cbs, s.pc[w].k);
    case _ => PlainTok(s, w, m);
  }

  lemma MoveCor(s: State, w: Worker, m: Move)
    requires Base(s) && MoveEnabled(s, w, m)
    ensures var n := NextMove(s, w, m); CorInv(n.cors, n.on, n.token, n.pc)
  {
    match m
    case Begin => BeginTok(s, w);
    case Settle => SettleCor(s, w, s.pc[w].c);
    case Expire(ts) => ExpireCor(s, w, ts);
    case Post => PostCor(s, w, s.pc[w].cbs, s.pc[w].k);
    case YieldHold => YieldCor(s, w, m);
    case YieldReady => YieldCor(s, w, m);
    case Finish(_) => YieldCor(s, w, m);
    case Decrement => YieldCor(s, w, m);
    case _ => FreeMove(s.cors, s.on, s.token, s.pc, w, NextMove(s, w, m).pc[w]);
  }

  /** The scan skips a coroutine that is running, so the one it takes is on no worker. */
  lemma TakenIsOff(s: State, w: Worker, id: nat)
    requires Base(s) && id in s.queue && Eligible(s, w, id) && s.tasks[id].job.Resume?
    ensures s.tasks[id].job.c < |s.on| && s.on[s.tasks[id].job.c] == -1
  {
    TaskToken(s, id);
    var c := s.tasks[id].job.c;
    assert CorOk(s.cors[c], s.token[c] != NoToken, s.on[c], s.pc, c);
  }

  lemma TakeHeld(s: State, w: Worker)
    requires Base(s) && MoveEnabled(s, w, Take)
    ensures var n := DoScan(s, w); HeldOff(n.tasks, n.taskAt, n.on)
  {
    var i := FirstEligible(s, w, 0);
    if i < |s.queue| && s.tasks[s.queue[i]].job.Resume? {
      TakenIsOff(s, w, s.queue[i]);
    }
  }

  lemma BeginHeld(s: State, w: Worker)
    requires Base(s) && MoveEnabled(s, w, Begin)
    ensures var n := DoBegin(s, w); HeldOff(n.tasks, n.taskAt, n.on)
  {
    InHand(s, w);
    var n := DoBegin(s, w);
    forall id | 0 <= id < |n.tasks| && n.taskAt[id].Held? && n.tasks[id].job.Resume?
      ensures n.tasks[id].job.c < |n.on| && n.on[n.tasks[id].job.c] == -1
    {
      TaskToken(s, id);
    }
  }

  lemma CbOn(cors: seq<CorInfo>, on: seq<int>, cb: seq<int>, w: Worker, c: Cor, i: CorInfo)
    requires CbInv(cors, on, cb) && c < |cors|
    requires forall v :: 0 <= v < |cb| && cb[v] == c ==> v == w
    ensures CbInv(cors[c := i], on[c := w], cb)
  {
  }

  lemma CbNew(cors: seq<CorInfo>, on: seq<int>, cb: seq<int>, w: Worker, i: CorInfo)
    requires CbInv(cors, on, cb) && w < |cb|
    ensures CbInv(cors + [i], on + [w], cb[w := |cors|])
  {
  }

  lemma BeginCb(s: State, w: Worker)
    requires Base(s) && MoveEnabled(s, w, Begin)
    ensures var n := DoBegin(s, w); CbInv(n.cors, n.on, n.cb)
  {
    InHand(s, w);
    match s.tasks[s.pc[w].id].job
    case Resume(c) =>
      assert s.cors[c].mode == Code;
      CbOn(s.cors, s.on, s.cb, w, c, CorInfo(EXEC, Code));
    case Call(f) =>
      var i := CorInfo(EXEC, if f.Wake? then Waking(f.c) else Code);
      if s.cb[w] >= 0 {
        CbOn(s.cors, s.on, s.cb, w, s.cb[w], i);
      } else {
        CbNew(s.cors, s.on, s.cb, w, i);
      }
  }

  lemma CbOff(cors: seq<CorInfo>, on: seq<int>, cb: seq<int>, w: Worker, c: Cor, i: CorInfo)
    requires CbInv(cors, on, cb) && w < |cb| && c < |cors| && on[c] == w
    ensures cb[w] != c || i.mode == Blank ==> CbInv(cors[c := i], on[c := -1], cb)
    ensures CbInv(cors[c := i], on[c := -1], cb[w := -1])
  {
  }

  lemma SettleHeld(s: State, w: Worker)
    requires Shaped(s) && CorInv(s.cors, s.on, s.token, s.pc) && CbInv(s.cors, s.on, s.cb) && MoveEnabled(s, w, Settle)
    requires HeldOff(s.tasks, s.taskAt, s.on)
    ensures var n := DoSettle(s, w, s.pc[w].c); HeldOff(n.tasks, n.taskAt, n.on)
    ensures var n := DoSettle(s, w, s.pc[w].c); CbInv(n.cors, n.on, n.cb)
  {
    var c := s.pc[w].c;
    var n := DoSettle(s, w, c);
    assert HeldOff(s.tasks, s.taskAt, n.on);
    HeldPush(s.tasks, s.taskAt, n.on, Task(Resume(c), -1, -1));
    CbOff(s.cors, s.on, s.cb, w, c, n.cors[c]);
    assert s.cors[c := n.cors[c]] == n.cors;
  }

  lemma MoveHeld(s: State, w: Worker, m: Move)
    requires Base(s) && MoveEnabled(s, w, m)
    ensures var n := NextMove(s, w, m); HeldOff(n.tasks, n.taskAt, n.on) && CbInv(n.cors, n.on, n.cb)
  {
    match m
    case Take => TakeHeld(s, w);
    case Begin =>
      BeginHeld(s, w);
      BeginCb(s, w);
    case Settle => SettleHeld(s, w);
    case Post =>
      if s.pc[w].k < |s.pc[w].cbs| {
        HeldPush(s.tasks, s.taskAt, s.on, Task(Call(s.pc[w].cbs[s.pc[w].k]), -1, -1));
      }
    case YieldReady => CbChange(s.cors, s.on, s.cb, s.pc[w].c, CorInfo(READY, Code));
    case Finish(ok) => CbChange(s.cors, s.on, s.cb, s.pc[w].c, CorInfo(if ok then TERM else EXCEPTION, Code));
    case _ =>
  }
}
