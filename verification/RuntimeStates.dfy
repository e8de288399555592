/** The state diagram of a coroutine. */
module RuntimeStates {
  import opened Runtime
  import opened RuntimeCors
  import opened RuntimeSafety
  import opened RuntimeTheorems

  /** The steps that change the state of a coroutine, and from what to what. */
  predicate Changes(before: CorState, after: CorState, m: Move, ownCallback: bool) {
    match after
    case EXEC => m.Begin? && (before == INIT || before == HOLD || before == READY)
    case HOLD => m.Settle? && before == EXEC
    case READY => m.YieldReady? && before == EXEC
    case TERM => m == Finish(true) && before == EXEC
    case EXCEPTION => m == Finish(false) && before == EXEC
    case INIT => m.Settle? && Over(before) && ownCallback
  }

  ghost predicate StateMoves(s: State, w: Worker, m: Move, n: State, c: Cor)
    requires c < |s.cors| && w < |s.cb|
  {
    && c < |n.cors|
    && (n.cors[c].state == s.cors[c].state || Changes(s.cors[c].state, n.cors[c].state, m, s.cb[w] == c))
  }

  lemma OpState(s: State, w: Worker, op: Op, c: Cor)
    requires Shaped(s) && OpEnabled(s, w, op) && c < |s.cors|
    ensures c < |NextOp(s, w, op).cors| && NextOp(s, w, op).cors[c].state == s.cors[c].state
  {
  }

  lemma BeginState(s: State, w: Worker, c: Cor)
    requires Inv(s) && MoveEnabled(s, w, Begin) && c < |s.cors|
    ensures StateMoves(s, w, Begin, DoBegin(s, w), c)
  {
    InHand(s, w);
  }

  lemma SettleState(s: State, w: Worker, c: Cor)
    requires Inv(s) && MoveEnabled(s, w, Settle) && c < |s.cors|
    ensures StateMoves(s, w, Settle, DoSettle(s, w, s.pc[w].c), c)
  {
    var k := s.pc[w].c;
    assert CorOk(s.cors[k], s.token[k] != NoToken, s.on[k], s.pc, k);
  }

  lemma OutState(s: State, w: Worker, m: Move, c: Cor)
    requires Inv(s) && MoveEnabled(s, w, m) && (m.YieldReady? || m.Finish?) && c < |s.cors|
    ensures StateMoves(s, w, m, NextMove(s, w, m), c)
  {
    var k := s.pc[w].c;
    assert CorOk(s.cors[k], s.token[k] != NoToken, s.on[k], s.pc, k);
  }

  lemma PlainState(s: State, w: Worker, m: Move)
    requires Shaped(s) && MoveEnabled(s, w, m) && !m.Begin? && !m.Settle? && !m.YieldReady? && !m.Finish?
    ensures NextMove(s, w, m).cors == s.cors
  {
  }

  /** The state of a coroutine changes only along these arrows, and only by these steps. */
  lemma StateDiagram(s: State, a: Action, c: Cor)
    requires Reachable(s) && Enabled(s, a) && c < |s.cors|
    ensures c < |Next(s, a).cors|
    ensures Next(s, a).cors[c].state == s.cors[c].state ||
      (a.Go? && a.w < |s.cb| && Changes(s.cors[c].state, Next(s, a).cors[c].state, a.move, s.cb[a.w] == c))
  {
    ReachableInv(s);
    match a
    case StopCall =>
    case Do(w, op) => OpState(s, w, op, c);
    case Go(w, Begin) => BeginState(s, w, c);
    case Go(w, Settle) => SettleState(s, w, c);
    case Go(w, m) =>
      if m.YieldReady? || m.Finish? {
        OutState(s, w, m, c);
      } else {
        PlainState(s, w, m);
      }
  }
}
