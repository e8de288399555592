/** What a hooked call returns, told from the steps of its run alone. */
module HookAnswers {
  import opened Hook

  /** The steps of the calling coroutine itself. */
  predicate Own(a: Step) {
    a.Call? || a.Register? || a.Resume?
  }

  /** Where a step of the coroutine leaves the call; `canceled` is what it finds when it is resumed. */
  function Leaves(a: Step, canceled: bool): Phase
    requires Own(a)
  {
    match a
    case Call(Result(n)) => Returned(Io(n))
    case Call(Interrupted) => Trying
    case Call(WouldBlock) => Armed
    case Register(works) => if works then Parked else Returned(CannotWait)
    case Resume => if canceled then Returned(TimedOut) else Trying
  }

  /** Step `i` is the last one of the coroutine. */
  ghost predicate LastOwn(acts: seq<Step>, i: nat) {
    i < |acts| && Own(acts[i]) && forall j :: i < j < |acts| ==> !Own(acts[j])
  }

  ghost predicate NoOwn(acts: seq<Step>) {
    forall j :: 0 <= j < |acts| ==> !Own(acts[j])
  }

  /** Nobody but the coroutine moves the call on. */
  lemma {:induction false} OthersKeepPhase(s: State, acts: seq<Step>)
    requires IsRun(s, acts) && NoOwn(acts)
    ensures After(s, acts).phase == s.phase
    decreases |acts|
  {
    if acts != [] {
      assert !Own(acts[0]);
      OthersKeepPhase(Next(s, acts[0]), acts[1..]);
    }
  }

  /** `canceled` is set exactly when some callback has set it: nobody clears it. */
  lemma {:induction false} CanceledIff(s: State, acts: seq<Step>)
    requires IsRun(s, acts)
    ensures After(s, acts).canceled <==> s.canceled || SetCanceled in acts
    decreases |acts|
  {
    if acts != [] {
      CanceledIff(Next(s, acts[0]), acts[1..]);
      assert acts == [acts[0]] + acts[1..];
    }
  }

  lemma OwnStep(s: State, a: Step)
    requires Enabled(s, a) && Own(a)
    ensures Next(s, a).phase == Leaves(a, s.canceled)
  {
  }

  lemma CanceledStep(s: State, a: Step)
    requires Enabled(s, a)
    ensures Next(s, a).canceled <==> s.canceled || a == SetCanceled
  {
  }

  lemma SetInPrefix(acts: seq<Step>, i: nat)
    requires 0 < i <= |acts|
    ensures SetCanceled in acts[..i] <==> acts[0] == SetCanceled || SetCanceled in acts[1..][..i - 1]
  {
    assert acts[..i] == [acts[0]] + acts[1..][..i - 1];
  }

  /** After the last step of the coroutine the call stands where that step left it. */
  lemma {:induction false} LastDecides(s: State, acts: seq<Step>, i: nat)
    requires IsRun(s, acts) && LastOwn(acts, i)
    ensures After(s, acts).phase == Leaves(acts[i], s.canceled || SetCanceled in acts[..i])
    decreases |acts|
  {
    var n := Next(s, acts[0]);
    if i == 0 {
      OwnStep(s, acts[0]);
      OthersKeepPhase(n, acts[1..]);
    } else {
      LastDecides(n, acts[1..], i - 1);
      CanceledStep(s, acts[0]);
      SetInPrefix(acts, i);
    }
  }

  lemma {:induction false} FindLastOwn(acts: seq<Step>) returns (i: nat)
    ensures NoOwn(acts) || LastOwn(acts, i)
  {
    i := 0;
    if acts != [] {
      var last := |acts| - 1;
      if Own(acts[last]) {
        i := last;
      } else {
        i := FindLastOwn(acts[..last]);
        assert forall j :: 0 <= j < last ==> acts[j] == acts[..last][j];
      }
    }
  }

  /** The last step of the coroutine, if it is this one. */
  ghost predicate LastIs(acts: seq<Step>, a: Step) {
    exists i: nat :: LastOwn(acts, i) && acts[i] == a
  }

  /** The coroutine was resumed last, and some callback had set `canceled` before that. */
  ghost predicate ResumedCanceled(acts: seq<Step>) {
    exists i: nat :: LastOwn(acts, i) && acts[i] == Resume && SetCanceled in acts[..i]
  }

  lemma LastPhase(hasTimeout: bool, acts: seq<Step>)
    requires IsRun(Start(hasTimeout), acts)
    ensures forall i: nat :: LastOwn(acts, i) ==>
      After(Start(hasTimeout), acts).phase == Leaves(acts[i], SetCanceled in acts[..i])
    ensures NoOwn(acts) ==> After(Start(hasTimeout), acts).phase == Trying
    ensures NoOwn(acts) || exists i: nat :: LastOwn(acts, i)
  {
    var s := Start(hasTimeout);
    var k := FindLastOwn(acts);
    if LastOwn(acts, k) {
      LastDecides(s, acts, k);
      assert forall i: nat :: LastOwn(acts, i) ==> i == k;
    } else {
      OthersKeepPhase(s, acts);
    }
  }

  /**
   * In any run of a call: it has returned the n of its system call if and only if that call said n last;
   * ETIMEDOUT if and only if it was resumed last, after a timeout had set `canceled`; and -1 without
   * waiting if and only if its last step was a registration that failed.
   */
  lemma AnswerIff(hasTimeout: bool, acts: seq<Step>)
    requires IsRun(Start(hasTimeout), acts)
    ensures forall n ::
      After(Start(hasTimeout), acts).phase == Returned(Io(n)) <==> LastIs(acts, Call(Result(n)))
    ensures After(Start(hasTimeout), acts).phase == Returned(TimedOut) <==> ResumedCanceled(acts)
    ensures After(Start(hasTimeout), acts).phase == Returned(CannotWait) <==> LastIs(acts, Register(false))
  {
    LastPhase(hasTimeout, acts);
  }

  /** Otherwise it goes on: it tries again, is about to register, or is parked. */
  lemma GoesOn(hasTimeout: bool, acts: seq<Step>)
    requires IsRun(Start(hasTimeout), acts)
    ensures var p := After(Start(hasTimeout), acts).phase;
      && (p == Armed <==> LastIs(acts, Call(WouldBlock)))
      && (p == Parked <==> LastIs(acts, Register(true)))
    ensures After(Start(hasTimeout), acts).phase == Trying <==>
      NoOwn(acts) || LastIs(acts, Call(Interrupted)) || (LastIs(acts, Resume) && !ResumedCanceled(acts))
  {
    LastPhase(hasTimeout, acts);
  }

  /**
   * Once the call has returned and no callback holds its `tinfo`, timers of it that are still on their way
   * do nothing: none of them cancels an event of a later call.
   */
  lemma {:induction false} ForgottenForGood(s: State, acts: seq<Step>)
    requires Reachable(s) && Forgotten(s) && IsRun(s, acts)
    ensures Forgotten(After(s, acts))
    ensures forall a :: a in acts ==> !a.Cancel? && !a.SetCanceled?
    decreases |acts|
  {
    ReachableInv(s);
    if acts != [] {
      ReachStep(s, acts[0], Next(s, acts[0]));
      ForgottenForGood(Next(s, acts[0]), acts[1..]);
      assert acts == [acts[0]] + acts[1..];
    }
  }

  /** Readiness wakes a parked call, which then tries again unless a timeout has set `canceled` by then. */
  lemma ReadinessWakes(s: State)
    requires Reachable(s) && s.phase == Parked && s.registered
    ensures IsRun(s, [Wake(true), Resume])
    ensures After(s, [Wake(true), Resume]).phase == if s.canceled then Returned(TimedOut) else Trying
    ensures !After(s, [Wake(true), Resume]).timer
  {
    ReachableInv(s);
    var acts := [Wake(true), Resume];
    var n := Next(s, Wake(true));
    assert acts[1..] == [Resume] && acts[1..][1..] == [];
    assert IsRun(n, [Resume]) && After(n, [Resume]) == Next(n, Resume);
  }
}
