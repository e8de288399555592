/**
 * One hooked I/O call, `do_io`: the calling coroutine, its condition timers, and whoever else may
 * wake it. System calls are inputs. Expiry takes a timer out of the set and queues its callback.
 * The callback then goes through three actions of its own: it tests `canceled`, sets it, and calls
 * `cancelEvent`. Anything may happen between these, and `epoll_ctl` may fail.
 */
module Hook {

  /** What the system call said. */
  datatype Sys = Result(n: int) | Interrupted | WouldBlock

  datatype Phase =
    | Trying              // at RETRY
    | Armed               // the timer is added, the event is not registered
    | Parked              // registered, until it is resumed
    | Returned(r: Answer)

  datatype Answer = Io(n: int) | TimedOut | CannotWait

  datatype State = State(
    phase: Phase,
    hasTimeout: bool,     // the descriptor has a timeout
    canceled: bool,       // tinfo->canceled
    timer: bool,          // this round's timer is in the set
    inflight: nat,        // callbacks of expired timers that have not started
    passed: nat,          // callbacks past the test of canceled
    cancels: nat,         // callbacks that have set canceled and not yet called cancelEvent
    registered: bool,     // the event bit of this park
    queued: nat,          // times the parked coroutine stands in the task queue
    parks: nat,           // parks so far, wakes so far, resumes so far (auxiliary)
    wakes: nat,
    resumes: nat,
    missed: bool)         // some cancelEvent of a timeout woke nobody (auxiliary)

  datatype Step =
    | Call(s: Sys)
    | Register(works: bool)   // addEvent, then YieldToHold
    | Resume                  // the scheduler takes the coroutine from the queue
    | Expire                  // the timer's deadline has passed
    | Callback                // an expired timer's callback tests canceled
    | SetCanceled             // and sets it
    | Cancel(works: bool)     // and calls cancelEvent
    | Wake(works: bool)       // readiness, close, or a timeout of another call

  predicate Enabled(s: State, a: Step) {
    match a
    case Call(_) => s.phase == Trying
    case Register(_) => s.phase == Armed
    case Resume => s.phase == Parked && s.queued > 0
    case Expire => s.timer
    case Callback => s.inflight > 0
    case SetCanceled => s.passed > 0
    case Cancel(_) => s.cancels > 0
    case Wake(_) => true
  }

  /** Whoever finds the bit set clears it and enqueues the coroutine; anybody else does nothing. */
  function Trigger(s: State): State {
    if s.registered then s.(registered := false, queued := s.queued + 1, wakes := s.wakes + 1) else s
  }

  /** The call has returned and no callback holds on to its `tinfo`. */
  predicate Forgotten(s: State) {
    s.phase.Returned? && s.passed == 0 && s.cancels == 0
  }

  function Next(s: State, a: Step): State
    requires Enabled(s, a)
  {
    match a
    case Call(Result(n)) => s.(phase := Returned(Io(n)))
    case Call(Interrupted) => s
    case Call(WouldBlock) => s.(phase := Armed, timer := s.hasTimeout)
    case Register(works) =>
      if works then s.(phase := Parked, registered := true, parks := s.parks + 1)
      else s.(phase := Returned(CannotWait), timer := false)
    case Resume =>
      s.(phase := if s.canceled then Returned(TimedOut) else Trying,
         queued := s.queued - 1, resumes := s.resumes + 1, timer := false)
    case Expire => s.(timer := false, inflight := s.inflight + 1)
    case Callback =>
      if s.canceled || Forgotten(s) then s.(inflight := s.inflight - 1)
      else s.(inflight := s.inflight - 1, passed := s.passed + 1)
    case SetCanceled => s.(passed := s.passed - 1, cancels := s.cancels + 1, canceled := true)
    case Cancel(works) =>
      var s1 := s.(cancels := s.cancels - 1);
      if works && s.registered then Trigger(s1) else s1.(missed := true)
    case Wake(works) => if works then Trigger(s) else s
  }

  function Start(hasTimeout: bool): State {
    State(Trying, hasTimeout, false, false, 0, 0, 0, false, 0, 0, 0, 0, false)
  }

  ghost predicate IsRun(s: State, acts: seq<Step>)
    decreases |acts|
  {
    acts == [] || (Enabled(s, acts[0]) && IsRun(Next(s, acts[0]), acts[1..]))
  }

  ghost function After(s: State, acts: seq<Step>): State
    requires IsRun(s, acts)
    decreases |acts|
  {
    if acts == [] then s else After(Next(s, acts[0]), acts[1..])
  }

  // ---- what every run keeps ----

  /** The call may still be waiting, or come to wait, for the event of this round. */
  predicate Unwoken(s: State) {
    s.phase == Trying || s.phase == Armed || (s.phase == Parked && s.registered)
  }

  ghost predicate Inv(s: State) {
    && (if s.phase == Parked then s.queued == (if s.registered then 0 else 1) else !s.registered && s.queued == 0)
    && s.parks == s.resumes + (if s.phase == Parked then 1 else 0)
    && s.wakes == s.resumes + s.queued
    && (s.timer ==> s.hasTimeout && (s.phase == Armed || s.phase == Parked))
    && (s.cancels > 0 ==> s.canceled)
    && (s.canceled && Unwoken(s) ==> s.cancels > 0 || s.missed)
    && (s.hasTimeout && (s.phase == Armed || s.phase == Parked) && !s.canceled ==>
         s.timer || s.inflight > 0 || s.passed > 0)
    && (s.phase == Returned(TimedOut) ==> s.canceled)
    && (!s.hasTimeout ==> s.inflight == 0 && s.passed == 0 && !s.canceled)
  }

  lemma CallKeeps(s: State, a: Step)
    requires Inv(s) && Enabled(s, a) && (a.Call? || a.Register? || a.Resume?)
    ensures Inv(Next(s, a)) && Next(s, a).hasTimeout == s.hasTimeout
  {
  }

  lemma TimerKeeps(s: State, a: Step)
    requires Inv(s) && Enabled(s, a) && (a.Expire? || a.Callback? || a.SetCanceled?)
    ensures Inv(Next(s, a)) && Next(s, a).hasTimeout == s.hasTimeout
  {
  }

  lemma WakeKeeps(s: State, a: Step)
    requires Inv(s) && Enabled(s, a) && (a.Cancel? || a.Wake?)
    ensures Inv(Next(s, a)) && Next(s, a).hasTimeout == s.hasTimeout
  {
  }

  lemma {:induction false} RunKeeps(s: State, acts: seq<Step>)
    requires Inv(s) && IsRun(s, acts)
    ensures Inv(After(s, acts)) && After(s, acts).hasTimeout == s.hasTimeout
    decreases |acts|
  {
    if acts != [] {
      var a := acts[0];
      if a.Call? || a.Register? || a.Resume? {
        CallKeeps(s, a);
      } else if a.Cancel? || a.Wake? {
        WakeKeeps(s, a);
      } else {
        TimerKeeps(s, a);
      }
      RunKeeps(Next(s, acts[0]), acts[1..]);
    }
  }

  /** A state that one hooked call can reach. */
  ghost predicate Reachable(s: State) {
    exists hasTimeout: bool, acts: seq<Step> :: IsRun(Start(hasTimeout), acts) && After(Start(hasTimeout), acts) == s
  }

  lemma ReachableInv(s: State)
    requires Reachable(s)
    ensures Inv(s)
  {
    var hasTimeout: bool, acts: seq<Step> :| IsRun(Start(hasTimeout), acts) && After(Start(hasTimeout), acts) == s;
    RunKeeps(Start(hasTimeout), acts);
  }

  /**
   * Over any number of RETRY rounds: every park is woken exactly once before the coroutine runs
   * again, by whoever came first, and no wake is left over.
   */
  lemma OneWakePerRound(s: State)
    requires Reachable(s)
    ensures s.wakes <= s.parks <= s.wakes + 1
    ensures s.wakes < s.parks <==> s.phase == Parked && s.registered
    ensures s.queued <= 1 && (s.queued == 1 <==> s.phase == Parked && !s.registered)
    ensures s.phase != Parked ==> s.parks == s.wakes == s.resumes
  {
    ReachableInv(s);
  }

  /** ETIMEDOUT is reported only after a timeout, and a descriptor without a timeout never reports it. */
  lemma TimeoutMeansTimeout(s: State)
    requires Reachable(s) && s.phase == Returned(TimedOut)
    ensures s.hasTimeout && s.canceled
  {
    ReachableInv(s);
  }

  // ---- which parked calls a timeout can still wake ----

  /** Nothing is on its way that would call `cancelEvent`, and nothing will set out to. */
  predicate TimeoutLost(s: State) {
    s.cancels == 0 && s.passed == 0 && (s.canceled || (s.inflight == 0 && !s.timer))
  }

  ghost predicate NobodyWakes(acts: seq<Step>) {
    forall i :: 0 <= i < |acts| ==> acts[i] != Wake(true)
  }

  /** Then only readiness or close wakes the call, in every run. */
  lemma {:induction false} LostForGood(s: State, acts: seq<Step>)
    requires s.phase == Parked && s.registered && s.queued == 0 && TimeoutLost(s)
    requires IsRun(s, acts) && NobodyWakes(acts)
    ensures After(s, acts).phase == Parked && After(s, acts).registered
    decreases |acts|
  {
    if acts != [] {
      assert acts[0] != Wake(true);
      LostForGood(Next(s, acts[0]), acts[1..]);
    }
  }

  /** A run of timer steps alone that wakes the call. */
  ghost predicate TimeoutCanWake(s: State) {
    exists acts: seq<Step> :: IsRun(s, acts) && NobodyWakes(acts) && !After(s, acts).registered
  }

  lemma WakesAfter(s: State, a: Step)
    requires Enabled(s, a) && a != Wake(true) && TimeoutCanWake(Next(s, a))
    ensures TimeoutCanWake(s)
  {
    var acts: seq<Step> :| IsRun(Next(s, a), acts) && NobodyWakes(acts) && !After(Next(s, a), acts).registered;
    var more := [a] + acts;
    assert more[1..] == acts && more[0] == a;
    assert forall i :: 0 < i < |more| ==> more[i] == acts[i - 1];
    assert IsRun(s, more) && After(s, more) == After(Next(s, a), acts);
  }

  lemma WokenNow(s: State)
    requires !s.registered
    ensures TimeoutCanWake(s)
  {
    assert IsRun(s, []) && After(s, []) == s && NobodyWakes([]);
  }

  lemma WakesFromCancel(s: State)
    requires s.registered && s.cancels > 0
    ensures TimeoutCanWake(s)
  {
    WokenNow(Next(s, Cancel(true)));
    WakesAfter(s, Cancel(true));
  }

  lemma WakesFromPassed(s: State)
    requires s.registered && s.passed > 0
    ensures TimeoutCanWake(s)
  {
    WakesFromCancel(Next(s, SetCanceled));
    WakesAfter(s, SetCanceled);
  }

  lemma WakesFromInflight(s: State)
    requires s.registered && s.phase == Parked && !s.canceled && s.inflight > 0
    ensures TimeoutCanWake(s)
  {
    WakesFromPassed(Next(s, Callback));
    WakesAfter(s, Callback);
  }

  /**
   * A timeout can still wake a parked call if and only if a callback is on its way to `cancelEvent`
   * or, as long as `canceled` is clear, a timer or its callback is still there.
   */
  lemma TimeoutWakes(s: State)
    requires Reachable(s) && s.phase == Parked && s.registered
    ensures TimeoutCanWake(s) <==> !TimeoutLost(s)
  {
    ReachableInv(s);
    if TimeoutLost(s) {
      forall acts | IsRun(s, acts) && NobodyWakes(acts)
        ensures After(s, acts).registered
      {
        LostForGood(s, acts);
      }
    } else if s.cancels > 0 {
      WakesFromCancel(s);
    } else if s.passed > 0 {
      WakesFromPassed(s);
    } else if s.inflight > 0 {
      WakesFromInflight(s);
    } else {
      WakesFromInflight(Next(s, Expire));
      WakesAfter(s, Expire);
    }
  }

  /** With a timeout configured, it is lost only after a `cancelEvent` that woke nobody. */
  lemma LostOnlyIfMissed(s: State)
    requires Reachable(s) && s.phase == Parked && s.registered && TimeoutLost(s)
    ensures s.hasTimeout ==> s.canceled && s.missed
  {
    ReachableInv(s);
  }

  // ---- how it gets lost ----

  lemma {:induction false} Extend(s: State, acts: seq<Step>, a: Step)
    requires IsRun(s, acts) && Enabled(After(s, acts), a)
    ensures IsRun(s, acts + [a]) && After(s, acts + [a]) == Next(After(s, acts), a)
    decreases |acts|
  {
    var more := acts + [a];
    if acts == [] {
      assert more[1..] == [];
    } else {
      assert more[1..] == acts[1..] + [a];
      Extend(Next(s, acts[0]), acts[1..], a);
    }
  }

  lemma ReachStep(s: State, a: Step, n: State)
    requires Reachable(s) && Enabled(s, a) && Next(s, a) == n
    ensures Reachable(n)
  {
    var hasTimeout: bool, acts: seq<Step> :| IsRun(Start(hasTimeout), acts) && After(Start(hasTimeout), acts) == s;
    Extend(Start(hasTimeout), acts, a);
  }

  /** In the first round: the timer is added, and its callback has gone some way before the event is registered. */
  function Round(phase: Phase, canceled: bool, timer: bool, inflight: nat, passed: nat, cancels: nat): State {
    State(phase, true, canceled, timer, inflight, passed, cancels, false, 0, 0, 0, 0, false)
  }

  lemma CallbackStarts()
    ensures Reachable(Round(Armed, false, false, 0, 1, 0))
  {
    assert IsRun(Start(true), []) && After(Start(true), []) == Round(Trying, false, false, 0, 0, 0);
    ReachStep(Round(Trying, false, false, 0, 0, 0), Call(WouldBlock), Round(Armed, false, true, 0, 0, 0));
    ReachStep(Round(Armed, false, true, 0, 0, 0), Expire, Round(Armed, false, false, 1, 0, 0));
    ReachStep(Round(Armed, false, false, 1, 0, 0), Callback, Round(Armed, false, false, 0, 1, 0));
  }

  lemma CancelPending()
    ensures Reachable(Round(Armed, true, false, 0, 0, 1))
  {
    CallbackStarts();
    ReachStep(Round(Armed, false, false, 0, 1, 0), SetCanceled, Round(Armed, true, false, 0, 0, 1));
  }

  lemma CancelPendingParked() returns (s: State)
    ensures Reachable(s) && s.phase == Parked && s.registered && s.queued == 0
    ensures s.cancels == 1 && s.passed == 0 && s.canceled
  {
    CancelPending();
    var s0 := Round(Armed, true, false, 0, 0, 1);
    s := Next(s0, Register(true));
    ReachStep(s0, Register(true), s);
  }

  /** Before the event is registered, the cancel finds nothing and the timeout is lost. */
  lemma EarlyTimeoutIsLost() returns (s: State)
    ensures Reachable(s) && s.phase == Parked && s.registered && TimeoutLost(s)
  {
    CancelPending();
    var s0 := Round(Armed, true, false, 0, 0, 1);
    var s1 := s0.(cancels := 0, missed := true);
    ReachStep(s0, Cancel(true), s1);
    s := Next(s1, Register(true));
    ReachStep(s1, Register(true), s);
  }

  /**
   * With the registration between setting `canceled` and the cancel, the same callback wakes the
   * call if `epoll_ctl` works, and otherwise the timeout is lost although the call was parked.
   */
  lemma LateCancel(works: bool) returns (s: State)
    ensures Reachable(s) && s.phase == Parked && (s.registered <==> !works)
    ensures if works then s.queued == 1 else TimeoutLost(s)
  {
    var s0 := CancelPendingParked();
    s := Next(s0, Cancel(works));
    ReachStep(s0, Cancel(works), s);
  }
}
