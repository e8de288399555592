/** What a program does with the runtime, the states its runs reach, and what a clean shutdown is. */
module RuntimeSetups {
  import opened Runtime

  /** Where events and timers may be added: nowhere, not between the reads of `stopping()`, or anywhere. */
  datatype Io = NoIo | OutsideReads | Anywhere

  /** The threads, whether coroutines may yield READY, and where events and timers are added. */
  datatype Setup = Setup(workers: nat, useCaller: bool, ready: bool, io: Io) {
    function Threads(): nat {
      workers + if useCaller then 1 else 0
    }

    function Start(): State {
      Initial(workers, useCaller)
    }
  }

  /** Some thread is between the reads of `stopping()`. */
  ghost predicate SomeReading(s: State) {
    exists w :: 0 <= w < |s.pc| && (s.pc[w].SawNoEvents? || s.pc[w].SawNoTimers?)
  }

  predicate Adds(op: Op) {
    op.Park? || op.Listen? || op.Sleep? || op.Arm?
  }

  ghost predicate StepObeys(c: Setup, s: State, a: Action) {
    && (a.Go? && a.move.YieldReady? ==> c.ready)
    && (a.Do? && Adds(a.op) ==> c.io == Anywhere || (c.io == OutsideReads && !SomeReading(s)))
  }

  ghost predicate Obeys(c: Setup, s: State, acts: seq<Action>)
    requires IsRun(s, acts)
    decreases |acts|
  {
    acts == [] || (StepObeys(c, s, acts[0]) && Obeys(c, Next(s, acts[0]), acts[1..]))
  }

  /** Some run of the setup leads to `s`. */
  ghost predicate Reached(c: Setup, s: State) {
    exists acts: seq<Action> :: IsRun(c.Start(), acts) && After(c.Start(), acts) == s && Obeys(c, c.Start(), acts)
  }

  predicate AllExited(s: State) {
    forall w :: 0 <= w < |s.pc| ==> s.pc[w] == Exited
  }

  /** A coroutine that will not run again, or that user code has kept. */
  predicate AtRest(s: State, c: Cor)
    requires c < |s.cors|
  {
    Over(s.cors[c].state) || s.cors[c] == CorInfo(INIT, Blank) || c in s.lent
  }

  /** Nothing is queued, registered, armed or running, and every coroutine is at rest. */
  ghost predicate Clean(s: State) {
    && s.queue == [] && s.regs == map[] && s.timers == map[] && s.active == 0
    && forall c :: 0 <= c < |s.cors| ==> AtRest(s, c)
  }

  /**
   * The setups whose shutdown is clean: the caller of `stop` is the only thread; or no event or timer
   * is added between the reads of `stopping()`, and there is one thread or no `YieldToReady`.
   */
  predicate SafeSetup(c: Setup) {
    c.workers == 0 || (c.io != Anywhere && (c.Threads() == 1 || !c.ready))
  }

  /** Every state in which all threads have left is clean. */
  ghost predicate AlwaysClean(c: Setup) {
    forall s :: Reached(c, s) && AllExited(s) ==> Clean(s)
  }
}
