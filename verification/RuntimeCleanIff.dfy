/** When a shutdown is clean. */
module RuntimeCleanIff {
  import opened Runtime
  import opened RuntimeSetups
  import opened RuntimeShutdown
  import opened RuntimeUnclean

  /** The exact condition, which can be read off the program. */
  lemma CleanIff(c: Setup)
    requires c.Threads() > 0
    ensures AlwaysClean(c) <==> SafeSetup(c)
  {
    if SafeSetup(c) {
      forall s | Reached(c, s) && AllExited(s)
        ensures Clean(s)
      {
        CleanShutdown(c, s);
      }
    } else {
      var s: State;
      if c.io != Anywhere {
        s := ReadyLeavesWork(c);
      } else if c.Threads() >= 2 {
        s := ReadsLeaveEvent(c);
      } else {
        s := ReadsLeaveTimer(c);
      }
      assert !Clean(s);
    }
  }
}
