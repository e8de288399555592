/**
 * `IOManager`'s table of registered events: one context per descriptor, the pending count and the
 * epoll interest set. Each method is one critical section of the descriptor's lock.
 */
module EventTables {
  import opened Common

  /** The two bits of an event mask. */
  datatype Mask = Mask(read: bool, write: bool)

  const NONE := Mask(false, false)

  function Has(m: Mask, ev: Event): bool {
    if ev == READ then m.read else m.write
  }

  function SetBit(m: Mask, ev: Event, b: bool): Mask {
    if ev == READ then m.(read := b) else m.(write := b)
  }

  function Meet(m: Mask, n: Mask): Mask {
    Mask(m.read && n.read, m.write && n.write)
  }

  function Join(m: Mask, n: Mask): Mask {
    Mask(m.read || n.read, m.write || n.write)
  }

  function Minus(m: Mask, n: Mask): Mask {
    Mask(m.read && !n.read, m.write && !n.write)
  }

  function Bits(m: Mask): nat {
    (if m.read then 1 else 0) + (if m.write then 1 else 0)
  }

  /** What an event wakes up. */
  datatype Waiter = Coroutine(c: nat) | Callback(f: nat)

  /** A task handed to a scheduler. */
  datatype Post = Post(scheduler: nat, waiter: Waiter)

  datatype EventContext = EventContext(scheduler: Option<nat>, coroutine: Option<nat>, cb: Option<nat>)

  const EMPTY := EventContext(None, None, None)

  datatype FdContext = FdContext(fd: nat, events: Mask, readEvent: EventContext, writeEvent: EventContext)

  function GetEventContext(c: FdContext, ev: Event): EventContext {
    if ev == READ then c.readEvent else c.writeEvent
  }

  function SetEventContext(c: FdContext, ev: Event, e: EventContext): FdContext {
    if ev == READ then c.(readEvent := e) else c.(writeEvent := e)
  }

  // ---- the invariant ----

  /** A set bit has a scheduler and exactly one of callback and coroutine; a clear bit has nothing. */
  predicate SlotOk(bit: bool, e: EventContext) {
    if bit then e.scheduler.Some? && (e.cb.Some? <==> e.coroutine.None?) else e == EMPTY
  }

  predicate ContextOk(c: FdContext, fd: nat) {
    c.fd == fd && SlotOk(c.events.read, c.readEvent) && SlotOk(c.events.write, c.writeEvent)
  }

  /** Epoll watches the descriptor for exactly the registered events. */
  predicate Watched(epoll: map<nat, Mask>, fd: nat, m: Mask) {
    if m == NONE then fd !in epoll else fd in epoll && epoll[fd] == m
  }

  function TotalBits(cs: seq<FdContext>): nat {
    if cs == [] then 0 else Bits(cs[0].events) + TotalBits(cs[1..])
  }

  lemma {:induction false} TotalUpdate(cs: seq<FdContext>, i: nat, c: FdContext)
    requires i < |cs|
    ensures TotalBits(cs[i := c]) == TotalBits(cs) - Bits(cs[i].events) + Bits(c.events)
  {
    if i == 0 {
      assert cs[i := c][1..] == cs[1..];
    } else {
      assert cs[i := c][1..] == cs[1..][i - 1 := c];
      TotalUpdate(cs[1..], i - 1, c);
    }
  }

  lemma {:induction false} TotalAppend(cs: seq<FdContext>, c: FdContext)
    ensures TotalBits(cs + [c]) == TotalBits(cs) + Bits(c.events)
  {
    if cs == [] {
      assert cs + [c] == [c];
    } else {
      assert (cs + [c])[1..] == cs[1..] + [c];
      TotalAppend(cs[1..], c);
    }
  }

  /** The post a registered event will make. */
  function PostOf(e: EventContext): Post {
    Post(if e.scheduler.Some? then e.scheduler.value else 0,
         if e.cb.Some? then Callback(e.cb.value) else Coroutine(if e.coroutine.Some? then e.coroutine.value else 0))
  }

  /** What is registered for an event of a descriptor. */
  function Registered(cs: seq<FdContext>, fd: nat, ev: Event): Option<Post> {
    if fd < |cs| && Has(cs[fd].events, ev) then Some(PostOf(GetEventContext(cs[fd], ev))) else None
  }

  /** Every other registration is as before. */
  ghost predicate OthersKept(before: seq<FdContext>, after: seq<FdContext>, fd: nat, ev: Event) {
    forall d: nat, e: Event :: d != fd || e != ev ==> Registered(after, d, e) == Registered(before, d, e)
  }

  ghost predicate AllKept(before: seq<FdContext>, after: seq<FdContext>) {
    forall d: nat, e: Event :: Registered(after, d, e) == Registered(before, d, e)
  }

  function Other(ev: Event): Event {
    if ev == READ then WRITE else READ
  }

  datatype EpollOp = ADD | MOD | DEL

  /** `triggerEvent` on one context: the bit goes, the waiter is swapped out, the scheduler cleared. */
  function Triggered(c: FdContext, ev: Event): FdContext {
    SetEventContext(c.(events := SetBit(c.events, ev, false)), ev, EMPTY)
  }

  datatype Outcome = Done | Failed | Aborted

  /** The three shadows agree: contexts, pending count and epoll's interest set. */
  ghost predicate TableOk(cs: seq<FdContext>, pending: int, epoll: map<nat, Mask>) {
    && |cs| >= 256
    && pending == TotalBits(cs)
    && (forall fd :: 0 <= fd < |cs| ==> ContextOk(cs[fd], fd) && Watched(epoll, fd, cs[fd].events))
    && (forall fd :: fd in epoll ==> 0 <= fd < |cs|)
  }

  /** Epoll's interest set after the call that goes with a new mask. */
  function Rewatched(epoll: map<nat, Mask>, fd: nat, m: Mask): map<nat, Mask> {
    if m == NONE then epoll - {fd} else epoll[fd := m]
  }

  lemma Replace(cs: seq<FdContext>, pending: int, epoll: map<nat, Mask>, fd: nat, c: FdContext)
    requires TableOk(cs, pending, epoll) && fd < |cs| && ContextOk(c, fd)
    ensures TableOk(cs[fd := c], pending - Bits(cs[fd].events) + Bits(c.events), Rewatched(epoll, fd, c.events))
  {
    TotalUpdate(cs, fd, c);
  }

  /** Replacing the contexts of one descriptor changes what is registered for it alone. */
  lemma ReplaceKeeps(cs: seq<FdContext>, fd: nat, c: FdContext)
    requires fd < |cs|
    ensures forall d: nat, e: Event :: d != fd ==> Registered(cs[fd := c], d, e) == Registered(cs, d, e)
    ensures forall e: Event :: Registered(cs[fd := c], fd, e) == Registered([c], 0, e)
  {
  }

  lemma {:induction false} TotalSplit(cs: seq<FdContext>, n: nat)
    requires n <= |cs|
    ensures TotalBits(cs) == TotalBits(cs[..n]) + TotalBits(cs[n..])
  {
    if n > 0 {
      TotalSplit(cs[1..], n - 1);
      assert cs[..n][1..] == cs[1..][..n - 1];
      assert cs[n..] == cs[1..][n - 1..];
    } else {
      assert cs[n..] == cs;
    }
  }

  lemma {:induction false} NoBits(cs: seq<FdContext>)
    ensures TotalBits(cs) == 0 <==> forall fd :: 0 <= fd < |cs| ==> cs[fd].events == NONE
  {
    if cs != [] {
      NoBits(cs[1..]);
      assert forall fd :: 0 < fd < |cs| ==> cs[fd] == cs[1..][fd - 1];
    }
  }

  /** What a shrink loses: a racing grow to `n` keeps the table exactly if nothing beyond it is registered. */
  lemma ShrinkKeepsIff(cs: seq<FdContext>, pending: int, epoll: map<nat, Mask>, n: nat)
    requires TableOk(cs, pending, epoll) && 256 <= n <= |cs|
    ensures TableOk(cs[..n], pending, epoll) <==> forall fd :: n <= fd < |cs| ==> cs[fd].events == NONE
  {
    TotalSplit(cs, n);
    NoBits(cs[n..]);
    assert forall fd :: n <= fd < |cs| ==> cs[fd] == cs[n..][fd - n];
    if forall fd :: n <= fd < |cs| ==> cs[fd].events == NONE {
      assert forall k :: 0 <= k < |cs[n..]| ==> cs[n..][k] == cs[n + k];
      forall fd | fd in epoll
        ensures fd < n
      {
        assert Watched(epoll, fd, cs[fd].events);
      }
    }
  }

  class EventTable {
    var contexts: seq<FdContext>
    var pending: int
    var epoll: map<nat, Mask>
    var posted: seq<Post>

    /** What holds whenever no descriptor lock is held. */
    ghost predicate Valid()
      reads this
    {
      TableOk(contexts, pending, epoll)
    }

    constructor ()
      ensures Valid() && posted == [] && pending == 0 && |contexts| == 256
      ensures forall fd: nat, ev: Event :: Registered(contexts, fd, ev) == None
    {
      contexts := [];
      pending := 0;
      epoll := map[];
      posted := [];
      new;
      ContextResize(256);
    }

    /**
     * `contextResize`: contexts beyond `size` are dropped, fresh ones are numbered by position. The
     * table still agrees with its shadows exactly if no dropped context had an event.
     */
    method ContextResize(size: nat)
      requires forall fd :: 0 <= fd < |contexts| ==> ContextOk(contexts[fd], fd)
      modifies this`contexts
      ensures |contexts| == size && forall fd :: 0 <= fd < size ==> ContextOk(contexts[fd], fd)
      ensures forall d: nat, e: Event :: d < size ==> Registered(contexts, d, e) == Registered(old(contexts), d, e)
      ensures size >= |old(contexts)| ==> TotalBits(contexts) == TotalBits(old(contexts))
      ensures size >= |old(contexts)| ==> AllKept(old(contexts), contexts) && old(contexts) <= contexts
      ensures size <= |old(contexts)| ==> contexts == old(contexts)[..size]
      ensures forall fd :: 0 <= fd < size ==>
        contexts[fd].events == if fd < |old(contexts)| then old(contexts)[fd].events else NONE
    {
      if |contexts| > size {
        contexts := contexts[..size];
      }
      while |contexts| < size
        invariant |contexts| <= size
        invariant if size >= |old(contexts)| then old(contexts) <= contexts else contexts == old(contexts)[..size]
        invariant size >= |old(contexts)| ==> TotalBits(contexts) == TotalBits(old(contexts))
        invariant forall fd :: 0 <= fd < |contexts| ==> ContextOk(contexts[fd], fd)
        invariant forall fd :: |old(contexts)| <= fd < |contexts| ==> contexts[fd].events == NONE
        decreases size - |contexts|
      {
        TotalAppend(contexts, FdContext(|contexts|, NONE, EMPTY, EMPTY));
        contexts := contexts + [FdContext(|contexts|, NONE, EMPTY, EMPTY)];
      }
    }

    /**
     * The `epoll_ctl` call, which may fail. ADD needs a descriptor that is not watched, MOD and
     * DEL one that is.
     */
    method EpollCtl(op: EpollOp, fd: nat, m: Mask, works: bool) returns (ret: int)
      requires op == ADD <==> fd !in epoll
      modifies this`epoll
      ensures ret < 0 <==> !works
      ensures epoll == if !works then old(epoll) else if op == DEL then old(epoll) - {fd} else old(epoll)[fd := m]
    {
      if !works {
        return -1;
      }
      epoll := if op == DEL then epoll - {fd} else epoll[fd := m];
      ret := 0;
    }

    /** The descriptor's context, after growing the table if it is not there. */
    method Context(fd: nat) returns (c: FdContext)
      requires Valid()
      modifies this`contexts
      ensures Valid() && fd < |contexts| && c == contexts[fd] && AllKept(old(contexts), contexts)
      ensures |contexts| == if fd < |old(contexts)| then |old(contexts)| else fd * 3 / 2
      ensures old(contexts) <= contexts && forall d :: |old(contexts)| <= d < |contexts| ==> contexts[d].events == NONE
    {
      if |contexts| <= fd {
        ContextResize(fd * 3 / 2);
      }
      c := contexts[fd];
    }

    /**
     * `addEvent` under scheduler `me`, for the callback or else for the running coroutine. It aborts
     * exactly when the event is already registered.
     */
    method AddEvent(fd: nat, ev: Event, cb: Option<nat>, me: nat, running: nat, works: bool) returns (r: Outcome)
      requires Valid()
      modifies this
      ensures Valid() && posted == old(posted)
      ensures r == Aborted <==> Registered(old(contexts), fd, ev).Some?
      ensures r == Failed <==> Registered(old(contexts), fd, ev).None? && !works
      ensures r == Done ==> pending == old(pending) + 1 && OthersKept(old(contexts), contexts, fd, ev)
      ensures r == Done ==>
        Registered(contexts, fd, ev) == Some(Post(me, if cb.Some? then Callback(cb.value) else Coroutine(running)))
      ensures r != Done ==> pending == old(pending) && AllKept(old(contexts), contexts)
    {
      var c := Context(fd);
      assert Registered(contexts, fd, ev) == Registered(old(contexts), fd, ev);
      var c';
      r, c' := AddToContext(c, ev, cb, me, running, works);
      Replace(contexts, pending - (if r == Done then 1 else 0), old(epoll), fd, c');
      ReplaceKeeps(contexts, fd, c');
      contexts := contexts[fd := c'];
    }

    /**
     * The part of `addEvent` under the lock of the context it was handed. The context may have been
     * dropped from the table since.
     */
    method AddToContext(c: FdContext, ev: Event, cb: Option<nat>, me: nat, running: nat, works: bool)
      returns (r: Outcome, after: FdContext)
      requires ContextOk(c, c.fd) && (c.events == NONE <==> c.fd !in epoll)
      modifies this`pending, this`epoll
      ensures r == if Has(c.events, ev) then Aborted else if works then Done else Failed
      ensures r == Done ==> after.events == SetBit(c.events, ev, true) && after.fd == c.fd && ContextOk(after, c.fd)
      ensures r == Done ==> GetEventContext(after, Other(ev)) == GetEventContext(c, Other(ev))
      ensures r == Done ==>
        PostOf(GetEventContext(after, ev)) == Post(me, if cb.Some? then Callback(cb.value) else Coroutine(running))
      ensures r == Done ==> pending == old(pending) + 1 && epoll == old(epoll)[c.fd := after.events]
      ensures r != Done ==> after == c && pending == old(pending) && epoll == old(epoll)
    {
      after := c;
      if Has(c.events, ev) {
        return Aborted, after;
      }
      var ret := EpollCtl(if c.events != NONE then MOD else ADD, c.fd, SetBit(c.events, ev, true), works);
      if ret < 0 {
        return Failed, after;
      }
      pending := pending + 1;
      assert GetEventContext(c, ev) == EMPTY;
      var e := EventContext(Some(me), if cb.Some? then None else Some(running), cb);
      after := SetEventContext(c.(events := SetBit(c.events, ev, true)), ev, e);
      r := Done;
    }

    /** `delEvent`: the registration goes and nobody is woken. */
    method DelEvent(fd: nat, ev: Event, works: bool) returns (r: bool)
      requires Valid()
      modifies this
      ensures Valid() && posted == old(posted)
      ensures r <==> Registered(old(contexts), fd, ev).Some? && works
      ensures r ==> pending == old(pending) - 1 && Registered(contexts, fd, ev) == None
      ensures r ==> OthersKept(old(contexts), contexts, fd, ev)
      ensures !r ==> pending == old(pending) && contexts == old(contexts)
    {
      if |contexts| <= fd {
        return false;
      }
      var c := contexts[fd];
      if !Has(c.events, ev) {
        return false;
      }
      var left := SetBit(c.events, ev, false);
      var c' := SetEventContext(c.(events := left), ev, EMPTY);
      Replace(contexts, pending, epoll, fd, c');
      ReplaceKeeps(contexts, fd, c');
      var ret := EpollCtl(if left != NONE then MOD else DEL, fd, left, works);
      if ret < 0 {
        return false;
      }
      pending := pending - 1;
      contexts := contexts[fd := c'];
      r := true;
    }

    /**
     * `triggerEvent`: hand the waiter to its scheduler, and count one event less. The caller holds
     * the lock and has already told epoll. Fails its assertion exactly when the bit is clear.
     */
    method TriggerEvent(fd: nat, ev: Event) returns (ok: bool)
      requires fd < |contexts| && ContextOk(contexts[fd], fd)
      modifies this`contexts, this`pending, this`posted
      ensures ok <==> Has(old(contexts)[fd].events, ev)
      ensures contexts == if ok then old(contexts)[fd := Triggered(old(contexts)[fd], ev)] else old(contexts)
      ensures posted == if ok then old(posted) + [PostOf(GetEventContext(old(contexts)[fd], ev))] else old(posted)
      ensures pending == if ok then old(pending) - 1 else old(pending)
    {
      var c := contexts[fd];
      if !Has(c.events, ev) {
        return false;
      }
      var e := GetEventContext(c, ev);
      assert e.cb.Some? || e.coroutine.Some?;
      if e.cb.Some? {
        posted := posted + [Post(e.scheduler.value, Callback(e.cb.value))];
        e := e.(cb := None);
      } else if e.coroutine.Some? {
        posted := posted + [Post(e.scheduler.value, Coroutine(e.coroutine.value))];
        e := e.(coroutine := None);
      }
      e := e.(scheduler := None);
      contexts := contexts[fd := SetEventContext(c.(events := SetBit(c.events, ev, false)), ev, e)];
      pending := pending - 1;
      ok := true;
    }

    /** `cancelEvent`: the waiter is woken if and only if the event was still registered. */
    method CancelEvent(fd: nat, ev: Event, works: bool) returns (r: bool)
      requires Valid()
      modifies this
      ensures Valid() && |contexts| == |old(contexts)|
      ensures r <==> Registered(old(contexts), fd, ev).Some? && works
      ensures r ==> posted == old(posted) + [Registered(old(contexts), fd, ev).value]
      ensures r ==> pending == old(pending) - 1 && Registered(contexts, fd, ev) == None
      ensures r ==> OthersKept(old(contexts), contexts, fd, ev)
      ensures !r ==> pending == old(pending) && contexts == old(contexts) && posted == old(posted)
    {
      if |contexts| <= fd {
        return false;
      }
      var c := contexts[fd];
      if !Has(c.events, ev) {
        return false;
      }
      var left := SetBit(c.events, ev, false);
      Replace(contexts, pending, epoll, fd, Triggered(c, ev));
      ReplaceKeeps(contexts, fd, Triggered(c, ev));
      var ret := EpollCtl(if left != NONE then MOD else DEL, fd, left, works);
      if ret < 0 {
        return false;
      }
      r := TriggerEvent(fd, ev);
    }

    /** Wake the events in `m`, READ first; stops at the first that is not registered. */
    method TriggerMask(fd: nat, m: Mask) returns (ok: bool)
      requires fd < |contexts| && ContextOk(contexts[fd], fd)
      modifies this`contexts, this`pending, this`posted
      ensures ok <==> Minus(m, old(contexts)[fd].events) == NONE
      ensures ok ==> contexts == old(contexts)[fd := TriggeredMask(old(contexts)[fd], m)]
      ensures ok ==> posted == old(posted) + PostsOf(old(contexts)[fd], m) && pending == old(pending) - Bits(m)
    {
      ok := true;
      if m.read {
        ok := TriggerEvent(fd, READ);
      }
      if ok && m.write {
        ok := TriggerEvent(fd, WRITE);
      }
    }

    /** `cancelAll`: both events of the descriptor. The last assertion always holds. */
    method CancelAll(fd: nat, works: bool) returns (r: bool)
      requires Valid()
      modifies this
      ensures Valid() && |contexts| == |old(contexts)|
      ensures r <==> works && fd < |old(contexts)| && old(contexts)[fd].events != NONE
      ensures r ==> posted == old(posted) + PostsOf(old(contexts)[fd], old(contexts)[fd].events)
      ensures r ==> pending == old(pending) - Bits(old(contexts)[fd].events)
      ensures r ==> forall d: nat, e: Event ::
        Registered(contexts, d, e) == if d == fd then None else Registered(old(contexts), d, e)
      ensures !r ==> pending == old(pending) && contexts == old(contexts) && posted == old(posted)
    {
      if |contexts| <= fd {
        return false;
      }
      var c := contexts[fd];
      if c.events == NONE {
        return false;
      }
      var c' := TriggeredMask(c, c.events);
      Replace(contexts, pending, epoll, fd, c');
      ReplaceKeeps(contexts, fd, c');
      var ret := EpollCtl(DEL, fd, NONE, works);
      if ret < 0 {
        return false;
      }
      r := TriggerMask(fd, c.events);
      assert contexts[fd].events == NONE;
    }

    /**
     * One ready descriptor in `idle`: `ready` is what epoll reported, `err` its error or hang-up
     * bits. The assertion in `triggerEvent` fails exactly when only some of the reported events are
     * still registered.
     */
    method HandleReady(fd: nat, ready: Mask, err: bool, works: bool) returns (r: Outcome)
      requires Valid() && fd < |contexts|
      modifies this
      ensures r == Aborted <==> works && Partial(Real(ready, err, old(contexts)[fd].events), old(contexts)[fd].events)
      ensures r != Aborted ==> Valid() && |contexts| == |old(contexts)|
      ensures r == Done <==> works && Whole(Real(ready, err, old(contexts)[fd].events), old(contexts)[fd].events)
      ensures r == Done ==>
        posted == old(posted) + PostsOf(old(contexts)[fd], Real(ready, err, old(contexts)[fd].events))
      ensures r == Done ==> forall d: nat, e: Event ::
        Registered(contexts, d, e)
        == if d == fd && Has(Real(ready, err, old(contexts)[fd].events), e) then None
           else Registered(old(contexts), d, e)
      ensures r == Failed ==> pending == old(pending) && contexts == old(contexts) && posted == old(posted)
    {
      var c := contexts[fd];
      var due := Real(ready, err, c.events);
      if Meet(c.events, due) == NONE {
        return Failed;
      }
      var left := Minus(c.events, due);
      var c' := TriggeredMask(c, due);
      if Minus(due, c.events) == NONE {
        Replace(contexts, pending, epoll, fd, c');
        ReplaceKeeps(contexts, fd, c');
      }
      var ret := EpollCtl(if left != NONE then MOD else DEL, fd, left, works);
      if ret < 0 {
        return Failed;
      }
      var ok := TriggerMask(fd, due);
      r := if ok then Done else Aborted;
    }
  }

  // ---- several events at once ----

  /** An error or a hang-up counts as readiness for whatever is registered. */
  function Real(ready: Mask, err: bool, events: Mask): Mask {
    if err then Join(ready, events) else ready
  }

  predicate Partial(due: Mask, events: Mask) {
    Meet(events, due) != NONE && Minus(due, events) != NONE
  }

  predicate Whole(due: Mask, events: Mask) {
    Meet(events, due) != NONE && Minus(due, events) == NONE
  }

  /**
   * What `idle` does with a report if epoll_ctl works, event by event: it does something if one of the
   * registered events was reported or there was an error, and then it aborts if an event was reported
   * that is not registered.
   */
  lemma ReportIff(ready: Mask, err: bool, events: Mask)
    ensures var some := exists e :: Has(events, e) && (err || Has(ready, e));
      var stray := exists e :: Has(ready, e) && !Has(events, e);
      && (Partial(Real(ready, err, events), events) <==> some && stray)
      && (Whole(Real(ready, err, events), events) <==> some && !stray)
    ensures Whole(Real(ready, err, events), events) ==>
      forall e :: Has(Real(ready, err, events), e) <==> Has(events, e) && (err || Has(ready, e))
  {
    assert Has(ready, READ) == ready.read && Has(ready, WRITE) == ready.write;
    assert Has(events, READ) == events.read && Has(events, WRITE) == events.write;
  }

  function TriggeredMask(c: FdContext, m: Mask): FdContext {
    var c1 := if m.read then Triggered(c, READ) else c;
    if m.write then Triggered(c1, WRITE) else c1
  }

  function PostsOf(c: FdContext, m: Mask): seq<Post> {
    (if m.read then [PostOf(c.readEvent)] else []) + (if m.write then [PostOf(c.writeEvent)] else [])
  }

  // ---- a grow that lost a race ----

  /** A call of `addEvent`: for which event, and what it wakes. */
  datatype Add = Add(fd: nat, ev: Event, cb: Option<nat>, me: nat, running: nat)

  /** How many of the first `k` calls were handed a context that is not in a table of `size`. */
  function Late(adds: seq<Add>, size: nat, k: nat): nat
    requires k <= |adds|
  {
    if k == 0 then 0 else Late(adds, size, k - 1) + if adds[k - 1].fd >= size then 1 else 0
  }

  lemma {:induction false} LateNone(adds: seq<Add>, size: nat, k: nat)
    requires k <= |adds|
    ensures Late(adds, size, k) == 0 <==> forall i :: 0 <= i < k ==> adds[i].fd < size
  {
    if k > 0 {
      LateNone(adds, size, k - 1);
    }
  }

  /** The bits in contexts beyond `size`. */
  function BitsBeyond(cs: seq<FdContext>, size: nat): nat {
    if size < |cs| then TotalBits(cs[size..]) else 0
  }

  ghost predicate NoneBeyond(cs: seq<FdContext>, size: nat) {
    forall fd :: size <= fd < |cs| ==> cs[fd].events == NONE
  }

  lemma BeyondIff(cs: seq<FdContext>, size: nat)
    ensures BitsBeyond(cs, size) == 0 <==> NoneBeyond(cs, size)
  {
    if size < |cs| {
      NoBits(cs[size..]);
      assert forall fd :: size <= fd < |cs| ==> cs[fd] == cs[size..][fd - size];
      assert forall k :: 0 <= k < |cs| - size ==> cs[size..][k] == cs[size + k];
    }
  }

  /** Different descriptors, all in the table `cs`, and none of the events registered. */
  ghost predicate Addable(cs: seq<FdContext>, adds: seq<Add>) {
    && (forall i :: 0 <= i < |adds| ==> adds[i].fd < |cs| && !Has(cs[adds[i].fd].events, adds[i].ev))
    && (forall i, j :: 0 <= i < j < |adds| ==> adds[i].fd != adds[j].fd)
  }

  /**
   * The table was resized from `before` to `size` while the calls `adds` held their contexts, and the
   * first `k` of them have registered since.
   */
  ghost predicate Resized(before: seq<FdContext>, adds: seq<Add>, size: nat, k: nat,
                          cs: seq<FdContext>, pending: int, epoll: map<nat, Mask>)
  {
    && k <= |adds| && |cs| == size && pending == TotalBits(cs) + BitsBeyond(before, size) + Late(adds, size, k)
    && (forall fd :: 0 <= fd < |cs| ==> ContextOk(cs[fd], fd) && Watched(epoll, fd, cs[fd].events))
    && (forall i :: k <= i < |adds| ==> adds[i].fd < |before| && ContextOk(before[adds[i].fd], adds[i].fd))
    && (forall i :: k <= i < |adds| ==> Watched(epoll, adds[i].fd, before[adds[i].fd].events))
    && (forall i :: k <= i < |adds| && adds[i].fd < size ==> cs[adds[i].fd] == before[adds[i].fd])
    && (Late(adds, size, k) == 0 && NoneBeyond(before, size) ==> forall fd :: fd in epoll ==> 0 <= fd < size)
  }

  /** The next call registers in the table. */
  lemma AddInTable(before: seq<FdContext>, adds: seq<Add>, size: nat, k: nat,
                   cs: seq<FdContext>, pending: int, epoll: map<nat, Mask>, c: FdContext)
    requires Resized(before, adds, size, k, cs, pending, epoll) && Addable(before, adds) && k < |adds|
    requires adds[k].fd < size && ContextOk(c, adds[k].fd)
    requires c.events == SetBit(before[adds[k].fd].events, adds[k].ev, true)
    ensures Resized(before, adds, size, k + 1, cs[adds[k].fd := c], pending + 1, epoll[adds[k].fd := c.events])
  {
    TotalUpdate(cs, adds[k].fd, c);
  }

  /** The next call registers on a context that was dropped. */
  lemma AddDropped(before: seq<FdContext>, adds: seq<Add>, size: nat, k: nat,
                   cs: seq<FdContext>, pending: int, epoll: map<nat, Mask>, m: Mask)
    requires Resized(before, adds, size, k, cs, pending, epoll) && Addable(before, adds) && k < |adds|
    requires adds[k].fd >= size
    ensures Resized(before, adds, size, k + 1, cs, pending + 1, epoll[adds[k].fd := m])
  {
  }

  /**
   * Any number of `addEvent` calls have been handed their contexts when a grow that lost a race sets
   * the size of the table; then they register. The table agrees with its shadows afterwards if and
   * only if no event was registered beyond the new size and no call held a context beyond it.
   */
  method AddEventsRaced(t: EventTable, adds: seq<Add>, size: nat)
    requires t.Valid() && size >= 256
    requires forall i :: 0 <= i < |adds| ==> Registered(t.contexts, adds[i].fd, adds[i].ev).None?
    requires forall i, j :: 0 <= i < j < |adds| ==> adds[i].fd != adds[j].fd
    modifies t
    ensures |t.contexts| == size
    ensures t.Valid() <==> NoneBeyond(old(t.contexts), size) && forall i :: 0 <= i < |adds| ==> adds[i].fd < size
  {
    for i := 0 to |adds|
      invariant t.Valid() && AllKept(old(t.contexts), t.contexts) && old(t.contexts) <= t.contexts
      invariant forall d :: |old(t.contexts)| <= d < |t.contexts| ==> t.contexts[d].events == NONE
      invariant forall j :: 0 <= j < i ==> adds[j].fd < |t.contexts|
    {
      var _ := t.Context(adds[i].fd);
    }
    var before := t.contexts;
    assert forall i :: 0 <= i < |adds| ==>
      Registered(before, adds[i].fd, adds[i].ev) == Registered(old(t.contexts), adds[i].fd, adds[i].ev);
    t.ContextResize(size);
    AfterResize(before, adds, size, t.contexts, t.pending, t.epoll);
    for k := 0 to |adds|
      invariant Resized(before, adds, size, k, t.contexts, t.pending, t.epoll)
    {
      RegisterRaced(t, before, adds, size, k);
    }
    ResizedIff(before, adds, size, t.contexts, t.pending, t.epoll);
    assert NoneBeyond(old(t.contexts), size) <==> NoneBeyond(before, size);
  }

  lemma AfterResize(before: seq<FdContext>, adds: seq<Add>, size: nat,
                    cs: seq<FdContext>, pending: int, epoll: map<nat, Mask>)
    requires TableOk(before, pending, epoll) && Addable(before, adds) && |cs| == size
    requires size >= |before| ==> before <= cs && TotalBits(cs) == TotalBits(before)
    requires size <= |before| ==> cs == before[..size]
    requires forall fd :: 0 <= fd < size ==> ContextOk(cs[fd], fd)
    requires forall fd :: |before| <= fd < size ==> cs[fd].events == NONE
    ensures Resized(before, adds, size, 0, cs, pending, epoll)
  {
    if size < |before| {
      TotalSplit(before, size);
    }
    forall fd | 0 <= fd < size
      ensures Watched(epoll, fd, cs[fd].events)
    {
      assert fd < |before| ==> cs[fd] == before[fd];
    }
    if NoneBeyond(before, size) {
      forall fd | fd in epoll
        ensures fd < size
      {
        assert Watched(epoll, fd, before[fd].events);
      }
    }
  }

  /** Call `k` registers on the context it was handed. */
  method RegisterRaced(t: EventTable, before: seq<FdContext>, adds: seq<Add>, size: nat, k: nat)
    requires k < |adds| && Addable(before, adds)
    requires Resized(before, adds, size, k, t.contexts, t.pending, t.epoll)
    modifies t
    ensures Resized(before, adds, size, k + 1, t.contexts, t.pending, t.epoll)
  {
    var a := adds[k];
    ghost var cs, pending, epoll := t.contexts, t.pending, t.epoll;
    var r, c := t.AddToContext(before[a.fd], a.ev, a.cb, a.me, a.running, true);
    if a.fd < |t.contexts| {
      AddInTable(before, adds, size, k, cs, pending, epoll, c);
      t.contexts := t.contexts[a.fd := c];
    } else {
      AddDropped(before, adds, size, k, cs, pending, epoll, c.events);
    }
  }

  lemma ResizedIff(before: seq<FdContext>, adds: seq<Add>, size: nat,
                   cs: seq<FdContext>, pending: int, epoll: map<nat, Mask>)
    requires size >= 256 && Resized(before, adds, size, |adds|, cs, pending, epoll)
    ensures TableOk(cs, pending, epoll) <==>
      NoneBeyond(before, size) && forall i :: 0 <= i < |adds| ==> adds[i].fd < size
  {
    BeyondIff(before, size);
    LateNone(adds, size, |adds|);
  }

  /** It happens: a context is handed out for descriptor 1000 of a grown table, which then shrinks to 450. */
  method RacedGrowLosesEvent() returns (t: EventTable)
    ensures fresh(t) && !t.Valid()
  {
    t := new EventTable();
    var add := Add(1000, READ, None, 0, 0);
    assert Registered(t.contexts, add.fd, add.ev) == None;
    AddEventsRaced(t, [add], 450);
    assert [add][0].fd >= 450;
  }

  // ---- who wakes the waiter ----

  /**
   * Someone who tries to wake the waiters of a descriptor, and whether epoll_ctl works for them.
   * Readiness carries what epoll reported and whether there was an error or a hang-up.
   */
  datatype Attempt =
    | Timeout(ev: Event, works: bool)
    | Readiness(ready: Mask, err: bool, works: bool)
    | Close(works: bool)

  /** The attempt succeeds if it finds the event registered. */
  predicate Covers(a: Attempt, e: Event) {
    a.works &&
    match a
    case Timeout(ev, _) => ev == e
    case Readiness(m, err, _) => err || Has(m, e)
    case Close(_) => true
  }

  /** The attempt fails the assertion in `triggerEvent`: only a part of what was reported is registered. */
  predicate Aborts(a: Attempt, events: Mask) {
    a.Readiness? && a.works && Partial(Real(a.ready, a.err, events), events)
  }

  /** The registered events that an attempt wakes. */
  function Woken(a: Attempt, events: Mask): Mask {
    Mask(Covers(a, READ) && events.read, Covers(a, WRITE) && events.write)
  }

  /** From `before` to `after` the events `m` of one descriptor went, and nothing else changed. */
  ghost predicate Taken(before: seq<FdContext>, after: seq<FdContext>, fd: nat, m: Mask) {
    && |after| == |before|
    && forall d: nat, e: Event ::
      Registered(after, d, e) == if d == fd && Has(m, e) then None else Registered(before, d, e)
  }

  /** A timeout, readiness or close: it wakes what it covers and finds registered, and nothing else changes. */
  method TryWake(t: EventTable, fd: nat, a: Attempt) returns (woken: Mask, aborted: bool)
    requires t.Valid() && fd < |t.contexts|
    modifies t
    ensures aborted <==> Aborts(a, old(t.contexts)[fd].events)
    ensures !aborted ==> t.Valid() && Taken(old(t.contexts), t.contexts, fd, woken)
    ensures !aborted ==> t.posted == old(t.posted) + PostsOf(old(t.contexts)[fd], woken)
    ensures woken == if aborted then NONE else Woken(a, old(t.contexts)[fd].events)
  {
    woken, aborted := Woken(a, t.contexts[fd].events), false;
    match a
    case Timeout(ev, works) =>
      var won := t.CancelEvent(fd, ev, works);
    case Readiness(ready, err, works) =>
      var r := t.HandleReady(fd, ready, err, works);
      if r == Outcome.Aborted {
        woken, aborted := NONE, true;
      }
    case Close(works) =>
      var won := t.CancelAll(fd, works);
  }

  ghost predicate SomeCovers(attempts: seq<Attempt>, n: nat, e: Event)
    requires n <= |attempts|
  {
    exists i :: 0 <= i < n && Covers(attempts[i], e)
  }

  /** The posts of two disjoint sets of events, in some order, are the posts of both. */
  lemma PostsJoin(c: FdContext, m: Mask, n: Mask)
    requires Meet(m, n) == NONE
    ensures multiset(PostsOf(c, Join(m, n))) == multiset(PostsOf(c, m)) + multiset(PostsOf(c, n))
  {
  }

  lemma TakenTwice(a: seq<FdContext>, b: seq<FdContext>, c: seq<FdContext>, fd: nat, m: Mask, n: Mask)
    requires Taken(a, b, fd, m) && Taken(b, c, fd, n)
    ensures Taken(a, c, fd, Join(m, n))
  {
  }

  /** What is still registered is as before, and what was taken is not. */
  lemma TakenContext(a: seq<FdContext>, b: seq<FdContext>, fd: nat, m: Mask, n: Mask)
    requires fd < |a| && Taken(a, b, fd, m) && Minus(n, b[fd].events) == NONE
    ensures Minus(b[fd].events, a[fd].events) == NONE && Meet(m, b[fd].events) == NONE
    ensures Minus(a[fd].events, m) == b[fd].events && PostsOf(b[fd], n) == PostsOf(a[fd], n)
  {
    assert Registered(b, fd, READ) == if m.read then None else Registered(a, fd, READ);
    assert Registered(b, fd, WRITE) == if m.write then None else Registered(a, fd, WRITE);
  }

  /** The events that the first `n` attempts wake, of those in `events`. */
  ghost function WokenBy(attempts: seq<Attempt>, n: nat, events: Mask): Mask
    requires n <= |attempts|
  {
    Mask(events.read && SomeCovers(attempts, n, READ), events.write && SomeCovers(attempts, n, WRITE))
  }

  /** None of the first `n` attempts aborts on what the ones before it have left registered. */
  ghost predicate NoAbort(attempts: seq<Attempt>, n: nat, events: Mask)
    requires n <= |attempts|
  {
    forall i :: 0 <= i < n ==> !Aborts(attempts[i], Minus(events, WokenBy(attempts, i, events)))
  }

  /**
   * Any number of attempts on a descriptor, for either event or for both, in any order, up to the
   * first that aborts: a registered waiter is posted once if some attempt before that covers it, and
   * otherwise not at all.
   */
  method Contend(t: EventTable, fd: nat, attempts: seq<Attempt>) returns (woken: Mask, done: nat)
    requires t.Valid() && fd < |t.contexts|
    modifies t
    ensures done <= |attempts| && woken == WokenBy(attempts, done, old(t.contexts)[fd].events)
    ensures NoAbort(attempts, done, old(t.contexts)[fd].events)
    ensures done < |attempts| ==> Aborts(attempts[done], Minus(old(t.contexts)[fd].events, woken))
    ensures done == |attempts| ==> t.Valid() && Taken(old(t.contexts), t.contexts, fd, woken)
    ensures done == |attempts| ==>
      multiset(t.posted) == multiset(old(t.posted)) + multiset(PostsOf(old(t.contexts)[fd], woken))
  {
    woken, done := NONE, 0;
    ghost var before, posts := t.contexts, multiset(t.posted);
    while done < |attempts|
      invariant done <= |attempts| && t.Valid() && SoFar(t, before, posts, fd, woken)
      invariant woken == WokenBy(attempts, done, before[fd].events)
      invariant NoAbort(attempts, done, before[fd].events)
    {
      var more, aborted := TryNext(t, fd, attempts, done, woken, before, posts);
      if aborted {
        return;
      }
      woken, done := more, done + 1;
    }
  }

  /** The events `woken` of the descriptor have been taken, and their waiters posted. */
  ghost predicate SoFar(t: EventTable, before: seq<FdContext>, posts: multiset<Post>, fd: nat, woken: Mask)
    reads t
  {
    && fd < |before| && Taken(before, t.contexts, fd, woken)
    && multiset(t.posted) == posts + multiset(PostsOf(before[fd], woken))
  }

  method TryNext(t: EventTable, fd: nat, attempts: seq<Attempt>, k: nat, woken: Mask,
                 ghost before: seq<FdContext>, ghost posts: multiset<Post>) returns (more: Mask, aborted: bool)
    requires t.Valid() && k < |attempts| && SoFar(t, before, posts, fd, woken)
    requires woken == WokenBy(attempts, k, before[fd].events)
    modifies t
    ensures aborted <==> Aborts(attempts[k], Minus(before[fd].events, woken))
    ensures !aborted ==> t.Valid() && SoFar(t, before, posts, fd, more)
    ensures !aborted ==> more == WokenBy(attempts, k + 1, before[fd].events)
  {
    ghost var now := t.contexts;
    TakenContext(before, now, fd, woken, NONE);
    more, aborted := TryWake(t, fd, attempts[k]);
    if !aborted {
      TakenContext(before, now, fd, woken, more);
      TakenTwice(before, now, t.contexts, fd, woken, more);
      PostsJoin(before[fd], woken, more);
      CoversNext(attempts, k, woken, more, before[fd].events, now[fd].events);
      more := Join(woken, more);
    }
  }

  lemma CoversNext(attempts: seq<Attempt>, i: nat, woken: Mask, more: Mask, before: Mask, now: Mask)
    requires i < |attempts| && now == Minus(before, woken) && more == Woken(attempts[i], now)
    requires woken == WokenBy(attempts, i, before)
    ensures Join(woken, more) == WokenBy(attempts, i + 1, before)
  {
    forall e
      ensures SomeCovers(attempts, i + 1, e) <==> SomeCovers(attempts, i, e) || Covers(attempts[i], e)
    {
    }
    assert SomeCovers(attempts, i + 1, READ) <==> SomeCovers(attempts, i, READ) || Covers(attempts[i], READ);
    assert SomeCovers(attempts, i + 1, WRITE) <==> SomeCovers(attempts, i, WRITE) || Covers(attempts[i], WRITE);
  }

  /** Both events are reported ready, one is cancelled before `idle` gets the lock: it aborts. */
  method ReportedThenCancelled(t: EventTable, fd: nat, ev: Event) returns (r: Outcome)
    requires t.Valid() && fd < |t.contexts| && t.contexts[fd].events == Mask(true, true)
    modifies t
    ensures r == Aborted
  {
    var reported := t.contexts[fd].events;
    var won := t.CancelEvent(fd, ev, true);
    assert Registered(old(t.contexts), fd, Other(ev)) == Registered(t.contexts, fd, Other(ev));
    assert Registered(t.contexts, fd, ev).None?;
    r := t.HandleReady(fd, reported, false, true);
  }
}
