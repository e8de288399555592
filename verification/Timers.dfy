/**
 * `TimerManager`: a set of timers ordered by a key that changes, deadline and then address, with
 * the flag it shares with the thread that waits for the first deadline.
 */
module Timers {
  import opened Common

  const U64: nat := 0x1_0000_0000_0000_0000
  const HOUR: nat := 3600000

  class Timer {
    const addr: nat
    const recurring: bool
    var ms: nat
    var cb: Option<nat>
    var next: nat

    constructor (addr: nat, ms: nat, cb: nat, recurring: bool, now: nat)
      ensures this.addr == addr && this.ms == ms && this.cb == Some(cb) && this.recurring == recurring
      ensures next == (now + ms) % U64
    {
      this.addr := addr;
      this.ms := ms;
      this.cb := Some(cb);
      this.recurring := recurring;
      this.next := (now + ms) % U64;
    }
  }

  // ---- the ordered set ----

  predicate KeyLess(n: nat, a: nat, m: nat, b: nat) {
    n < m || (n == m && a < b)
  }

  /** `Timer::Comparator` on two timers. */
  predicate Less(t: Timer, u: Timer)
    reads t, u
  {
    KeyLess(t.next, t.addr, u.next, u.addr)
  }

  ghost predicate Sorted(ts: seq<Timer>)
    reads ts
  {
    forall i, j :: 0 <= i < j < |ts| ==> Less(ts[i], ts[j])
  }

  /** The first position whose timer is not before the key. */
  function LowerBound(ts: seq<Timer>, next: nat, addr: nat): (i: nat)
    reads ts
    ensures i <= |ts|
    ensures forall j :: 0 <= j < i ==> KeyLess(ts[j].next, ts[j].addr, next, addr)
    ensures i < |ts| ==> !KeyLess(ts[i].next, ts[i].addr, next, addr)
  {
    if ts == [] || !KeyLess(ts[0].next, ts[0].addr, next, addr) then 0 else 1 + LowerBound(ts[1..], next, addr)
  }

  /** `find`: a position whose timer is equivalent under the order, or the end. */
  function Find(ts: seq<Timer>, t: Timer): (i: nat)
    reads ts, t
    ensures i <= |ts|
  {
    var i := LowerBound(ts, t.next, t.addr);
    if i < |ts| && !Less(t, ts[i]) then i else |ts|
  }

  /** `insert`: at its place in the order, unless an equivalent timer is there. */
  function Insert(ts: seq<Timer>, t: Timer): (r: seq<Timer>)
    reads ts, t
  {
    var i := LowerBound(ts, t.next, t.addr);
    if i < |ts| && !Less(t, ts[i]) then ts else ts[..i] + [t] + ts[i..]
  }

  function Erase(ts: seq<Timer>, i: nat): (r: seq<Timer>)
    requires i < |ts|
  {
    ts[..i] + ts[i + 1..]
  }

  /** Two timers at the same address are the same timer. */
  ghost predicate Distinct(ts: set<Timer>) {
    forall t, u :: t in ts && u in ts && t.addr == u.addr ==> t == u
  }

  /** The search by key finds a timer exactly when it is in the set. */
  lemma FindIff(ts: seq<Timer>, t: Timer, all: set<Timer>)
    requires Sorted(ts) && Distinct(all) && t in all && forall u :: u in ts ==> u in all
    ensures Find(ts, t) < |ts| <==> t in ts
    ensures t in ts ==> ts[Find(ts, t)] == t
  {
    var i := LowerBound(ts, t.next, t.addr);
    if t in ts {
      var k :| 0 <= k < |ts| && ts[k] == t;
      assert i < k ==> Less(ts[i], ts[k]);
    }
    if Find(ts, t) < |ts| {
      assert ts[i].next == t.next && ts[i].addr == t.addr;
      assert ts[i] in all;
    }
  }

  lemma EraseOrder(ts: seq<Timer>, i: nat)
    requires Sorted(ts) && i < |ts|
    ensures Sorted(Erase(ts, i)) && ts[i] !in Erase(ts, i)
    ensures forall u :: u in Erase(ts, i) <==> u in ts && u != ts[i]
  {
    var r := Erase(ts, i);
    forall u | u in ts && u != ts[i]
      ensures u in r
    {
      var k :| 0 <= k < |ts| && ts[k] == u;
      assert r[if k < i then k else k - 1] == u;
    }
    assert forall k :: 0 <= k < |ts| && k != i ==> ts[k] != ts[i] by {
      assert forall k :: 0 <= k < |ts| && k != i ==> Less(ts[k], ts[i]) || Less(ts[i], ts[k]);
    }
  }

  lemma InsertedSorted(ts: seq<Timer>, t: Timer, i: nat)
    requires Sorted(ts) && i <= |ts|
    requires forall j :: 0 <= j < i ==> Less(ts[j], t)
    requires forall j :: i <= j < |ts| ==> Less(t, ts[j])
    ensures Sorted(ts[..i] + [t] + ts[i..])
  {
    var r := ts[..i] + [t] + ts[i..];
    forall j, k | 0 <= j < k < |r|
      ensures Less(r[j], r[k])
    {
      assert j < i ==> r[j] == ts[j];
      assert j > i ==> r[j] == ts[j - 1];
      assert k < i ==> r[k] == ts[k];
      assert k > i ==> r[k] == ts[k - 1];
    }
  }

  /** Where an absent timer goes. */
  lemma InsertPlace(ts: seq<Timer>, t: Timer, all: set<Timer>)
    requires Sorted(ts) && Distinct(all) && t in all && (forall u :: u in ts ==> u in all) && t !in ts
    ensures var i := LowerBound(ts, t.next, t.addr);
      Insert(ts, t) == ts[..i] + [t] + ts[i..] && forall j :: i <= j < |ts| ==> Less(t, ts[j])
  {
    FindIff(ts, t, all);
    var i := LowerBound(ts, t.next, t.addr);
    forall j | i <= j < |ts|
      ensures Less(t, ts[j])
    {
      assert i < j ==> Less(ts[i], ts[j]);
    }
  }

  lemma InsertOrder(ts: seq<Timer>, t: Timer, all: set<Timer>)
    requires Sorted(ts) && Distinct(all) && t in all && (forall u :: u in ts ==> u in all) && t !in ts
    ensures Sorted(Insert(ts, t)) && |Insert(ts, t)| == |ts| + 1
    ensures forall u :: u in Insert(ts, t) <==> u in ts || u == t
    ensures Insert(ts, t)[0] == t || (ts != [] && Insert(ts, t)[0] == ts[0])
  {
    InsertPlace(ts, t, all);
    var i := LowerBound(ts, t.next, t.addr);
    InsertedSorted(ts, t, i);
    assert ts == ts[..i] + ts[i..];
  }

  /** By deadline, and by address where deadlines are equal. */
  lemma SortedMeans(ts: seq<Timer>)
    ensures Sorted(ts) <==> forall i, j :: 0 <= i < j < |ts| ==>
      ts[i].next < ts[j].next || (ts[i].next == ts[j].next && ts[i].addr < ts[j].addr)
  {
  }

  // ---- the manager ----

  lemma FirstIsLeast(ts: seq<Timer>)
    requires Sorted(ts)
    ensures forall t :: t in ts ==> ts[0].next <= t.next
  {
    assert forall i :: 0 < i < |ts| ==> Less(ts[0], ts[i]);
  }

  /** A recurring timer is due again one period after `now`; any other lost its callback. */
  twostate predicate Fired(t: Timer, now: nat)
    reads t
  {
    t.ms == old(t.ms) &&
    if t.recurring then t.cb == old(t.cb) && t.next == (now + t.ms) % U64 else t.cb == None && t.next == old(t.next)
  }

  twostate predicate Kept(t: Timer)
    reads t
  {
    t.ms == old(t.ms) && t.cb == old(t.cb) && t.next == old(t.next)
  }

  /** The first deadline is not before `d`. */
  predicate NotBefore(ts: seq<Timer>, d: nat)
    reads ts
  {
    ts == [] || d <= ts[0].next
  }

  /** `checkClockChange` on 64-bit times. */
  predicate RolledBack(previous: nat, now: nat) {
    now < previous && now < (previous - HOUR) % U64
  }

  /** The clock went back by over an hour, or went back at all in the first hour of its range. */
  lemma RolledBackIff(previous: nat, now: nat)
    requires previous < 0x1_0000_0000_0000_0000
    ensures RolledBack(previous, now) <==> now + 3600000 < previous || (now < previous && previous < 3600000)
  {
    assert previous < HOUR ==> (previous - HOUR) % U64 == previous - HOUR + U64;
  }

  /** Going back an hour to the millisecond is no rollback, one millisecond more is. */
  lemma AnHourBack(previous: nat)
    requires 3600000 < previous < U64
    ensures !RolledBack(previous, previous - 3600000) && RolledBack(previous, previous - 3600001)
  {
    RolledBackIff(previous, previous - 3600000);
    RolledBackIff(previous, previous - 3600001);
  }

  class TimerManager {
    var timers: seq<Timer>
    var tickled: bool
    var previousTime: nat
    var wakes: nat               // calls of onTimerInsertedAtFront
    ghost var known: set<Timer>  // every timer created here
    ghost var seen: nat          // wakes at the last getNextTime

    ghost predicate Valid()
      reads this, known
    {
      && (forall t :: t in timers ==> t in known) && Sorted(timers) && Distinct(known)
      && (forall t :: t in known ==> (t.cb.Some? <==> t in timers))
      && seen <= wakes && (tickled ==> seen < wakes)
    }

    /** `t` is out of the set, so its key may change. */
    ghost predicate Detached(t: Timer)
      reads this, known
    {
      && (forall u :: u in timers ==> u in known) && Sorted(timers) && Distinct(known)
      && t in known && t !in timers
      && (forall u :: u in known && u != t ==> (u.cb.Some? <==> u in timers))
      && seen <= wakes && (tickled ==> seen < wakes)
    }

    /** A waiter that sleeps until `d` will not miss the first deadline: it is no earlier, or a wake is out. */
    ghost predicate Covers(d: nat)
      reads this, timers
    {
      tickled || NotBefore(timers, d)
    }

    constructor (now: nat)
      ensures Valid() && timers == [] && known == {} && !tickled && previousTime == now
    {
      timers := [];
      tickled := false;
      previousTime := now;
      wakes := 0;
      known := {};
      seen := 0;
    }

    /** `m_timers.insert`. The set is whole again exactly if the timer still has its callback. */
    method PutBack(t: Timer)
      requires Detached(t)
      modifies this`timers
      ensures t in timers && |timers| == |old(timers)| + 1 && (Valid() <==> t.cb.Some?)
      ensures timers[0] == t || (old(timers) != [] && timers[0] == old(timers)[0])
    {
      InsertOrder(timers, t, known);
      timers := Insert(timers, t);
    }

    /** `addTimer(Timer::ptr)`: insert, and wake the waiter when the timer is now first. */
    method InsertTimer(t: Timer)
      requires Detached(t)
      modifies this`timers, this`tickled, this`wakes
      ensures t in timers && |timers| == |old(timers)| + 1 && (Valid() <==> t.cb.Some?)
      ensures tickled == (old(tickled) || timers[0] == t)
      ensures wakes == old(wakes) + (if timers[0] == t && !old(tickled) then 1 else 0)
      ensures forall d :: old(Covers(d)) ==> Covers(d)
    {
      PutBack(t);
      var front := timers[0] == t && !tickled;
      if front {
        tickled := true;
        wakes := wakes + 1;
      }
    }

    /** `addTimer`: `addr` is where the new timer was allocated. */
    method AddTimer(ms: nat, cb: nat, recurring: bool, now: nat, addr: nat) returns (t: Timer)
      requires Valid() && forall u :: u in known ==> u.addr != addr
      modifies this
      ensures Valid() && fresh(t) && known == old(known) + {t} && t in timers && |timers| == |old(timers)| + 1
      ensures t.addr == addr && t.ms == ms && t.cb == Some(cb) && t.recurring == recurring && t.next == (now + ms) % U64
      ensures forall d :: old(Covers(d)) ==> Covers(d)
      ensures wakes == old(wakes) + (if timers[0] == t && !old(tickled) then 1 else 0)
      ensures seen == old(seen) && previousTime == old(previousTime) && tickled == (old(tickled) || timers[0] == t)
    {
      t := new Timer(addr, ms, cb, recurring, now);
      known := known + {t};
      InsertTimer(t);
    }

    /** Find the timer by its key and erase it; the search misses only a timer that is not there. */
    method TakeOut(t: Timer) returns (found: bool)
      requires Valid() && t in known
      modifies this`timers
      ensures found <==> t in old(timers)
      ensures found ==> Detached(t)
      ensures found ==> forall d: nat :: old(NotBefore(timers, d)) ==> NotBefore(timers, d) && d <= t.next
      ensures !found ==> timers == old(timers)
    {
      FindIff(timers, t, known);
      var i := Find(timers, t);
      if i == |timers| {
        return false;
      }
      EraseOrder(timers, i);
      assert i > 0 ==> Less(timers[0], timers[i]);
      assert i == 0 && |timers| > 1 ==> Less(timers[0], timers[1]);
      timers := Erase(timers, i);
      found := true;
    }

    /** `Timer::cancel`. */
    method Cancel(t: Timer) returns (r: bool)
      requires Valid() && t in known
      modifies this`timers, t`cb
      ensures Valid() && r == old(t.cb.Some?) && t.cb == None
      ensures forall d :: old(Covers(d)) ==> Covers(d)
    {
      if t.cb.None? {
        return false;
      }
      r := TakeOut(t);
      t.cb := None;
    }

    /**
     * `Timer::refresh`: count again from now. It never wakes the waiter, so a waiter that was covered
     * stays covered exactly when the new deadline is not before the first one, or a wake is out.
     */
    method Refresh(t: Timer, now: nat) returns (r: bool)
      requires Valid() && t in known
      modifies this`timers, t`next
      ensures Valid() && r == t.cb.Some?
      ensures t.next == if r then (now + t.ms) % U64 else old(t.next)
      ensures (forall d: nat :: old(Covers(d)) ==> Covers(d)) <==>
        !r || tickled || old(timers) == [] || (now + t.ms) % U64 >= old(timers[0].next)
    {
      if t.cb.None? {
        return false;
      }
      ghost var first := timers[0].next;
      r := MoveTo(t, (now + t.ms) % U64);
      assert old(Covers(first)) && (Covers(first) ==> tickled || first <= t.next);
    }

    /** Out of the set, a new key, and back in. */
    method MoveTo(t: Timer, next: nat) returns (r: bool)
      requires Valid() && t in known && t.cb.Some?
      modifies this`timers, t`next
      ensures Valid() && r && t.next == next && timers != [] && timers[0].next <= next
      ensures forall d: nat :: old(NotBefore(timers, d)) && d <= next ==> NotBefore(timers, d)
    {
      r := TakeOut(t);
      if r {
        SetNext(t, next);
        PutBack(t);
        FirstIsLeast(timers);
      }
    }

    /** The key changes while the timer is out of the set. */
    method SetNext(t: Timer, next: nat)
      requires Detached(t)
      modifies t`next
      ensures Detached(t) && t.next == next
      ensures forall d :: old(NotBefore(timers, d)) ==> NotBefore(timers, d)
    {
      t.next := next;
    }

    /** First critical section of `reset`: the timer leaves the set and gets its new key. */
    method ResetErase(t: Timer, ms: nat, fromNow: bool, now: nat) returns (r: bool)
      requires Valid() && t in known
      modifies this`timers, t`ms, t`next
      ensures r == t.cb.Some?
      ensures r ==> Detached(t) && t.ms == ms
      ensures r ==> t.next == ((if fromNow then now else (old(t.next) - old(t.ms)) % U64) + ms) % U64
      ensures !r ==> Valid() && timers == old(timers) && t.ms == old(t.ms) && t.next == old(t.next)
      ensures forall d :: old(Covers(d)) ==> Covers(d)
    {
      if t.cb.None? {
        return false;
      }
      r := TakeOut(t);
      if r {
        var start := if fromNow then now else (t.next - t.ms) % U64;
        t.ms := ms;
        SetNext(t, (start + ms) % U64);
      }
    }

    /** `Timer::reset`: a new period, counted from now or from the old start. */
    method Reset(t: Timer, ms: nat, fromNow: bool, now: nat) returns (r: bool)
      requires Valid() && t in known
      modifies this`timers, this`tickled, this`wakes, t`ms, t`next
      ensures Valid() && (tickled ==> old(tickled) || (timers != [] && timers[0] == t))
      ensures wakes == old(wakes) + (if tickled && !old(tickled) then 1 else 0)
      ensures r <==> t.cb.Some? || (old(t.ms) == ms && !fromNow)
      ensures t.cb.Some? ==> t.ms == ms
      ensures t.cb.Some? && old(t.ms) == ms && !fromNow ==> t.next == old(t.next)
      ensures t.cb.Some? && (old(t.ms) != ms || fromNow) ==>
        t.next == ((if fromNow then now else (old(t.next) - old(t.ms)) % U64) + ms) % U64
      ensures t.cb.None? ==> t.ms == old(t.ms) && t.next == old(t.next)
      ensures forall d :: old(Covers(d)) ==> Covers(d)
    {
      if t.ms == ms && !fromNow {
        return true;
      }
      r := ResetErase(t, ms, fromNow, now);
      if r {
        InsertTimer(t);
      }
    }

    /** `cancel` between the two sections of `reset`: the search fails after the callback is gone. */
    method CancelDetached(t: Timer) returns (r: bool)
      requires Detached(t)
      modifies t`cb
      ensures Detached(t) && t.cb == None && !r
    {
      if t.cb.None? {
        return false;
      }
      t.cb := None;
      FindIff(timers, t, known);
      r := Find(timers, t) < |timers|;
    }

    /**
     * `reset` lets go of the lock between erasing and inserting. The timer in the set and its
     * callback agree again exactly if nobody cancels it in between; if somebody does, the cancel
     * reports failure and a timer without a callback stays in the set.
     */
    method ResetRaced(t: Timer, ms: nat, fromNow: bool, now: nat, cancelled: bool) returns (r: bool, c: bool)
      requires Valid() && t in known && t.cb.Some? && (t.ms != ms || fromNow)
      modifies this`timers, this`tickled, this`wakes, t`ms, t`next, t`cb
      ensures r && t in timers && (Valid() <==> !cancelled)
      ensures cancelled ==> !c && t.cb == None
    {
      c := false;
      r := ResetErase(t, ms, fromNow, now);
      if cancelled {
        c := CancelDetached(t);
      }
      InsertTimer(t);
    }

    /** `getNextTime`: how long to wait, and the flag is down. */
    method GetNextTime(now: nat) returns (r: nat)
      requires Valid()
      modifies this`tickled, this`seen
      ensures Valid() && !tickled && seen == wakes
      ensures r == if timers == [] then U64 - 1 else if now >= timers[0].next then 0 else timers[0].next - now
      ensures timers != [] && r > 0 ==> Covers(now + r)
      ensures timers == [] ==> forall d :: Covers(d)
    {
      tickled := false;
      seen := wakes;
      if |timers| == 0 {
        return U64 - 1;
      }
      r := if now >= timers[0].next then 0 else timers[0].next - now;
    }

    // ---- expiry ----

    /** The timers in `out` have left the set and still hold their callbacks. */
    ghost predicate Partly(out: seq<Timer>)
      reads this, known
    {
      && (forall u :: u in timers ==> u in known) && Sorted(timers) && Distinct(known)
      && (forall u :: u in out ==> u in known && u !in timers)
      && (forall u :: u in known ==> (u.cb.Some? <==> u in timers || u in out))
      && seen <= wakes && (tickled ==> seen < wakes)
    }

    lemma InFront(t: Timer, rest: seq<Timer>)
      ensures forall u :: u in [t] + rest <==> u == t || u in rest
    {
    }

    /** A recurring timer goes back into the set one period from now. */
    method Rearm(t: Timer, rest: seq<Timer>, now: nat)
      requires Partly([t] + rest) && t !in rest && t.recurring
      modifies this`timers, t`next
      ensures Partly(rest) && t.next == (now + t.ms) % U64
    {
      InFront(t, rest);
      t.next := (now + t.ms) % U64;
      assert Sorted(timers) && t !in timers && t in known;
      InsertOrder(timers, t, known);
      timers := Insert(timers, t);
    }

    /** One expired timer: back into the set, or its callback goes. */
    method Fire(t: Timer, rest: seq<Timer>, now: nat)
      requires Partly([t] + rest) && t !in rest
      modifies this`timers, t
      ensures Partly(rest) && Fired(t, now)
    {
      if t.recurring {
        Rearm(t, rest, now);
      } else {
        InFront(t, rest);
        t.cb := None;
      }
    }

    /** The loop over the expired timers. */
    method FireAll(out: seq<Timer>, now: nat) returns (cbs: seq<nat>)
      requires Partly(out) && forall i, j :: 0 <= i < j < |out| ==> out[i] != out[j]
      modifies this`timers, out
      ensures Valid() && |cbs| == |out| && (out == [] ==> timers == old(timers))
      ensures forall i :: 0 <= i < |out| ==> Some(cbs[i]) == old(out[i].cb) && Fired(out[i], now)
    {
      cbs := [];
      for n := 0 to |out|
        invariant Partly(out[n..]) && |cbs| == n && (n == 0 ==> timers == old(timers))
        invariant forall i :: 0 <= i < n ==> Some(cbs[i]) == old(out[i].cb) && Fired(out[i], now)
        invariant forall i :: n <= i < |out| ==> Kept(out[i])
      {
        var t := out[n];
        assert out[n..] == [t] + out[n + 1..];
        assert t in out[n..];
        cbs := cbs + [t.cb.value];
        Fire(t, out[n + 1..], now);
      }
    }

    /** The position after the timers that are due: everything after a rollback, else those due now. */
    method DuePrefix(changed: bool, now: nat, addr: nat) returns (k: nat)
      requires Valid() && timers != [] && (changed || timers[0].next >= now)
      ensures k <= |timers| && (changed ==> k == |timers|)
      ensures !changed ==> forall i :: 0 <= i < k ==> timers[i].next == now
      ensures !changed ==> forall i :: k <= i < |timers| ==> timers[i].next > now
    {
      assert forall i :: 0 < i < |timers| ==> Less(timers[0], timers[i]);
      k := if changed then |timers| else LowerBound(timers, now, addr);
      while k < |timers| && timers[k].next == now
        invariant k <= |timers| && (changed ==> k == |timers|)
        invariant !changed ==> forall i :: 0 <= i < k ==> timers[i].next == now
      {
        k := k + 1;
      }
      assert forall i :: k < i < |timers| ==> Less(timers[k], timers[i]);
    }

    /** Taking the first `k` timers out of the set. */
    lemma SplitOff(ts: seq<Timer>, k: nat)
      requires Sorted(ts) && k <= |ts|
      ensures Sorted(ts[k..])
      ensures forall i, j :: 0 <= i < j < k ==> ts[i] != ts[j]
      ensures forall u :: u in ts <==> u in ts[k..] || u in ts[..k]
      ensures forall u :: u in ts[..k] ==> u !in ts[k..]
    {
      assert ts == ts[..k] + ts[k..];
      forall i, j | 0 <= i < j < |ts|
        ensures ts[i] != ts[j]
      {
        assert Less(ts[i], ts[j]);
      }
    }

    /** The first `k` timers leave the set and fire, in the order of the set. */
    method FirePrefix(k: nat, now: nat) returns (cbs: seq<nat>)
      requires Valid() && k <= |timers|
      modifies this`timers, timers
      ensures Valid() && |cbs| == k
      ensures forall i :: 0 <= i < k ==> Some(cbs[i]) == old(timers[i].cb) && Fired(old(timers)[i], now)
      ensures forall i :: k <= i < |old(timers)| ==> Kept(old(timers)[i])
      ensures k == 0 ==> timers == old(timers)
    {
      SplitOff(timers, k);
      var expired := timers[..k];
      timers := timers[k..];
      assert forall i :: k <= i < |old(timers)| ==> old(timers)[i] == timers[i - k];
      cbs := FireAll(expired, now);
    }

    /**
     * `listExpiredCb`, with its early return as written: unless the clock was rolled back, an
     * overdue first timer makes it return nothing.
     */
    method ListExpired(now: nat, addr: nat) returns (cbs: seq<nat>)
      requires Valid()
      modifies this`timers, this`previousTime, timers
      ensures Valid() && |cbs| <= |old(timers)|
      ensures previousTime == if old(timers) == [] then old(previousTime) else now
      ensures forall i :: 0 <= i < |cbs| ==> Some(cbs[i]) == old(timers[i].cb) && Fired(old(timers)[i], now)
      ensures forall i :: |cbs| <= i < |old(timers)| ==> Kept(old(timers)[i])
      ensures cbs == [] ==> timers == old(timers)
      ensures RolledBack(old(previousTime), now) ==> |cbs| == |old(timers)|
      ensures !RolledBack(old(previousTime), now) ==> forall i :: 0 <= i < |cbs| ==> old(timers[i].next) == now
      ensures (forall i :: 0 <= i < |old(timers)| && old(timers[i].next) <= now ==> i < |cbs|)
        <==> (RolledBack(old(previousTime), now) || old(timers) == [] || old(timers[0].next) >= now)
    {
      cbs := [];
      if |timers| == 0 {
        return;
      }
      var changed := RolledBack(previousTime, now);
      previousTime := now;
      if !changed && timers[0].next < now {
        return;
      }
      var k := DuePrefix(changed, now, addr);
      cbs := FirePrefix(k, now);
    }
  }

  // ---- runs of the timers ----

  /** `read` is the clock a new timer is constructed with, before `addTimer` takes the lock. */
  datatype Op =
    | Add(addr: nat, ms: nat, cb: nat, recurring: bool, read: nat)
    | CancelOf(k: nat)
    | RefreshOf(k: nat)
    | ResetOf(k: nat, ms: nat, fromNow: bool)

  /**
   * What may happen, and when it has the lock: an expiry check, with the clock it read before that;
   * the waiter asking how long to wait; or an operation.
   */
  datatype Turn = Check(read: nat, at: nat) | Ask(at: nat) | Other(op: Op, at: nat)

  function Period(o: Op): nat {
    if o.Add? || o.ResetOf? then o.ms else 0
  }

  predicate IsAdd(e: Turn) {
    e.Other? && e.op.Add?
  }

  /** Every timer was started by the time `now`, and no deadline wraps around. */
  ghost predicate Started(ts: set<Timer>, now: nat, longest: nat)
    reads ts
  {
    forall t :: t in ts ==> t.ms <= t.next <= now + t.ms && t.ms <= longest
  }

  /** The clock is read no later than it is used, within the hour, and no deadline wraps around. */
  predicate Bounded(e: Turn, longest: nat) {
    && e.at + longest < U64
    && match e
       case Check(read, at) => HOUR <= read <= at <= read + HOUR
       case Ask(_) => true
       case Other(o, at) => Period(o) <= longest && (o.Add? ==> o.read <= at)
  }

  /** The clock of the manager and of its timers at a time. */
  ghost predicate Clocked(m: TimerManager, now: nat, longest: nat)
    reads m, m.known
  {
    Started(m.known, now, longest) && HOUR <= m.previousTime <= now
  }

  /** A refresh by a clock that has not gone back since the timer was started loses no wake-up. */
  method RefreshBounded(m: TimerManager, t: Timer, now: nat)
    requires m.Valid() && t in m.known
    modifies m`timers, t
    ensures m.Valid()
    ensures old(t.ms <= t.next <= now + t.ms < U64) ==> t.ms <= t.next <= now + t.ms && t.ms == old(t.ms)
    ensures old(t.ms <= t.next <= now + t.ms < U64) ==> forall d: nat :: old(m.Covers(d)) ==> m.Covers(d)
  {
    FirstIsLeast(m.timers);
    var _ := m.Refresh(t, now);
  }

  method Touch(m: TimerManager, t: Timer, o: Op, at: nat, longest: nat)
    requires m.Valid() && t in m.known
    modifies m`timers, m`tickled, m`wakes, t
    ensures m.Valid() && m.wakes >= old(m.wakes)
    ensures old(Started(m.known, at, longest)) && Bounded(Other(o, at), longest) ==> Started(m.known, at, longest)
    ensures old(Started(m.known, at, longest)) && Bounded(Other(o, at), longest) ==>
      forall d: nat :: old(m.Covers(d)) ==> m.Covers(d)
  {
    match o
    case Add(_, _, _, _, _) =>
    case CancelOf(_) =>
      var _ := m.Cancel(t);
    case RefreshOf(_) =>
      RefreshBounded(m, t, at);
    case ResetOf(_, ms, fromNow) =>
      var _ := m.Reset(t, ms, fromNow, at);
  }

  /** One operation on one of the timers made so far, or a new timer. */
  method Apply(m: TimerManager, made: seq<Timer>, o: Op, at: nat, longest: nat) returns (made': seq<Timer>)
    requires m.Valid() && forall i :: 0 <= i < |made| ==> made[i] in m.known
    requires o.Add? ==> forall t :: t in m.known ==> t.addr != o.addr
    modifies m, m.known
    ensures m.Valid() && made <= made' && forall i :: 0 <= i < |made'| ==> made'[i] in m.known
    ensures m.seen == old(m.seen) && m.wakes >= old(m.wakes) && m.previousTime == old(m.previousTime)
    ensures old(Started(m.known, at, longest)) && Bounded(Other(o, at), longest) ==> Started(m.known, at, longest)
    ensures old(Started(m.known, at, longest)) && Bounded(Other(o, at), longest) ==>
      forall d: nat :: old(m.Covers(d)) ==> m.Covers(d)
    ensures old(m.known) <= m.known
    ensures forall t :: t in m.known && t !in old(m.known) ==> fresh(t) && o.Add? && t.addr == o.addr
    ensures forall i :: |made| <= i < |made'| ==> made'[i] !in old(m.known)
    ensures forall t :: t in old(m.known) && (o.Add? || o.k >= |made| || made[o.k] != t) ==> Kept(t)
  {
    made' := made;
    if o.Add? {
      var t := m.AddTimer(o.ms, o.cb, o.recurring, o.read, o.addr);
      made' := made + [t];
    } else if o.k < |made| {
      Touch(m, made[o.k], o, at, longest);
    }
  }

  predicate DistinctAdds(turns: seq<Turn>) {
    forall i, j :: 0 <= i < j < |turns| && IsAdd(turns[i]) && IsAdd(turns[j]) ==> turns[i].op.addr != turns[j].op.addr
  }

  /** New timers have new addresses. */
  ghost predicate NewAddresses(m: TimerManager, turns: seq<Turn>)
    reads m
  {
    && (forall i, t :: 0 <= i < |turns| && IsAdd(turns[i]) && t in m.known ==> t.addr != turns[i].op.addr)
    && DistinctAdds(turns)
  }

  // ---- no lost wake-up ----

  /** A timer keeps its deadline, or was due when the check read the clock and is due a period later. */
  twostate predicate CheckedBy(t: Timer, read: nat)
    reads t
  {
    t.ms == old(t.ms) && (t.next == old(t.next) || (old(t.next) == read && t.next == (read + t.ms) % U64))
  }

  method CheckAll(m: TimerManager, read: nat, addr: nat)
    requires m.Valid() && !RolledBack(m.previousTime, read)
    modifies m`timers, m`previousTime, m.timers
    ensures m.Valid() && (m.previousTime == read || m.previousTime == old(m.previousTime))
    ensures forall t :: t in m.known ==> CheckedBy(t, read)
    ensures forall t :: t in m.timers ==> t in old(m.timers)
  {
    ghost var before := m.timers;
    var cbs := m.ListExpired(read, addr);
    forall t | t in m.known
      ensures CheckedBy(t, read)
    {
      if t in before {
        var i :| 0 <= i < |before| && before[i] == t;
        assert if i < |cbs| then Fired(t, read) else Kept(t);
      }
    }
  }

  /** An expiry check by any worker keeps the clock and the coverage of a waiter. */
  method CheckBounded(m: TimerManager, read: nat, at: nat, longest: nat, addr: nat)
    requires m.Valid() && Clocked(m, at, longest) && Bounded(Check(read, at), longest)
    modifies m`timers, m`previousTime, m.timers
    ensures m.Valid() && Clocked(m, at, longest)
    ensures forall d: nat :: old(m.Covers(d)) ==> m.Covers(d)
  {
    assert (m.previousTime - HOUR) % U64 == m.previousTime - HOUR;
    FirstIsLeast(m.timers);
    CheckAll(m, read, addr);
    forall t | t in m.known
      ensures old(t.next) <= t.next && t.ms <= t.next <= at + t.ms && t.ms <= longest
    {
      assert CheckedBy(t, read);
      assert old(t.ms <= t.next <= at + t.ms && t.ms <= longest);
      assert (read + t.ms) % U64 == read + t.ms;
    }
    assert m.timers != [] ==> m.timers[0] in m.timers;
  }

  method TakeTurn(m: TimerManager, made: seq<Timer>, e: Turn, longest: nat, addr: nat) returns (made': seq<Timer>)
    requires m.Valid() && Clocked(m, e.at, longest) && Bounded(e, longest)
    requires forall i :: 0 <= i < |made| ==> made[i] in m.known
    requires IsAdd(e) ==> forall t :: t in m.known ==> t.addr != e.op.addr
    modifies m, m.known
    ensures m.Valid() && Clocked(m, e.at, longest) && forall i :: 0 <= i < |made'| ==> made'[i] in m.known
    ensures m.wakes >= old(m.wakes)
    ensures !e.Ask? ==> m.seen == old(m.seen) && forall d: nat :: old(m.Covers(d)) ==> m.Covers(d)
    ensures forall t :: t in m.known && t !in old(m.known) ==> fresh(t) && IsAdd(e) && t.addr == e.op.addr
  {
    made' := made;
    match e
    case Check(read, at) => CheckBounded(m, read, at, longest, addr);
    case Ask(at) =>
      var _ := m.GetNextTime(at);
    case Other(o, at) =>
      made' := Apply(m, made, o, at, longest);
  }

  /** The turns come one after the other from `now` on. */
  predicate InOrder(now: nat, turns: seq<Turn>, longest: nat) {
    && (forall i :: 0 <= i < |turns| ==> now <= turns[i].at && Bounded(turns[i], longest))
    && (forall i, j :: 0 <= i < j < |turns| ==> turns[i].at <= turns[j].at)
  }

  method TakeTurns(m: TimerManager, made: seq<Timer>, now: nat, turns: seq<Turn>, longest: nat, addr: nat)
    returns (made': seq<Timer>)
    requires m.Valid() && Clocked(m, now, longest) && forall i :: 0 <= i < |made| ==> made[i] in m.known
    requires InOrder(now, turns, longest) && NewAddresses(m, turns)
    modifies m, m.known
    ensures m.Valid() && Clocked(m, if turns == [] then now else turns[|turns| - 1].at, longest)
    ensures forall i :: 0 <= i < |made'| ==> made'[i] in m.known
    ensures m.wakes >= old(m.wakes)
    ensures (forall i :: 0 <= i < |turns| ==> !turns[i].Ask?) ==>
      m.seen == old(m.seen) && forall d: nat :: old(m.Covers(d)) ==> m.Covers(d)
    ensures forall t :: t in m.known && t !in old(m.known) ==>
      fresh(t) && exists i :: 0 <= i < |turns| && IsAdd(turns[i]) && t.addr == turns[i].op.addr
  {
    made' := made;
    for n := 0 to |turns|
      invariant m.Valid() && forall i :: 0 <= i < |made'| ==> made'[i] in m.known
      invariant Clocked(m, if n == 0 then now else turns[n - 1].at, longest) && m.wakes >= old(m.wakes)
      invariant (forall i :: 0 <= i < n ==> !turns[i].Ask?) ==>
        m.seen == old(m.seen) && forall d: nat :: old(m.Covers(d)) ==> m.Covers(d)
      invariant forall t :: t in m.known && t !in old(m.known) ==>
        fresh(t) && exists i :: 0 <= i < n && IsAdd(turns[i]) && t.addr == turns[i].op.addr
    {
      made' := TakeTurn(m, made', turns[n], longest, addr);
    }
  }

  /**
   * While the waiter sleeps on what `getNextTime` told it, other threads do whatever they like. If
   * the first deadline is then earlier than the one it sleeps on, the flag is up and a wake is out.
   */
  method Sleep(m: TimerManager, made: seq<Timer>, now: nat, turns: seq<Turn>, longest: nat, addr: nat) returns (r: nat)
    requires m.Valid() && Clocked(m, now, longest) && forall i :: 0 <= i < |made| ==> made[i] in m.known
    requires InOrder(now, turns, longest) && NewAddresses(m, turns) && forall i :: 0 <= i < |turns| ==> !turns[i].Ask?
    modifies m, m.known
    ensures m.Valid() && m.wakes >= old(m.wakes)
    ensures r > 0 && m.timers != [] && m.timers[0].next < now + r ==> m.tickled && m.wakes > old(m.wakes)
  {
    r := m.GetNextTime(now);
    var _ := TakeTurns(m, made, now, turns, longest, addr);
    assert r > 0 ==> m.Covers(now + r);
  }

  /**
   * So it is in any run from the constructor on, with expiry checks by any worker: whenever the
   * waiter asks, `asked` wakes have gone out, and an earlier deadline after that means another one.
   */
  method NoLostWakeUp(start: nat, early: seq<Turn>, now: nat, later: seq<Turn>, longest: nat, addr: nat)
    returns (m: TimerManager, r: nat, asked: nat)
    requires HOUR <= start && InOrder(start, early + [Ask(now)] + later, longest)
    requires DistinctAdds(early + later) && forall i :: 0 <= i < |later| ==> !later[i].Ask?
    ensures m.Valid() && asked <= m.wakes
    ensures r > 0 && m.timers != [] && m.timers[0].next < now + r ==> m.tickled && m.wakes > asked
  {
    m := new TimerManager(start);
    Split(start, early, now, later, longest);
    SplitAdds(early, later);
    var made := TakeTurns(m, [], start, early, longest, addr);
    asked := m.wakes;
    r := Sleep(m, made, now, later, longest, addr);
  }

  lemma Split(start: nat, early: seq<Turn>, now: nat, later: seq<Turn>, longest: nat)
    requires InOrder(start, early + [Ask(now)] + later, longest)
    ensures InOrder(start, early, longest) && InOrder(now, later, longest) && start <= now
    ensures early != [] ==> early[|early| - 1].at <= now
  {
    var all := early + [Ask(now)] + later;
    assert all[|early|] == Ask(now);
    assert all[..|early|] == early && all[|early| + 1..] == later;
    InOrderPart(start, all, longest, |early|);
  }

  lemma InOrderPart(start: nat, all: seq<Turn>, longest: nat, n: nat)
    requires InOrder(start, all, longest) && n < |all|
    ensures InOrder(start, all[..n], longest) && InOrder(all[n].at, all[n + 1..], longest) && start <= all[n].at
    ensures n > 0 ==> all[..n][n - 1].at <= all[n].at
  {
  }

  lemma SplitAdds(early: seq<Turn>, later: seq<Turn>)
    requires DistinctAdds(early + later)
    ensures DistinctAdds(early) && DistinctAdds(later)
    ensures forall i, j :: 0 <= i < |early| && 0 <= j < |later| && IsAdd(early[i]) && IsAdd(later[j]) ==>
      early[i].op.addr != later[j].op.addr
  {
    var all := early + later;
    assert forall i :: 0 <= i < |early| ==> all[i] == early[i];
    assert forall i :: 0 <= i < |later| ==> all[|early| + i] == later[i];
  }

  /** A manager with one timer, due at 1100. */
  method OneTimer() returns (m: TimerManager, t: Timer)
    ensures fresh(m) && fresh(t) && m.Valid() && m.known == {t} && m.timers == [t]
    ensures t.ms == 100 && t.next == 1100 && t.cb.Some? && !t.recurring && m.previousTime == 1000
  {
    m := new TimerManager(1000);
    t := m.AddTimer(100, 7, false, 1000, 1);
    assert m.timers == [t];
  }

  /** With a clock that goes back, `refresh` makes the first deadline earlier and wakes nobody. */
  method RefreshAfterClockWentBack() returns (m: TimerManager, r: nat)
    ensures fresh(m) && m.Valid() && m.timers != [] && r > 0
    ensures m.timers[0].next < 1000 + r && !m.tickled
  {
    var t;
    m, t := OneTimer();
    r := m.GetNextTime(1000);
    var _ := m.Refresh(t, 500);
    assert |m.timers| > 0 && m.timers[0] in m.timers;
  }

  // ---- what an overdue timer does ----

  /** The checks read a clock that does not go back, all after `late` was due, which is left alone. */
  ghost predicate AllLate(m: TimerManager, late: Timer, made: seq<Timer>, turns: seq<Turn>)
    reads m, late
  {
    && (forall i :: 0 <= i < |turns| && turns[i].Check? ==>
          late.next < turns[i].read && m.previousTime <= turns[i].read)
    && (forall i, j :: 0 <= i < j < |turns| && turns[i].Check? && turns[j].Check? ==> turns[i].read <= turns[j].read)
    && (forall i :: 0 <= i < |turns| && turns[i].Other? && !turns[i].op.Add? && turns[i].op.k < |made| ==>
          made[turns[i].op.k] != late)
  }

  /**
   * One overdue timer stops all expiry: whatever is done to the other timers, and however many are
   * added, no check fires anything while the clock does not go back and that timer is left alone.
   */
  method OverdueNeverFires(m: TimerManager, made: seq<Timer>, late: Timer, turns: seq<Turn>, addr: nat)
    returns (fired: seq<nat>)
    requires m.Valid() && late in m.timers && late in m.known && forall i :: 0 <= i < |made| ==> made[i] in m.known
    requires AllLate(m, late, made, turns) && NewAddresses(m, turns)
    modifies m, m.known
    ensures m.Valid() && fired == [] && late in m.timers && Kept(late)
  {
    fired := [];
    var ts := made;
    for n := 0 to |turns|
      invariant m.Valid() && fired == [] && late in m.known && Kept(late)
      invariant made <= ts && forall i :: 0 <= i < |ts| ==> ts[i] in m.known
      invariant forall i :: |made| <= i < |ts| ==> ts[i] != late
      invariant forall i :: n <= i < |turns| && turns[i].Check? ==> m.previousTime <= turns[i].read
      invariant forall t :: t in m.known && t !in old(m.known) ==> fresh(t)
      invariant forall i, t :: n <= i < |turns| && IsAdd(turns[i]) && t in m.known ==> t.addr != turns[i].op.addr
    {
      match turns[n]
      case Check(read, _) =>
        FirstIsLeast(m.timers);
        var cbs := m.ListExpired(read, addr);
        fired := fired + cbs;
      case Ask(at) =>
        var _ := m.GetNextTime(at);
      case Other(o, at) =>
        ts := Apply(m, ts, o, at, 0);
    }
  }

  /** It happens: a timer due at 1100 is not fired at 1200. */
  method OverdueTimer() returns (m: TimerManager, t: Timer, cbs: seq<nat>)
    ensures fresh(m) && m.Valid() && t in m.timers && t.next <= 1200 && cbs == []
  {
    m, t := OneTimer();
    cbs := m.ListExpired(1200, 2);
  }
}
