/**
 The round-robin scheduler over the table of threads: sleepers wake, the next ready thread in cyclic
 order runs, and a thread that stays ready waits for less than one round.
 */
module Sched {

  const MAX_THREADS: nat := 64

  datatype ThreadState = Run | Ready | Block | Dead

  type States = s: seq<ThreadState> | |s| == MAX_THREADS witness seq(MAX_THREADS, _ => Dead)

  /** How many steps the search takes to get from `cur` to `t`; a full round back to `cur` itself. */
  function Distance(cur: nat, t: nat): nat
    requires cur < MAX_THREADS && t < MAX_THREADS
  {
    if t > cur then t - cur else t + MAX_THREADS - cur
  }

  ghost predicate NobodyReady(s: States) {
    forall t | 0 <= t < MAX_THREADS :: s[t] != Ready
  }

  /** The closest ready thread after `cur`, or `cur` when there is none. */
  ghost predicate IsNext(s: States, cur: nat, next: nat)
    requires cur < MAX_THREADS
  {
    && next < MAX_THREADS
    && (if NobodyReady(s) then next == cur
        else s[next] == Ready && forall t | 0 <= t < MAX_THREADS && Distance(cur, t) < Distance(cur, next) ::
            s[t] != Ready)
  }

  predicate Due(s: States, wake: seq<nat>, tick: nat, t: nat)
    requires |wake| == MAX_THREADS && t < MAX_THREADS
  {
    s[t] == Block && wake[t] != 0 && tick >= wake[t]
  }

  /** The states after sleepers whose time has come were made ready. */
  ghost function Woken(s: States, wake: seq<nat>, tick: nat): States
    requires |wake| == MAX_THREADS
  {
    seq(MAX_THREADS, t requires 0 <= t < MAX_THREADS => if Due(s, wake, tick, t) then Ready else s[t])
  }

  ghost function WakeTicks(s: States, wake: seq<nat>, tick: nat): seq<nat>
    requires |wake| == MAX_THREADS
  {
    seq(MAX_THREADS, t requires 0 <= t < MAX_THREADS => if Due(s, wake, tick, t) then 0 else wake[t])
  }

  /** The states after the processor went from `cur` to `next`. */
  ghost function Switched(s: States, cur: nat, next: nat): States
    requires cur < MAX_THREADS && next < MAX_THREADS
  {
    if next == cur && s[cur] == Run then s
    else (if s[cur] == Run then s[cur := Ready] else s)[next := Run]
  }

  /** What the scheduler decides on. */
  datatype Snapshot = Snapshot(states: States, wake: seq<nat>, cur: nat)

  /** One call of `schedule` at the given tick. */
  ghost predicate Called(b: Snapshot, tick: nat, a: Snapshot) {
    && |b.wake| == MAX_THREADS == |a.wake| && b.cur < MAX_THREADS && a.cur < MAX_THREADS
    && IsNext(Woken(b.states, b.wake, tick), b.cur, a.cur)
    && a.states == Switched(Woken(b.states, b.wake, tick), b.cur, a.cur) && a.wake == WakeTicks(b.states, b.wake, tick)
  }

  class Scheduler {
    const states: array<ThreadState>
    const wakeTick: array<nat>
    const ticks: array<nat>
    var cur: nat

    constructor ()
      ensures Valid() && fresh(states) && fresh(wakeTick) && fresh(ticks)
      ensures forall t | 0 <= t < MAX_THREADS :: states[t] == Dead
    {
      states := new ThreadState[MAX_THREADS](_ => Dead);
      wakeTick := new nat[MAX_THREADS](_ => 0);
      ticks := new nat[MAX_THREADS](_ => 0);
      cur := 0;
    }

    ghost predicate Valid()
      reads this
    {
      states.Length == MAX_THREADS && wakeTick.Length == MAX_THREADS && ticks.Length == MAX_THREADS
          && cur < MAX_THREADS && wakeTick != ticks
    }

    /** Exactly the blocked threads whose alarm is set and has come are made ready, and their alarms cleared. */
    method WakeSleepers(tick: nat)
      requires Valid()
      modifies states, wakeTick
      ensures forall t | 0 <= t < MAX_THREADS && old(states[t]) == Block && old(wakeTick[t]) != 0 ::
                if tick < old(wakeTick[t]) then states[t] == Block && wakeTick[t] == old(wakeTick[t])
                else states[t] == Ready && wakeTick[t] == 0
      ensures forall t | 0 <= t < MAX_THREADS && (old(states[t]) != Block || old(wakeTick[t]) == 0) ::
                states[t] == old(states[t]) && wakeTick[t] == old(wakeTick[t])
      ensures states[..] == Woken(old(states[..]), old(wakeTick[..]), tick)
      ensures wakeTick[..] == WakeTicks(old(states[..]), old(wakeTick[..]), tick)
    {
      for i := 0 to MAX_THREADS
        invariant forall t | 0 <= t < MAX_THREADS ::
          var due := Due(old(states[..]), old(wakeTick[..]), tick, t);
          && states[t] == (if due && t < i then Ready else old(states[t]))
          && wakeTick[t] == if due && t < i then 0 else old(wakeTick[t])
      {
        if states[i] == Block && wakeTick[i] != 0 && tick >= wakeTick[i] {
          wakeTick[i] := 0;
          states[i] := Ready;
        }
      }
    }

    method FindNext() returns (next: nat)
      requires Valid()
      ensures IsNext(states[..], cur, next)
    {
      next := cur;
      for n := 0 to MAX_THREADS
        invariant next < MAX_THREADS && (n == 0 ==> next == cur) && (n > 0 ==> Distance(cur, next) == n)
        invariant forall t | 0 <= t < MAX_THREADS && Distance(cur, t) <= n :: states[t] != Ready
      {
        next := (next + 1) % MAX_THREADS;
        if states[next] == Ready { return; }
      }
      assert next == cur;
      assert forall t | 0 <= t < MAX_THREADS :: Distance(cur, t) <= MAX_THREADS;
    }

    ghost function Now(): Snapshot
      requires Valid()
      reads this, states, wakeTick
    {
      Snapshot(states[..], wakeTick[..], cur)
    }

    /**
     One call of `schedule`. Of a thread that is not chosen: a sleeper whose alarm has come is ready and the alarm
     cleared, the one that ran is ready, and every other one is as it was.
     */
    method Schedule(tick: nat)
      requires Valid()
      modifies states, wakeTick, ticks, `cur
      ensures Valid() && Called(old(Now()), tick, Now())
      ensures states[cur] == Run
      ensures forall t | 0 <= t < MAX_THREADS && t != cur && old(states[t]) == Block && old(wakeTick[t]) != 0 ::
                states[t] == if tick < old(wakeTick[t]) then Block else Ready
      ensures forall t | 0 <= t < MAX_THREADS && t != cur && (old(states[t]) != Block || old(wakeTick[t]) == 0) ::
                states[t] == if t == old(cur) && old(states[t]) == Run then Ready else old(states[t])
      ensures forall t | 0 <= t < MAX_THREADS ::
                wakeTick[t] == if old(states[t]) == Block && old(wakeTick[t]) <= tick then 0 else old(wakeTick[t])
      ensures forall t | 0 <= t < MAX_THREADS && t != cur :: ticks[t] == old(ticks[t])
      ensures Valid() && wakeTick[..] == WakeTicks(old(states[..]), old(wakeTick[..]), tick)
      ensures var woken := Woken(old(states[..]), old(wakeTick[..]), tick);
              && IsNext(woken, old(cur), cur) && states[..] == Switched(woken, old(cur), cur)
              && ticks[..] == if cur == old(cur) && woken[cur] == Run then old(ticks[..])
                 else old(ticks[..])[cur := old(ticks[..])[cur] + 1]
    {
      WakeSleepers(tick);
      var next := FindNext();
      if next == cur && states[cur] == Run { return; }
      if states[cur] == Run { states[cur] := Ready; }
      states[next] := Run;
      ticks[next] := ticks[next] + 1;
      cur := next;
    }
  }

  /** The distance is the number of steps around the table that lead from the one thread to the other. */
  lemma DistanceIsSteps(cur: nat, t: nat, k: nat)
    requires cur < MAX_THREADS && t < MAX_THREADS && 1 <= k <= MAX_THREADS
    ensures (cur + k) % MAX_THREADS == t <==> k == Distance(cur, t)
  {
  }

  /** The choice is unique. */
  lemma NextIsUnique(s: States, cur: nat, a: nat, b: nat)
    requires cur < MAX_THREADS && IsNext(s, cur, a) && IsNext(s, cur, b)
    ensures a == b
  {
    if !NobodyReady(s) {
      assert Distance(cur, a) == Distance(cur, b);
    }
  }

  /** Exactly when is the chosen thread one that may run: somebody is ready, or the current one is running. */
  lemma RunsTheRunnable(s: States, cur: nat, next: nat)
    requires cur < MAX_THREADS && IsNext(s, cur, next)
    ensures s[next] == Ready || s[next] == Run <==> !NobodyReady(s) || s[cur] == Run
  {
  }

  /** When all threads are asleep or dead the scheduler runs the one that just gave up the processor. */
  lemma DeadThreadRuns(s: States)
    requires s[0] == Dead && forall t | 0 <= t < MAX_THREADS :: s[t] != Ready
    ensures IsNext(s, 0, 0) && Switched(s, 0, 0)[0] == Run
  {
  }

  /**
   The thread that is switched to is afterwards the only one marked as running exactly if before no thread but the
   current one was: a stale mark is never cleared.
   */
  lemma OneRuns(s: States, cur: nat, next: nat)
    requires cur < MAX_THREADS && IsNext(s, cur, next)
    ensures (forall t | 0 <= t < MAX_THREADS :: Switched(s, cur, next)[t] == Run <==> t == next)
            <==> forall t | 0 <= t < MAX_THREADS && t != cur :: s[t] != Run
  {
    forall t | 0 <= t < MAX_THREADS && t != cur && s[t] == Run
      ensures t != next && Switched(s, cur, next)[t] == Run
    {
    }
  }

  // ----- sleeping -----

  /** The thread sleeps until the tick. */
  ghost predicate Asleep(x: Snapshot, t: nat, until: nat) {
    t < MAX_THREADS == |x.wake| && x.states[t] == Block && x.wake[t] == until != 0
  }

  /** The thread has the processor, and there is nobody to give it to: no thread is ready and no alarm has come. */
  ghost predicate NobodyElse(x: Snapshot, t: nat, tick: nat) {
    && x.cur == t && |x.wake| == MAX_THREADS
    && forall u | 0 <= u < MAX_THREADS ::
         x.states[u] != Ready && (x.states[u] == Block && x.wake[u] != 0 ==> tick < x.wake[u])
  }

  /** The thread is ready, or runs at once, and its alarm is cleared. */
  ghost predicate Awake(x: Snapshot, t: nat) {
    t < MAX_THREADS == |x.wake| && (x.states[t] == Ready || (x.cur == t && x.states[t] == Run)) && x.wake[t] == 0
  }

  /** Before its time one call leaves a sleeper asleep, exactly unless there is nobody else: then it runs on. */
  lemma SleepsOn(b: Snapshot, tick: nat, a: Snapshot, t: nat, until: nat)
    requires Called(b, tick, a) && Asleep(b, t, until) && tick < until
    ensures Asleep(a, t, until) <==> !NobodyElse(b, t, tick)
    ensures NobodyElse(b, t, tick) ==> a.cur == t && a.states[t] == Run && a.wake[t] == until
  {
    var woken := Woken(b.states, b.wake, tick);
    assert woken[t] == Block;
    if a.cur == t { assert NobodyReady(woken); }
    if !NobodyElse(b, t, tick) && b.cur == t {
      var u :| 0 <= u < MAX_THREADS
          && (b.states[u] == Ready || (b.states[u] == Block && b.wake[u] != 0 && tick >= b.wake[u]));
      assert woken[u] == Ready;
    }
    if NobodyElse(b, t, tick) { assert forall u | 0 <= u < MAX_THREADS :: woken[u] != Ready; }
  }

  /** From its time on a call wakes it. */
  lemma WakesThen(b: Snapshot, tick: nat, a: Snapshot, t: nat, until: nat)
    requires Called(b, tick, a) && Asleep(b, t, until) && tick >= until
    ensures Awake(a, t)
  {
    assert Woken(b.states, b.wake, tick)[t] == Ready;
  }

  /** Calls one after the other; what happens to the thread between two of them is nothing. */
  ghost predicate Calls(before: seq<Snapshot>, ticks: seq<nat>, after: seq<Snapshot>, t: nat) {
    && |before| == |ticks| == |after| && t < MAX_THREADS
    && (forall i | 0 <= i < |ticks| :: Called(before[i], ticks[i], after[i]))
    && forall i | 1 <= i < |ticks| :: Untouched(after[i - 1], before[i], t)
  }

  ghost predicate Untouched(a: Snapshot, b: Snapshot, t: nat) {
    t < MAX_THREADS == |a.wake| == |b.wake| && b.states[t] == a.states[t] && b.wake[t] == a.wake[t]
  }

  lemma {:induction false} SleepsThrough(before: seq<Snapshot>, ticks: seq<nat>, after: seq<Snapshot>, t: nat,
      until: nat, n: nat)
    requires Calls(before, ticks, after, t) && n < |ticks| && Asleep(before[0], t, until)
    requires forall i | 0 <= i < n :: ticks[i] < until && !NobodyElse(before[i], t, ticks[i])
    ensures Asleep(before[n], t, until)
    decreases n
  {
    if n > 0 {
      SleepsThrough(before, ticks, after, t, until, n - 1);
      SleepsOn(before[n - 1], ticks[n - 1], after[n - 1], t, until);
      assert Untouched(after[n - 1], before[n], t);
    }
  }

  /**
   A thread that goes to sleep until a tick: the calls before that tick leave it asleep, exactly unless one of them
   finds nobody else to run, and then the first call at or after it wakes it. Others do what they like meanwhile.
   */
  lemma SleepsUntil(before: seq<Snapshot>, ticks: seq<nat>, after: seq<Snapshot>, t: nat, until: nat, n: nat)
    requires Calls(before, ticks, after, t) && n < |ticks| && Asleep(before[0], t, until)
    requires forall i | 0 <= i < n :: ticks[i] < until
    ensures (forall i | 0 <= i < n :: Asleep(after[i], t, until)) <==>
            (forall i | 0 <= i < n :: !NobodyElse(before[i], t, ticks[i]))
    ensures (forall i | 0 <= i < n :: !NobodyElse(before[i], t, ticks[i])) && ticks[n] >= until ==> Awake(after[n], t)
  {
    hide Called, NobodyElse, Awake;
    if forall i | 0 <= i < n :: !NobodyElse(before[i], t, ticks[i]) {
      forall i | 0 <= i < n
        ensures Asleep(after[i], t, until)
      {
        SleepsThrough(before, ticks, after, t, until, i);
        SleepsOn(before[i], ticks[i], after[i], t, until);
      }
      SleepsThrough(before, ticks, after, t, until, n);
      if ticks[n] >= until { WakesThen(before[n], ticks[n], after[n], t, until); }
    }
    if forall i | 0 <= i < n :: Asleep(after[i], t, until) {
      forall i | 0 <= i < n
        ensures !NobodyElse(before[i], t, ticks[i])
      {
        if i > 0 { assert Untouched(after[i - 1], before[i], t) && Asleep(after[i - 1], t, until); }
        SleepsOn(before[i], ticks[i], after[i], t, until);
      }
    }
  }

  // ----- waiting -----

  /** A waiting thread gets closer with every call that does not run it. */
  lemma Closer(s: States, cur: nat, next: nat, t: nat)
    requires cur < MAX_THREADS && t < MAX_THREADS && IsNext(s, cur, next) && s[t] == Ready
    ensures next == t || (Distance(next, t) < Distance(cur, t) && Distance(next, t) < MAX_THREADS)
  {
    assert Distance(cur, next) <= Distance(cur, t);
  }

  /**
   Bounded waiting: whatever the other threads do between the calls, a thread that is ready at each
   of them is chosen after at most as many calls as its distance from the current one.
   */
  lemma {:induction false} BoundedWaiting(curs: seq<nat>, woken: seq<States>, t: nat)
    requires t < MAX_THREADS && |curs| == |woken| + 1 && forall i | 0 <= i < |curs| :: curs[i] < MAX_THREADS
    requires forall i | 0 <= i < |woken| :: woken[i][t] == Ready && IsNext(woken[i], curs[i], curs[i + 1])
    requires |woken| >= Distance(curs[0], t)
    ensures exists i :: 1 <= i <= Distance(curs[0], t) && curs[i] == t
    decreases |woken|
  {
    Closer(woken[0], curs[0], curs[1], t);
    if curs[1] != t {
      BoundedWaiting(curs[1..], woken[1..], t);
      var i :| 1 <= i <= Distance(curs[1], t) && curs[1..][i] == t;
      assert curs[i + 1] == t;
    }
  }

  /** For any other thread that is less than one round. */
  lemma LessThanARound(cur: nat, t: nat)
    requires cur < MAX_THREADS && t < MAX_THREADS
    ensures Distance(cur, t) <= 64 && (t != cur <==> Distance(cur, t) <= 63)
  {
  }
}
