/**
 Message queues between threads. Nothing that was accepted is lost, duplicated or reordered, and no
 thread sleeps in a blocking receive while a message waits for it.
 */
module Ipc {
  import opened Sizes
  import opened Options
  import opened Sched

  const QUEUE_DEPTH: nat := 16

  /** `from` 0 stands for the kernel as well as for thread 0. */
  datatype Msg = Msg(from: nat, to: nat, tag: nat, data: seq<nat>, ptr: nat, len: nat)

  const NO_MSG := Msg(0, 0, 0, [], 0, 0)

  /** The messages from slot `tail` up to slot `head` of the ring. */
  ghost function RingContents(ring: seq<Msg>, head: nat, tail: nat): (r: seq<Msg>)
    requires |ring| == QUEUE_DEPTH && head < QUEUE_DEPTH && tail < QUEUE_DEPTH
  {
    seq(Wrap(head + QUEUE_DEPTH - tail), k requires 0 <= k < Wrap(head + QUEUE_DEPTH - tail) => ring[Wrap(tail + k)])
  }

  /** A number below twice the depth, modulo the depth. */
  function Wrap(n: nat): nat
    requires n < 2 * QUEUE_DEPTH
  {
    if n >= QUEUE_DEPTH then n - QUEUE_DEPTH else n
  }

  lemma WrapIsMod(n: nat)
    requires n < 2 * QUEUE_DEPTH
    ensures Wrap(n) == n % QUEUE_DEPTH
  {
  }

  class MsgQueue {
    const msgs: array<Msg>
    var head: nat
    var tail: nat

    constructor ()
      ensures Valid() && fresh(msgs) && Contents() == []
    {
      msgs := new Msg[QUEUE_DEPTH](_ => NO_MSG);
      head, tail := 0, 0;
    }

    ghost predicate Valid()
      reads this
    {
      msgs.Length == QUEUE_DEPTH && head < QUEUE_DEPTH && tail < QUEUE_DEPTH
    }

    ghost function Contents(): (r: seq<Msg>)
      requires Valid()
      reads this, msgs
      ensures |r| < QUEUE_DEPTH
    {
      RingContents(msgs[..], head, tail)
    }

    predicate IsEmpty()
      reads this
    {
      head == tail
    }

    predicate IsFull()
      reads this
    {
      (head + 1) % QUEUE_DEPTH == tail
    }

    /** The number of messages waiting, as `sys_ipc_poll` reports it. */
    function Len(): (n: nat)
      requires Valid()
      reads this, msgs
      ensures n == |Contents()|
      ensures n == 0 <==> IsEmpty()
      ensures n == QUEUE_DEPTH - 1 <==> IsFull()
    {
      WrapIsMod(head + QUEUE_DEPTH - tail);
      WrapIsMod(head + 1);
      (head + QUEUE_DEPTH - tail) % QUEUE_DEPTH
    }

    /** Refused exactly when 15 messages wait. */
    method Push(msg: Msg) returns (ok: bool)
      requires Valid()
      modifies `head, msgs
      ensures Valid()
      ensures ok <==> |old(Contents())| < 15
      ensures Contents() == if ok then old(Contents()) + [msg] else old(Contents())
    {
      assert Len() == |Contents()|;
      WrapIsMod(head + 1);
      if IsFull() { return false; }
      ghost var ring := msgs[..];
      msgs[head] := msg;
      PushedRing(ring, head, tail, msg);
      head := (head + 1) % QUEUE_DEPTH;
      return true;
    }

    method Pop() returns (m: Option<Msg>)
      requires Valid()
      modifies `tail
      ensures Valid()
      ensures m == None <==> old(Contents()) == []
      ensures if m == None then Contents() == old(Contents()) else old(Contents()) == [m.value] + Contents()
    {
      assert Len() == |Contents()|;
      WrapIsMod(tail + 1);
      if IsEmpty() { return None; }
      PoppedRing(msgs[..], head, tail);
      m := Some(msgs[tail]);
      tail := (tail + 1) % QUEUE_DEPTH;
    }
  }

  lemma PushedRing(ring: seq<Msg>, head: nat, tail: nat, msg: Msg)
    requires |ring| == QUEUE_DEPTH && head < QUEUE_DEPTH && tail < QUEUE_DEPTH && Wrap(head + 1) != tail
    ensures RingContents(ring[head := msg], Wrap(head + 1), tail) == RingContents(ring, head, tail) + [msg]
  {
    var n := Wrap(head + QUEUE_DEPTH - tail);
    assert Wrap(Wrap(head + 1) + QUEUE_DEPTH - tail) == n + 1;
    var a, b := RingContents(ring[head := msg], Wrap(head + 1), tail), RingContents(ring, head, tail) + [msg];
    forall k | 0 <= k < n + 1
      ensures a[k] == b[k]
    {
      assert Wrap(tail + k) == head <==> k == n;
    }
  }

  lemma RingSize(ring: seq<Msg>, head: nat, tail: nat)
    requires |ring| == QUEUE_DEPTH && head < QUEUE_DEPTH && tail < QUEUE_DEPTH
    ensures |RingContents(ring, head, tail)| == Wrap(head + QUEUE_DEPTH - tail)
  {
  }

  lemma RingIndex(ring: seq<Msg>, head: nat, tail: nat, k: nat)
    requires |ring| == QUEUE_DEPTH && head < QUEUE_DEPTH && tail < QUEUE_DEPTH && k < Wrap(head + QUEUE_DEPTH - tail)
    ensures k < |RingContents(ring, head, tail)| && RingContents(ring, head, tail)[k] == ring[Wrap(tail + k)]
    ensures Wrap(tail + 0) == tail
  {
  }

  lemma PoppedAt(ring: seq<Msg>, head: nat, tail: nat, k: nat)
    requires |ring| == QUEUE_DEPTH && head < QUEUE_DEPTH && tail < QUEUE_DEPTH && head != tail
    requires 0 < k < Wrap(head + QUEUE_DEPTH - tail)
    ensures k - 1 < Wrap(head + QUEUE_DEPTH - Wrap(tail + 1)) && Wrap(Wrap(tail + 1) + (k - 1)) == Wrap(tail + k)
  {
  }

  lemma PoppedRing(ring: seq<Msg>, head: nat, tail: nat)
    requires |ring| == QUEUE_DEPTH && head < QUEUE_DEPTH && tail < QUEUE_DEPTH && head != tail
    ensures RingContents(ring, head, tail) == [ring[tail]] + RingContents(ring, head, Wrap(tail + 1))
  {
    var n := Wrap(head + QUEUE_DEPTH - tail);
    assert Wrap(head + QUEUE_DEPTH - Wrap(tail + 1)) == n - 1;
    var a, b := RingContents(ring, head, tail), RingContents(ring, head, Wrap(tail + 1));
    RingSize(ring, head, tail);
    RingSize(ring, head, Wrap(tail + 1));
    RingIndex(ring, head, tail, 0);
    hide RingContents, Wrap;
    forall k | 0 < k < n
      ensures a[k] == b[k - 1]
    {
      PoppedAt(ring, head, tail, k);
      RingIndex(ring, head, tail, k);
      RingIndex(ring, head, Wrap(tail + 1), k - 1);
    }
    assert a == [a[0]] + b;
  }

  datatype SendResult = Fault | Sent | Invalid | Again
  datatype RecvResult = BadBuffer | Got(msg: Msg) | Nothing | Parked

  /** All threads with their queues, and what each of them was sent and has received so far. */
  class Threads {
    const sched: Scheduler
    const queues: seq<MsgQueue>
    ghost var accepted: seq<seq<Msg>>
    ghost var received: seq<seq<Msg>>
    /** The threads whose last sleep began in a blocking receive. */
    ghost var parked: set<nat>

    constructor (sched: Scheduler, queues: seq<MsgQueue>)
      requires sched.Valid() && QueuesOk(queues) && forall t | 0 <= t < MAX_THREADS :: queues[t].Contents() == []
      ensures this.sched == sched && this.queues == queues && Valid()
    {
      this.sched, this.queues := sched, queues;
      accepted := seq(MAX_THREADS, _ => []);
      received := seq(MAX_THREADS, _ => []);
      parked := {};
    }

    ghost predicate Valid()
      reads this, sched, sched.states, queues, set q <- queues :: q.msgs
    {
      && sched.Valid() && LogsOk()
      && (forall t <- parked :: t < MAX_THREADS && (sched.states[t] == Block ==> queues[t].Contents() == []))
    }

    /** What was accepted is what was received, followed by what waits. */
    ghost predicate LogsOk()
      reads `accepted, `received, queues, set q <- queues :: q.msgs
    {
      && QueuesOk(queues) && |accepted| == |received| == MAX_THREADS
      && forall t | 0 <= t < MAX_THREADS :: accepted[t] == received[t] + queues[t].Contents()
    }

    method Post(to: nat, msg: Msg) returns (ok: bool)
      requires LogsOk() && to < |queues| == MAX_THREADS
      modifies queues[to], queues[to].msgs, `accepted
      ensures LogsOk()
      ensures ok <==> |old(queues[to].Contents())| < QUEUE_DEPTH - 1
      ensures accepted == if ok then old(accepted)[to := old(accepted[to]) + [msg]] else old(accepted)
      ensures queues[to].Contents() == if ok then old(queues[to].Contents()) + [msg] else old(queues[to].Contents())
      ensures forall t | 0 <= t < MAX_THREADS && t != to :: queues[t].Contents() == old(queues[t].Contents())
    {
      hide RingContents, MsgQueue.Contents;
      ok := queues[to].Push(msg);
      assert forall t | 0 <= t < MAX_THREADS && t != to :: queues[t].Contents() == old(queues[t].Contents());
      if ok { accepted := accepted[to := accepted[to] + [msg]]; }
    }

    /** Pushes to one queue and wakes its owner, as both senders do. */
    method Deliver(to: nat, msg: Msg) returns (ok: bool)
      requires Valid() && to < |queues| == MAX_THREADS
      modifies queues[to], queues[to].msgs, sched.states, `accepted
      ensures Valid()
      ensures sched.states[..] == if ok && old(sched.states[to]) == Block then old(sched.states[..])[to := Ready]
              else old(sched.states[..])
      ensures ok <==> |old(queues[to].Contents())| < QUEUE_DEPTH - 1
      ensures accepted == if ok then old(accepted)[to := old(accepted[to]) + [msg]] else old(accepted)
      ensures queues[to].Contents() == if ok then old(queues[to].Contents()) + [msg] else old(queues[to].Contents())
    {
      hide RingContents, MsgQueue.Contents, LogsOk;
      ok := Post(to, msg);
      if ok && sched.states[to] == Block { sched.states[to] := Ready; }
    }

    /** A send by the running thread; `bufferOk` is the answer of `valid_buf` for the message it points to. */
    method Send(bufferOk: bool, to: nat, tag: nat, data: seq<nat>, ptr: nat, len: nat) returns (r: SendResult)
      requires Valid()
      modifies if to < MAX_THREADS then {queues[to], queues[to].msgs} else {}, sched.states, `accepted
      ensures Valid()
      ensures r == Fault <==> !bufferOk
      ensures r == Invalid <==> bufferOk && (to >= MAX_THREADS || old(sched.states[to]) == Dead)
      ensures r == Again <==>
              && bufferOk && to < MAX_THREADS && old(sched.states[to]) != Dead
              && |old(queues[to].Contents())| == 15
      ensures r != Sent ==> accepted == old(accepted) && sched.states[..] == old(sched.states[..])
      ensures r == Sent ==>
                && accepted == old(accepted)[to := old(accepted[to]) + [Msg(sched.cur, to, tag, data, ptr, len)]]
                && sched.states[..] == if old(sched.states[to]) == Block then old(sched.states[..])[to := Ready]
                   else old(sched.states[..])
    {
      if !bufferOk { return Fault; }
      if to >= MAX_THREADS { return Invalid; }
      if sched.states[to] == Dead { return Invalid; }
      var ok := Deliver(to, Msg(sched.cur, to, tag, data, ptr, len));
      if !ok { return Again; }
      return Sent;
    }

    /** A message from the kernel itself. */
    method KSend(to: nat, tag: nat, data: seq<nat>) returns (ok: bool)
      requires Valid()
      modifies if to < MAX_THREADS then {queues[to], queues[to].msgs} else {}, sched.states, `accepted
      ensures Valid()
      ensures ok <==>
              && to < MAX_THREADS && old(sched.states[to]) != Dead
              && |old(queues[to].Contents())| < QUEUE_DEPTH - 1
      ensures accepted == if ok then old(accepted)[to := old(accepted[to]) + [Msg(0, to, tag, data, 0, 0)]]
              else old(accepted)
      ensures sched.states[..] == if ok && old(sched.states[to]) == Block then old(sched.states[..])[to := Ready]
              else old(sched.states[..])
    {
      if to >= MAX_THREADS || sched.states[to] == Dead { return false; }
      ok := Deliver(to, Msg(0, to, tag, data, 0, 0));
    }

    method Take(c: nat) returns (got: Option<Msg>)
      requires LogsOk() && c < |queues| == MAX_THREADS
      modifies queues[c], `received
      ensures LogsOk()
      ensures got == None <==> old(queues[c].Contents()) == []
      ensures if got == None then queues[c].Contents() == old(queues[c].Contents())
              else old(queues[c].Contents()) == [got.value] + queues[c].Contents()
      ensures received == if got == None then old(received) else old(received)[c := old(received[c]) + [got.value]]
      ensures forall t | 0 <= t < MAX_THREADS && t != c :: queues[t].Contents() == old(queues[t].Contents())
    {
      hide RingContents, MsgQueue.Contents;
      got := queues[c].Pop();
      assert forall t | 0 <= t < MAX_THREADS && t != c :: queues[t].Contents() == old(queues[t].Contents());
      if got.Some? { received := received[c := received[c] + [got.value]]; }
    }

    /**
     One round of the receive loop of the running thread: a message, a refusal, or sleep until one arrives;
     `bufferOk` is the answer of `valid_buf` for the place that the message goes to.
     */
    method Recv(bufferOk: bool, block: bool) returns (r: RecvResult)
      requires Valid()
      modifies queues[sched.cur], sched.states, `received, `parked
      ensures Valid()
      ensures r == BadBuffer <==> !bufferOk
      ensures r == BadBuffer ==> queues[sched.cur].Contents() == old(queues[sched.cur].Contents())
      ensures r.Got? <==> bufferOk && old(queues[sched.cur].Contents()) != []
      ensures r.Got? ==>
                && old(queues[sched.cur].Contents()) == [r.msg] + queues[sched.cur].Contents()
                && received == old(received)[sched.cur := old(received[sched.cur]) + [r.msg]]
                   && sched.states[..] == old(sched.states[..])
      ensures !r.Got? ==> received == old(received) && (bufferOk ==> (r == Parked <==> block))
      ensures r == Parked ==> sched.states[..] == old(sched.states[..])[sched.cur := Block] && sched.cur in parked
      ensures r == Nothing || r == BadBuffer ==> sched.states[..] == old(sched.states[..])
    {
      assert |queues| == MAX_THREADS;
      hide RingContents, MsgQueue.Contents, LogsOk;
      if !bufferOk { return BadBuffer; }
      var c := sched.cur;
      var got := Take(c);
      if got.Some? { return Got(got.value); }
      if !block { return Nothing; }
      sched.states[c] := Block;
      parked := parked + {c};
      return Parked;
    }

    /**
     A timed sleep of the running thread, which a message also ends: `sys_sleep` up to the yield. The alarm is a sum
     of 64 bits; one that wraps around to 0 is no alarm.
     */
    method Sleep(now: nat, ticks: nat)
      requires Valid()
      modifies sched.states, sched.wakeTick, `parked
      ensures Valid()
      ensures ticks == 0 ==> sched.states[..] == old(sched.states[..]) && sched.wakeTick[..] == old(sched.wakeTick[..])
      ensures ticks > 0 ==>
                && sched.states[..] == old(sched.states[..])[sched.cur := Block]
                && sched.wakeTick[..] == old(sched.wakeTick[..])[sched.cur := (now + ticks) % WORD_LIMIT]
      ensures 0 < ticks && now + ticks < WORD_LIMIT ==> Asleep(sched.Now(), sched.cur, now + ticks)
    {
      if ticks == 0 { return; }
      sched.wakeTick[sched.cur] := (now + ticks) % WORD_LIMIT;
      sched.states[sched.cur] := Block;
      parked := parked - {sched.cur};
    }

    /** The scheduler puts nobody to sleep. */
    method Yield(tick: nat)
      requires Valid()
      modifies sched.states, sched.wakeTick, sched.ticks, sched`cur
      ensures Valid() && accepted == old(accepted) && received == old(received)
      ensures IsNext(Woken(old(sched.states[..]), old(sched.wakeTick[..]), tick), old(sched.cur), sched.cur)
    {
      ghost var before := sched.states[..];
      sched.Schedule(tick);
      NoNewSleeper(before, old(sched.wakeTick[..]), tick, old(sched.cur), sched.cur);
      assert forall t | 0 <= t < MAX_THREADS :: sched.states[t] == sched.states[..][t];
    }

    /** A thread ends, and its slot may be taken by a new one. */
    method SetState(t: nat, s: ThreadState)
      requires Valid() && t < MAX_THREADS && s != Block
      modifies sched.states
      ensures Valid() && sched.states[..] == old(sched.states[..])[t := s]
    {
      sched.states[t] := s;
    }
  }

  /** One queue for every thread, all apart. */
  ghost predicate QueuesOk(queues: seq<MsgQueue>)
    reads queues
  {
    && |queues| == MAX_THREADS
    && (forall t | 0 <= t < MAX_THREADS :: queues[t].Valid())
    && forall t, u | 0 <= t < u < MAX_THREADS :: queues[t] != queues[u] && queues[t].msgs != queues[u].msgs
  }

  lemma NoNewSleeper(s: States, wake: seq<nat>, tick: nat, cur: nat, next: nat)
    requires |wake| == MAX_THREADS && cur < MAX_THREADS && next < MAX_THREADS
    ensures forall t | 0 <= t < MAX_THREADS :: Switched(Woken(s, wake, tick), cur, next)[t] == Block ==> s[t] == Block
  {
  }

  /**
   In order and once each: what a thread received is always the beginning of what it was sent, and at most 15
   are on the way.
   */
  lemma ReceivedIsPrefix(accepted: seq<Msg>, received: seq<Msg>, q: MsgQueue)
    requires q.Valid() && accepted == received + q.Contents()
    ensures received <= accepted && |accepted| - |received| <= 15
    ensures forall k | |received| <= k < |accepted| :: accepted[k] == q.Contents()[k - |received|]
  {
  }
}
