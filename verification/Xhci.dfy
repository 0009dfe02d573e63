/**
 The rings between the kernel and a USB host controller. Both sides know the place in the ring and a
 cycle bit that flips each time round; whoever reads takes an entry only if its cycle bit is the
 expected one (section 4.9.2 of the xHCI specification).
 */
module Xhci {
  import opened Options

  const RSIZ: nat := 255
  const TRB_LINK: nat := 6

  datatype Trb = Trb(param: nat, status: nat, ctrl: nat) {
    predicate Cycle() { ctrl % 2 == 1 }

    function Typ(): nat { ctrl / 1024 % 64 }

    /** The toggle-cycle flag of a link entry. */
    predicate Toggle() { ctrl / 2 % 2 == 1 }
  }

  const NO_TRB := Trb(0, 0, 0)

  /** `ctrl | bit`: a bit that is already set stays. */
  function OrCycle(ctrl: nat, bit: bool): nat {
    if bit && ctrl % 2 == 0 then ctrl + 1 else ctrl
  }

  function SetCycle(ctrl: nat, bit: bool): nat {
    ctrl - ctrl % 2 + if bit then 1 else 0
  }

  /** The place `k` entries after place `d`, and the cycle bit that is expected there. */
  function Place(d: nat, k: nat): nat
    requires d < RSIZ && k <= RSIZ
  {
    if d + k >= RSIZ then d + k - RSIZ else d + k
  }

  function Lap(d: nat, c: bool, k: nat): bool { if d + k >= RSIZ then !c else c }

  /**
   A reader at place `d` that expects cycle bit `c`, and a writer at place `enq` that writes `pcs`, with
   the entries `out` between them: those carry the expected bit, all others the opposite one.
   */
  ghost predicate Match(slots: seq<Trb>, enq: nat, pcs: bool, d: nat, c: bool, out: seq<Trb>) {
    && |slots| >= RSIZ && d < RSIZ && |out| <= RSIZ
    && enq == Place(d, |out|) && pcs == Lap(d, c, |out|)
    && (forall k | 0 <= k < |out| :: slots[Place(d, k)] == out[k] && out[k].Cycle() == Lap(d, c, k))
    && (forall k | |out| <= k < RSIZ :: slots[Place(d, k)].Cycle() != Lap(d, c, k))
  }

  /** Writing the next entry. */
  lemma Written(slots: seq<Trb>, enq: nat, pcs: bool, d: nat, c: bool, out: seq<Trb>, t: Trb)
    requires Match(slots, enq, pcs, d, c, out) && |out| < RSIZ && t.Cycle() == pcs
    ensures Match(slots[enq := t], if enq + 1 >= RSIZ then 0 else enq + 1, if enq + 1 >= RSIZ then !pcs
            else pcs, d, c, out + [t])
  {
    var slots', out' := slots[enq := t], out + [t];
    forall k | 0 <= k < RSIZ && k != |out|
      ensures slots'[Place(d, k)] == slots[Place(d, k)]
    {
    }
  }

  /** Reading the next entry: it is there exactly when something is outstanding. */
  lemma Readable(slots: seq<Trb>, enq: nat, pcs: bool, d: nat, c: bool, out: seq<Trb>)
    requires Match(slots, enq, pcs, d, c, out)
    ensures slots[d].Cycle() == c <==> out != []
    ensures out != [] ==> slots[d] == out[0]
  {
    assert Place(d, 0) == d;
  }

  lemma Taken(slots: seq<Trb>, enq: nat, pcs: bool, d: nat, c: bool, out: seq<Trb>)
    requires Match(slots, enq, pcs, d, c, out) && out != []
    ensures Match(slots, enq, pcs, if d + 1 >= RSIZ then 0 else d + 1, if d + 1 >= RSIZ then !c else c, out[1..])
  {
    var d', c' := if d + 1 >= RSIZ then 0 else d + 1, if d + 1 >= RSIZ then !c else c;
    forall k | 0 <= k < RSIZ - 1
      ensures Place(d', k) == Place(d, k + 1) && Lap(d', c', k) == Lap(d, c, k + 1)
    {
    }
    assert Place(d', RSIZ - 1) == Place(d, 0) && Lap(d', c', RSIZ - 1) != Lap(d, c, 0);
  }

  // ----- the command and transfer rings: the kernel writes, the controller reads -----

  /** The reader's own place: up to the link entry at the end, which it follows when it gets to it. */
  datatype Reader = Reader(deq: nat, ccs: bool)

  /** Where the reader really is once it has followed the link. */
  function Past(r: Reader): Reader {
    if r.deq == RSIZ then Reader(0, !r.ccs) else r
  }

  /** What a controller does at its place: nothing, or take the entry, following the link first if it stands there. */
  function ReadNext(slots: seq<Trb>, r: Reader): (res: (Option<Trb>, Reader))
    requires |slots| == RSIZ + 1 && r.deq <= RSIZ
    ensures res.1.deq <= RSIZ
  {
    var t := slots[r.deq];
    if t.Cycle() != r.ccs then (None, r)
    else if r.deq == RSIZ then ReadSlot(slots, Reader(0, if t.Toggle() then !r.ccs else r.ccs))
    else ReadSlot(slots, r)
  }

  function ReadSlot(slots: seq<Trb>, r: Reader): (Option<Trb>, Reader)
    requires |slots| == RSIZ + 1 && r.deq < RSIZ
  {
    if slots[r.deq].Cycle() != r.ccs then (None, r) else (Some(slots[r.deq]), Reader(r.deq + 1, r.ccs))
  }

  /**
   The ring with its reader: the outstanding entries are in order, and the link lets the reader through when it
   gets there.
   */
  ghost predicate RingOk(slots: seq<Trb>, enq: nat, pcs: bool, r: Reader, out: seq<Trb>) {
    && |slots| == RSIZ + 1 && r.deq <= RSIZ
    && slots[RSIZ].Typ() == TRB_LINK && slots[RSIZ].Toggle()
    && Match(slots, enq, pcs, Past(r).deq, Past(r).ccs, out)
    && (r.deq == RSIZ || r.deq + |out| >= RSIZ ==> slots[RSIZ].Cycle() == r.ccs)
    && (r.deq == RSIZ ==> |out| < RSIZ)
  }

  ghost function Pushed(slots: seq<Trb>, enq: nat, pcs: bool, t: Trb): seq<Trb>
    requires |slots| == RSIZ + 1 && enq < RSIZ
  {
    var s := slots[enq := t];
    if enq + 1 >= RSIZ then s[RSIZ := Trb(s[RSIZ].param, s[RSIZ].status, SetCycle(s[RSIZ].ctrl, pcs))] else s
  }

  class Ring {
    const phys: nat
    const slots: array<Trb>
    var enq: nat
    var pcs: bool

    constructor (page: nat)
      ensures Valid() && fresh(slots) && phys == page && enq == 0 && pcs
      ensures RingOk(slots[..], enq, pcs, Reader(0, true), []) && slots[RSIZ].param == page
    {
      phys := page;
      slots := new Trb[RSIZ + 1](_ => NO_TRB);
      enq, pcs := 0, true;
      new;
      slots[RSIZ] := Trb(page, 0, TRB_LINK * 1024 + 1 + 2);
    }

    ghost predicate Valid()
      reads this
    {
      slots.Length == RSIZ + 1 && enq < RSIZ
    }

    /** Writes one entry; at the end of the ring the link gets the cycle bit of the lap just finished. */
    method Push(param: nat, status: nat, ctrl: nat) returns (pa: nat)
      requires Valid()
      modifies this, slots
      ensures Valid() && pa == phys + 16 * old(enq)
      ensures slots[..] == Pushed(old(slots[..]), old(enq), old(pcs), Trb(param, status, OrCycle(ctrl, old(pcs))))
      ensures slots[old(enq)].param == param && slots[old(enq)].status == status
      ensures slots[old(enq)].ctrl / 2 == ctrl / 2 && (slots[old(enq)].Cycle() <==> old(pcs) || ctrl % 2 == 1)
      ensures slots[RSIZ].param == old(slots[RSIZ].param)
      ensures if old(enq) + 1 == RSIZ then enq == 0 && pcs == !old(pcs) else enq == old(enq) + 1 && pcs == old(pcs)
    {
      CycleSet(ctrl, pcs);
      var i := enq;
      slots[i] := Trb(param, status, OrCycle(ctrl, pcs));
      pa := phys + i * 16;
      enq := enq + 1;
      if enq >= RSIZ {
        var lnk := slots[RSIZ];
        slots[RSIZ] := Trb(lnk.param, lnk.status, SetCycle(lnk.ctrl, pcs));
        enq := 0;
        pcs := !pcs;
      }
    }
  }

  lemma CycleSet(ctrl: nat, bit: bool)
    ensures SetCycle(ctrl, bit) % 2 == (if bit then 1 else 0) && SetCycle(ctrl, bit) / 2 == ctrl / 2
    ensures SetCycle(ctrl, bit) / 1024 == ctrl / 1024
    ensures OrCycle(ctrl, bit) / 2 == ctrl / 2 && (OrCycle(ctrl, bit) % 2 == 1 <==> bit || ctrl % 2 == 1)
  {
    var h := ctrl / 2;
    assert ctrl == 2 * h + ctrl % 2;
    assert SetCycle(ctrl, bit) == 2 * h + if bit then 1 else 0;
    Halves(h, ctrl % 2);
    Halves(h, if bit then 1 else 0);
  }

  lemma Halves(h: nat, b: nat)
    requires b < 2
    ensures (2 * h + b) / 1024 == h / 512 && (2 * h + b) / 2 == h && (2 * h + b) % 2 == b
  {
    var a := h / 512;
    assert h == 512 * a + h % 512;
    assert 2 * h + b == 1024 * a + (2 * (h % 512) + b) && 2 * (h % 512) + b < 1024;
  }

  /**
   A push appends to what is outstanding when its control word leaves the cycle bit alone, or the lap's
   bit is set anyway, and when the reader, if it still stands at the link, is not lapped.
   */
  lemma PushAppends(slots: seq<Trb>, enq: nat, pcs: bool, r: Reader, out: seq<Trb>, t: Trb)
    requires RingOk(slots, enq, pcs, r, out) && |out| < (if r.deq == RSIZ then RSIZ - 1 else RSIZ) && t.Cycle() == pcs
    ensures var wrap := enq + 1 >= RSIZ;
            RingOk(Pushed(slots, enq, pcs, t), if wrap then 0 else enq + 1, if wrap then !pcs else pcs, r, out + [t])
  {
    var d, c := Past(r).deq, Past(r).ccs;
    Written(slots, enq, pcs, d, c, out, t);
    CycleSet(slots[RSIZ].ctrl, pcs);
    var s, s' := slots[enq := t], Pushed(slots, enq, pcs, t);
    var e, p := if enq + 1 >= RSIZ then 0 else enq + 1, if enq + 1 >= RSIZ then !pcs else pcs;
    SameSlots(s, s', e, p, d, c, out + [t]);
    assert s'[RSIZ].ctrl / 2 == s[RSIZ].ctrl / 2 && s'[RSIZ].ctrl / 1024 == s[RSIZ].ctrl / 1024;
  }

  lemma SameSlots(s: seq<Trb>, s': seq<Trb>, enq: nat, pcs: bool, d: nat, c: bool, out: seq<Trb>)
    requires Match(s, enq, pcs, d, c, out) && |s'| == |s| && forall k | 0 <= k < RSIZ :: s'[k] == s[k]
    ensures Match(s', enq, pcs, d, c, out)
  {
  }

  /** The controller reads exactly the oldest outstanding entry, never a stale one, across any number of laps. */
  lemma ReadsOldest(slots: seq<Trb>, enq: nat, pcs: bool, r: Reader, out: seq<Trb>)
    requires RingOk(slots, enq, pcs, r, out)
    ensures var (got, r') := ReadNext(slots, r);
            if out == [] then got == None && RingOk(slots, enq, pcs, r', [])
            else got == Some(out[0]) && RingOk(slots, enq, pcs, r', out[1..])
  {
    var d, c := Past(r).deq, Past(r).ccs;
    Readable(slots, enq, pcs, d, c, out);
    if out != [] { Taken(slots, enq, pcs, d, c, out); }
  }

  datatype Action = Produce(param: nat, status: nat, ctrl: nat) | Consume

  /** The entries pushed carry, in order, what the chosen ones among the first `n` actions ask for. */
  ghost predicate Delivers(pushed: seq<Trb>, actions: seq<Action>, chosen: seq<nat>, n: nat)
    requires n <= |actions|
  {
    && |chosen| == |pushed|
    && (forall k | 0 <= k < |chosen| :: chosen[k] < n && Carries(pushed[k], actions[chosen[k]]))
    && forall j, k | 0 <= j < k < |chosen| :: chosen[j] < chosen[k]
  }

  predicate Carries(t: Trb, a: Action) {
    a.Produce? && t.param == a.param && t.status == a.status && t.ctrl / 2 == a.ctrl / 2
  }

  /** How many entries may be outstanding before a push. */
  function Room(r: Reader): nat { if r.deq == RSIZ then RSIZ - 1 else RSIZ }

  /**
   Any interleaving of pushes, each with a clear cycle bit and only while there is room, and of reads:
   what was read is what was pushed, in order and once each, up to what is still outstanding.
   */
  method Exchange(ring: Ring, r0: Reader, ghost out0: seq<Trb>, actions: seq<Action>)
    returns (r: Reader, got: seq<Trb>, ghost pushed: seq<Trb>, ghost out: seq<Trb>, ghost chosen: seq<nat>)
    requires ring.Valid() && RingOk(ring.slots[..], ring.enq, ring.pcs, r0, out0)
    requires forall a <- actions | a.Produce? :: a.ctrl % 2 == 0
    modifies ring, ring.slots
    ensures ring.Valid() && RingOk(ring.slots[..], ring.enq, ring.pcs, r, out)
    ensures out0 + pushed == got + out
    ensures Delivers(pushed, actions, chosen, |actions|)
  {
    hide RingOk, Pushed, ReadNext;
    r, got, pushed, out, chosen := r0, [], [], out0, [];
    for i := 0 to |actions|
      invariant ring.Valid() && RingOk(ring.slots[..], ring.enq, ring.pcs, r, out)
      invariant out0 + pushed == got + out && Delivers(pushed, actions, chosen, i)
    {
      Sizes(ring.slots[..], ring.enq, ring.pcs, r, out);
      match actions[i] {
        case Produce(param, status, ctrl) =>
          var room := HasRoom(ring, r, out);
          if room {
            ghost var t := Trb(param, status, OrCycle(ctrl, ring.pcs));
            CycleSet(ctrl, ring.pcs);
            PushAppends(ring.slots[..], ring.enq, ring.pcs, r, out, t);
            var pa := ring.Push(param, status, ctrl);
            assert out0 + (pushed + [t]) == (out0 + pushed) + [t] == got + (out + [t]);
            pushed, out, chosen := pushed + [t], out + [t], chosen + [i];
          }
        case Consume =>
          ReadsOldest(ring.slots[..], ring.enq, ring.pcs, r, out);
          var (t, r') := ReadNext(ring.slots[..], r);
          r := r';
          if t.Some? {
            assert got + out == (got + [out[0]]) + out[1..];
            got := got + [t.value];
            out := out[1..];
          }
      }
    }
  }

  lemma Sizes(slots: seq<Trb>, enq: nat, pcs: bool, r: Reader, out: seq<Trb>)
    requires RingOk(slots, enq, pcs, r, out)
    ensures |slots| == RSIZ + 1 && r.deq <= RSIZ && |out| <= Room(r) && Past(r).deq < RSIZ
    ensures |out| < RSIZ ==> (enq == Past(r).deq <==> out == [])
    ensures |out| == (if enq > Past(r).deq || (enq == Past(r).deq && pcs == Past(r).ccs) then enq - Past(r).deq
            else enq + RSIZ - Past(r).deq)
  {
  }

  /** Room can be told from the two places and the two cycle bits. */
  method HasRoom(ring: Ring, r: Reader, ghost out: seq<Trb>) returns (b: bool)
    requires ring.Valid() && RingOk(ring.slots[..], ring.enq, ring.pcs, r, out)
    ensures b <==> |out| < Room(r)
  {
    Sizes(ring.slots[..], ring.enq, ring.pcs, r, out);
    var p := Past(r);
    var n := if ring.enq > p.deq || (ring.enq == p.deq && ring.pcs == p.ccs) then ring.enq - p.deq
        else ring.enq + RSIZ - p.deq;
    return n < Room(r);
  }

  // ----- when it does not hold -----

  /**
   In a lap whose bit is clear, an entry pushed with the bit set is invisible: to the controller the ring is as
   if nothing had been pushed, and it reads what was outstanding before and no more.
   */
  lemma PresetBitHides(slots: seq<Trb>, enq: nat, r: Reader, out: seq<Trb>, t: Trb, n: nat)
    requires RingOk(slots, enq, false, r, out) && |out| < Room(r) && t.Cycle()
    ensures RingOk(Pushed(slots, enq, false, t), enq, false, r, out)
    ensures ReadMany(Pushed(slots, enq, false, t), r, n) == if n < |out| then out[..n] else out
  {
    CycleSet(slots[RSIZ].ctrl, false);
    ReadsOutstanding(Pushed(slots, enq, false, t), enq, false, r, out, n);
  }

  /** What `n` looks at the ring yield. */
  function ReadMany(slots: seq<Trb>, r: Reader, n: nat): seq<Trb>
    requires |slots| == RSIZ + 1 && r.deq <= RSIZ
    decreases n
  {
    if n == 0 then [] else
    var (t, r') := ReadNext(slots, r);
    if t == None then [] else [t.value] + ReadMany(slots, r', n - 1)
  }

  lemma OneMoreLook(slots: seq<Trb>, r: Reader, n: nat)
    requires |slots| == RSIZ + 1 && r.deq <= RSIZ && n > 0
    ensures ReadMany(slots, r, n) == match ReadNext(slots, r).0
                                     case None => []
                                     case Some(t) => [t] + ReadMany(slots, ReadNext(slots, r).1, n - 1)
  {
  }

  /** Reading goes through what is outstanding and stops there. */
  lemma {:induction false} ReadsOutstanding(slots: seq<Trb>, enq: nat, pcs: bool, r: Reader, out: seq<Trb>, n: nat)
    requires |slots| == RSIZ + 1 && r.deq <= RSIZ && RingOk(slots, enq, pcs, r, out)
    ensures ReadMany(slots, r, n) == if n < |out| then out[..n] else out
    decreases n
  {
    if n > 0 {
      hide RingOk, ReadNext, ReadMany, Match;
      ReadsOldest(slots, enq, pcs, r, out);
      OneMoreLook(slots, r, n);
      if out != [] {
        ReadsOutstanding(slots, enq, pcs, ReadNext(slots, r).1, out[1..], n - 1);
        OneTaken(out, n);
      }
    }
  }

  lemma OneTaken(out: seq<Trb>, n: nat)
    requires out != [] && n > 0
    ensures [out[0]] + (if n - 1 < |out[1..]| then out[1..][..n - 1] else out[1..]) == if n < |out| then out[..n]
            else out
  {
  }

  /**
   A reader that still stands at the link when the writer finishes another lap sees nothing, with 255 entries
   outstanding.
   */
  lemma LappedAtTheLink(slots: seq<Trb>, enq: nat, pcs: bool, r: Reader, out: seq<Trb>, t: Trb)
    requires RingOk(slots, enq, pcs, r, out) && r.deq == RSIZ && |out| == RSIZ - 1
    ensures enq == RSIZ - 1 && ReadNext(Pushed(slots, enq, pcs, t), r).0 == None
  {
    CycleSet(slots[RSIZ].ctrl, pcs);
  }

  /** The control words of `ctrl_in` and `ctrl_out` have the bit set: they get through only in laps whose bit is set. */
  lemma PresetBitMatches(ctrl: nat, pcs: bool)
    ensures Trb(0, 0, OrCycle(ctrl, pcs)).Cycle() == pcs <==> ctrl % 2 == 0 || pcs
  {
    CycleSet(ctrl, pcs);
  }

  // ----- the event ring: the controller writes, the kernel reads -----

  class EvtRing {
    const phys: nat
    const slots: array<Trb>
    var deq: nat
    var ccs: bool

    constructor (page: nat)
      ensures Valid() && fresh(slots) && phys == page && Match(slots[..], 0, true, deq, ccs, [])
    {
      phys := page;
      slots := new Trb[RSIZ + 1](_ => NO_TRB);
      deq, ccs := 0, true;
    }

    ghost predicate Valid()
      reads this
    {
      slots.Length == RSIZ + 1 && deq < RSIZ
    }

    /** The oldest event the controller has posted, if there is one. */
    method Pop(ghost enq: nat, ghost pcs: bool, ghost out: seq<Trb>) returns (t: Option<Trb>)
      requires Valid() && Match(slots[..], enq, pcs, deq, ccs, out)
      modifies `deq, `ccs
      ensures Valid()
      ensures if out == [] then t == None && Match(slots[..], enq, pcs, deq, ccs, [])
              else t == Some(out[0]) && Match(slots[..], enq, pcs, deq, ccs, out[1..])
    {
      Readable(slots[..], enq, pcs, deq, ccs, out);
      var e := slots[deq];
      if e.Cycle() != ccs { return None; }
      Taken(slots[..], enq, pcs, deq, ccs, out);
      deq := deq + 1;
      if deq >= RSIZ {
        deq := 0;
        ccs := !ccs;
      }
      return Some(e);
    }
  }
}
