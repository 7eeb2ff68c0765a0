/** Command and transfer rings (xHCI 1.2 sections 4.9.2 and 4.9.3): the driver enqueues TRBs, the
    controller dequeues them by comparing cycle bits, and the last slot is a Link TRB back to slot 0. */
module ProducerRing {

  const DWORD: nat := 0x1_0000_0000
  const TRB_NORMAL: nat := 1
  const TRB_LINK: nat := 6
  const TRB_BYTES: nat := 16

  /** A transfer request block. Its fourth double word is kept as two parts, `2 * ctl + cycle`. */
  datatype Trb = Trb(dw0: nat, dw1: nat, dw2: nat, ctl: nat, cycle: nat)

  const ZERO_TRB := Trb(0, 0, 0, 0, 0)

  function OfDwords(dw0: nat, dw1: nat, dw2: nat, dw3: nat): Trb {
    Trb(dw0, dw1, dw2, dw3 / 2, dw3 % 2)
  }

  function TypeOf(t: Trb): nat {
    t.ctl / 512 % 64
  }

  function ToggleOf(t: Trb): nat {
    t.ctl % 2
  }

  // ---- the driver's side ----

  datatype Producer = Producer(t: seq<Trb>, enq: nat, cycle: nat)

  function HomeLink(base: nat): Trb {
    OfDwords(base % DWORD, base / DWORD, 0, TRB_LINK * 1024 + 2 + 1)
  }

  /** A zeroed ring whose last slot is a Link TRB (toggle cycle set, cycle bit 1) to its own base. */
  function NewRing(n: nat, base: nat): Producer
    requires n >= 2
  {
    Producer(seq(n, i => if i == n - 1 then HomeLink(base) else ZERO_TRB), 0, 1)
  }

  predicate Sane(p: Producer) {
    |p.t| >= 3 && p.enq < |p.t| - 1 && p.cycle < 2
  }

  function Push(p: Producer, dw: Trb): (r: Producer)
    requires Sane(p)
    ensures Sane(r) && |r.t| == |p.t|
  {
    var last := |p.t| - 1;
    var t := p.t[p.enq := dw.(cycle := p.cycle)];
    if p.enq + 1 == last then Producer(t[last := t[last].(cycle := p.cycle)], 0, 1 - p.cycle)
    else Producer(t, p.enq + 1, p.cycle)
  }

  // ---- the controller's side ----

  datatype Consumer = Consumer(deq: nat, ccs: nat)

  datatype Fetch = Idle | Followed | Got(trb: Trb)

  function LinkTarget(t: Trb): nat {
    t.dw1 * DWORD + t.dw0
  }

  /** One look at the dequeue slot: not owned, a Link to follow, or a TRB to execute. */
  function Hw(t: seq<Trb>, base: nat, c: Consumer): (Consumer, Fetch)
    requires c.deq < |t| && c.ccs < 2
  {
    var trb := t[c.deq];
    if trb.cycle != c.ccs then (c, Idle)
    else if TypeOf(trb) == TRB_LINK then
      var target := LinkTarget(trb);
      (Consumer(if target < base then 0 else (target - base) / TRB_BYTES,
                if ToggleOf(trb) == 1 then 1 - c.ccs else c.ccs), Followed)
    else (Consumer(c.deq + 1, c.ccs), Got(trb))
  }

  // ---- both sides together ----

  /** `pushed` and `fetched` record every TRB the driver wrote and the controller took. */
  datatype System = System(prod: Producer, cons: Consumer, base: nat, pushed: seq<Trb>, fetched: seq<Trb>)

  function Outstanding(s: System): int {
    |s.pushed| - |s.fetched|
  }

  /** The controller has consumed a whole lap and has not yet looked at the Link TRB. */
  predicate Parked(s: System) {
    s.cons.deq == |s.prod.t| - 1
  }

  /** Where, and with which cycle state, the next TRB will be fetched. */
  function NextAt(s: System): Consumer
    requires s.cons.ccs < 2
  {
    if Parked(s) then Consumer(0, 1 - s.cons.ccs) else s.cons
  }

  /** The slot j places after slot d on a ring of `last` data slots, and the bit it carries on that visit. */
  function SlotAt(last: nat, d: nat, j: nat): nat
    requires d < last && j <= last
  {
    if d + j < last then d + j else d + j - last
  }

  function BitAt(last: nat, d: nat, e: nat, j: nat): nat
    requires e < 2
  {
    if d + j < last then e else 1 - e
  }

  /** From slot d on: the outstanding TRBs in order, then only slots that show the opposite bit. */
  ghost predicate Holds(t: seq<Trb>, last: nat, d: nat, e: nat, out: seq<Trb>) {
    && |t| >= last && d < last && e < 2 && |out| <= last
    && (forall j {:trigger SlotAt(last, d, j)} :: 0 <= j < |out| ==>
          t[SlotAt(last, d, j)] == out[j].(cycle := BitAt(last, d, e, j)))
    && (forall j {:trigger SlotAt(last, d, j)} :: |out| <= j < last ==>
          t[SlotAt(last, d, j)].cycle == 1 - BitAt(last, d, e, j))
  }

  ghost predicate Shape(s: System) {
    && Sane(s.prod)
    && s.cons.deq < |s.prod.t| && s.cons.ccs < 2
    && s.fetched <= s.pushed
    && (forall i :: 0 <= i < |s.pushed| ==> TypeOf(s.pushed[i]) != TRB_LINK && s.pushed[i].cycle == 0)
  }

  ghost predicate SlotsInv(s: System)
    requires Shape(s)
  {
    var last, at := |s.prod.t| - 1, NextAt(s);
    && Holds(s.prod.t, last, at.deq, at.ccs, s.pushed[|s.fetched|..])
    && s.prod.enq == SlotAt(last, at.deq, Outstanding(s))
    && s.prod.cycle == BitAt(last, at.deq, at.ccs, Outstanding(s))
  }

  /** The Link TRB is recognisable, points home, and is armed whenever the controller will need it. */
  ghost predicate LinkInv(s: System)
    requires Shape(s)
  {
    var n, last := Outstanding(s), |s.prod.t| - 1;
    var link := s.prod.t[last];
    && TypeOf(link) == TRB_LINK && ToggleOf(link) == 1 && LinkTarget(link) == s.base
    && (Parked(s) ==> n < last && link.cycle == s.cons.ccs)
    && (!Parked(s) && s.cons.deq + n >= last ==> link.cycle == s.cons.ccs)
  }

  ghost predicate Inv(s: System) {
    Shape(s) && SlotsInv(s) && LinkInv(s)
  }

  function Start(n: nat, base: nat): System
    requires n >= 3
  {
    System(NewRing(n, base), Consumer(0, 1), base, [], [])
  }

  lemma HomeLinkIsLink(base: nat)
    ensures var t := HomeLink(base);
      TypeOf(t) == TRB_LINK && ToggleOf(t) == 1 && LinkTarget(t) == base && t.cycle == 1
  {
  }

  lemma StartInv(n: nat, base: nat)
    requires n >= 3
    ensures Inv(Start(n, base))
  {
    HomeLinkIsLink(base);
    var s := Start(n, base);
    assert s.prod.t[n - 1] == HomeLink(base);
    assert forall i :: 0 <= i < n - 1 ==> s.prod.t[i] == ZERO_TRB;
  }

  /** The record keeps each TRB without the cycle bit the ring gave it. */
  function Body(t: Trb): Trb {
    t.(cycle := 0)
  }

  function Submit(s: System, dw: Trb): System
    requires Sane(s.prod)
  {
    s.(prod := Push(s.prod, dw), pushed := s.pushed + [Body(dw)])
  }

  function HwStep(s: System): System
    requires s.cons.deq < |s.prod.t| && s.cons.ccs < 2
  {
    var (c, f) := Hw(s.prod.t, s.base, s.cons);
    s.(cons := c, fetched := if f.Got? then s.fetched + [Body(f.trb)] else s.fetched)
  }

  /** The most TRBs that may be outstanding: one fewer while the controller is parked on the Link. */
  function Room(s: System): nat
    requires |s.prod.t| >= 2
  {
    if Parked(s) then |s.prod.t| - 2 else |s.prod.t| - 1
  }

  // ---- one slot written, one slot read ----

  lemma HoldsPush(t: seq<Trb>, t': seq<Trb>, last: nat, d: nat, e: nat, out: seq<Trb>, dw: Trb)
    requires Holds(t, last, d, e, out) && |out| < last && |t'| == |t| && dw.cycle == 0
    requires var i := SlotAt(last, d, |out|);
      && t'[i] == dw.(cycle := BitAt(last, d, e, |out|))
      && (forall k :: 0 <= k < last && k != i ==> t'[k] == t[k])
    ensures Holds(t', last, d, e, out + [dw])
  {
    forall j | 0 <= j < last && j != |out|
      ensures SlotAt(last, d, j) != SlotAt(last, d, |out|) && t'[SlotAt(last, d, j)] == t[SlotAt(last, d, j)]
    {
    }
  }

  lemma HoldsPop(t: seq<Trb>, last: nat, d: nat, e: nat, out: seq<Trb>)
    requires Holds(t, last, d, e, out) && out != [] && d + 1 < last
    ensures Holds(t, last, d + 1, e, out[1..])
  {
    forall j {:trigger SlotAt(last, d + 1, j)} | 0 <= j < last
      ensures SlotAt(last, d + 1, j) == if j + 1 < last then SlotAt(last, d, j + 1) else SlotAt(last, d, 0)
    {
    }
    assert t[SlotAt(last, d, 0)] == out[0].(cycle := BitAt(last, d, e, 0));
  }

  /** Taking the last TRB of a lap: the rest starts over at slot 0 with the opposite bit. */
  lemma HoldsPopWrap(t: seq<Trb>, last: nat, e: nat, out: seq<Trb>)
    requires last > 0 && Holds(t, last, last - 1, e, out) && out != []
    ensures Holds(t, last, 0, 1 - e, out[1..])
  {
    forall j | 0 <= j < last
      ensures SlotAt(last, 0, j) == if j + 1 < last then SlotAt(last, last - 1, j + 1) else SlotAt(last, last - 1, 0)
    {
    }
    assert t[SlotAt(last, last - 1, 0)] == out[0].(cycle := BitAt(last, last - 1, e, 0));
  }

  lemma FirstSlot(t: seq<Trb>, last: nat, d: nat, e: nat, out: seq<Trb>)
    requires Holds(t, last, d, e, out)
    ensures out != [] ==> t[d] == out[0].(cycle := e)
    ensures out == [] ==> t[d].cycle == 1 - e
  {
    assert SlotAt(last, d, 0) == d;
  }

  lemma SubmitKeeps(s: System, dw: Trb)
    requires Inv(s) && TypeOf(dw) != TRB_LINK && Outstanding(s) < Room(s)
    ensures Inv(Submit(s, dw))
  {
    hide Holds;
    var s' := Submit(s, dw);
    var last, at, out := |s.prod.t| - 1, NextAt(s), s.pushed[|s.fetched|..];
    HoldsPush(s.prod.t, s'.prod.t, last, at.deq, at.ccs, out, Body(dw));
    assert s'.pushed[|s'.fetched|..] == out + [Body(dw)];
  }

  /** One look by the controller: it follows the Link, or takes the oldest outstanding TRB, or idles. */
  lemma HwKeeps(s: System)
    requires Inv(s)
    ensures Inv(HwStep(s))
    ensures var f := Hw(s.prod.t, s.base, s.cons).1;
      && (f == Followed <==> Parked(s))
      && (f.Got? <==> !Parked(s) && Outstanding(s) > 0)
      && (f.Got? ==> Body(f.trb) == s.pushed[|s.fetched|])
  {
    hide Holds;
    var s' := HwStep(s);
    var last, d, e, out := |s.prod.t| - 1, s.cons.deq, s.cons.ccs, s.pushed[|s.fetched|..];
    if !Parked(s) {
      FirstSlot(s.prod.t, last, d, e, out);
      if out != [] {
        assert TypeOf(s.prod.t[d]) == TypeOf(out[0]);
        assert s'.pushed[|s'.fetched|..] == out[1..];
        if d + 1 < last {
          HoldsPop(s.prod.t, last, d, e, out);
        } else {
          HoldsPopWrap(s.prod.t, last, e, out);
        }
      }
    }
  }

  /** One submission too many -- the Link TRB restamped under a controller parked on it, or the slot
      of a TRB it has yet to fetch overwritten -- and the controller idles from the next look on. */
  lemma OverrunStalls(s: System, dw: Trb)
    requires Inv(s) && TypeOf(dw) != TRB_LINK && Outstanding(s) >= Room(s)
    ensures HwStep(Submit(s, dw)) == Submit(s, dw)
  {
    var last, at, out := |s.prod.t| - 1, NextAt(s), s.pushed[|s.fetched|..];
    if !Parked(s) {
      assert Outstanding(s) == last && s.prod.enq == at.deq;
    } else {
      assert s.prod.enq == last - 1;
    }
  }

  /** With room, two looks after a submission have executed the oldest outstanding TRB. */
  lemma SubmitProgresses(s: System, dw: Trb)
    requires Inv(s) && TypeOf(dw) != TRB_LINK && Outstanding(s) < Room(s)
    ensures WellFormed(Submit(s, dw)) && WellFormed(HwStep(Submit(s, dw)))
    ensures |HwStep(HwStep(Submit(s, dw))).fetched| > |s.fetched|
    ensures HwStep(HwStep(Submit(s, dw))).fetched <= s.pushed + [Body(dw)]
  {
    hide Inv, HwStep;
    Prefixes(s);
    SubmitKeeps(s, dw);
    var s' := Submit(s, dw);
    Prefixes(s');
    HwGrowth(s');
    Prefixes(HwStep(s'));
    HwGrowth(HwStep(s'));
    Prefixes(HwStep(HwStep(s')));
    Progress(s');
  }

  /** Exactly when is a submission safe: with room, the ring stays good and the controller gets to the
      oldest outstanding TRB in two looks; without, it never looks past where it is. */
  lemma SubmitSafeIff(s: System, dw: Trb)
    requires Inv(s) && TypeOf(dw) != TRB_LINK
    ensures WellFormed(Submit(s, dw)) && WellFormed(HwStep(Submit(s, dw)))
    ensures Outstanding(s) < Room(s) <==> Inv(Submit(s, dw))
    ensures Outstanding(s) < Room(s) <==> |HwStep(HwStep(Submit(s, dw))).fetched| > |s.fetched|
    ensures Outstanding(s) >= Room(s) <==> HwStep(Submit(s, dw)) == Submit(s, dw)
  {
    if Outstanding(s) < Room(s) {
      SubmitKeeps(s, dw);
      SubmitProgresses(s, dw);
    } else {
      OverrunStalls(s, dw);
    }
  }

  lemma OverrunRestamps(s: System, dw: Trb)
    requires Inv(s) && Outstanding(s) >= Room(s)
    ensures var s', last := Submit(s, dw), |s.prod.t| - 1;
      && Sane(s.prod) && s'.cons == s.cons && s'.prod.t[s.cons.deq].cycle != s.cons.ccs
      && (Parked(s) ==> s'.prod.enq == 0)
      && (!Parked(s) ==> s'.prod.enq == SlotAt(last, s.cons.deq, 1))
  {
  }

  lemma StuckIdles(s: System)
    requires WellFormed(s) && s.prod.t[s.cons.deq].cycle != s.cons.ccs
    ensures HwStep(s) == s
  {
  }

  function SubmitAll(s: System, dws: seq<Trb>): (r: System)
    requires Sane(s.prod)
    ensures Sane(r.prod) && |r.prod.t| == |s.prod.t| && r.cons == s.cons && r.fetched == s.fetched
  {
    if dws == [] then s else Submit(SubmitAll(s, dws[..|dws| - 1]), dws[|dws| - 1])
  }

  /** Up to a lap more, pushed from slot 0, leaves the Link TRB as it is. */
  lemma {:induction false} LapFromHome(s: System, dws: seq<Trb>)
    requires Sane(s.prod) && s.prod.enq == 0 && |dws| < |s.prod.t| - 1
    ensures var s' := SubmitAll(s, dws);
      s'.prod.enq == |dws| && s'.prod.t[|s.prod.t| - 1] == s.prod.t[|s.prod.t| - 1]
    decreases |dws|
  {
    if dws != [] { LapFromHome(s, dws[..|dws| - 1]); }
  }

  /** Up to a lap more, pushed from slot d, leaves the slot before the driver's alone until it gets there. */
  lemma {:induction false} LapFrom(s: System, d: nat, dws: seq<Trb>)
    requires Sane(s.prod) && d < |s.prod.t| - 1 && s.prod.enq == SlotAt(|s.prod.t| - 1, d, 1)
    requires |dws| < |s.prod.t| - 1
    ensures var s', last := SubmitAll(s, dws), |s.prod.t| - 1;
      && s'.prod.t[d] == s.prod.t[d]
      && (|dws| + 1 < last ==> s'.prod.enq == SlotAt(last, d, |dws| + 1))
    decreases |dws|
  {
    hide Body;
    if dws != [] {
      var n := |dws| - 1;
      LapFrom(s, d, dws[..n]);
      assert SlotAt(|s.prod.t| - 1, d, |dws|) != d;
    }
  }

  lemma {:induction false} SubmitFirst(s: System, dws: seq<Trb>)
    requires Sane(s.prod) && dws != []
    ensures SubmitAll(s, dws) == SubmitAll(Submit(s, dws[0]), dws[1..])
    decreases |dws|
  {
    hide Push, Body;
    var n := |dws| - 1;
    if n == 0 {
      assert dws[..n] == [] && dws[1..] == [] && SubmitAll(s, []) == s;
    } else {
      SubmitFirst(s, dws[..n]);
      assert dws[..n][1..] == dws[1..][..n - 1];
    }
  }

  /** More pushes do not help: for a whole lap of them the stalled controller idles at every look,
      although the ring is full of TRBs it has not executed. */
  lemma StallLasts(s: System, dws: seq<Trb>)
    requires Inv(s) && Outstanding(s) >= Room(s) && 0 < |dws| < |s.prod.t|
    ensures HwStep(SubmitAll(s, dws)) == SubmitAll(s, dws)
    ensures SubmitAll(s, dws).fetched == s.fetched
  {
    var first, rest := Submit(s, dws[0]), dws[1..];
    SubmitFirst(s, dws);
    OverrunRestamps(s, dws[0]);
    if Parked(s) {
      LapFromHome(first, rest);
    } else {
      LapFrom(first, s.cons.deq, rest);
    }
    StuckIdles(SubmitAll(s, dws));
  }

  /** One submission too many while the controller is parked on the Link: a full lap of TRBs is waiting
      and every look idles. */
  lemma ParkedOverrunStalls(s: System, dw: Trb)
    requires Inv(s) && TypeOf(dw) != TRB_LINK && Parked(s) && Outstanding(s) == |s.prod.t| - 2
    ensures Outstanding(Submit(s, dw)) == |s.prod.t| - 1
    ensures HwStep(Submit(s, dw)) == Submit(s, dw)
  {
    OverrunStalls(s, dw);
  }

  // ---- runs ----

  datatype Event = DriverPushes(dw: Trb) | ControllerLooks

  /** Every push finds room. Keeping to N - 2 outstanding TRBs is always enough for that. */
  predicate Allowed(s: System, e: Event) {
    e.DriverPushes? ==> TypeOf(e.dw) != TRB_LINK && |s.prod.t| >= 2 && Outstanding(s) < Room(s)
  }

  predicate WellFormed(s: System) {
    Sane(s.prod) && s.cons.deq < |s.prod.t| && s.cons.ccs < 2
  }

  function Step(s: System, e: Event): System {
    if !WellFormed(s) then s
    else match e
      case DriverPushes(dw) => Submit(s, dw)
      case ControllerLooks => HwStep(s)
  }

  lemma StepKeeps(s: System, e: Event)
    requires Inv(s) && Allowed(s, e)
    ensures Inv(Step(s, e)) && |Step(s, e).prod.t| == |s.prod.t|
    ensures Step(s, e).pushed == s.pushed + Handed([e])
  {
    match e
    case DriverPushes(dw) => SubmitKeeps(s, dw);
    case ControllerLooks => HwKeeps(s);
  }

  predicate Run(s: System, es: seq<Event>, s': System)
    decreases |es|
  {
    if es == [] then s' == s else Allowed(s, es[0]) && Run(Step(s, es[0]), es[1..], s')
  }

  /** The TRBs a run's pushes hand over, in order. */
  function Handed(es: seq<Event>): seq<Trb> {
    if es == [] then []
    else (if es[0].DriverPushes? then [Body(es[0].dw)] else []) + Handed(es[1..])
  }

  lemma HandedFirst(es: seq<Event>)
    requires es != []
    ensures Handed(es) == Handed([es[0]]) + Handed(es[1..])
  {
    assert [es[0]][1..] == [];
  }

  lemma {:induction false} RunKeeps(s: System, es: seq<Event>, s': System)
    requires Inv(s) && Run(s, es, s')
    ensures Inv(s') && s'.pushed == s.pushed + Handed(es) && |s'.prod.t| == |s.prod.t|
    decreases |es|
  {
    hide Inv, Step, Allowed;
    if es != [] {
      var mid := Step(s, es[0]);
      StepKeeps(s, es[0]);
      RunKeeps(mid, es[1..], s');
      HandedFirst(es);
      assert (s.pushed + Handed([es[0]])) + Handed(es[1..]) == s.pushed + (Handed([es[0]]) + Handed(es[1..]));
    }
  }

  lemma Prefixes(s: System)
    requires Inv(s)
    ensures s.fetched <= s.pushed && WellFormed(s)
  {
  }

  /** A look executes at most one TRB, the oldest one outstanding. */
  lemma HwGrowth(s: System)
    requires Inv(s) && WellFormed(s)
    ensures Inv(HwStep(s)) && HwStep(s).pushed == s.pushed && |HwStep(s).prod.t| == |s.prod.t|
    ensures s.fetched <= s.pushed
    ensures HwStep(s).fetched ==
      if !Parked(s) && Outstanding(s) > 0 then s.fetched + [s.pushed[|s.fetched|]] else s.fetched
  {
    HwKeeps(s);
  }

  /** The one Link TRB is the last slot and points home; whatever else goes wrong, the cursors stay on
      the ring. */
  predicate LinkHome(s: System) {
    && WellFormed(s) && TypeOf(s.prod.t[|s.prod.t| - 1]) == TRB_LINK
    && LinkTarget(s.prod.t[|s.prod.t| - 1]) == s.base
    && forall i :: 0 <= i < |s.prod.t| - 1 ==> TypeOf(s.prod.t[i]) != TRB_LINK
  }

  lemma InvLinkHome(n: nat, base: nat)
    requires n >= 3
    ensures LinkHome(Start(n, base))
  {
    HomeLinkIsLink(base);
  }

  lemma SubmitLinkHome(s: System, dw: Trb)
    requires LinkHome(s) && TypeOf(dw) != TRB_LINK
    ensures LinkHome(Submit(s, dw)) && |Submit(s, dw).prod.t| == |s.prod.t|
  {
  }

  lemma HwLinkHome(s: System)
    requires LinkHome(s)
    ensures LinkHome(HwStep(s)) && HwStep(s).pushed == s.pushed && |HwStep(s).prod.t| == |s.prod.t|
    ensures s.fetched <= HwStep(s).fetched && |HwStep(s).fetched| <= |s.fetched| + 1
  {
  }

  /** A look at the Link TRB takes the controller off it and executes nothing. */
  lemma LookUnparks(s: System)
    requires Inv(s) && WellFormed(s) && Parked(s)
    ensures !Parked(HwStep(s)) && HwStep(s).fetched == s.fetched && HwStep(s).pushed == s.pushed
  {
  }

  /** The controller never needs more than two looks to get at the next outstanding TRB. */
  lemma Progress(s: System)
    requires Inv(s) && WellFormed(s)
    ensures Inv(HwStep(s)) && WellFormed(HwStep(s))
    ensures Outstanding(s) == 0 ==> HwStep(s).fetched == s.fetched
    ensures Outstanding(s) > 0 ==>
      (if Parked(s) then HwStep(HwStep(s)) else HwStep(s)).fetched == s.pushed[..|s.fetched| + 1]
  {
    HwKeeps(s);
    Prefixes(HwStep(s));
    if Parked(s) {
      assert HwStep(s).fetched == s.fetched && HwStep(s).pushed == s.pushed;
      HwKeeps(HwStep(s));
    }
  }

  /** Main theorem: over any run whose pushes find room -- at most N - 2 TRBs outstanding, or one more
      once the controller is off the Link -- and across any number of laps, what the controller has
      executed is a prefix of what the driver pushed -- in order, nothing twice, nothing stale -- and
      whenever something is outstanding, at most two more looks execute it. */
  lemma RingRefinesQueue(n: nat, base: nat, es: seq<Event>, s: System)
    requires n >= 3 && Run(Start(n, base), es, s)
    ensures Inv(s) && s.fetched <= Handed(es)
    ensures WellFormed(s) && WellFormed(HwStep(s))
    ensures s.fetched < Handed(es) ==>
      (if Parked(s) then HwStep(HwStep(s)) else HwStep(s)).fetched == Handed(es)[..|s.fetched| + 1]
    ensures s.fetched == Handed(es) ==> HwStep(s).fetched == s.fetched
  {
    hide Inv, Step, HwStep;
    StartInv(n, base);
    RunKeeps(Start(n, base), es, s);
    assert s.pushed == Handed(es);
    Prefixes(s);
    Progress(s);
  }
}
