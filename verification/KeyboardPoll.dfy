/** The keyboard's interrupt endpoint: one transfer is armed at a time, the controller completes it
    into the report buffer and posts an event, and the timer poll takes the event, reads the buffer
    and arms the next transfer. The poll looks at an event's slot and code only, so a late event of a
    control transfer counts as a report too. */
module KeyboardPoll {
  import opened Arith
  import opened ProducerRing
  import Ev = EventRing

  const INT_N: nat := 8
  const TRB_EVT_TRANSFER: nat := 32
  const CC_SUCCESS: nat := 1
  const CC_SHORT_PKT: nat := 13

  /** The most late events a device can still send; `ControlTransfers.LateEventsAtMostFive`. */
  const LATE_EVENTS: nat := 5

  /** The eight bytes of a boot keyboard report. */
  type Report = seq<nat>

  function SlotOf(t: Trb): nat {
    t.ctl / 0x80_0000 % 256
  }

  function EndpointOf(t: Trb): nat {
    t.ctl / 0x8000 % 32
  }

  function CodeOf(t: Trb): nat {
    t.dw2 / 0x100_0000 % 256
  }

  predicate IsSlotEvent(t: Trb, slot: nat) {
    TypeOf(t) == TRB_EVT_TRANSFER && SlotOf(t) == slot
  }

  predicate IsGood(t: Trb) {
    CodeOf(t) == CC_SUCCESS || CodeOf(t) == CC_SHORT_PKT
  }

  /** What an event is to the keyboard: not of its slot, of its interrupt endpoint, or of its slot but of
      another endpoint; and whether it reports success. */
  datatype Kind = Foreign | OwnGood | OwnBad | StrayGood | StrayBad

  function KindOf(t: Trb, slot: nat, ep: nat): Kind {
    if !IsSlotEvent(t, slot) then Foreign
    else if EndpointOf(t) == ep then (if IsGood(t) then OwnGood else OwnBad)
    else if IsGood(t) then StrayGood else StrayBad
  }

  function Count(q: seq<Trb>, kind: Kind, slot: nat, ep: nat): nat {
    if q == [] then 0 else (if KindOf(q[0], slot, ep) == kind then 1 else 0) + Count(q[1..], kind, slot, ep)
  }

  /** The Normal TRB that asks for eight bytes into the report buffer, with an event on completion. */
  function ArmTrb(bufPhys: nat): Trb {
    OfDwords(bufPhys % DWORD, bufPhys / DWORD, 8, TRB_NORMAL * 1024 + 32)
  }

  lemma ArmTrbShape(bufPhys: nat)
    ensures var t := ArmTrb(bufPhys);
      TypeOf(t) == TRB_NORMAL && t.cycle == 0 && LinkTarget(t) == bufPhys && t.dw2 == 8
  {
  }

  /** Event ring, transfer ring, slot and endpoint, report buffer, transfers the controller has fetched but
      not finished, and every report the device completed and the poll returned. */
  datatype Kbd = Kbd(
    ev: Ev.Events, tr: System, slot: nat, ep: nat, bufPhys: nat, buf: Report,
    inflight: seq<Trb>, completed: seq<Report>, returned: seq<Report>)

  function Unread(k: Kbd): seq<Trb>
    requires |k.ev.consumed| <= |k.ev.posted|
  {
    k.ev.posted[|k.ev.consumed|..]
  }

  predicate WellFormedKbd(k: Kbd) {
    Ev.WellFormed(k.ev) && WellFormed(k.tr)
  }

  // ---- the steps ----

  /** `take_hid_report`. */
  function Poll(k: Kbd): (Kbd, seq<Report>)
    requires WellFormedKbd(k)
  {
    var got := Ev.Look(k.ev.t, k.ev.kbd, k.ev.base, k.ev.erdp).2;
    var seen := k.(ev := Ev.PollLook(k.ev));
    if !k.ev.ready then (k, [])
    else if got == [] then (k, [])
    else if !IsSlotEvent(got[0], k.slot) then (seen, [])
    else if !IsGood(got[0]) then (seen, [])
    else (seen.(tr := Submit(k.tr, ArmTrb(k.bufPhys)), returned := k.returned + [k.buf]), [k.buf])
  }

  datatype Event = Polled | HwLooks | HwCompletes(report: Report, ev: Trb) | HwPosts(ev: Trb)

  /** The controller finishes the oldest fetched transfer into the buffer that TRB names. */
  function Complete(k: Kbd, report: Report, ev: Trb): Kbd
    requires WellFormedKbd(k)
  {
    if k.inflight == [] then k
    else k.(ev := Ev.PostEvent(k.ev, ev), inflight := k.inflight[1..], completed := k.completed + [report],
       buf := if LinkTarget(k.inflight[0]) == k.bufPhys then report else k.buf)
  }

  function Fetched(k: Kbd): Kbd
    requires WellFormedKbd(k)
  {
    var tr := HwStep(k.tr);
    k.(tr := tr, inflight := k.inflight + tr.fetched[if |k.tr.fetched| <= |tr.fetched| then |k.tr.fetched| else 0..])
  }

  /** Cursors off their rings would be stuck; the invariant shows none ever is. */
  function Step(k: Kbd, e: Event): Kbd {
    if !WellFormedKbd(k) then k
    else match e
    case Polled => Poll(k).0
    case HwLooks => Fetched(k)
    case HwCompletes(report, ev) => Complete(k, report, ev)
    case HwPosts(ev) => k.(ev := Ev.PostEvent(k.ev, ev))
  }

  /** Events of the keyboard's endpoint are completions of fetched transfers. Anything else may come too,
      late events of the slot's control endpoint included. */
  predicate Allowed(k: Kbd, e: Event) {
    match e
    case Polled => true
    case HwLooks => true
    case HwCompletes(_, ev) =>
      k.inflight != [] && (Ev.WellFormed(k.ev) ==> Ev.HasRoom(k.ev)) && KindOf(ev, k.slot, k.ep) in {OwnGood, OwnBad}
    case HwPosts(ev) =>
      (Ev.WellFormed(k.ev) ==> Ev.HasRoom(k.ev)) && KindOf(ev, k.slot, k.ep) !in {OwnGood, OwnBad}
  }

  predicate Run(k: Kbd, es: seq<Event>, k': Kbd)
    decreases |es|
  {
    if es == [] then k' == k
    else Allowed(k, es[0]) && Run(Step(k, es[0]), es[1..], k')
  }

  /** The reports the device completes in a run, in order. */
  function Reports(es: seq<Event>): seq<Report> {
    if es == [] then [] else (if es[0].HwCompletes? then [es[0].report] else []) + Reports(es[1..])
  }

  /** The events posted in a run, in order. */
  function Posts(es: seq<Event>): seq<Trb> {
    if es == [] then []
    else (if es[0].HwCompletes? || es[0].HwPosts? then [Body(es[0].ev)] else []) + Posts(es[1..])
  }

  // ---- counting events ----

  lemma {:induction false} CountConcat(a: seq<Trb>, b: seq<Trb>, kind: Kind, slot: nat, ep: nat)
    ensures Count(a + b, kind, slot, ep) == Count(a, kind, slot, ep) + Count(b, kind, slot, ep)
  {
    if a == [] {
      assert a + b == b;
    } else {
      assert (a + b)[0] == a[0] && (a + b)[1..] == a[1..] + b;
      CountConcat(a[1..], b, kind, slot, ep);
    }
  }

  lemma CountOne(t: Trb, kind: Kind, slot: nat, ep: nat)
    ensures Count([t], kind, slot, ep) == if KindOf(t, slot, ep) == kind then 1 else 0
  {
    assert [t][1..] == [];
  }

  /** One event more, for every kind. */
  lemma CountAppend(q: seq<Trb>, t: Trb, slot: nat, ep: nat)
    ensures forall kind ::
      Count(q + [t], kind, slot, ep) == Count(q, kind, slot, ep) + if KindOf(t, slot, ep) == kind then 1 else 0
    ensures forall kind ::
      Count([t] + q, kind, slot, ep) == Count(q, kind, slot, ep) + if KindOf(t, slot, ep) == kind then 1 else 0
  {
    forall kind
      ensures Count(q + [t], kind, slot, ep) == Count(q, kind, slot, ep) + if KindOf(t, slot, ep) == kind then 1 else 0
      ensures Count([t] + q, kind, slot, ep) == Count(q, kind, slot, ep) + if KindOf(t, slot, ep) == kind then 1 else 0
    {
      CountConcat(q, [t], kind, slot, ep);
      CountConcat([t], q, kind, slot, ep);
      CountOne(t, kind, slot, ep);
    }
  }

  /** The cycle bit says nothing about an event. */
  lemma BodySame(t: Trb, slot: nat, ep: nat)
    ensures KindOf(Body(t), slot, ep) == KindOf(t, slot, ep)
    ensures IsSlotEvent(Body(t), slot) <==> IsSlotEvent(t, slot)
    ensures IsGood(Body(t)) <==> IsGood(t)
  {
  }

  /** The poll's two tests let through exactly the good events of the slot. */
  lemma TakenIffGood(t: Trb, slot: nat, ep: nat)
    ensures IsSlotEvent(t, slot) && IsGood(t) <==> KindOf(t, slot, ep) in {OwnGood, StrayGood}
  {
  }

  /** The events of a kind consumed since position `from`, and those still unread. */
  function Seen(k: Kbd, from: nat, kind: Kind): nat
    requires from <= |k.ev.consumed|
  {
    Count(k.ev.consumed[from..], kind, k.slot, k.ep)
  }

  function Waiting(k: Kbd, kind: Kind): nat
    requires |k.ev.consumed| <= |k.ev.posted|
  {
    Count(Unread(k), kind, k.slot, k.ep)
  }

  // ---- the books, whatever happens ----

  ghost predicate Cursors(k: Kbd) {
    Ev.Inv(k.ev) && k.ev.ready && k.ev.consumed <= k.ev.posted && WellFormedKbd(k) && LinkHome(k.tr)
  }

  /** Every good event of the slot consumed has returned a report and armed a transfer, whatever endpoint
      it was of; and every transfer is in the ring, in flight, or completed and announced. */
  ghost predicate Tally(k: Kbd, from: nat) {
    && Cursors(k) && from <= |k.ev.consumed|
    && |k.tr.pushed| == 1 + Seen(k, from, OwnGood) + Seen(k, from, StrayGood)
    && |k.returned| == Seen(k, from, OwnGood) + Seen(k, from, StrayGood)
    && |k.tr.fetched| == |k.inflight| + |k.completed|
    && |k.completed| == Seen(k, from, OwnGood) + Seen(k, from, OwnBad) + Waiting(k, OwnGood) + Waiting(k, OwnBad)
  }

  /** Transfers armed and not yet seen to an end: in the ring, in flight, or announced by an unread event. */
  function Pending(k: Kbd): int
    requires |k.ev.consumed| <= |k.ev.posted|
  {
    Outstanding(k.tr) + |k.inflight| + Waiting(k, OwnGood) + Waiting(k, OwnBad)
  }

  /** One poll: nothing, or the oldest unread event taken, with a report and a new transfer exactly for a
      good event of the slot. */
  lemma PollTakes(k: Kbd)
    requires Cursors(k)
    ensures k.ev.consumed == k.ev.posted ==> Poll(k) == (k, [])
    ensures k.ev.consumed < k.ev.posted ==>
      var k', seen := Poll(k).0, k.ev.posted[|k.ev.consumed|];
      && Ev.Inv(k'.ev) && k'.ev.ready && Ev.WellFormed(k'.ev)
      && k'.ev.posted == k.ev.posted && k'.ev.consumed == k.ev.consumed + [seen] && k'.ev.consumed <= k'.ev.posted
      && Unread(k) == [seen] + Unread(k')
      && k' == k.(ev := k'.ev, tr := k'.tr, returned := k'.returned)
      && (if KindOf(seen, k.slot, k.ep) in {OwnGood, StrayGood}
          then Poll(k).1 == [k.buf] && k'.tr == Submit(k.tr, ArmTrb(k.bufPhys)) && k'.returned == k.returned + [k.buf]
          else Poll(k).1 == [] && k'.tr == k.tr && k'.returned == k.returned)
  {
    hide Ev.Inv, Ev.Look, Ev.PollLook, Submit, ArmTrb, KindOf, IsSlotEvent, IsGood, Body, LinkHome;
    Ev.PollTakes(k.ev);
    if k.ev.consumed < k.ev.posted {
      var seen, got := k.ev.posted[|k.ev.consumed|], Ev.Look(k.ev.t, k.ev.kbd, k.ev.base, k.ev.erdp).2[0];
      BodySame(got, k.slot, k.ep);
      TakenIffGood(seen, k.slot, k.ep);
      assert k.ev.posted[..|k.ev.consumed| + 1] == k.ev.consumed + [seen];
      assert k.ev.posted[|k.ev.consumed|..] == [seen] + k.ev.posted[|k.ev.consumed| + 1..];
    }
  }

  lemma TallyPoll(k: Kbd, from: nat)
    requires Tally(k, from)
    ensures Tally(Poll(k).0, from)
  {
    hide Ev.Inv, Poll, Submit, ArmTrb, KindOf, LinkHome, Count;
    PollTakes(k);
    var k' := Poll(k).0;
    if k.ev.consumed < k.ev.posted {
      var seen := k.ev.posted[|k.ev.consumed|];
      assert k'.ev.consumed[from..] == k.ev.consumed[from..] + [seen];
      CountAppend(k.ev.consumed[from..], seen, k.slot, k.ep);
      CountAppend(Unread(k'), seen, k.slot, k.ep);
      Armed(k);
    }
  }

  lemma Armed(k: Kbd)
    requires LinkHome(k.tr)
    ensures var tr := Submit(k.tr, ArmTrb(k.bufPhys));
      LinkHome(tr) && WellFormed(tr) && tr.pushed == k.tr.pushed + [ArmTrb(k.bufPhys)] && tr.fetched == k.tr.fetched
  {
    hide Push, LinkHome;
    ArmTrbShape(k.bufPhys);
    HomeIsWellFormed(k.tr);
    SubmitLinkHome(k.tr, ArmTrb(k.bufPhys));
    assert Body(ArmTrb(k.bufPhys)) == ArmTrb(k.bufPhys);
    HomeIsWellFormed(Submit(k.tr, ArmTrb(k.bufPhys)));
  }

  lemma HomeIsWellFormed(s: System)
    requires LinkHome(s)
    ensures WellFormed(s)
  {
  }

  lemma TallyFetch(k: Kbd, from: nat)
    requires Tally(k, from)
    ensures Tally(Fetched(k), from) && Fetched(k).ev == k.ev
  {
    hide Ev.Inv, HwStep, LinkHome, Count;
    HwLinkHome(k.tr);
    HomeIsWellFormed(HwStep(k.tr));
  }

  /** Posting one event, of whatever kind. */
  lemma Posted(k: Kbd, ev: Trb)
    requires Cursors(k) && Ev.HasRoom(k.ev)
    ensures var e := Ev.PostEvent(k.ev, ev);
      && Ev.Inv(e) && e.ready && Ev.WellFormed(e) && e.consumed == k.ev.consumed && e.consumed <= e.posted
      && e.posted == k.ev.posted + [Body(ev)] && e.posted[|e.consumed|..] == Unread(k) + [Body(ev)]
  {
    hide Ev.Inv, Ev.HasRoom, Ev.PostEvent, LinkHome, Body;
    Ev.PostGrows(k.ev, ev);
    Ev.Basics(Ev.PostEvent(k.ev, ev));
  }

  lemma TallyPost(k: Kbd, from: nat, e: Event)
    requires Tally(k, from) && Allowed(k, e) && (e.HwCompletes? || e.HwPosts?)
    ensures Tally(Step(k, e), from) && Step(k, e).ev.posted == k.ev.posted + [Body(e.ev)]
  {
    hide Ev.Inv, Ev.HasRoom, Ev.PostEvent, LinkHome, Count, KindOf, Body, LinkTarget;
    Posted(k, e.ev);
    BodySame(e.ev, k.slot, k.ep);
    CountAppend(Unread(k), Body(e.ev), k.slot, k.ep);
    assert Unread(Step(k, e)) == Unread(k) + [Body(e.ev)];
  }

  lemma SameKeyboard(k: Kbd, e: Event)
    ensures Step(k, e).slot == k.slot && Step(k, e).ep == k.ep && Step(k, e).bufPhys == k.bufPhys
    ensures !e.HwCompletes? ==> Step(k, e).completed == k.completed
  {
    hide Ev.PollLook, Ev.PostEvent, Ev.Look, Submit, HwStep, Ev.WellFormed;
  }

  lemma TallyStep(k: Kbd, from: nat, e: Event)
    requires Tally(k, from) && Allowed(k, e)
    ensures Tally(Step(k, e), from)
    ensures Step(k, e).ev.posted == k.ev.posted + Posts([e]) && Step(k, e).completed == k.completed + Reports([e])
  {
    hide Ev.Inv, Poll, Fetched, Ev.PostEvent, KindOf, Count, LinkHome, Ev.HasRoom;
    assert [e][1..] == [];
    SameKeyboard(k, e);
    match e
    case Polled =>
      TallyPoll(k, from);
      PollTakes(k);
    case HwLooks => TallyFetch(k, from);
    case _ => TallyPost(k, from, e);
  }

  // ---- the handover ----

  /** What enumeration leaves behind: a poll that owns the event ring, no unread event of the interrupt
      endpoint, which has had no transfer yet, and one armed transfer. Late control events may be unread. */
  ghost predicate ReadyToHandOver(ev: Ev.Events, slot: nat, ep: nat) {
    && Ev.Inv(ev) && !ev.ready && |ev.consumed| <= |ev.posted|
    && Count(ev.posted[|ev.consumed|..], OwnGood, slot, ep) == 0
    && Count(ev.posted[|ev.consumed|..], OwnBad, slot, ep) == 0
  }

  function Handover(ev: Ev.Events, trBase: nat, slot: nat, ep: nat, bufPhys: nat, buf: Report): Kbd {
    Kbd(Ev.HandOver(ev), Submit(Start(INT_N, trBase), ArmTrb(bufPhys)), slot, ep, bufPhys, buf, [], [], [])
  }

  /** The ring's own invariant, and every transfer asks for the report buffer. */
  ghost predicate RingGood(k: Kbd) {
    && Inv(k.tr) && |k.tr.prod.t| == INT_N && k.tr.fetched <= k.tr.pushed
    && AllArm(k.tr.pushed, k.bufPhys) && AllArm(k.inflight, k.bufPhys)
  }

  ghost predicate AllArm(q: seq<Trb>, bufPhys: nat) {
    forall i :: 0 <= i < |q| ==> q[i] == ArmTrb(bufPhys)
  }

  /** With no good stray consumed: what was returned is what was completed, in order, and an unread
      completion's report is in the buffer. */
  ghost predicate OnceEach(k: Kbd, from: nat)
    requires |k.ev.consumed| <= |k.ev.posted| && from <= |k.ev.consumed|
  {
    && Seen(k, from, OwnGood) <= |k.completed| && k.returned == k.completed[..Seen(k, from, OwnGood)]
    && (Waiting(k, OwnGood) + Waiting(k, OwnBad) > 0 ==> k.completed != [] && k.buf == k.completed[|k.completed| - 1])
  }

  /** The books, and what else holds as long as not too many good strays have been consumed. */
  ghost predicate Sound(k: Kbd, from: nat) {
    && Tally(k, from)
    && (Seen(k, from, StrayGood) <= LATE_EVENTS ==> RingGood(k))
    && (Seen(k, from, StrayGood) == 0 ==> OnceEach(k, from))
  }

  lemma HandoverInv(ev: Ev.Events, trBase: nat, slot: nat, ep: nat, bufPhys: nat, buf: Report)
    requires ReadyToHandOver(ev, slot, ep)
    ensures Sound(Handover(ev, trBase, slot, ep, bufPhys, buf), |ev.consumed|)
  {
    hide Inv, KindOf, LinkHome, Push, Start;
    var k, start := Handover(ev, trBase, slot, ep, bufPhys, buf), Start(INT_N, trBase);
    ArmTrbShape(bufPhys);
    StartInv(INT_N, trBase);
    InvLinkHome(INT_N, trBase);
    FreshStart(trBase);
    SubmitKeeps(start, ArmTrb(bufPhys));
    SubmitLinkHome(start, ArmTrb(bufPhys));
    HomeIsWellFormed(k.tr);
    assert Body(ArmTrb(bufPhys)) == ArmTrb(bufPhys);
    assert k.tr.pushed == [ArmTrb(bufPhys)];
    assert k.ev.consumed[|ev.consumed|..] == [];
  }

  lemma FreshStart(trBase: nat)
    ensures var s := Start(INT_N, trBase);
      |s.prod.t| == INT_N && s.pushed == [] && s.fetched == [] && Room(s) >= 6 && Sane(s.prod)
  {
  }

  // ---- what every step keeps ----

  /** Arming is safe while few transfers are pending. */
  lemma ArmedSafely(k: Kbd)
    requires RingGood(k) && WellFormed(k.tr) && Outstanding(k.tr) <= LATE_EVENTS
    ensures RingGood(k.(tr := Submit(k.tr, ArmTrb(k.bufPhys))))
  {
    hide Inv, Push;
    ArmTrbShape(k.bufPhys);
    RoomAtLeastSix(k.tr);
    SubmitKeeps(k.tr, ArmTrb(k.bufPhys));
    assert Body(ArmTrb(k.bufPhys)) == ArmTrb(k.bufPhys);
  }

  lemma RoomAtLeastSix(s: System)
    requires Inv(s) && |s.prod.t| == INT_N
    ensures Room(s) >= 6
  {
  }

  lemma RingPoll(k: Kbd, from: nat)
    requires Sound(k, from) && Tally(Poll(k).0, from)
    ensures Seen(Poll(k).0, from, StrayGood) <= LATE_EVENTS ==> RingGood(Poll(k).0)
  {
    hide Ev.Inv, Poll, Submit, KindOf, LinkHome, Count, Inv, AllArm, ArmTrb;
    PollTakes(k);
    var k' := Poll(k).0;
    if k.ev.consumed < k.ev.posted {
      var seen := k.ev.posted[|k.ev.consumed|];
      assert k'.ev.consumed[from..] == k.ev.consumed[from..] + [seen];
      CountAppend(k.ev.consumed[from..], seen, k.slot, k.ep);
      CountAppend(Unread(k'), seen, k.slot, k.ep);
      if KindOf(seen, k.slot, k.ep) in {OwnGood, StrayGood} && Seen(k', from, StrayGood) <= LATE_EVENTS {
        ArmedSafely(k);
        RingGoodOf(k', k.(tr := k'.tr));
      }
    }
  }

  lemma RingGoodOf(k: Kbd, k': Kbd)
    requires RingGood(k') && k.tr == k'.tr && k.inflight == k'.inflight && k.bufPhys == k'.bufPhys
    ensures RingGood(k)
  {
  }

  lemma OncePoll(k: Kbd, from: nat)
    requires Sound(k, from) && Tally(Poll(k).0, from)
    ensures Seen(Poll(k).0, from, StrayGood) == 0 ==> OnceEach(Poll(k).0, from)
  {
    hide Ev.Inv, Poll, Submit, KindOf, LinkHome, Count, Inv, AllArm, ArmTrb;
    PollTakes(k);
    var k' := Poll(k).0;
    if k.ev.consumed < k.ev.posted {
      var seen := k.ev.posted[|k.ev.consumed|];
      assert k'.ev.consumed[from..] == k.ev.consumed[from..] + [seen];
      CountAppend(k.ev.consumed[from..], seen, k.slot, k.ep);
      CountAppend(Unread(k'), seen, k.slot, k.ep);
      if Seen(k', from, StrayGood) == 0 && KindOf(seen, k.slot, k.ep) == OwnGood {
        assert |k.completed| == |k.returned| + 1;
        assert k.completed == k.returned + [k.buf];
      }
    }
  }

  lemma SoundFetch(k: Kbd, from: nat)
    requires Sound(k, from)
    ensures Sound(Fetched(k), from)
  {
    hide Ev.Inv, HwStep, LinkHome, Count, Inv, ArmTrb;
    TallyFetch(k, from);
    var k' := Fetched(k);
    assert Unread(k') == Unread(k);
    if Seen(k, from, StrayGood) <= LATE_EVENTS {
      HwGrowth(k.tr);
      Prefixes(HwStep(k.tr));
    }
  }

  lemma SoundPost(k: Kbd, from: nat, e: Event)
    requires Sound(k, from) && Allowed(k, e) && (e.HwCompletes? || e.HwPosts?)
    ensures Sound(Step(k, e), from)
  {
    hide Ev.Inv, Ev.HasRoom, Ev.PostEvent, LinkHome, Count, KindOf, Body, LinkTarget, Inv, ArmTrb;
    TallyPost(k, from, e);
    Posted(k, e.ev);
    BodySame(e.ev, k.slot, k.ep);
    CountAppend(Unread(k), Body(e.ev), k.slot, k.ep);
    var k' := Step(k, e);
    assert Unread(k') == Unread(k) + [Body(e.ev)];
    assert k'.ev.consumed == k.ev.consumed;
    ArmTrbShape(k.bufPhys);
  }

  lemma SoundStep(k: Kbd, from: nat, e: Event)
    requires Sound(k, from) && Allowed(k, e)
    ensures Sound(Step(k, e), from)
  {
    hide Tally, RingGood, OnceEach, Seen, Poll, Fetched, Complete, KindOf;
    match e
    case Polled =>
      Basics(k, from);
      TallyStep(k, from, e);
      RingPoll(k, from);
      OncePoll(k, from);
    case HwLooks =>
      Basics(k, from);
      SoundFetch(k, from);
    case _ => SoundPost(k, from, e);
  }

  lemma Basics(k: Kbd, from: nat)
    requires Tally(k, from)
    ensures Cursors(k) && WellFormedKbd(k) && |k.ev.consumed| <= |k.ev.posted| && from <= |k.ev.consumed|
  {
  }

  /** What one event posts, and what it completes. */
  lemma OneEvent(e: Event)
    ensures Posts([e]) == if e.HwCompletes? || e.HwPosts? then [Body(e.ev)] else []
    ensures Reports([e]) == if e.HwCompletes? then [e.report] else []
  {
    hide Body;
    assert [e][1..] == [];
  }

  lemma FirstOf(es: seq<Event>)
    requires es != []
    ensures Posts(es) == Posts([es[0]]) + Posts(es[1..]) && Reports(es) == Reports([es[0]]) + Reports(es[1..])
  {
    hide Body;
    OneEvent(es[0]);
  }

  lemma Joined<T>(a: seq<T>, b: seq<T>, c: seq<T>)
    ensures (a + b) + c == a + (b + c)
  {
  }

  lemma {:induction false} RunKeeps(k: Kbd, from: nat, es: seq<Event>, k': Kbd)
    requires Sound(k, from) && Run(k, es, k')
    ensures Sound(k', from) && k'.slot == k.slot && k'.ep == k.ep
    ensures k'.ev.posted == k.ev.posted + Posts(es) && k'.completed == k.completed + Reports(es)
    decreases |es|
  {
    hide Sound, Step, Allowed;
    if es != [] {
      hide Posts, Reports;
      var mid := Step(k, es[0]);
      SoundTally(k, from);
      SoundStep(k, from, es[0]);
      TallyStep(k, from, es[0]);
      SameKeyboard(k, es[0]);
      RunKeeps(mid, from, es[1..], k');
      FirstOf(es);
      Joined(k.ev.posted, Posts([es[0]]), Posts(es[1..]));
      Joined(k.completed, Reports([es[0]]), Reports(es[1..]));
    }
  }

  lemma SoundTally(k: Kbd, from: nat)
    requires Sound(k, from)
    ensures Tally(k, from)
  {
  }

  // ---- after any run ----

  /** The events announced since the handover: those unread then, and those posted since. */
  function Announced(ev: Ev.Events, es: seq<Event>): seq<Trb>
    requires |ev.consumed| <= |ev.posted|
  {
    ev.posted[|ev.consumed|..] + Posts(es)
  }

  lemma RunFromHandover(ev: Ev.Events, trBase: nat, slot: nat, ep: nat, bufPhys: nat, buf: Report, es: seq<Event>,
          k: Kbd)
    requires ReadyToHandOver(ev, slot, ep) && Run(Handover(ev, trBase, slot, ep, bufPhys, buf), es, k)
    ensures var from := |ev.consumed|;
      && Sound(k, from) && k.slot == slot && k.ep == ep && k.completed == Reports(es)
      && from <= |k.ev.consumed| <= |k.ev.posted|
      && k.ev.consumed[from..] + Unread(k) == Announced(ev, es)
    ensures forall kind :: Count(Announced(ev, es), kind, slot, ep) == Seen(k, |ev.consumed|, kind) + Waiting(k, kind)
  {
    hide Ev.Inv, RingGood, OnceEach, LinkHome, Run, Posts, Reports, Submit, ArmTrb, Start, Count, KindOf, Inv, WellFormed;
    var start, from := Handover(ev, trBase, slot, ep, bufPhys, buf), |ev.consumed|;
    HandoverInv(ev, trBase, slot, ep, bufPhys, buf);
    RunKeeps(start, from, es, k);
    assert start.completed + Reports(es) == Reports(es);
    assert (ev.posted + Posts(es))[from..] == ev.posted[from..] + Posts(es);
    assert k.ev.posted[from..] == k.ev.consumed[from..] + Unread(k);
    forall kind
      ensures Count(Announced(ev, es), kind, slot, ep) == Seen(k, from, kind) + Waiting(k, kind)
    {
      CountConcat(k.ev.consumed[from..], Unread(k), kind, slot, ep);
    }
  }

  /** The law of the poll, for every run whatsoever after the handover, with errors and late events of the
      slot in any number: the transfers armed are one more than the good events of the slot consumed,
      whatever their endpoint; each of those events returned a report; and the transfers pending are one,
      and one more for every good stray consumed, and one fewer for every error of the keyboard's own. */
  lemma ArmedLaw(ev: Ev.Events, trBase: nat, slot: nat, ep: nat, bufPhys: nat, buf: Report, es: seq<Event>, k: Kbd)
    requires ReadyToHandOver(ev, slot, ep) && Run(Handover(ev, trBase, slot, ep, bufPhys, buf), es, k)
    ensures |ev.consumed| <= |k.ev.consumed| <= |k.ev.posted|
    ensures var from := |ev.consumed|;
      var own, stray, errors := Seen(k, from, OwnGood), Seen(k, from, StrayGood), Seen(k, from, OwnBad);
      && |k.tr.pushed| == 1 + own + stray && |k.returned| == own + stray
      && Pending(k) == 1 + stray - errors
  {
    hide RingGood, OnceEach, Cursors, Run, Seen, Waiting;
    RunFromHandover(ev, trBase, slot, ep, bufPhys, buf, es, k);
  }

  /** The reports returned are the reports completed, in order and each once, exactly if no good event of
      another endpoint of the slot has been consumed. */
  lemma OnceEachIff(ev: Ev.Events, trBase: nat, slot: nat, ep: nat, bufPhys: nat, buf: Report, es: seq<Event>, k: Kbd)
    requires ReadyToHandOver(ev, slot, ep) && Run(Handover(ev, trBase, slot, ep, bufPhys, buf), es, k)
    ensures |ev.consumed| <= |k.ev.consumed| && k.completed == Reports(es)
    ensures Seen(k, |ev.consumed|, OwnGood) <= |k.completed|
    ensures k.returned == k.completed[..Seen(k, |ev.consumed|, OwnGood)] <==> Seen(k, |ev.consumed|, StrayGood) == 0
  {
    hide RingGood, Cursors, Run, Seen, Waiting;
    RunFromHandover(ev, trBase, slot, ep, bufPhys, buf, es, k);
  }

  // ---- runs without errors and strays ----

  /** With nothing in flight and nothing announced, the controller gets to the armed transfer in two looks. */
  lemma ArmedIsFetched(k: Kbd)
    requires WellFormedKbd(k) && RingGood(k) && k.inflight == [] && Outstanding(k.tr) == 1
    ensures WellFormedKbd(Fetched(k)) && |(if Parked(k.tr) then Fetched(Fetched(k)) else Fetched(k)).inflight| == 1
  {
    hide Inv, HwStep, AllArm;
    HwGrowth(k.tr);
    Prefixes(HwStep(k.tr));
    if Parked(k.tr) {
      LookUnparks(k.tr);
      HwGrowth(HwStep(k.tr));
    }
  }

  /** Main theorem: while every completion is good and no late control event is, over runs of any length,
      the reports returned are the reports the device completed, in order and at most one behind; exactly
      one transfer has been armed more than reports returned, so at most one is ever pending; and it is
      never lost: it is in the ring, where two looks put it in flight, or in flight, or announced by an
      unread event that a later poll turns into a report. */
  lemma PollNeverStalls(ev: Ev.Events, trBase: nat, slot: nat, ep: nat, bufPhys: nat, buf: Report, es: seq<Event>,
          k: Kbd)
    requires ReadyToHandOver(ev, slot, ep) && Run(Handover(ev, trBase, slot, ep, bufPhys, buf), es, k)
    requires Count(Announced(ev, es), OwnBad, slot, ep) == 0 && Count(Announced(ev, es), StrayGood, slot, ep) == 0
    ensures k.completed == Reports(es)
    ensures k.returned <= k.completed && |k.completed| <= |k.returned| + 1
    ensures |k.tr.pushed| == |k.returned| + 1
    ensures |k.ev.consumed| <= |k.ev.posted| && WellFormedKbd(k) && Pending(k) == 1
    ensures k.ev.consumed < k.ev.posted && KindOf(k.ev.posted[|k.ev.consumed|], slot, ep) == OwnGood ==>
      |k.returned| < |k.completed| && Poll(k).1 == [k.completed[|k.returned|]]
    ensures k.inflight == [] && Waiting(k, OwnGood) == 0 ==>
      && WellFormedKbd(Fetched(k))
      && |(if Parked(k.tr) then Fetched(Fetched(k)) else Fetched(k)).inflight| == 1
  {
    hide Inv, Ev.Inv, LinkHome, Run, Poll, Fetched, KindOf, Count, Posts, AllArm, HwStep, Announced;
    RunFromHandover(ev, trBase, slot, ep, bufPhys, buf, es, k);
    PollTakes(k);
    if k.ev.consumed < k.ev.posted {
      var seen := k.ev.posted[|k.ev.consumed|];
      CountAppend(Unread(k)[1..], seen, slot, ep);
      assert Unread(k) == [seen] + Unread(k)[1..];
    }
    OwnAtMostOne(k);
    if k.inflight == [] && Waiting(k, OwnGood) == 0 { ArmedIsFetched(k); }
  }

  lemma OwnAtMostOne(k: Kbd)
    requires |k.ev.consumed| <= |k.ev.posted| && RingGood(k) && Pending(k) == 1
    ensures Waiting(k, OwnGood) <= 1 && Outstanding(k.tr) >= 0
  {
  }

  // ---- exactly when the keyboard goes silent ----

  /** Nothing armed, in flight, or announced. */
  ghost predicate Dead(k: Kbd)
    requires |k.ev.consumed| <= |k.ev.posted|
  {
    Outstanding(k.tr) == 0 && k.inflight == [] && Waiting(k, OwnGood) == 0 && Waiting(k, OwnBad) == 0
  }

  /** In every run: the keyboard is dead exactly if the errors consumed are one more than the good strays
      consumed. A late success of another endpoint arms a transfer too, and so makes up for an error. */
  lemma DeadIff(ev: Ev.Events, trBase: nat, slot: nat, ep: nat, bufPhys: nat, buf: Report, es: seq<Event>, k: Kbd)
    requires ReadyToHandOver(ev, slot, ep) && Run(Handover(ev, trBase, slot, ep, bufPhys, buf), es, k)
    requires Count(Announced(ev, es), StrayGood, slot, ep) <= LATE_EVENTS
    ensures |ev.consumed| <= |k.ev.consumed| <= |k.ev.posted|
    ensures Dead(k) <==> Seen(k, |ev.consumed|, OwnBad) == 1 + Seen(k, |ev.consumed|, StrayGood)
  {
    hide Inv, Cursors, OnceEach, Run, Seen, Waiting, AllArm, Count, Announced;
    RunFromHandover(ev, trBase, slot, ep, bufPhys, buf, es, k);
  }

  /** A completion with any other code is consumed without a report and without arming again. */
  lemma ErrorKills(k: Kbd)
    requires Cursors(k) && Outstanding(k.tr) == 0 && k.inflight == []
    requires k.ev.consumed < k.ev.posted && Waiting(k, OwnGood) + Waiting(k, OwnBad) == 1
    requires KindOf(k.ev.posted[|k.ev.consumed|], k.slot, k.ep) == OwnBad
    ensures |Poll(k).0.ev.consumed| <= |Poll(k).0.ev.posted| && Dead(Poll(k).0) && Poll(k).1 == []
  {
    hide Ev.Inv, Poll, KindOf, Count, LinkHome;
    PollTakes(k);
    CountAppend(Unread(Poll(k).0), k.ev.posted[|k.ev.consumed|], k.slot, k.ep);
  }

  /** Nothing armed, nothing in flight, and no good event of the slot announced. */
  ghost predicate Lost(k: Kbd) {
    && Cursors(k) && RingGood(k) && Outstanding(k.tr) == 0 && k.inflight == []
    && Waiting(k, OwnGood) == 0 && Waiting(k, StrayGood) == 0
  }

  /** No further event of the slot comes from another endpoint. */
  predicate NoStrays(es: seq<Event>, slot: nat) {
    forall i :: 0 <= i < |es| ==> NoStray(es[i], slot)
  }

  predicate NoStray(e: Event, slot: nat) {
    e.HwPosts? ==> !IsSlotEvent(e.ev, slot)
  }

  lemma LostStep(k: Kbd, e: Event)
    requires Lost(k) && Allowed(k, e) && NoStray(e, k.slot)
    ensures Lost(Step(k, e)) && Step(k, e).returned == k.returned && Step(k, e).slot == k.slot
    ensures Waiting(k, OwnBad) == 0 ==>
      |Step(k, e).ev.consumed| <= |Step(k, e).ev.posted| && Waiting(Step(k, e), OwnBad) == 0
  {
    hide Ev.Inv, Inv, Poll, Ev.PostEvent, Ev.HasRoom, HwStep, LinkHome, Count, AllArm, Body, KindOf;
    SameKeyboard(k, e);
    var k' := Step(k, e);
    match e
    case Polled =>
      PollTakes(k);
      if k.ev.consumed < k.ev.posted {
        CountAppend(Unread(k'), k.ev.posted[|k.ev.consumed|], k.slot, k.ep);
      }
    case HwLooks =>
      HwGrowth(k.tr);
      HwLinkHome(k.tr);
      HomeIsWellFormed(HwStep(k.tr));
      Prefixes(HwStep(k.tr));
      assert k'.inflight == k.inflight && k'.tr.fetched == k.tr.fetched;
      assert Unread(k') == Unread(k);
    case HwPosts(ev) =>
      Posted(k, ev);
      BodySame(ev, k.slot, k.ep);
      ForeignIs(ev, k.slot, k.ep);
      CountAppend(Unread(k), Body(ev), k.slot, k.ep);
      assert Unread(k') == Unread(k) + [Body(ev)];
  }

  lemma ForeignIs(t: Trb, slot: nat, ep: nat)
    ensures !IsSlotEvent(t, slot) <==> KindOf(t, slot, ep) == Foreign
  {
  }

  lemma {:induction false} LostForGood(k: Kbd, es: seq<Event>, k': Kbd)
    requires Lost(k) && Run(k, es, k') && NoStrays(es, k.slot)
    ensures Lost(k') && k'.returned == k.returned
    ensures |k.ev.consumed| <= |k.ev.posted| && |k'.ev.consumed| <= |k'.ev.posted|
    ensures Waiting(k, OwnBad) == 0 ==> Waiting(k', OwnBad) == 0
    decreases |es|
  {
    hide Lost, Step, Allowed, NoStray, Waiting;
    LostBasics(k);
    if es != [] {
      assert NoStray(es[0], k.slot);
      assert NoStrays(es[1..], k.slot) by { assert forall i :: 0 <= i < |es[1..]| ==> es[1..][i] == es[i + 1]; }
      LostStep(k, es[0]);
      LostBasics(Step(k, es[0]));
      LostForGood(Step(k, es[0]), es[1..], k');
    }
  }

  lemma LostBasics(k: Kbd)
    requires Lost(k)
    ensures |k.ev.consumed| <= |k.ev.posted|
  {
  }

  /** A dead keyboard with no late success on its way is silent for good. */
  lemma DeadForGood(k: Kbd, es: seq<Event>, k': Kbd)
    requires Cursors(k) && RingGood(k) && Dead(k) && Waiting(k, StrayGood) == 0
    requires Run(k, es, k') && NoStrays(es, k.slot)
    ensures |k'.ev.consumed| <= |k'.ev.posted| && Dead(k') && k'.returned == k.returned
  {
    hide Run, Waiting, AllArm, Inv;
    LostForGood(k, es, k');
  }

  /** Some continuation without strays gets another report out of the polls. */
  ghost predicate CanReturn(k: Kbd) {
    exists more, k' :: Run(k, more, k') && NoStrays(more, k.slot) && |k'.returned| > |k.returned|
  }

  lemma CanReturnLater(k: Kbd, e: Event)
    requires Allowed(k, e) && NoStray(e, k.slot) && CanReturn(Step(k, e))
    requires |Step(k, e).returned| >= |k.returned| && Step(k, e).slot == k.slot
    ensures CanReturn(k)
  {
    hide Allowed, Step, NoStray;
    var more, k' :| Run(Step(k, e), more, k') && NoStrays(more, k.slot) && |k'.returned| > |Step(k, e).returned|;
    var all := [e] + more;
    assert all[0] == e && all[1..] == more;
    assert Run(k, all, k');
    assert NoStrays(all, k.slot) by { assert forall i :: 1 <= i < |all| ==> all[i] == more[i - 1]; }
  }

  lemma ReturnsNow(k: Kbd)
    requires |Step(k, Polled).returned| > |k.returned|
    ensures CanReturn(k)
  {
    hide Step;
    var k' := Step(k, Polled);
    assert [Polled][1..] == [];
    assert Run(k', [], k');
    assert Run(k, [Polled], k');
    assert NoStrays([Polled], k.slot);
  }

  /** A Transfer Event of a slot and endpoint with a completion code. */
  function TransferEvent(slot: nat, ep: nat, code: nat): Trb {
    OfDwords(0, 0, code * 0x100_0000, TRB_EVT_TRANSFER * 1024 + ep * 0x1_0000 + slot * 0x100_0000)
  }

  lemma TransferEventShape(slot: nat, ep: nat, code: nat)
    requires slot < 256 && ep < 32 && code < 256
    ensures var t := TransferEvent(slot, ep, code);
      TypeOf(t) == TRB_EVT_TRANSFER && SlotOf(t) == slot && EndpointOf(t) == ep && CodeOf(t) == code
  {
    var upper := 64 * (ep + 256 * slot) + 32;
    var dw3 := TRB_EVT_TRANSFER * 1024 + ep * 0x1_0000 + slot * 0x100_0000;
    assert dw3 == 2 * (512 * upper + 0) + 0;
    ModIs(512 * upper, 0, 2);
    ModIs(upper, 0, 512);
    ModIs(ep + 256 * slot, 32, 64);
    assert 512 * upper == 0x8000 * (ep + 256 * slot) + 512 * 32;
    ModIs(ep + 256 * slot, 512 * 32, 0x8000);
    assert ep + 256 * slot == 32 * (8 * slot) + ep;
    ModIs(8 * slot, ep, 32);
    assert 512 * upper == 0x80_0000 * slot + (0x8000 * ep + 512 * 32);
    ModIs(slot, 0x8000 * ep + 512 * 32, 0x80_0000);
    ModIs(0, slot, 256);
    assert code * 0x100_0000 == 0x100_0000 * code + 0;
    ModIs(code, 0, 0x100_0000);
    ModIs(0, code, 256);
  }

  lemma TransferEventKind(slot: nat, ep: nat, own: nat, code: nat)
    requires slot < 256 && ep < 32 && code < 256
    ensures KindOf(TransferEvent(slot, ep, code), slot, own) ==
      var good := code == CC_SUCCESS || code == CC_SHORT_PKT;
      if ep == own then (if good then OwnGood else OwnBad) else (if good then StrayGood else StrayBad)
  {
    hide TransferEvent;
    TransferEventShape(slot, ep, code);
  }

  /** A transfer in flight, once completed, is the next poll's report. */
  lemma InflightReturns(k: Kbd, report: Report)
    requires Cursors(k) && k.slot < 256 && k.ep < 32 && k.inflight != [] && k.ev.consumed == k.ev.posted
    ensures CanReturn(k)
  {
    hide Ev.Inv, Ev.HasRoom, Ev.PostEvent, Poll, KindOf, TransferEvent, LinkHome, Body, CanReturn, LinkTarget;
    var ev := TransferEvent(k.slot, k.ep, CC_SUCCESS);
    var e := HwCompletes(report, ev);
    TransferEventKind(k.slot, k.ep, k.ep, CC_SUCCESS);
    RoomWhenDrained(k.ev, ev);
    var k' := Step(k, e);
    Posted(k, ev);
    BodySame(ev, k.slot, k.ep);
    PollTakes(k');
    assert k'.ev.posted[|k'.ev.consumed|] == Body(ev);
    ReturnsNow(k');
    CanReturnLater(k, e);
  }

  lemma RoomWhenDrained(s: Ev.Events, ev: Trb)
    requires Ev.Inv(s) && s.consumed == s.posted
    ensures Ev.WellFormed(s) && Ev.HasRoom(s)
  {
    Ev.RoomIff(s, ev);
  }

  lemma LookKeepsCursors(k: Kbd)
    requires Cursors(k)
    ensures Cursors(Fetched(k)) && Step(k, HwLooks) == Fetched(k)
  {
    hide Ev.Inv, HwStep, LinkHome;
    HwLinkHome(k.tr);
    HomeIsWellFormed(HwStep(k.tr));
  }

  lemma DrainedReturns(k: Kbd)
    requires Cursors(k) && RingGood(k) && k.slot < 256 && k.ep < 32 && k.ev.consumed == k.ev.posted
    requires Outstanding(k.tr) + |k.inflight| > 0
    ensures CanReturn(k)
  {
    hide Ev.Inv, Inv, HwStep, LinkHome, AllArm, CanReturn;
    if k.inflight != [] {
      InflightReturns(k, []);
    } else {
      var k1 := Fetched(k);
      LookKeepsCursors(k);
      HwGrowth(k.tr);
      if Parked(k.tr) {
        LookUnparks(k.tr);
        LookKeepsCursors(k1);
        HwGrowth(k1.tr);
        InflightReturns(Fetched(k1), []);
        CanReturnLater(k1, HwLooks);
      } else {
        InflightReturns(k1, []);
      }
      CanReturnLater(k, HwLooks);
    }
  }

  /** While something is armed, in flight or announced for good, some continuation turns it into a report. */
  lemma {:induction false} AliveReturns(k: Kbd, from: nat)
    requires Sound(k, from) && k.slot < 256 && k.ep < 32
    requires Seen(k, from, StrayGood) + Waiting(k, StrayGood) <= LATE_EVENTS
    requires Outstanding(k.tr) + |k.inflight| + Waiting(k, OwnGood) + Waiting(k, StrayGood) > 0
    ensures CanReturn(k)
    decreases |k.ev.posted| - |k.ev.consumed|
  {
    hide Ev.Inv, Inv, Poll, KindOf, LinkHome, AllArm, CanReturn, OnceEach, Submit;
    if k.ev.consumed < k.ev.posted {
      var k', seen := Poll(k).0, k.ev.posted[|k.ev.consumed|];
      PollTakes(k);
      if KindOf(seen, k.slot, k.ep) in {OwnGood, StrayGood} {
        ReturnsNow(k);
      } else {
        hide Count;
        SoundStep(k, from, Polled);
        assert k'.ev.consumed[from..] == k.ev.consumed[from..] + [seen];
        CountAppend(k.ev.consumed[from..], seen, k.slot, k.ep);
        CountAppend(Unread(k'), seen, k.slot, k.ep);
        AliveReturns(k', from);
        CanReturnLater(k, Polled);
      }
    } else {
      assert Unread(k) == [];
      DrainedReturns(k);
    }
  }

  /** Main theorem about errors, for every run since the handover: the keyboard can deliver another report
      without help from strays if and only if the errors of its endpoint so far are no more than the good
      events of the slot's other endpoints. Without strays: if and only if every completion was good. */
  lemma SilentIff(ev: Ev.Events, trBase: nat, slot: nat, ep: nat, bufPhys: nat, buf: Report, es: seq<Event>, k: Kbd)
    requires ReadyToHandOver(ev, slot, ep) && Run(Handover(ev, trBase, slot, ep, bufPhys, buf), es, k)
    requires slot < 256 && ep < 32 && Count(Announced(ev, es), StrayGood, slot, ep) <= LATE_EVENTS
    ensures CanReturn(k) <==> Count(Announced(ev, es), OwnBad, slot, ep) <= Count(Announced(ev, es), StrayGood, slot, ep)
  {
    hide Run, Seen, Waiting, Count, Announced, Handover, Posts, NoStrays, OnceEach, Inv, AllArm, Cursors;
    RunFromHandover(ev, trBase, slot, ep, bufPhys, buf, es, k);
    if Count(Announced(ev, es), OwnBad, slot, ep) <= Count(Announced(ev, es), StrayGood, slot, ep) {
      AliveReturns(k, |ev.consumed|);
    } else {
      forall more, k' | Run(k, more, k') && NoStrays(more, k.slot)
        ensures k'.returned == k.returned
      {
        LostForGood(k, more, k');
      }
    }
  }

  // ---- a run of each kind that goes wrong ----

  const CC_TRANSACTION_ERROR: nat := 4

  lemma FreshHandover(base: nat, slot: nat, ep: nat)
    requires base % 16 == 0
    ensures ReadyToHandOver(Ev.Start(Ev.EVT_N, base), slot, ep)
  {
    Ev.StartInv(Ev.EVT_N, base);
  }

  /** One error: after it no continuation returns a report. */
  lemma ErrorSilences(base: nat, trBase: nat, slot: nat, ep: nat, bufPhys: nat, buf: Report)
    requires base % 16 == 0 && slot < 256 && ep < 32
    ensures var es := [HwLooks, HwCompletes(buf, TransferEvent(slot, ep, CC_TRANSACTION_ERROR))];
      exists k :: Run(Handover(Ev.Start(Ev.EVT_N, base), trBase, slot, ep, bufPhys, buf), es, k) && !CanReturn(k)
  {
    hide Inv, Ev.Inv, Step, KindOf, TransferEvent, LinkHome, Count, OnceEach, HwStep, CanReturn, Ev.HasRoom, AllArm;
    var ev, t := Ev.Start(Ev.EVT_N, base), TransferEvent(slot, ep, CC_TRANSACTION_ERROR);
    var es := [HwLooks, HwCompletes(buf, t)];
    var k0 := Handover(ev, trBase, slot, ep, bufPhys, buf);
    FreshHandover(base, slot, ep);
    HandoverInv(ev, trBase, slot, ep, bufPhys, buf);
    var k1 := Step(k0, HwLooks);
    FirstLook(k0);
    SoundStep(k0, 0, HwLooks);
    TransferEventKind(slot, ep, ep, CC_TRANSACTION_ERROR);
    RoomWhenDrained(k1.ev, t);
    var k2 := Step(k1, es[1]);
    RunOfTwo(k0, es[0], es[1]);
    assert es == [es[0], es[1]];
    CountErrors(ev, es, slot, ep);
    SilentIff(ev, trBase, slot, ep, bufPhys, buf, es, k2);
  }

  lemma FirstLook(k: Kbd)
    requires Sound(k, 0) && k.ev.consumed == k.ev.posted == []
    requires Outstanding(k.tr) == 1 && !Parked(k.tr) && k.inflight == []
    ensures var k' := Step(k, HwLooks);
      k'.inflight != [] && k'.ev == k.ev && k'.slot == k.slot && k'.ep == k.ep
  {
    hide Inv, HwStep;
    HwGrowth(k.tr);
  }

  lemma RunOfTwo(k: Kbd, a: Event, b: Event)
    requires Allowed(k, a) && Allowed(Step(k, a), b)
    ensures Run(k, [a, b], Step(Step(k, a), b))
  {
    hide Step, Allowed;
    assert [a, b][1..] == [b] && [b][1..] == [];
    assert Run(Step(Step(k, a), b), [], Step(Step(k, a), b));
    assert Run(Step(k, a), [b], Step(Step(k, a), b));
  }

  lemma CountErrors(ev: Ev.Events, es: seq<Event>, slot: nat, ep: nat)
    requires ev.posted == ev.consumed == [] && |es| == 2 && es[0].HwLooks? && es[1].HwCompletes?
    requires KindOf(es[1].ev, slot, ep) == OwnBad
    ensures Count(Announced(ev, es), OwnBad, slot, ep) == 1 && Count(Announced(ev, es), StrayGood, slot, ep) == 0
  {
    hide KindOf;
    FirstOf(es);
    OneEvent(es[0]);
    OneEvent(es[1]);
    assert es[1..] == [es[1]];
    assert Announced(ev, es) == [Body(es[1].ev)];
    BodySame(es[1].ev, slot, ep);
    CountOne(Body(es[1].ev), OwnBad, slot, ep);
    CountOne(Body(es[1].ev), StrayGood, slot, ep);
  }

  /** One late success of the control endpoint: the poll returns what the buffer held before the device has
      completed anything, and arms a second transfer. */
  lemma StrayIsReported(base: nat, trBase: nat, slot: nat, ep: nat, bufPhys: nat, buf: Report)
    requires base % 16 == 0 && slot < 256 && 1 < ep < 32
    ensures var es := [HwPosts(TransferEvent(slot, 1, CC_SUCCESS)), Polled];
      exists k :: Run(Handover(Ev.Start(Ev.EVT_N, base), trBase, slot, ep, bufPhys, buf), es, k)
        && k.completed == [] && k.returned == [buf] && |k.tr.pushed| == 2
        && |k.ev.consumed| <= |k.ev.posted| && Pending(k) == 2
  {
    hide Inv, Ev.Inv, Step, KindOf, TransferEvent, LinkHome, Count, OnceEach, HwStep, Ev.HasRoom, AllArm, Poll, Body;
    var ev, t := Ev.Start(Ev.EVT_N, base), TransferEvent(slot, 1, CC_SUCCESS);
    var es := [HwPosts(t), Polled];
    var k0 := Handover(ev, trBase, slot, ep, bufPhys, buf);
    FreshHandover(base, slot, ep);
    HandoverInv(ev, trBase, slot, ep, bufPhys, buf);
    TransferEventKind(slot, 1, ep, CC_SUCCESS);
    RoomWhenDrained(k0.ev, t);
    var k1 := Step(k0, es[0]);
    StrayPosted(k0, t);
    PollTakes(k1);
    BodySame(t, slot, ep);
    var k2 := Step(k1, Polled);
    RunOfTwo(k0, es[0], Polled);
    RunFromHandover(ev, trBase, slot, ep, bufPhys, buf, es, k2);
    assert k2 == Poll(k1).0 by { PolledIs(k1); }
    StraySeen(k2, Body(t));
  }

  lemma PolledIs(k: Kbd)
    requires WellFormedKbd(k)
    ensures Step(k, Polled) == Poll(k).0
  {
  }

  lemma StrayPosted(k: Kbd, t: Trb)
    requires Cursors(k) && Ev.HasRoom(k.ev)
    ensures var k' := Step(k, HwPosts(t));
      && Cursors(k') && k' == k.(ev := k'.ev)
      && k'.ev.consumed == k.ev.consumed && k'.ev.posted == k.ev.posted + [Body(t)]
  {
    hide Ev.Inv, Ev.HasRoom, Ev.PostEvent, LinkHome, Body;
    Posted(k, t);
  }

  lemma StraySeen(k: Kbd, t: Trb)
    requires Tally(k, 0) && k.ev.consumed == k.ev.posted == [t] && KindOf(t, k.slot, k.ep) == StrayGood
    ensures |k.tr.pushed| == 2 && Pending(k) == 2 && k.completed == []
  {
    hide KindOf;
    assert k.ev.consumed[0..] == [t] && Unread(k) == [];
    CountOne(t, OwnGood, k.slot, k.ep);
    CountOne(t, OwnBad, k.slot, k.ep);
    CountOne(t, StrayGood, k.slot, k.ep);
  }
}
