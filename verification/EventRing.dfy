/** The event ring (xHCI 1.2 section 4.9.4): the controller posts, the driver consumes by cycle bit
    and reports its position in ERDP. Enumeration code consumes first and then hands its position
    over to the timer poll. */
module EventRing {
  import opened ProducerRing

  const EVT_N: nat := 64

  /** A place on the ring and the cycle bit that goes with it. */
  datatype Cursor = Cursor(index: nat, cycle: nat)

  function Advance(c: Cursor, n: nat): Cursor
    requires c.cycle < 2
  {
    if c.index + 1 >= n then Cursor(0, 1 - c.cycle) else Cursor(c.index + 1, c.cycle)
  }

  /** `x | (1 << 3)`: the event handler busy bit, written back as 1 to clear it. */
  function WithBusyBit(x: nat): nat {
    if x / 8 % 2 == 1 then x else x + 8
  }

  function ErdpFor(base: nat, index: nat): nat {
    WithBusyBit(base + index * TRB_BYTES)
  }

  /** The slot ERDP names; the controller ignores its four low bits. */
  function ErdpIndex(base: nat, erdp: nat): int {
    (erdp - erdp % 16 - base) / TRB_BYTES
  }

  /** Ring memory, the controller's cursor, the enumeration code's and the poll's cursors, whether the
      poll has taken over, and every event posted and consumed so far. */
  datatype Events = Events(
    t: seq<Trb>, hw: Cursor, init: Cursor, kbd: Cursor, ready: bool,
    erdp: nat, base: nat, posted: seq<Trb>, consumed: seq<Trb>)

  function Active(s: Events): Cursor {
    if s.ready then s.kbd else s.init
  }

  function Start(n: nat, base: nat): Events
    requires n >= 2
  {
    Events(seq(n, i => ZERO_TRB), Cursor(0, 1), Cursor(0, 1), Cursor(0, 1), false, base, base, [], [])
  }

  /** One look by the driver: nothing new, or the event, with the cursor and ERDP moved on. */
  function Look(t: seq<Trb>, c: Cursor, base: nat, erdp: nat): (Cursor, nat, seq<Trb>)
    requires c.index < |t| && c.cycle < 2
  {
    var dw := t[c.index];
    if dw.cycle != c.cycle then (c, erdp, [])
    else
      var next := Advance(c, |t|);
      (next, ErdpFor(base, next.index), [dw])
  }

  datatype Event = Post(ev: Trb) | InitLooks | HandsOver | PollLooks

  predicate WellFormed(s: Events) {
    && |s.t| >= 2 && s.hw.index < |s.t| && s.hw.cycle < 2
    && s.init.index < |s.t| && s.init.cycle < 2
    && s.kbd.index < |s.t| && s.kbd.cycle < 2
  }

  /** A controller that honours ERDP does not advance its enqueue pointer onto it. */
  predicate HasRoom(s: Events)
    requires WellFormed(s)
  {
    Advance(s.hw, |s.t|).index != ErdpIndex(s.base, s.erdp)
  }

  function PostEvent(s: Events, ev: Trb): Events
    requires WellFormed(s)
  {
    s.(t := s.t[s.hw.index := ev.(cycle := s.hw.cycle)], hw := Advance(s.hw, |s.t|), posted := s.posted + [Body(ev)])
  }

  function InitLook(s: Events): Events
    requires WellFormed(s)
  {
    var (c, erdp, got) := Look(s.t, s.init, s.base, s.erdp);
    s.(init := c, erdp := erdp, consumed := s.consumed + Bodies(got))
  }

  function PollLook(s: Events): Events
    requires WellFormed(s)
  {
    var (c, erdp, got) := Look(s.t, s.kbd, s.base, s.erdp);
    s.(kbd := c, erdp := erdp, consumed := s.consumed + Bodies(got))
  }

  function HandOver(s: Events): Events {
    s.(kbd := s.init, ready := true)
  }

  function Bodies(q: seq<Trb>): seq<Trb> {
    if q == [] then [] else [Body(q[0])] + Bodies(q[1..])
  }

  /** Posting needs room; enumeration consumes before the handover and the poll after it. */
  predicate Allowed(s: Events, e: Event) {
    match e
    case Post(_) => WellFormed(s) ==> HasRoom(s)
    case InitLooks => !s.ready
    case HandsOver => !s.ready
    case PollLooks => s.ready
  }

  /** Cursors off the ring would be stuck; the invariant shows none ever is. */
  function Step(s: Events, e: Event): Events {
    if !WellFormed(s) then s
    else match e
    case Post(ev) => PostEvent(s, ev)
    case InitLooks => InitLook(s)
    case HandsOver => HandOver(s)
    case PollLooks => PollLook(s)
  }

  // ---- the invariant ----

  ghost predicate Inv(s: Events) {
    && WellFormed(s)
    && s.base % 16 == 0
    && s.consumed <= s.posted
    && (forall i :: 0 <= i < |s.posted| ==> s.posted[i].cycle == 0)
    && |s.posted| - |s.consumed| < |s.t|
    && Holds(s.t, |s.t|, Active(s).index, Active(s).cycle, s.posted[|s.consumed|..])
    && s.hw.index == SlotAt(|s.t|, Active(s).index, |s.posted| - |s.consumed|)
    && s.hw.cycle == BitAt(|s.t|, Active(s).index, Active(s).cycle, |s.posted| - |s.consumed|)
    && s.erdp - s.erdp % 16 == s.base + TRB_BYTES * Active(s).index
  }

  lemma StartInv(n: nat, base: nat)
    requires n >= 2 && base % 16 == 0
    ensures Inv(Start(n, base))
  {
  }

  lemma ErdpRoundTrip(base: nat, index: nat)
    requires base % 16 == 0
    ensures var e := ErdpFor(base, index); e - e % 16 == base + TRB_BYTES * index && e % 16 == 8
    ensures ErdpIndex(base, ErdpFor(base, index)) == index
  {
    var q := base / 16;
    assert base + index * TRB_BYTES == 16 * (q + index);
    assert ErdpFor(base, index) == 16 * (q + index) + 8;
  }

  lemma PostKeeps(s: Events, ev: Trb)
    requires Inv(s) && HasRoom(s)
    ensures Inv(PostEvent(s, ev))
  {
    hide Holds;
    var s', out := PostEvent(s, ev), s.posted[|s.consumed|..];
    var n, d := |s.t|, Active(s).index;
    assert |out| + 1 < n by {
      assert ErdpIndex(s.base, s.erdp) == d;
    }
    HoldsPush(s.t, s'.t, n, d, Active(s).cycle, out, Body(ev));
    assert s'.posted[|s'.consumed|..] == out + [Body(ev)];
  }

  /** Full means one slot short of the whole ring, and within that convention posting is allowed exactly
      when there is room. The event posted without room would still be readable, but it brings the
      controller's cursor onto the slot ERDP names, where a full ring looks like an empty one. */
  lemma RoomIff(s: Events, ev: Trb)
    requires Inv(s)
    ensures HasRoom(s) <==> |s.posted| - |s.consumed| < |s.t| - 1
    ensures Inv(PostEvent(s, ev)) <==> HasRoom(s)
    ensures HasRoom(s) <==> PostEvent(s, ev).hw.index != Active(s).index
    ensures Holds(PostEvent(s, ev).t, |s.t|, Active(s).index, Active(s).cycle, s.posted[|s.consumed|..] + [Body(ev)])
  {
    hide Holds;
    HoldsPush(s.t, PostEvent(s, ev).t, |s.t|, Active(s).index, Active(s).cycle, s.posted[|s.consumed|..], Body(ev));
    assert ErdpIndex(s.base, s.erdp) == Active(s).index;
    if HasRoom(s) {
      PostKeeps(s, ev);
    }
  }

  /** A look returns the oldest event not yet consumed, and nothing exactly when there is none. */
  lemma LookTakesOldest(s: Events)
    requires Inv(s)
    ensures var out := s.posted[|s.consumed|..];
      var (c, erdp, got) := Look(s.t, Active(s), s.base, s.erdp);
      && (out == [] ==> got == [] && c == Active(s) && erdp == s.erdp)
      && (out != [] ==>
            && got == [out[0].(cycle := Active(s).cycle)] && c == Advance(Active(s), |s.t|)
            && Holds(s.t, |s.t|, c.index, c.cycle, out[1..])
            && s.hw.index == SlotAt(|s.t|, c.index, |out| - 1)
            && s.hw.cycle == BitAt(|s.t|, c.index, c.cycle, |out| - 1))
  {
    hide Holds;
    var n, a, out := |s.t|, Active(s), s.posted[|s.consumed|..];
    FirstSlot(s.t, n, a.index, a.cycle, out);
    if out != [] {
      if a.index + 1 < n {
        HoldsPop(s.t, n, a.index, a.cycle, out);
      } else {
        HoldsPopWrap(s.t, n, a.cycle, out);
      }
    }
  }

  lemma LookKeeps(s: Events)
    requires Inv(s)
    ensures var s' := if s.ready then PollLook(s) else InitLook(s);
      && Inv(s')
      && s'.consumed == s.posted[..if |s.consumed| < |s.posted| then |s.consumed| + 1 else |s.consumed|]
  {
    hide Holds;
    var s' := if s.ready then PollLook(s) else InitLook(s);
    var out := s.posted[|s.consumed|..];
    LookTakesOldest(s);
    var (c, erdp, got) := Look(s.t, Active(s), s.base, s.erdp);
    if out != [] {
      assert Bodies(got) == [Body(got[0])];
      assert Body(got[0]) == out[0];
      ErdpRoundTrip(s.base, c.index);
      assert s'.posted[|s'.consumed|..] == out[1..];
    } else {
      assert s' == s;
    }
  }

  /** What the poll sees: the oldest unread event, or nothing exactly when all have been read. */
  lemma PollTakes(s: Events)
    requires Inv(s) && s.ready
    ensures WellFormed(s) && s.consumed <= s.posted
    ensures var got := Look(s.t, s.kbd, s.base, s.erdp).2;
      var s' := PollLook(s);
      && Inv(s') && s'.ready && s'.posted == s.posted && |s'.t| == |s.t|
      && (got == [] <==> s.consumed == s.posted)
      && (got == [] ==> s' == s)
      && WellFormed(s') && s'.consumed <= s'.posted
      && (got != [] ==>
            && |s.consumed| < |s.posted| && Body(got[0]) == s.posted[|s.consumed|]
            && s'.consumed == s.posted[..|s.consumed| + 1])
  {
    hide Holds;
    LookTakesOldest(s);
    LookKeeps(s);
  }

  lemma PostGrows(s: Events, ev: Trb)
    requires Inv(s) && WellFormed(s) && HasRoom(s)
    ensures var s' := PostEvent(s, ev);
      && Inv(s') && s'.ready == s.ready && s'.consumed == s.consumed && s'.posted == s.posted + [Body(ev)]
      && |s'.t| == |s.t| && s.consumed <= s.posted
  {
    PostKeeps(s, ev);
  }

  lemma Basics(s: Events)
    requires Inv(s)
    ensures WellFormed(s) && s.consumed <= s.posted
  {
  }

  lemma StepKeeps(s: Events, e: Event)
    requires Inv(s) && Allowed(s, e)
    ensures Inv(Step(s, e)) && |Step(s, e).t| == |s.t| && Step(s, e).base == s.base
    ensures Step(s, e).posted == s.posted + Posted([e])
  {
    hide Holds;
    match e
    case Post(ev) => PostKeeps(s, ev);
    case InitLooks => LookKeeps(s);
    case HandsOver =>
    case PollLooks => LookKeeps(s);
  }

  // ---- runs ----

  predicate Run(s: Events, es: seq<Event>, s': Events)
    decreases |es|
  {
    if es == [] then s' == s
    else Allowed(s, es[0]) && Run(Step(s, es[0]), es[1..], s')
  }

  /** The events a run's controller posts, in order. */
  function Posted(es: seq<Event>): seq<Trb> {
    if es == [] then [] else (if es[0].Post? then [Body(es[0].ev)] else []) + Posted(es[1..])
  }

  lemma {:induction false} RunKeeps(s: Events, es: seq<Event>, s': Events)
    requires Inv(s) && Run(s, es, s')
    ensures Inv(s') && s'.posted == s.posted + Posted(es) && |s'.t| == |s.t| && s'.base == s.base
    decreases |es|
  {
    hide Inv, Step, Allowed;
    if es != [] {
      StepKeeps(s, es[0]);
      RunKeeps(Step(s, es[0]), es[1..], s');
    }
  }

  /** Main theorem: over any run, before and after the handover and across any number of laps, the
      driver has consumed a prefix of the posted events -- each once, in order -- ERDP points at the
      driver's dequeue slot, and the next look takes the next event if there is one. */
  lemma EventsConsumedInOrder(base: nat, es: seq<Event>, s: Events)
    requires base % 16 == 0 && Run(Start(64, base), es, s)
    ensures WellFormed(s) && s.consumed <= Posted(es)
    ensures s.erdp - s.erdp % 16 == base + TRB_BYTES * Active(s).index
    ensures var s' := if s.ready then PollLook(s) else InitLook(s);
      if s.consumed == Posted(es) then s'.consumed == s.consumed
      else s'.consumed == Posted(es)[..|s.consumed| + 1]
  {
    hide Holds, Step, Allowed;
    StartInv(EVT_N, base);
    RunKeeps(Start(EVT_N, base), es, s);
    assert s.posted == Posted(es);
    LookKeeps(s);
  }
}
