/** A driver that pushes TRBs in batches -- a command, a control transfer -- and waits a while after each:
    exactly when every push finds room, what is then executed, and what becomes of a ring that was
    overrun. */
module RingBatches {
  import opened Arith
  import opened ProducerRing

  /** Some TRBs, and how often the controller looks at the ring before the driver goes on. */
  datatype Batch = Batch(trbs: seq<Trb>, looks: nat)

  predicate NoLinks(dws: seq<Trb>) {
    forall i :: 0 <= i < |dws| ==> TypeOf(dws[i]) != TRB_LINK
  }

  predicate GoodBatches(bs: seq<Batch>) {
    forall i :: 0 <= i < |bs| ==> bs[i].trbs != [] && NoLinks(bs[i].trbs)
  }

  function Pushing(dws: seq<Trb>): seq<Event> {
    if dws == [] then [] else [DriverPushes(dws[0])] + Pushing(dws[1..])
  }

  function Looking(n: nat): seq<Event> {
    if n == 0 then [] else [ControllerLooks] + Looking(n - 1)
  }

  function EventsOf(bs: seq<Batch>): seq<Event> {
    if bs == [] then [] else Pushing(bs[0].trbs) + (Looking(bs[0].looks) + EventsOf(bs[1..]))
  }

  /** All the TRBs pushed, in order. */
  function AllTrbs(bs: seq<Batch>): seq<Trb> {
    if bs == [] then [] else bs[0].trbs + AllTrbs(bs[1..])
  }

  function StepAll(s: System, es: seq<Event>): System
    decreases |es|
  {
    if es == [] then s else StepAll(Step(s, es[0]), es[1..])
  }

  /** Every push finds room on the ring. */
  predicate Permitted(s: System, es: seq<Event>) {
    Run(s, es, StepAll(s, es))
  }

  function After(s: System, bs: seq<Batch>): System {
    StepAll(s, EventsOf(bs))
  }

  predicate HasRoom(s: System, n: nat) {
    |s.prod.t| >= 2 && Outstanding(s) + n <= Room(s)
  }

  /** Each batch, when it begins, finds room for all its TRBs. */
  predicate Fits(s: System, bs: seq<Batch>) {
    forall i :: 0 <= i < |bs| ==> HasRoom(After(s, bs[..i]), |bs[i].trbs|)
  }

  // ---- one batch after the other ----

  lemma {:induction false} Appended(s: System, a: seq<Event>, b: seq<Event>)
    ensures StepAll(s, a + b) == StepAll(StepAll(s, a), b)
    ensures Permitted(s, a + b) <==> Permitted(s, a) && Permitted(StepAll(s, a), b)
    decreases |a|
  {
    hide Step, Allowed;
    if a == [] {
      assert a + b == b;
    } else {
      assert (a + b)[0] == a[0] && (a + b)[1..] == a[1..] + b;
      Appended(Step(s, a[0]), a[1..], b);
    }
  }

  lemma NoBatches(s: System)
    ensures EventsOf([]) == [] && After(s, []) == s && Permitted(s, [])
  {
  }

  /** Pushing a few TRBs in a row is permitted exactly if they fit. */
  lemma {:induction false} PushingFits(s: System, dws: seq<Trb>)
    requires Inv(s) && dws != [] && NoLinks(dws)
    ensures WellFormed(s) && (Permitted(s, Pushing(dws)) <==> HasRoom(s, |dws|))
    ensures Permitted(s, Pushing(dws)) ==>
      var s' := StepAll(s, Pushing(dws));
      Inv(s') && |s'.prod.t| == |s.prod.t| && Outstanding(s') == Outstanding(s) + |dws|
    decreases |dws|
  {
    hide Inv, TypeOf, Push;
    var e, rest := DriverPushes(dws[0]), dws[1..];
    var s' := Step(s, e);
    Prefixes(s);
    assert Pushing(dws)[0] == e && Pushing(dws)[1..] == Pushing(rest);
    assert Permitted(s, Pushing(dws)) <==> Allowed(s, e) && Permitted(s', Pushing(rest));
    if Allowed(s, e) {
      StepKeeps(s, e);
      assert Outstanding(s') == Outstanding(s) + 1 && Room(s') == Room(s);
      if rest != [] {
        PushingFits(s', rest);
      } else {
        NoBatches(s');
      }
    }
  }

  /** Looks change nothing on the driver's side. */
  lemma {:induction false} LookingKeeps(s: System, n: nat)
    requires Inv(s)
    ensures var s' := StepAll(s, Looking(n));
      && Permitted(s, Looking(n)) && Inv(s')
      && s'.prod == s.prod && s'.base == s.base && s'.pushed == s.pushed
      && 0 <= Outstanding(s') <= Outstanding(s)
    decreases n
  {
    hide Inv, HwStep;
    Prefixes(s);
    if n > 0 {
      HwGrowth(s);
      HwSide(s);
      assert Looking(n)[0] == ControllerLooks && Looking(n)[1..] == Looking(n - 1);
      LookingKeeps(HwStep(s), n - 1);
    }
  }

  lemma HwSide(s: System)
    requires WellFormed(s)
    ensures HwStep(s).prod == s.prod && HwStep(s).base == s.base && HwStep(s).pushed == s.pushed
  {
  }

  lemma Regroup(a: seq<Event>, b: seq<Event>, c: seq<Event>, d: seq<Event>)
    ensures (a + (b + c)) + d == a + (b + (c + d))
    ensures a + (b + []) == a + b && [] + d == d
  {
  }

  lemma OneBatch(b: Batch)
    ensures EventsOf([b]) == Pushing(b.trbs) + Looking(b.looks)
  {
    assert [b][0] == b && [b][1..] == [] && EventsOf([]) == [];
    Regroup(Pushing(b.trbs), Looking(b.looks), [], []);
  }

  lemma {:induction false} EventsSplit(bs: seq<Batch>, i: nat)
    requires i <= |bs|
    ensures EventsOf(bs) == EventsOf(bs[..i]) + EventsOf(bs[i..])
    decreases i
  {
    if i == 0 {
      assert bs[..0] == [] && bs[0..] == bs;
    } else {
      var init := bs[..i];
      assert init[0] == bs[0];
      assert init[1..] == bs[1..][..i - 1];
      assert bs[i..] == bs[1..][i - 1..];
      EventsSplit(bs[1..], i - 1);
      hide EventsOf;
      Regroup(Pushing(bs[0].trbs), Looking(bs[0].looks), EventsOf(init[1..]), EventsOf(bs[i..]));
    }
  }

  lemma AfterSplit(s: System, bs: seq<Batch>, i: nat)
    requires i <= |bs|
    ensures After(s, bs) == After(After(s, bs[..i]), bs[i..])
    ensures Permitted(s, EventsOf(bs)) <==>
      Permitted(s, EventsOf(bs[..i])) && Permitted(After(s, bs[..i]), EventsOf(bs[i..]))
  {
    hide StepAll, EventsOf, Permitted;
    EventsSplit(bs, i);
    Appended(s, EventsOf(bs[..i]), EventsOf(bs[i..]));
  }

  lemma OneFits(s: System, b: Batch)
    requires Inv(s) && b.trbs != [] && NoLinks(b.trbs)
    ensures Permitted(s, EventsOf([b])) <==> HasRoom(s, |b.trbs|)
    ensures Permitted(s, EventsOf([b])) ==>
      var s' := After(s, [b]);
      Inv(s') && |s'.prod.t| == |s.prod.t| && 0 <= Outstanding(s') <= Outstanding(s) + |b.trbs|
  {
    hide Inv, Permitted, TypeOf;
    var p, l := Pushing(b.trbs), Looking(b.looks);
    OneBatch(b);
    PushingFits(s, b.trbs);
    Appended(s, p, l);
    if Permitted(s, p) { LookingKeeps(StepAll(s, p), b.looks); }
  }

  lemma FitsLast(s: System, bs: seq<Batch>)
    requires bs != []
    ensures var n := |bs| - 1; Fits(s, bs) <==> Fits(s, bs[..n]) && HasRoom(After(s, bs[..n]), |bs[n].trbs|)
  {
    hide EventsOf, StepAll, HasRoom;
    var n := |bs| - 1;
    assert forall i :: 0 <= i < n ==> bs[..n][i] == bs[i] && bs[..n][..i] == bs[..i];
  }

  /** Every push of a sequence of batches finds room exactly if each batch fits when it begins; and then
      the ring stays good. */
  lemma {:induction false} PermittedIffFits(s: System, bs: seq<Batch>)
    requires Inv(s) && GoodBatches(bs)
    ensures Permitted(s, EventsOf(bs)) <==> Fits(s, bs)
    ensures Fits(s, bs) ==> Inv(After(s, bs)) && |After(s, bs).prod.t| == |s.prod.t|
    decreases |bs|
  {
    hide Inv, StepAll;
    if bs == [] {
      NoBatches(s);
    } else {
      hide Permitted, EventsOf, HasRoom, Fits;
      var n := |bs| - 1;
      var init := bs[..n];
      assert GoodBatches(init) by { assert forall i :: 0 <= i < n ==> init[i] == bs[i]; }
      assert bs[n..] == [bs[n]];
      PermittedIffFits(s, init);
      FitsLast(s, bs);
      AfterSplit(s, bs, n);
      if Fits(s, init) { OneFits(After(s, init), bs[n]); }
    }
  }

  /** How many TRBs are left when a batch that fitted has had its looks. */
  lemma LeftGrows(s: System, bs: seq<Batch>, i: nat)
    requires Inv(s) && GoodBatches(bs) && i < |bs| && Fits(s, bs[..i + 1])
    ensures 0 <= Outstanding(After(s, bs[..i + 1])) <= Outstanding(After(s, bs[..i])) + |bs[i].trbs|
  {
    hide Inv, StepAll, EventsOf, HasRoom;
    var some := bs[..i + 1];
    assert some[..i] == bs[..i] && some[i] == bs[i] && some[i..] == [bs[i]];
    assert GoodBatches(bs[..i]) && GoodBatches(some);
    FitsLast(s, some);
    PermittedIffFits(s, bs[..i]);
    AfterSplit(s, some, i);
    OneFits(After(s, bs[..i]), bs[i]);
  }

  // ---- what has been pushed and executed ----

  predicate Plain(dws: seq<Trb>) {
    forall i :: 0 <= i < |dws| ==> dws[i].cycle == 0
  }

  lemma {:induction false} HandedConcat(a: seq<Event>, b: seq<Event>)
    ensures Handed(a + b) == Handed(a) + Handed(b)
  {
    if a == [] {
      assert a + b == b;
    } else {
      assert (a + b)[0] == a[0] && (a + b)[1..] == a[1..] + b;
      HandedConcat(a[1..], b);
    }
  }

  lemma {:induction false} HandedPushing(dws: seq<Trb>)
    requires Plain(dws)
    ensures Handed(Pushing(dws)) == dws
  {
    if dws != [] {
      assert Pushing(dws)[0] == DriverPushes(dws[0]) && Pushing(dws)[1..] == Pushing(dws[1..]);
      HandedPushing(dws[1..]);
      assert Body(dws[0]) == dws[0];
    }
  }

  lemma {:induction false} HandedLooking(n: nat)
    ensures Handed(Looking(n)) == []
  {
    if n > 0 {
      assert Looking(n)[0] == ControllerLooks && Looking(n)[1..] == Looking(n - 1);
      HandedLooking(n - 1);
    }
  }

  lemma {:induction false} HandedIsAll(bs: seq<Batch>)
    requires forall i :: 0 <= i < |bs| ==> Plain(bs[i].trbs)
    ensures Handed(EventsOf(bs)) == AllTrbs(bs)
  {
    if bs != [] {
      hide Pushing, Looking, Handed, Plain;
      var p, l, rest := Pushing(bs[0].trbs), Looking(bs[0].looks), EventsOf(bs[1..]);
      HandedConcat(p, l + rest);
      HandedConcat(l, rest);
      HandedPushing(bs[0].trbs);
      HandedLooking(bs[0].looks);
      HandedIsAll(bs[1..]);
      assert [] + Handed(rest) == Handed(rest);
    }
  }

  /** Batches that fit: what was pushed is all their TRBs, what was executed a prefix of it. */
  lemma Reached(s: System, bs: seq<Batch>)
    requires Inv(s) && GoodBatches(bs) && Fits(s, bs) && forall i :: 0 <= i < |bs| ==> Plain(bs[i].trbs)
    ensures var s' := After(s, bs);
      && Inv(s') && WellFormed(s') && |s'.prod.t| == |s.prod.t|
      && s'.pushed == s.pushed + AllTrbs(bs) && s'.fetched <= s'.pushed
      && (Counted(s) ==> Counted(s'))
  {
    hide Inv, StepAll, EventsOf, Run, Counted;
    PermittedIffFits(s, bs);
    RunKeeps(s, EventsOf(bs), After(s, bs));
    HandedIsAll(bs);
    Prefixes(After(s, bs));
    if Counted(s) { RunCounts(s, EventsOf(bs), After(s, bs)); }
  }

  // ---- where the driver stands on the ring ----

  /** The driver's slot is told by how many TRBs it has pushed. */
  predicate Counted(s: System) {
    Sane(s.prod) && s.prod.enq == |s.pushed| % (|s.prod.t| - 1)
  }

  lemma StepCounts(s: System, e: Event)
    requires Counted(s)
    ensures Counted(Step(s, e))
  {
    if WellFormed(s) && e.DriverPushes? {
      NextSlot(|s.pushed|, |s.prod.t| - 1);
    }
  }

  lemma NextSlot(n: nat, last: nat)
    requires last > 0
    ensures (n + 1) % last == if n % last + 1 == last then 0 else n % last + 1
  {
    var q, r := n / last, n % last;
    assert n == last * q + r;
    if r + 1 == last {
      assert n + 1 == last * (q + 1);
      ModIs(q + 1, 0, last);
    } else {
      ModIs(q, r + 1, last);
    }
  }

  lemma {:induction false} RunCounts(s: System, es: seq<Event>, s': System)
    requires Counted(s) && Run(s, es, s')
    ensures Counted(s')
    decreases |es|
  {
    hide Counted, Step, Allowed;
    if es != [] {
      StepCounts(s, es[0]);
      RunCounts(Step(s, es[0]), es[1..], s');
    }
  }

  /** A controller that has executed nothing stands where it started. */
  predicate Unmoved(s: System) {
    s.fetched == [] ==> s.cons.deq == 0
  }

  lemma {:induction false} RunUnmoved(s: System, es: seq<Event>, s': System)
    requires Inv(s) && Unmoved(s) && Run(s, es, s')
    ensures Unmoved(s')
    decreases |es|
  {
    hide Inv, Unmoved, Step, Allowed;
    if es != [] {
      StepUnmoved(s, es[0]);
      StepKeeps(s, es[0]);
      RunUnmoved(Step(s, es[0]), es[1..], s');
    }
  }

  lemma StepUnmoved(s: System, e: Event)
    requires Inv(s) && Unmoved(s) && Allowed(s, e)
    ensures Unmoved(Step(s, e))
  {
    hide Holds;
    if e.ControllerLooks? { HwKeeps(s); }
  }

  /** While the controller is parked on the Link, what is outstanding is what was pushed on this lap. */
  lemma ParkedLeaves(s: System)
    requires Inv(s) && Counted(s) && Parked(s)
    ensures Outstanding(s) == |s.pushed| % (|s.prod.t| - 1)
  {
  }

  /** A ring never holds more than it has room for. */
  lemma WithinRoom(s: System)
    requires Inv(s)
    ensures WellFormed(s) && 0 <= Outstanding(s) <= Room(s) && |s.prod.t| - 2 <= Room(s) < |s.prod.t|
  {
  }

  // ---- looks that execute ----

  /** Off the Link, each look executes the next TRB, up to the end of the lap. */
  lemma {:induction false} LookingExecutes(s: System, n: nat)
    requires Inv(s) && n <= Outstanding(s) && s.cons.deq + n <= |s.prod.t| - 1
    ensures var s' := StepAll(s, Looking(n));
      && Inv(s') && s'.cons.deq == s.cons.deq + n && s'.prod == s.prod && s'.pushed == s.pushed
      && s.fetched <= s.pushed && s'.fetched == s.pushed[..|s.fetched| + n]
    decreases n
  {
    hide Inv, HwStep, Sane;
    Prefixes(s);
    if n > 0 {
      LookMoves(s);
      HwGrowth(s);
      HwSide(s);
      assert Looking(n)[0] == ControllerLooks && Looking(n)[1..] == Looking(n - 1);
      LookingExecutes(HwStep(s), n - 1);
    }
  }

  lemma LookMoves(s: System)
    requires Inv(s) && WellFormed(s) && Outstanding(s) > 0 && !Parked(s)
    ensures HwStep(s).cons.deq == s.cons.deq + 1
  {
    hide Holds;
    HwKeeps(s);
  }

  lemma {:induction false} LookingStays(s: System, n: nat)
    requires WellFormed(s) && HwStep(s) == s
    ensures StepAll(s, Looking(n)) == s
  {
    if n > 0 {
      assert Looking(n)[0] == ControllerLooks && Looking(n)[1..] == Looking(n - 1);
      LookingStays(s, n - 1);
    }
  }

  // ---- a ring that is overrun ----

  lemma {:induction false} SubmitAllConcat(s: System, a: seq<Trb>, b: seq<Trb>)
    requires Sane(s.prod)
    ensures SubmitAll(s, a + b) == SubmitAll(SubmitAll(s, a), b)
    decreases |b|
  {
    if b == [] {
      assert a + b == a;
    } else {
      var n := |b| - 1;
      assert (a + b)[..|a + b| - 1] == a + b[..n] && (a + b)[|a + b| - 1] == b[n];
      SubmitAllConcat(s, a, b[..n]);
    }
  }

  lemma {:induction false} PushingSubmits(s: System, dws: seq<Trb>)
    requires WellFormed(s)
    ensures StepAll(s, Pushing(dws)) == SubmitAll(s, dws)
    decreases |dws|
  {
    if dws != [] {
      hide Push;
      assert Pushing(dws)[0] == DriverPushes(dws[0]) && Pushing(dws)[1..] == Pushing(dws[1..]);
      PushingSubmits(Submit(s, dws[0]), dws[1..]);
      SubmitFirst(s, dws);
    }
  }

  lemma {:induction false} SubmitAllKeeps(s: System, dws: seq<Trb>)
    requires Inv(s) && WellFormed(s) && Outstanding(s) + |dws| <= Room(s) && NoLinks(dws)
    ensures var s' := SubmitAll(s, dws);
      Inv(s') && Outstanding(s') == Outstanding(s) + |dws| && Room(s') == Room(s)
    decreases |dws|
  {
    hide Inv, Push, TypeOf;
    Prefixes(s);
    if dws != [] {
      var n := |dws| - 1;
      SubmitAllKeeps(s, dws[..n]);
      SubmitKeeps(SubmitAll(s, dws[..n]), dws[n]);
    }
  }

  /** Push more than there is room for, though no more than a further lap, while the controller is not
      looking: then however often it looks, it executes none of what is waiting. */
  lemma UnwatchedPushesStall(s: System, dws: seq<Trb>)
    requires Inv(s) && WellFormed(s) && NoLinks(dws)
    requires Room(s) < Outstanding(s) + |dws| < Room(s) + |s.prod.t|
    ensures WellFormed(SubmitAll(s, dws)) && HwStep(SubmitAll(s, dws)) == SubmitAll(s, dws)
    ensures SubmitAll(s, dws).fetched == s.fetched
  {
    hide Inv, Push, TypeOf, HwStep;
    WithinRoom(s);
    var r := Room(s) - Outstanding(s);
    SubmitAllKeeps(s, dws[..r]);
    assert dws[..r] + dws[r..] == dws;
    SubmitAllConcat(s, dws[..r], dws[r..]);
    StallLasts(SubmitAll(s, dws[..r]), dws[r..]);
  }

  lemma {:induction false} AllTrbsLast(bs: seq<Batch>)
    requires bs != []
    ensures AllTrbs(bs) == AllTrbs(bs[..|bs| - 1]) + bs[|bs| - 1].trbs
  {
    var n := |bs| - 1;
    if n == 0 {
      assert bs[1..] == [] && AllTrbs(bs) == bs[0].trbs + [] && AllTrbs(bs[..0]) == [];
    } else {
      AllTrbsLast(bs[1..]);
      assert bs[..n][0] == bs[0] && bs[..n][1..] == bs[1..][..n - 1];
    }
  }

  lemma {:induction false} AllLinkless(bs: seq<Batch>)
    requires GoodBatches(bs)
    ensures NoLinks(AllTrbs(bs))
  {
    if bs != [] {
      assert GoodBatches(bs[1..]);
      AllLinkless(bs[1..]);
    }
  }

  /** A batch whose pushes leave the controller stuck is just its pushes. */
  lemma BatchThatSticks(s: System, done: seq<Trb>, b: Batch)
    requires WellFormed(s) && WellFormed(SubmitAll(s, done + b.trbs))
    requires HwStep(SubmitAll(s, done + b.trbs)) == SubmitAll(s, done + b.trbs)
    ensures After(SubmitAll(s, done), [b]) == SubmitAll(s, done + b.trbs)
  {
    hide HwStep, StepAll, EventsOf, SubmitAll, Permitted, Looking, Pushing;
    var mid := SubmitAll(s, done);
    OneBatch(b);
    Appended(mid, Pushing(b.trbs), Looking(b.looks));
    PushingSubmits(mid, b.trbs);
    SubmitAllConcat(s, done, b.trbs);
    LookingStays(SubmitAll(s, done + b.trbs), b.looks);
  }

  /** Once a batch has found no room, less than a lap of further pushing leaves the ring stalled: the
      controller executes nothing of what is waiting, whenever and however often it looks. */
  lemma {:induction false} StallsToTheEnd(s: System, bs: seq<Batch>)
    requires Inv(s) && bs != [] && GoodBatches(bs) && !HasRoom(s, |bs[0].trbs|) && |AllTrbs(bs)| < |s.prod.t|
    ensures var s' := After(s, bs);
      && s' == SubmitAll(s, AllTrbs(bs))
      && WellFormed(s') && HwStep(s') == s' && s'.fetched == s.fetched
    decreases |bs|
  {
    hide Inv, HwStep, After, SubmitAll, Permitted, AllTrbs, GoodBatches, NoLinks, HasRoom, Room, Outstanding;
    var n := |bs| - 1;
    var init, b := bs[..n], bs[n];
    AllTrbsLast(bs);
    TooMany(s, bs);
    UnwatchedPushesStall(s, AllTrbs(bs));
    assert bs[n..] == [b];
    AfterSplit(s, bs, n);
    if n == 0 {
      NothingDone(s);
      assert init == [];
    } else {
      assert init[0] == bs[0];
      GoodInit(bs);
      StallsToTheEnd(s, init);
    }
    BatchThatSticks(s, AllTrbs(init), b);
  }

  lemma TooMany(s: System, bs: seq<Batch>)
    requires Inv(s) && bs != [] && GoodBatches(bs) && !HasRoom(s, |bs[0].trbs|) && |AllTrbs(bs)| < |s.prod.t|
    ensures WellFormed(s) && NoLinks(AllTrbs(bs))
    ensures Room(s) < Outstanding(s) + |AllTrbs(bs)| < Room(s) + |s.prod.t|
  {
    hide Inv;
    WithinRoom(s);
    AllTrbsStart(bs);
    AllLinkless(bs);
  }

  lemma GoodInit(bs: seq<Batch>)
    requires bs != [] && GoodBatches(bs)
    ensures GoodBatches(bs[..|bs| - 1])
  {
  }

  lemma NothingDone(s: System)
    requires Sane(s.prod)
    ensures After(s, []) == s && AllTrbs([]) == [] && SubmitAll(s, []) == s
  {
    NoBatches(s);
  }

  lemma AllTrbsStart(bs: seq<Batch>)
    requires bs != []
    ensures |AllTrbs(bs)| >= |bs[0].trbs|
  {
  }
}
