/** Control transfers on a device's EP0 ring. The first read is executed twice: the second Address Device
    names the base of the ring again, so the controller starts over. What the waits are answered by,
    exactly when every transfer finds room, and what becomes of the ring when one does not. */
module ControlTransfers {
  import opened ProducerRing
  import opened RingBatches

  const EP0_N: nat := 8
  const TRB_SETUP: nat := 2
  const TRB_DATA: nat := 3
  const TRB_STATUS: nat := 4

  /** One `ctrl_in` or `ctrl_out`: its setup packet, its buffer, and how often the controller looks at the
      ring before the driver stops waiting. */
  datatype Transfer =
    | In(lo: nat, hi: nat, bufPhys: nat, len: nat, looks: nat)
    | Out(lo: nat, hi: nat, looks: nat)

  /** Setup, data and status stage, or setup and status stage. */
  function Trbs(x: Transfer): seq<Trb> {
    match x
    case In(lo, hi, bufPhys, len, _) => [
      OfDwords(lo, hi, 8, TRB_SETUP * 1024 + 64 + 3 * 0x1_0000),
      OfDwords(bufPhys % DWORD, bufPhys / DWORD, len, TRB_DATA * 1024 + 0x1_0000),
      OfDwords(0, 0, 0, TRB_STATUS * 1024 + 32)]
    case Out(lo, hi, _) => [
      OfDwords(lo, hi, 8, TRB_SETUP * 1024 + 64),
      OfDwords(0, 0, 0, TRB_STATUS * 1024 + 0x1_0000 + 32)]
  }

  /** Only the status stage asks for an event. */
  predicate IsStatus(t: Trb) {
    TypeOf(t) == TRB_STATUS
  }

  lemma TrbsShape(x: Transfer)
    ensures |Trbs(x)| == (if x.In? then 3 else 2) && NoLinks(Trbs(x)) && Plain(Trbs(x))
    ensures forall i :: 0 <= i < |Trbs(x)| ==> (IsStatus(Trbs(x)[i]) <==> i == |Trbs(x)| - 1)
  {
  }

  function Batches(xs: seq<Transfer>): (bs: seq<Batch>)
    ensures |bs| == |xs| && forall i :: 0 <= i < |xs| ==> bs[i] == Batch(Trbs(xs[i]), xs[i].looks)
  {
    seq(|xs|, i requires 0 <= i < |xs| => Batch(Trbs(xs[i]), xs[i].looks))
  }

  // ---- the transfers of one device's enumeration ----

  /** Four reads of descriptors and three requests, in this order, perhaps cut short. */
  predicate Issued(xs: seq<Transfer>) {
    0 < |xs| <= 7 && forall i :: 0 <= i < |xs| ==> (xs[i].In? <==> i < 4)
  }

  /** The ring when the first read is over. */
  function AfterFirst(base: nat, xs: seq<Transfer>): System
    requires xs != []
  {
    After(Start(EP0_N, base), Batches(xs)[..1])
  }

  /** Address Device loads the dequeue pointer and cycle state its input context names: slot 0, cycle 1.
      What is executed from then on is counted anew. */
  function Rewind(s: System): System {
    s.(cons := Consumer(0, 1), fetched := [])
  }

  /** The ring after the first i transfers, with the rewind behind the first. */
  function Ring(base: nat, xs: seq<Transfer>, i: nat): System
    requires 0 < i <= |xs|
  {
    After(Rewind(AfterFirst(base, xs)), Batches(xs)[1..i])
  }

  /** Everything the controller has executed during the first i transfers. */
  function Executed(base: nat, xs: seq<Transfer>, i: nat): seq<Trb>
    requires 0 < i <= |xs|
  {
    AfterFirst(base, xs).fetched + Ring(base, xs, i).fetched
  }

  /** How many TRBs the first i transfers have left on the ring. */
  function Left(base: nat, xs: seq<Transfer>, i: nat): int
    requires 0 < i <= |xs|
  {
    Outstanding(Ring(base, xs, i))
  }

  function Statuses(q: seq<Trb>): nat {
    if q == [] then 0 else (if IsStatus(q[0]) then 1 else 0) + Statuses(q[1..])
  }

  /** A wait takes the next EP0 event, whichever transfer it is of; there is one if more status stages
      have been executed than waits before it took. Enumeration gives a device up unless each of the
      first three waits is answered. How the fourth read and the requests end is ignored: the buffer,
      zeroed for each device and shared by its reads, need only read as a keyboard's. */
  predicate Answered(base: nat, xs: seq<Transfer>) {
    forall i :: 1 <= i <= 3 && i < |xs| ==> Statuses(Executed(base, xs, i)) >= i
  }

  /** Every push of every transfer finds room. */
  predicate FindsRoom(base: nat, xs: seq<Transfer>)
    requires xs != []
  {
    && Permitted(Start(EP0_N, base), EventsOf(Batches(xs)[..1]))
    && Permitted(Rewind(AfterFirst(base, xs)), EventsOf(Batches(xs)[1..]))
  }

  // ---- the rewind ----

  /** The ring as the controller finds it after the rewind: as if it had never looked at the first read. */
  function Anew(xs: seq<Transfer>): (bs: seq<Batch>)
    requires xs != []
    ensures |bs| == |xs| && bs[0] == Batch(Trbs(xs[0]), 0) && forall i :: 1 <= i < |xs| ==> bs[i] == Batches(xs)[i]
  {
    [Batch(Trbs(xs[0]), 0)] + Batches(xs)[1..]
  }

  lemma AnewIsGood(xs: seq<Transfer>)
    requires xs != []
    ensures GoodBatches(Anew(xs)) && forall i :: 0 <= i < |xs| ==> Plain(Anew(xs)[i].trbs)
    ensures forall i :: 0 <= i < |xs| ==>
      Anew(xs)[i].trbs == Trbs(xs[i]) && |Anew(xs)[i].trbs| == if xs[i].In? then 3 else 2
  {
    forall i | 0 <= i < |xs|
      ensures Anew(xs)[i].trbs == Trbs(xs[i]) && |Anew(xs)[i].trbs| == (if xs[i].In? then 3 else 2)
      ensures NoLinks(Anew(xs)[i].trbs) && Plain(Anew(xs)[i].trbs)
    {
      TrbsShape(xs[i]);
    }
  }

  /** The first transfer, on the empty ring: its pushes, and then looks that leave the driver's side alone. */
  lemma FirstOnRing(base: nat, xs: seq<Transfer>)
    requires xs != []
    ensures var s, dws := AfterFirst(base, xs), Trbs(xs[0]);
      var pushed := SubmitAll(Start(EP0_N, base), dws);
      && WellFormed(Start(EP0_N, base)) && Inv(pushed) && pushed.pushed == dws && pushed.fetched == []
      && Permitted(Start(EP0_N, base), EventsOf(Batches(xs)[..1]))
      && Inv(s) && s.prod == pushed.prod && s.base == pushed.base && s.pushed == dws
      && s.fetched <= dws
  {
    hide Inv, StepAll, EventsOf, SubmitAll, Permitted, TypeOf, HwStep;
    var start, b := Start(EP0_N, base), Batches(xs)[0];
    var dws := b.trbs;
    StartInv(EP0_N, base);
    TrbsShape(xs[0]);
    assert Batches(xs)[..1] == [b];
    Prefixes(start);
    OneBatch(b);
    OneFits(start, b);
    Appended(start, Pushing(dws), Looking(b.looks));
    PushingSubmits(start, dws);
    SubmitAllKeeps(start, dws);
    LookingKeeps(SubmitAll(start, dws), b.looks);
    PushedAll(start, dws);
    Prefixes(AfterFirst(base, xs));
  }

  lemma {:induction false} PushedAll(s: System, dws: seq<Trb>)
    requires Sane(s.prod) && Plain(dws)
    ensures var s' := SubmitAll(s, dws); s'.pushed == s.pushed + dws && s'.base == s.base
  {
    if dws != [] {
      var n := |dws| - 1;
      PushedAll(s, dws[..n]);
      assert Body(dws[n]) == dws[n];
      assert dws[..n] + [dws[n]] == dws;
    }
  }

  lemma RewindIs(base: nat, xs: seq<Transfer>)
    requires xs != []
    ensures Rewind(AfterFirst(base, xs)) == After(Start(EP0_N, base), Anew(xs)[..1])
    ensures Permitted(Start(EP0_N, base), EventsOf(Anew(xs)[..1]))
  {
    hide Inv, StepAll, EventsOf, SubmitAll, Permitted, TypeOf, Start;
    var start, b := Start(EP0_N, base), Batch(Trbs(xs[0]), 0);
    FirstOnRing(base, xs);
    assert Anew(xs)[..1] == [b];
    StartInv(EP0_N, base);
    TrbsShape(xs[0]);
    OneBatch(b);
    EmptyRing(base);
    OneFits(start, b);
    Appended(start, Pushing(b.trbs), Looking(0));
    PushingSubmits(start, b.trbs);
    NoLooks(SubmitAll(start, b.trbs));
    SubmitKeepsConsumer(start, b.trbs);
  }

  lemma EmptyRing(base: nat)
    ensures var s := Start(EP0_N, base);
      && |s.prod.t| == EP0_N && s.cons == Consumer(0, 1) && s.fetched == [] && s.pushed == []
      && HasRoom(s, 3) && Counted(s)
  {
  }

  lemma NoLooks(s: System)
    ensures StepAll(s, Looking(0)) == s
  {
  }

  lemma SubmitKeepsConsumer(s: System, dws: seq<Trb>)
    requires Sane(s.prod)
    ensures SubmitAll(s, dws).cons == s.cons && SubmitAll(s, dws).fetched == s.fetched
  {
  }

  /** So the ring after i transfers is one that has seen nothing but pushes of the first. */
  lemma RingIs(base: nat, xs: seq<Transfer>, i: nat)
    requires 0 < i <= |xs|
    ensures Ring(base, xs, i) == After(Start(EP0_N, base), Anew(xs)[..i])
    ensures FindsRoom(base, xs) <==> Permitted(Start(EP0_N, base), EventsOf(Anew(xs)))
  {
    hide Inv, StepAll, EventsOf, Permitted, Start;
    var bs := Anew(xs);
    RewindIs(base, xs);
    FirstOnRing(base, xs);
    assert bs[..i][..1] == bs[..1] && bs[..i][1..] == Batches(xs)[1..i] && bs[1..] == Batches(xs)[1..];
    AfterSplit(Start(EP0_N, base), bs[..i], 1);
    AfterSplit(Start(EP0_N, base), bs, 1);
  }

  // ---- the ring after i transfers ----

  predicate RoomUpTo(base: nat, xs: seq<Transfer>, m: nat)
    requires 0 < m <= |xs|
  {
    Fits(Start(EP0_N, base), Anew(xs)[..m])
  }

  function Total(i: nat): nat {
    if i <= 4 then 3 * i else 12 + 2 * (i - 4)
  }

  lemma {:induction false} TotalPushed(xs: seq<Transfer>, i: nat)
    requires Issued(xs) && i <= |xs|
    ensures |AllTrbs(Anew(xs)[..i])| == Total(i)
    decreases i
  {
    hide Trbs, Plain, TypeOf, GoodBatches, AllTrbs, Batches;
    if i == 0 {
      NothingPushed();
    } else {
      var bs := Anew(xs)[..i];
      TotalPushed(xs, i - 1);
      AllTrbsLast(bs);
      assert bs[..i - 1] == Anew(xs)[..i - 1];
      AnewIsGood(xs);
    }
  }

  lemma NothingPushed()
    ensures AllTrbs([]) == []
  {
  }

  /** The ring after i transfers that found room. */
  lemma Standing(base: nat, xs: seq<Transfer>, i: nat)
    requires Issued(xs) && 0 < i <= |xs| && RoomUpTo(base, xs, i)
    ensures var s := Ring(base, xs, i);
      && Inv(s) && WellFormed(s) && |s.prod.t| == EP0_N
      && |s.pushed| == Total(i) && s.pushed == AllTrbs(Anew(xs)[..i]) && s.fetched <= s.pushed
      && (Parked(s) ==> Outstanding(s) == Total(i) % 7)
      && 0 <= Outstanding(s) <= Room(s)
  {
    hide Inv, StepAll, EventsOf, Fits, Counted, Start, Plain, GoodBatches;
    var start, bs := Start(EP0_N, base), Anew(xs)[..i];
    StartInv(EP0_N, base);
    EmptyRing(base);
    AnewPrefixGood(xs, i);
    Reached(start, bs);
    TotalPushed(xs, i);
    RingIs(base, xs, i);
    var s := Ring(base, xs, i);
    assert start.pushed + AllTrbs(bs) == AllTrbs(bs);
    WithinRoom(s);
    if Parked(s) { ParkedLeaves(s); }
  }

  lemma AnewPrefixGood(xs: seq<Transfer>, i: nat)
    requires xs != [] && i <= |xs|
    ensures GoodBatches(Anew(xs)[..i]) && forall j :: 0 <= j < i ==> Plain(Anew(xs)[..i][j].trbs)
  {
    AnewIsGood(xs);
    assert forall j :: 0 <= j < i ==> Anew(xs)[..i][j] == Anew(xs)[j];
  }

  /** One transfer more finds room exactly if its TRBs fit. */
  lemma RoomForNext(base: nat, xs: seq<Transfer>, i: nat)
    requires Issued(xs) && 0 < i < |xs|
    ensures RoomUpTo(base, xs, i + 1) <==> RoomUpTo(base, xs, i) && HasRoom(Ring(base, xs, i), if i < 4 then 3 else 2)
    ensures RoomUpTo(base, xs, i + 1) ==> Left(base, xs, i + 1) <= Left(base, xs, i) + if i < 4 then 3 else 2
  {
    hide Inv, StepAll, EventsOf, Fits, HasRoom, Start;
    var bs := Anew(xs)[..i + 1];
    assert bs[..i] == Anew(xs)[..i] && bs[i] == Anew(xs)[i];
    FitsLast(Start(EP0_N, base), bs);
    AnewIsGood(xs);
    RingIs(base, xs, i);
    RingIs(base, xs, i + 1);
    if RoomUpTo(base, xs, i + 1) {
      StartInv(EP0_N, base);
      LeftGrows(Start(EP0_N, base), Anew(xs), i);
    }
  }

  lemma RoomForFirst(base: nat, xs: seq<Transfer>)
    requires Issued(xs)
    ensures RoomUpTo(base, xs, 1) && Left(base, xs, 1) == 3 && Ring(base, xs, 1).fetched == []
  {
    hide Inv, StepAll, EventsOf, Fits, SubmitAll, Permitted;
    StartInv(EP0_N, base);
    AnewPrefixGood(xs, 1);
    RewindIs(base, xs);
    PermittedIffFits(Start(EP0_N, base), Anew(xs)[..1]);
    RingIs(base, xs, 1);
    FirstOnRing(base, xs);
    TrbsShape(xs[0]);
  }

  // ---- what the waits are answered by ----

  /** Among the TRBs of reads, one in three is a status stage. */
  lemma {:induction false} StatusesOfReads(xs: seq<Transfer>, n: nat, m: nat)
    requires n <= |xs| && m <= 3 * n && forall i :: 0 <= i < n ==> xs[i].In?
    ensures |AllTrbs(Batches(xs)[..n])| == 3 * n && Statuses(AllTrbs(Batches(xs)[..n])[..m]) == m / 3
    decreases n
  {
    if n > 0 {
      var bs, q := Batches(xs)[..n], AllTrbs(Batches(xs)[..n]);
      var a, rest := Trbs(xs[0]), AllTrbs(Batches(xs[1..])[..n - 1]);
      assert bs[0].trbs == a && bs[1..] == Batches(xs[1..])[..n - 1];
      assert q == a + rest;
      StatusesOfReads(xs[1..], n - 1, if m < 3 then 0 else m - 3);
      TrbsShape(xs[0]);
      StatusesOfOne(a, rest, m);
    } else {
      assert AllTrbs(Batches(xs)[..0]) == [];
    }
  }

  lemma StatusesCons(t: Trb, rest: seq<Trb>)
    ensures Statuses([t] + rest) == (if IsStatus(t) then 1 else 0) + Statuses(rest)
  {
    assert ([t] + rest)[1..] == rest;
  }

  lemma StatusesOfOne(a: seq<Trb>, rest: seq<Trb>, m: nat)
    requires |a| == 3 && m <= 3 + |rest| && forall i :: 0 <= i < 3 ==> (IsStatus(a[i]) <==> i == 2)
    ensures Statuses((a + rest)[..m]) == if m < 3 then 0 else 1 + Statuses(rest[..m - 3])
  {
    hide Statuses, IsStatus;
    var q := (a + rest)[..m];
    NoStatuses();
    if m >= 3 {
      var later := rest[..m - 3];
      assert q == [a[0]] + ([a[1]] + ([a[2]] + later));
      StatusesCons(a[2], later);
      StatusesCons(a[1], [a[2]] + later);
      StatusesCons(a[0], [a[1]] + ([a[2]] + later));
    } else if m == 2 {
      assert q == [a[0]] + ([a[1]] + []);
      StatusesCons(a[1], []);
      StatusesCons(a[0], [a[1]] + []);
    } else if m == 1 {
      assert q == [a[0]] + [];
      StatusesCons(a[0], []);
    } else {
      assert q == [];
    }
  }

  lemma NoStatuses()
    ensures Statuses([]) == 0
  {
  }

  lemma {:induction false} StatusesConcat(a: seq<Trb>, b: seq<Trb>)
    ensures Statuses(a + b) == Statuses(a) + Statuses(b)
  {
    if a == [] {
      assert a + b == b;
    } else {
      assert (a + b)[0] == a[0] && (a + b)[1..] == a[1..] + b;
      StatusesConcat(a[1..], b);
    }
  }

  /** The reads up to the i-th, as pushed. */
  lemma ReadsPushed(base: nat, xs: seq<Transfer>, i: nat)
    requires Issued(xs) && 0 < i <= 4 && i <= |xs| && RoomUpTo(base, xs, i)
    ensures var f := Ring(base, xs, i).fetched;
      && f <= AllTrbs(Batches(xs)[..i]) && |f| <= 3 * i && Statuses(f) == |f| / 3
      && Left(base, xs, i) == 3 * i - |f|
  {
    hide Inv, Fits, Ring, Batches, Anew;
    Standing(base, xs, i);
    var f := Ring(base, xs, i).fetched;
    SameTrbs(xs, i);
    StatusesOfReads(xs, i, |f|);
    assert f == AllTrbs(Batches(xs)[..i])[..|f|];
    LeftIs(base, xs, i);
  }

  lemma LeftIs(base: nat, xs: seq<Transfer>, i: nat)
    requires 0 < i <= |xs|
    ensures Left(base, xs, i) == |Ring(base, xs, i).pushed| - |Ring(base, xs, i).fetched|
  {
  }

  lemma {:induction false} SameTrbs(xs: seq<Transfer>, i: nat)
    requires xs != [] && i <= |xs|
    ensures AllTrbs(Anew(xs)[..i]) == AllTrbs(Batches(xs)[..i])
    decreases i
  {
    if i > 0 {
      SameTrbs(xs, i - 1);
      AllTrbsLast(Anew(xs)[..i]);
      AllTrbsLast(Batches(xs)[..i]);
      assert Anew(xs)[..i][..i - 1] == Anew(xs)[..i - 1] && Batches(xs)[..i][..i - 1] == Batches(xs)[..i - 1];
      AnewIsGood(xs);
    } else {
      assert Anew(xs)[..0] == Batches(xs)[..0];
    }
  }

  lemma OneRead(xs: seq<Transfer>)
    requires xs != []
    ensures AllTrbs(Batches(xs)[..1]) == Trbs(xs[0])
  {
    var bs := Batches(xs)[..1];
    assert bs[0] == Batches(xs)[0] && bs[1..] == [];
    assert bs[0].trbs + [] == bs[0].trbs;
  }

  /** The first wait is answered by the first read itself: all of it has been executed. */
  lemma FirstIsExecuted(base: nat, xs: seq<Transfer>)
    requires Issued(xs) && Answered(base, xs) && |xs| > 1
    ensures AfterFirst(base, xs).fetched == Trbs(xs[0]) && Statuses(Trbs(xs[0])) == 1
  {
    hide Inv, AfterFirst, Ring, Start;
    FirstOnRing(base, xs);
    RoomForFirst(base, xs);
    var f, q := AfterFirst(base, xs).fetched, Trbs(xs[0]);
    assert Executed(base, xs, 1) == f;
    assert Statuses(f) >= 1;
    OneRead(xs);
    StatusesOfReads(xs, 1, |f|);
    StatusesOfReads(xs, 1, 3);
    TrbsShape(xs[0]);
    assert q[..|f|] == f && q[..3] == q;
  }

  /** What the waits of the second and third read are answered by: an event of the first read's second
      execution, and of the second read. At least those have been executed, and at most three TRBs are
      left; but nothing of the read that was waited for need have been. */
  lemma AnswersAreShifted(base: nat, xs: seq<Transfer>, i: nat)
    requires Issued(xs) && Answered(base, xs) && 1 <= i <= 3 && i < |xs| && RoomUpTo(base, xs, i)
    ensures Left(base, xs, i) <= 3
    ensures AllTrbs(Batches(xs)[..i - 1]) <= Ring(base, xs, i).fetched
    ensures Statuses(AfterFirst(base, xs).fetched + AllTrbs(Batches(xs)[..i - 1])) == i
  {
    hide Inv, AfterFirst, Ring, Batches, Fits;
    FirstIsExecuted(base, xs);
    ReadsPushed(base, xs, i);
    var first, f := AfterFirst(base, xs).fetched, Ring(base, xs, i).fetched;
    StatusesConcat(first, f);
    assert Statuses(Executed(base, xs, i)) >= i;
    assert |f| >= 3 * (i - 1);
    var all, some := AllTrbs(Batches(xs)[..i]), AllTrbs(Batches(xs)[..i - 1]);
    StatusesOfReads(xs, i - 1, 3 * (i - 1));
    assert some[..3 * (i - 1)] == some;
    StatusesConcat(first, some);
    assert some <= all by {
      AllTrbsLast(Batches(xs)[..i]);
      assert Batches(xs)[..i][..i - 1] == Batches(xs)[..i - 1];
    }
    assert some == f[..3 * (i - 1)];
  }

  // ---- room ----

  /** The four reads always find room. */
  lemma {:induction false} ReadsFit(base: nat, xs: seq<Transfer>, m: nat)
    requires Issued(xs) && Answered(base, xs) && 0 < m <= |xs| && m <= 4
    ensures RoomUpTo(base, xs, m)
    decreases m
  {
    hide RoomUpTo, Ring, Answered;
    RoomForFirst(base, xs);
    if m > 1 {
      ReadsFit(base, xs, m - 1);
      Standing(base, xs, m - 1);
      AnswersAreShifted(base, xs, m - 1);
      LeftIs(base, xs, m - 1);
      RoomForNext(base, xs, m - 1);
    }
  }

  /** Request i finds room after what is left: at most five TRBs, and at most four if the controller has
      just come to the Link behind them. */
  predicate RequestFits(base: nat, xs: seq<Transfer>, i: nat)
    requires 4 <= i < |xs|
  {
    Left(base, xs, i) <= if i == 4 && Parked(Ring(base, xs, i)) then 4 else 5
  }

  lemma RequestFitsIff(base: nat, xs: seq<Transfer>, i: nat)
    requires Issued(xs) && Answered(base, xs) && 4 <= i < |xs| && RoomUpTo(base, xs, i)
    ensures HasRoom(Ring(base, xs, i), 2) <==> RequestFits(base, xs, i)
    ensures RoomUpTo(base, xs, i + 1) <==> RequestFits(base, xs, i)
  {
    hide RoomUpTo, Ring;
    Standing(base, xs, i);
    LeftIs(base, xs, i);
    RoomForNext(base, xs, i);
  }

  /** In the transfers of an enumeration every push finds room exactly if each request does: what is left
      when it begins is at most five TRBs, or four while the controller is parked on the Link. */
  lemma Ep0SafeIff(base: nat, xs: seq<Transfer>)
    requires Issued(xs) && Answered(base, xs)
    ensures FindsRoom(base, xs) <==> forall i :: 4 <= i < |xs| ==> RequestFits(base, xs, i)
  {
    hide RequestFits, RoomUpTo, Answered, Issued, FindsRoom;
    IssuedAtMostSeven(xs);
    RoomIsRoom(base, xs);
    var n := |xs|;
    ReadsFit(base, xs, if n < 4 then n else 4);
    if n > 4 { RequestFitsIff(base, xs, 4); RoomShrinks(base, xs, 5); }
    if n > 5 { RoomShrinks(base, xs, 6); if RoomUpTo(base, xs, 5) { RequestFitsIff(base, xs, 5); } }
    if n > 6 { RoomShrinks(base, xs, 7); if RoomUpTo(base, xs, 6) { RequestFitsIff(base, xs, 6); } }
  }

  lemma IssuedAtMostSeven(xs: seq<Transfer>)
    requires Issued(xs)
    ensures 0 < |xs| <= 7
  {
  }

  lemma RoomIsRoom(base: nat, xs: seq<Transfer>)
    requires xs != []
    ensures FindsRoom(base, xs) <==> RoomUpTo(base, xs, |xs|)
  {
    hide Inv, StepAll, EventsOf, Fits, Permitted, FindsRoom, Start;
    StartInv(EP0_N, base);
    AnewIsGood(xs);
    assert Anew(xs)[..|xs|] == Anew(xs);
    RingIs(base, xs, |xs|);
    PermittedIffFits(Start(EP0_N, base), Anew(xs));
  }

  lemma RoomShrinks(base: nat, xs: seq<Transfer>, m: nat)
    requires Issued(xs) && 1 < m <= |xs|
    ensures RoomUpTo(base, xs, m) ==> RoomUpTo(base, xs, m - 1)
  {
    hide RoomUpTo;
    RoomForNext(base, xs, m - 1);
  }

  /** As long as every push finds room, what the controller executes is the first read, and then everything
      pushed, in order, starting with the first read again; nothing is left out and nothing else is run
      twice; and it goes on: two looks reach the oldest TRB left. */
  lemma Ep0Executes(base: nat, xs: seq<Transfer>)
    requires Issued(xs) && Answered(base, xs) && |xs| > 1 && FindsRoom(base, xs)
    ensures var s := Ring(base, xs, |xs|);
      && Executed(base, xs, |xs|) == Trbs(xs[0]) + s.fetched
      && s.pushed == AllTrbs(Batches(xs)) && s.fetched <= s.pushed
      && WellFormed(s) && WellFormed(HwStep(s))
      && (s.fetched < s.pushed ==>
            (if Parked(s) then HwStep(HwStep(s)) else HwStep(s)).fetched == s.pushed[..|s.fetched| + 1])
  {
    hide Inv, RoomUpTo, Ring, AfterFirst, FindsRoom, HwStep;
    FirstIsExecuted(base, xs);
    RoomIsRoom(base, xs);
    Standing(base, xs, |xs|);
    SameTrbs(xs, |xs|);
    assert Batches(xs)[..|xs|] == Batches(xs);
    Progress(Ring(base, xs, |xs|));
  }

  /** Once the data stage of the fourth read has been executed -- taken as all or nothing -- every push finds
      room, whatever the requests come to. */
  lemma Ep0KeepsUp(base: nat, xs: seq<Transfer>)
    requires Issued(xs) && Answered(base, xs) && (|xs| > 4 ==> Left(base, xs, 4) <= 1)
    ensures FindsRoom(base, xs)
  {
    hide RoomUpTo, Ring, Answered, FindsRoom, Left;
    RoomIsRoom(base, xs);
    var n := |xs|;
    ReadsFit(base, xs, if n < 4 then n else 4);
    if n > 4 { FewLeft(base, xs, 4); }
    if n > 5 { FewLeft(base, xs, 5); }
    if n > 6 { FewLeft(base, xs, 6); }
  }

  lemma FewLeft(base: nat, xs: seq<Transfer>, i: nat)
    requires Issued(xs) && Answered(base, xs) && 4 <= i < |xs| && RoomUpTo(base, xs, i)
    requires Left(base, xs, i) <= 1 + 2 * (i - 4)
    ensures RoomUpTo(base, xs, i + 1) && Left(base, xs, i + 1) <= 1 + 2 * (i - 3)
  {
    hide RoomUpTo, Ring, Left;
    assert RequestFits(base, xs, i);
    RequestFitsIff(base, xs, i);
    RoomForNext(base, xs, i);
  }

  /** And the first request that finds no room overruns the ring for good: to the end of the enumeration,
      and at every look after it, the controller executes nothing of what is waiting. */
  lemma Ep0Overrun(base: nat, xs: seq<Transfer>, i: nat)
    requires Issued(xs) && Answered(base, xs) && 4 <= i < |xs|
    requires RoomUpTo(base, xs, i) && !RequestFits(base, xs, i)
    ensures var before, s := Ring(base, xs, i), Ring(base, xs, |xs|);
      WellFormed(s) && HwStep(s) == s && s.fetched == before.fetched && s.fetched < before.pushed
  {
    hide Inv, StepAll, EventsOf, Fits, SubmitAll, HwStep, HasRoom, Answered, Start, GoodBatches;
    var start, bs := Start(EP0_N, base), Anew(xs);
    var rest := bs[i..];
    RequestFitsIff(base, xs, i);
    Standing(base, xs, i);
    LeftIs(base, xs, i);
    RingIs(base, xs, i);
    RingIs(base, xs, |xs|);
    assert bs[..|xs|] == bs;
    AfterSplit(start, bs, i);
    RestOfBatches(xs, i);
    StallsToTheEnd(Ring(base, xs, i), rest);
  }

  lemma RestOfBatches(xs: seq<Transfer>, i: nat)
    requires Issued(xs) && 4 <= i < |xs|
    ensures var rest := Anew(xs)[i..];
      rest != [] && GoodBatches(rest) && |rest[0].trbs| == 2 && |AllTrbs(rest)| <= 6
  {
    hide Anew, NoLinks, Plain, Trbs;
    AnewIsGood(xs);
    var rest := Anew(xs)[i..];
    forall j | 0 <= j < |rest|
      ensures rest[j] == Anew(xs)[i + j] && |rest[j].trbs| == 2
    {
      assert xs[i + j].Out?;
    }
    TwoEach(rest);
  }

  lemma {:induction false} TwoEach(bs: seq<Batch>)
    requires forall j :: 0 <= j < |bs| ==> |bs[j].trbs| == 2
    ensures |AllTrbs(bs)| == 2 * |bs|
  {
    if bs != [] { TwoEach(bs[1..]); }
  }

  // ---- events nobody waits for ----

  /** Three waits at least have taken their event, so at most five EP0 events can still be on their way when
      the keyboard is handed over, however much the controller goes on to execute. */
  lemma LateEventsAtMostFive(base: nat, xs: seq<Transfer>, n: nat)
    requires Issued(xs) && Answered(base, xs) && |xs| == 7 && FindsRoom(base, xs)
    ensures var s := StepAll(Ring(base, xs, 7), Looking(n));
      Statuses(Trbs(xs[0]) + s.fetched) <= 3 + 5
  {
    hide Inv, RoomUpTo, Ring, FindsRoom, HwStep, StepAll, Batches, Answered;
    RoomIsRoom(base, xs);
    Standing(base, xs, 7);
    FirstIsExecuted(base, xs);
    LookingKeeps(Ring(base, xs, 7), n);
    var s := StepAll(Ring(base, xs, 7), Looking(n));
    Prefixes(s);
    SameTrbs(xs, 7);
    assert Batches(xs)[..7] == Batches(xs);
    StatusesConcat(Trbs(xs[0]), s.fetched);
    StatusesPrefix(s.fetched, AllTrbs(Batches(xs)));
    StatusesOfAll(xs);
  }

  lemma StatusesPrefix(a: seq<Trb>, b: seq<Trb>)
    requires a <= b
    ensures Statuses(a) <= Statuses(b)
  {
    StatusesConcat(a, b[|a|..]);
    assert a + b[|a|..] == b;
  }

  lemma {:induction false} StatusesOfAll(xs: seq<Transfer>)
    ensures Statuses(AllTrbs(Batches(xs))) == |xs|
  {
    if xs != [] {
      StatusesOfAll(xs[1..]);
      assert Batches(xs)[1..] == Batches(xs[1..]);
      StatusesConcat(Trbs(xs[0]), AllTrbs(Batches(xs[1..])));
      OneStatus(xs[0]);
    }
  }

  lemma OneStatus(x: Transfer)
    ensures Statuses(Trbs(x)) == 1
  {
    TrbsShape(x);
    var q := Trbs(x);
    if x.In? {
      StatusesOfOne(q, [], 3);
      assert (q + [])[..3] == q;
    } else {
      assert q == [q[0]] + ([q[1]] + []);
      StatusesCons(q[1], []);
      StatusesCons(q[0], [q[1]] + []);
    }
  }

  // ---- a device that stops answering ----

  /** One more transfer, looked at as often as the lap allows. */
  lemma LookedAt(base: nat, xs: seq<Transfer>, i: nat, d: nat)
    requires Issued(xs) && 0 < i < |xs| && RoomUpTo(base, xs, i) && HasRoom(Ring(base, xs, i), if i < 4 then 3 else 2)
    requires Ring(base, xs, i).cons.deq == d == |Ring(base, xs, i).fetched|
    requires d + xs[i].looks <= 7 && d + xs[i].looks <= Total(i + 1)
    ensures RoomUpTo(base, xs, i + 1)
    ensures var s := Ring(base, xs, i + 1); s.cons.deq == |s.fetched| == d + xs[i].looks
  {
    hide Inv, StepAll, EventsOf, SubmitAll, HasRoom, RoomUpTo, Rewind, AfterFirst, TypeOf, Permitted;
    var s, b := Ring(base, xs, i), Batches(xs)[i];
    RoomForNext(base, xs, i);
    Standing(base, xs, i);
    TrbsShape(xs[i]);
    var upTo := Batches(xs)[1..i + 1];
    assert upTo[..i - 1] == Batches(xs)[1..i] && upTo[i - 1..] == [b];
    AfterSplit(Rewind(AfterFirst(base, xs)), upTo, i - 1);
    OneBatch(b);
    Appended(s, Pushing(b.trbs), Looking(b.looks));
    PushingSubmits(s, b.trbs);
    var pushed := SubmitAll(s, b.trbs);
    assert HasRoom(s, |b.trbs|) ==> Outstanding(s) + |b.trbs| <= Room(s) by { RoomMeans(s, |b.trbs|); }
    SubmitAllKeeps(s, b.trbs);
    SubmitKeepsConsumer(s, b.trbs);
    LeftIs(base, xs, i);
    LookingExecutes(pushed, b.looks);
  }

  lemma RoomMeans(s: System, n: nat)
    ensures HasRoom(s, n) ==> |s.prod.t| >= 2 && Outstanding(s) + n <= Room(s)
  {
  }

  /** The transfers of a device that answers the first read, is late by one from then on, and falls silent
      after the third. */
  function FallsSilent(): seq<Transfer> {
    [In(0x0100_0680, 0x8_0000, 0, 8, 3), In(0x0100_0680, 0x12_0000, 0, 18, 3), In(0x0200_0680, 0x9_0000, 0, 9, 3),
     In(0x0200_0680, 0x22_0000, 0, 34, 0), Out(0x1_0900, 0, 0), Out(0x0B21, 0, 0), Out(0x0A21, 0, 0)]
  }

  lemma OneLater(base: nat, xs: seq<Transfer>, i: nat, d: nat)
    requires Issued(xs) && 0 < i < 4 && i < |xs| && RoomUpTo(base, xs, i) && Left(base, xs, i) <= 3
    requires Ring(base, xs, i).cons.deq == d == |Ring(base, xs, i).fetched|
    requires d + xs[i].looks <= 7 && d + xs[i].looks <= Total(i + 1)
    ensures RoomUpTo(base, xs, i + 1)
    ensures var s := Ring(base, xs, i + 1); s.cons.deq == |s.fetched| == d + xs[i].looks
    ensures Left(base, xs, i + 1) == 3 * (i + 1) - (d + xs[i].looks)
    ensures Statuses(Ring(base, xs, i + 1).fetched) == (d + xs[i].looks) / 3
  {
    hide Ring, RoomUpTo, HasRoom, Issued, Left;
    RoomAhead(base, xs, i);
    LookedAt(base, xs, i, d);
    ReadsPushed(base, xs, i + 1);
  }

  /** Three looks after each of the first three reads, and none after the fourth. */
  lemma AlwaysOneBehind(base: nat, xs: seq<Transfer>)
    requires Issued(xs) && |xs| == 7 && xs[0].looks == xs[1].looks == xs[2].looks == 3 && xs[3].looks == 0
    ensures Answered(base, xs) && RoomUpTo(base, xs, 3) && RoomUpTo(base, xs, 4)
    ensures Left(base, xs, 3) == 3 && |Ring(base, xs, 3).fetched| == 6 && Left(base, xs, 4) == 6
  {
    hide Ring, RoomUpTo, AfterFirst, Left, Issued;
    FirstLookedAt(base, xs);
    RoomForFirst(base, xs);
    OneLater(base, xs, 1, 0);
    OneLater(base, xs, 2, 3);
    OneLater(base, xs, 3, 6);
    var first := AfterFirst(base, xs).fetched;
    NoStatuses();
    forall i | 1 <= i <= 3
      ensures Statuses(Executed(base, xs, i)) >= i
    {
      StatusesConcat(first, Ring(base, xs, i).fetched);
    }
  }

  /** Its first three waits are all answered, though nothing of the third read has been executed when the
      third wait returns; and its first request overruns the ring. */
  lemma FallsSilentOverruns(base: nat)
    ensures var xs := FallsSilent();
      && Issued(xs) && Answered(base, xs)
      && Left(base, xs, 3) == 3 && Ring(base, xs, 3).fetched == AllTrbs(Batches(xs)[..2])
      && RoomUpTo(base, xs, 4) && !RequestFits(base, xs, 4) && !FindsRoom(base, xs)
  {
    hide Ring, RoomUpTo, AfterFirst, FallsSilent, Batches, FindsRoom, RequestFits, Left, Issued, Answered;
    var xs := FallsSilent();
    SilentShape();
    AlwaysOneBehind(base, xs);
    AnswersAreShifted(base, xs, 3);
    TwoReads(xs);
    TooManyLeft(base, xs);
    Ep0SafeIff(base, xs);
  }

  lemma TwoReads(xs: seq<Transfer>)
    requires Issued(xs) && |xs| > 2
    ensures |AllTrbs(Batches(xs)[..2])| == 6
  {
    StatusesOfReads(xs, 2, 6);
  }

  lemma SilentShape()
    ensures var xs := FallsSilent();
      Issued(xs) && |xs| == 7 && xs[0].looks == xs[1].looks == xs[2].looks == 3 && xs[3].looks == 0
  {
  }

  lemma TooManyLeft(base: nat, xs: seq<Transfer>)
    requires |xs| > 4 && Left(base, xs, 4) > 5
    ensures !RequestFits(base, xs, 4)
  {
  }

  lemma RoomAhead(base: nat, xs: seq<Transfer>, i: nat)
    requires Issued(xs) && 0 < i < 4 && i < |xs| && RoomUpTo(base, xs, i) && Left(base, xs, i) <= 3
    ensures HasRoom(Ring(base, xs, i), 3)
  {
    hide RoomUpTo, Ring;
    Standing(base, xs, i);
    LeftIs(base, xs, i);
  }

  /** Three looks execute the first read, and the rewind puts the controller back to slot 0. */
  lemma FirstLookedAt(base: nat, xs: seq<Transfer>)
    requires Issued(xs) && xs[0].looks == 3
    ensures AfterFirst(base, xs).fetched == Trbs(xs[0]) && Statuses(Trbs(xs[0])) == 1
    ensures Ring(base, xs, 1).cons.deq == 0
  {
    hide Inv, StepAll, EventsOf, SubmitAll, HasRoom, RoomUpTo, TypeOf, Permitted, Start;
    var start, b := Start(EP0_N, base), Batches(xs)[0];
    StartInv(EP0_N, base);
    EmptyRing(base);
    TrbsShape(xs[0]);
    FirstOnRing(base, xs);
    assert Batches(xs)[..1] == [b];
    OneBatch(b);
    Appended(start, Pushing(b.trbs), Looking(3));
    PushingSubmits(start, b.trbs);
    SubmitKeepsConsumer(start, b.trbs);
    LookingExecutes(SubmitAll(start, b.trbs), 3);
    OneStatus(xs[0]);
    assert Batches(xs)[1..1] == [];
    NoBatches(Rewind(AfterFirst(base, xs)));
  }
}
