/** The command ring under enumeration: one TRB for each command, and a wait whose end is ignored. */
module CommandRing {
  import opened Arith
  import opened ProducerRing
  import opened RingBatches
  import opened SlotEnumeration

  const CMD_N: nat := 16
  const TRB_ENABLE_SLOT: nat := 9
  const TRB_DISABLE_SLOT: nat := 10
  const TRB_ADDR_DEVICE: nat := 11
  const TRB_CFG_EP: nat := 12
  const TRB_EVAL_CTX: nat := 13

  /** The TRB of a command; the commands about a device's contexts name the input context. */
  function TrbOf(c: Command, context: nat): Trb {
    match c
    case EnableSlot(_) => OfDwords(0, 0, 0, TRB_ENABLE_SLOT * 1024)
    case DisableSlot(slot, _) => OfDwords(0, 0, 0, TRB_DISABLE_SLOT * 1024 + slot % 256 * 0x100_0000)
    case AddressDevice(slot, blocked) =>
      OfDwords(context % DWORD, context / DWORD, 0,
               TRB_ADDR_DEVICE * 1024 + (if blocked then 512 else 0) + slot % 256 * 0x100_0000)
    case EvaluateContext(slot) =>
      OfDwords(context % DWORD, context / DWORD, 0, TRB_EVAL_CTX * 1024 + slot % 256 * 0x100_0000)
    case ConfigureEndpoint(slot) =>
      OfDwords(context % DWORD, context / DWORD, 0, TRB_CFG_EP * 1024 + slot % 256 * 0x100_0000)
  }

  lemma TrbOfShape(c: Command, context: nat)
    ensures TypeOf(TrbOf(c, context)) != TRB_LINK && TrbOf(c, context).cycle == 0
  {
    match c
    case EnableSlot(_) =>
    case DisableSlot(slot, _) => TypeIs(TRB_DISABLE_SLOT, 0, slot % 256);
    case AddressDevice(slot, blocked) => TypeIs(TRB_ADDR_DEVICE, if blocked then 256 else 0, slot % 256);
    case EvaluateContext(slot) => TypeIs(TRB_EVAL_CTX, 0, slot % 256);
    case ConfigureEndpoint(slot) => TypeIs(TRB_CFG_EP, 0, slot % 256);
  }

  lemma TypeIs(kind: nat, flag: nat, slot: nat)
    requires kind < 64 && flag < 512
    ensures var dw3 := kind * 1024 + 2 * flag + slot * 0x100_0000;
      dw3 % 2 == 0 && dw3 / 2 / 512 % 64 == kind
  {
    var dw3 := kind * 1024 + 2 * flag + slot * 0x100_0000;
    var upper := 64 * (256 * slot) + kind;
    assert dw3 == 2 * (512 * upper + flag) + 0;
    ModIs(512 * upper + flag, 0, 2);
    ModIs(upper, flag, 512);
    ModIs(256 * slot, kind, 64);
  }

  // ---- reading a command back ----

  /** What a controller is asked to do. */
  datatype Ask =
    | AskEnable
    | AskDisable(slot: nat)
    | AskAddress(slot: nat, blocked: bool, context: nat)
    | AskConfigure(slot: nat, context: nat)
    | AskEvaluate(slot: nat, context: nat)
    | AskOther

  /** A command TRB by its fields (xHCI 1.2 section 6.4.3): the type in bits 10 to 15 of the fourth double
      word, the slot in bits 24 to 31, Block Set Address Request in bit 9, and the input context pointer in
      the first two double words. */
  function ReadBack(t: Trb): Ask {
    var control := 2 * t.ctl + t.cycle;
    AskOf(control / 1024 % 64, control / 0x100_0000 % 256, control / 512 % 2 == 1, t.dw0 + 0x1_0000_0000 * t.dw1)
  }

  function AskOf(kind: nat, slot: nat, blocked: bool, context: nat): Ask {
    match kind
    case 9 => AskEnable
    case 10 => AskDisable(slot)
    case 11 => AskAddress(slot, blocked, context)
    case 12 => AskConfigure(slot, context)
    case 13 => AskEvaluate(slot, context)
    case _ => AskOther
  }

  /** What the driver means by a command. */
  function Meant(c: Command, context: nat): Ask {
    match c
    case EnableSlot(_) => AskEnable
    case DisableSlot(slot, _) => AskDisable(slot)
    case AddressDevice(slot, blocked) => AskAddress(slot, blocked, context)
    case EvaluateContext(slot) => AskEvaluate(slot, context)
    case ConfigureEndpoint(slot) => AskConfigure(slot, context)
  }

  /** The fields the specification reserves are zero. */
  predicate ReservedZero(t: Trb) {
    t.dw2 == 0 && t.ctl % 256 == 0 && (2 * t.ctl + t.cycle) / 0x1_0000 % 256 == 0
  }

  /** The slot a command names; the answer to Enable Slot carries it in one byte. */
  predicate SlotIsByte(c: Command) {
    match c
    case EnableSlot(_) => true
    case DisableSlot(slot, _) => slot < 256
    case AddressDevice(slot, _) => slot < 256
    case EvaluateContext(slot) => slot < 256
    case ConfigureEndpoint(slot) => slot < 256
  }

  /** A command's TRB, read by its fields, is the command. */
  lemma CommandReadsBack(c: Command, context: nat)
    requires SlotIsByte(c)
    ensures ReadBack(TrbOf(c, context)) == Meant(c, context) && ReservedZero(TrbOf(c, context))
  {
    hide ReadBack, ReservedZero;
    match c
    case EnableSlot(_) => FieldsRead(9, false, 0, 0);
    case DisableSlot(slot, _) => SmallMod(slot, 256); FieldsRead(10, false, slot, 0);
    case AddressDevice(slot, blocked) => SmallMod(slot, 256); FieldsRead(11, blocked, slot, context);
    case EvaluateContext(slot) => SmallMod(slot, 256); FieldsRead(13, false, slot, context);
    case ConfigureEndpoint(slot) => SmallMod(slot, 256); FieldsRead(12, false, slot, context);
  }

  lemma FieldsRead(kind: nat, flag: bool, slot: nat, context: nat)
    requires kind < 64 && slot < 256
    ensures var t := OfDwords(context % DWORD, context / DWORD, 0, kind * 1024 + (if flag then 512 else 0) + slot * 0x100_0000);
      ReadBack(t) == AskOf(kind, slot, flag, context) && ReservedZero(t)
  {
    hide AskOf;
    FieldsAre(kind, flag, slot);
  }

  lemma FieldsAre(kind: nat, flag: bool, slot: nat)
    requires kind < 64 && slot < 256
    ensures var x := kind * 1024 + (if flag then 512 else 0) + slot * 0x100_0000;
      && x / 0x100_0000 % 256 == slot && x / 1024 % 64 == kind && (x / 512 % 2 == 1 <==> flag)
      && x % 2 == 0 && x / 2 % 256 == 0 && x / 0x1_0000 % 256 == 0
  {
    var b := if flag then 1 else 0;
    var upper := kind + 16384 * slot;
    var x := kind * 1024 + 512 * b + slot * 0x100_0000;
    ModIs(slot, kind * 1024 + 512 * b, 0x100_0000);
    SmallMod(slot, 256);
    ModIs(upper, 512 * b, 1024);
    ModIs(256 * slot, kind, 64);
    ModIs(2 * upper + b, 0, 512);
    ModIs(upper, b, 2);
    assert x == 0x100_0000 * slot + (kind * 1024 + 512 * b);
    assert x == 1024 * upper + 512 * b && x == 512 * (2 * upper + b) + 0 && upper == 64 * (256 * slot) + kind;
    UnusedBits(kind, b, slot);
  }

  lemma UnusedBits(kind: nat, b: nat, slot: nat)
    requires kind < 64 && b < 2
    ensures var x := kind * 1024 + 512 * b + slot * 0x100_0000;
      x % 2 == 0 && x / 2 % 256 == 0 && x / 0x1_0000 % 256 == 0
  {
    var half := 256 * (2 * kind + b + 32768 * slot);
    ModIs(half, 0, 2);
    ModIs(2 * kind + b + 32768 * slot, 0, 256);
    ModIs(256 * slot, kind * 1024 + 512 * b, 0x1_0000);
    ModIs(slot, 0, 256);
    assert 2 * half + 0 == kind * 1024 + 512 * b + slot * 0x100_0000;
  }

  function ReadAll(q: seq<Trb>): (r: seq<Ask>)
    ensures |r| == |q| && forall i :: 0 <= i < |q| ==> r[i] == ReadBack(q[i])
  {
    seq(|q|, i requires 0 <= i < |q| => ReadBack(q[i]))
  }

  function AllMeant(log: seq<Command>, contexts: seq<nat>): (r: seq<Ask>)
    requires |contexts| == |log|
    ensures |r| == |log| && forall i :: 0 <= i < |log| ==> r[i] == Meant(log[i], contexts[i])
  {
    seq(|log|, i requires 0 <= i < |log| => Meant(log[i], contexts[i]))
  }

  predicate SlotsAreBytes(ports: seq<Port>) {
    forall i :: 0 <= i < |ports| ==> ports[i].slot < 256
  }

  lemma VisitInBytes(p: Port)
    requires p.slot < 256
    ensures forall i :: 0 <= i < |Visit(p)| ==> SlotIsByte(Visit(p)[i])
  {
  }

  lemma {:induction false} LogInBytes(ports: seq<Port>)
    requires SlotsAreBytes(ports)
    ensures forall i :: 0 <= i < |Log(ports)| ==> SlotIsByte(Log(ports)[i])
  {
    hide Visit, SlotIsByte, Keeps;
    if ports != [] {
      VisitInBytes(ports[0]);
      LogInBytes(ports[1..]);
    }
  }

  lemma {:induction false} OneTrbEach(bs: seq<Batch>, i: nat)
    requires i < |bs| && forall j :: 0 <= j < |bs| ==> |bs[j].trbs| == 1
    ensures |AllTrbs(bs)| == |bs| && AllTrbs(bs)[i] == bs[i].trbs[0]
  {
    OneEach(bs[1..]);
    if i > 0 { OneTrbEach(bs[1..], i - 1); }
  }

  /** While every command finds room, what the controller has been asked to do, read from the TRBs it has
      executed, is what the driver meant by the first commands of its log. */
  lemma ExecutedIsMeant(base: nat, ports: seq<Port>, contexts: seq<nat>, looks: seq<nat>)
    requires SlotsAreBytes(ports) && |contexts| == |looks| == |Log(ports)|
    requires Permitted(Start(CMD_N, base), EventsOf(Batches(Log(ports), contexts, looks)))
    ensures var bs := Batches(Log(ports), contexts, looks);
      ReadAll(Ring(base, bs, |bs|).fetched) <= AllMeant(Log(ports), contexts)
  {
    hide Permitted, Start, Log, Ring, TrbOf, ReadBack, Meant, SlotIsByte, AllTrbs, EventsOf;
    var log, bs := Log(ports), Batches(Log(ports), contexts, looks);
    CommandsFitIff(base, ports, contexts, looks);
    LogInBytes(ports);
    OneEach(bs);
    var fetched := Ring(base, bs, |bs|).fetched;
    forall i | 0 <= i < |fetched|
      ensures ReadBack(fetched[i]) == Meant(log[i], contexts[i])
    {
      OneTrbEach(bs, i);
      CommandReadsBack(log[i], contexts[i]);
    }
  }

  /** Where each command's input context is, and how often the controller looks at the ring before the
      driver goes on. */
  function Batches(log: seq<Command>, contexts: seq<nat>, looks: seq<nat>): (bs: seq<Batch>)
    requires |contexts| == |looks| == |log|
    ensures |bs| == |log| && forall i :: 0 <= i < |log| ==> bs[i] == Batch([TrbOf(log[i], contexts[i])], looks[i])
  {
    seq(|log|, i requires 0 <= i < |log| => Batch([TrbOf(log[i], contexts[i])], looks[i]))
  }

  lemma BatchesGood(log: seq<Command>, contexts: seq<nat>, looks: seq<nat>)
    requires |contexts| == |looks| == |log|
    ensures var bs := Batches(log, contexts, looks);
      GoodBatches(bs) && forall i :: 0 <= i < |bs| ==> Plain(bs[i].trbs) && |bs[i].trbs| == 1
  {
    forall i | 0 <= i < |log|
      ensures TypeOf(TrbOf(log[i], contexts[i])) != TRB_LINK && TrbOf(log[i], contexts[i]).cycle == 0
    {
      TrbOfShape(log[i], contexts[i]);
    }
  }

  /** The ring when the first i commands have been waited for. */
  function Ring(base: nat, bs: seq<Batch>, i: nat): System
    requires i <= |bs|
  {
    After(Start(CMD_N, base), bs[..i])
  }

  predicate SingleTrbs(bs: seq<Batch>) {
    GoodBatches(bs) && forall i :: 0 <= i < |bs| ==> |bs[i].trbs| == 1 && Plain(bs[i].trbs)
  }

  lemma {:induction false} OneEach(bs: seq<Batch>)
    requires forall i :: 0 <= i < |bs| ==> |bs[i].trbs| == 1
    ensures |AllTrbs(bs)| == |bs|
  {
    if bs != [] { OneEach(bs[1..]); }
  }

  lemma EmptyRing(base: nat)
    ensures var s := Start(CMD_N, base);
      Inv(s) && |s.prod.t| == CMD_N && s.pushed == [] && s.fetched == [] && Counted(s) && Unmoved(s)
  {
    StartInv(CMD_N, base);
  }

  /** The ring after i commands that found room. */
  lemma Standing(base: nat, bs: seq<Batch>, i: nat)
    requires SingleTrbs(bs) && i <= |bs| && Fits(Start(CMD_N, base), bs[..i])
    ensures var s := Ring(base, bs, i);
      && Inv(s) && WellFormed(s) && |s.prod.t| == CMD_N && |s.pushed| == i
      && s.pushed == AllTrbs(bs[..i]) && s.fetched <= s.pushed
      && 0 <= Outstanding(s) <= Room(s) && (Parked(s) ==> Outstanding(s) == i % 15 && s.fetched != [])
  {
    hide Inv, StepAll, EventsOf, Fits, Counted, Start, Plain, NoLinks, TypeOf, Run;
    var start, some := Start(CMD_N, base), bs[..i];
    EmptyRing(base);
    assert forall j :: 0 <= j < i ==> some[j] == bs[j];
    Reached(start, some);
    OneEach(some);
    var s := Ring(base, bs, i);
    assert start.pushed + AllTrbs(some) == AllTrbs(some);
    WithinRoom(s);
    if Parked(s) {
      ParkedLeaves(s);
      PermittedIffFits(start, some);
      RunUnmoved(start, EventsOf(some), s);
    }
  }

  /** A command finds room unless fifteen are waiting, or fourteen before the Link. */
  predicate CommandFits(base: nat, bs: seq<Batch>, i: nat)
    requires i < |bs|
  {
    Outstanding(Ring(base, bs, i)) <= if Parked(Ring(base, bs, i)) then 13 else 14
  }

  lemma FitsNext(base: nat, bs: seq<Batch>, i: nat)
    requires SingleTrbs(bs) && i < |bs| && Fits(Start(CMD_N, base), bs[..i])
    ensures Fits(Start(CMD_N, base), bs[..i + 1]) <==> CommandFits(base, bs, i)
  {
    hide Inv, StepAll, EventsOf, Fits, Start;
    var some := bs[..i + 1];
    assert some[..i] == bs[..i] && some[i] == bs[i];
    FitsLast(Start(CMD_N, base), some);
    Standing(base, bs, i);
  }

  lemma {:induction false} FitsIff(base: nat, bs: seq<Batch>, m: nat)
    requires SingleTrbs(bs) && m <= |bs|
    ensures Fits(Start(CMD_N, base), bs[..m]) <==> forall i :: 0 <= i < m ==> CommandFits(base, bs, i)
    decreases m
  {
    hide Fits, CommandFits, SingleTrbs;
    if m > 0 {
      FitsIff(base, bs, m - 1);
      assert bs[..m][..m - 1] == bs[..m - 1];
      FitsLast(Start(CMD_N, base), bs[..m]);
      if Fits(Start(CMD_N, base), bs[..m - 1]) { FitsNext(base, bs, m - 1); }
    } else {
      NothingToFit(base, bs);
    }
  }

  lemma NothingToFit(base: nat, bs: seq<Batch>)
    ensures Fits(Start(CMD_N, base), bs[..0])
  {
  }

  /** In an enumeration every command finds room on the command ring exactly if none finds fifteen waiting,
      or fourteen with the controller parked on the Link. Then what the controller has executed is the
      commands of the log, in order. */
  lemma CommandsFitIff(base: nat, ports: seq<Port>, contexts: seq<nat>, looks: seq<nat>)
    requires |contexts| == |looks| == |Log(ports)|
    ensures var bs := Batches(Log(ports), contexts, looks);
      && (Permitted(Start(CMD_N, base), EventsOf(bs)) <==> forall i :: 0 <= i < |bs| ==> CommandFits(base, bs, i))
      && (Permitted(Start(CMD_N, base), EventsOf(bs)) ==> Ring(base, bs, |bs|).fetched <= AllTrbs(bs))
  {
    hide Inv, Permitted, Fits, CommandFits, Start, Log, Batches, Ring;
    var bs := Batches(Log(ports), contexts, looks);
    BatchesGood(Log(ports), contexts, looks);
    assert bs[..|bs|] == bs;
    EmptyRing(base);
    PermittedIffFits(Start(CMD_N, base), bs);
    FitsIff(base, bs, |bs|);
    if Fits(Start(CMD_N, base), bs) { Standing(base, bs, |bs|); }
  }

  /** With every command answered before the next, or with at most fifteen commands however slow the
      controller is, every command finds room. */
  lemma {:induction false} FewOrAnswered(base: nat, bs: seq<Batch>, m: nat)
    requires SingleTrbs(bs) && m <= |bs|
    requires |bs| <= 15 || forall i :: 0 <= i < |bs| ==> Outstanding(Ring(base, bs, i)) == 0
    ensures Fits(Start(CMD_N, base), bs[..m])
    decreases m
  {
    hide Fits, SingleTrbs, Ring;
    if m > 0 {
      FewOrAnswered(base, bs, m - 1);
      Standing(base, bs, m - 1);
      assert CommandFits(base, bs, m - 1);
      FitsNext(base, bs, m - 1);
    } else {
      NothingToFit(base, bs);
    }
  }

  lemma AnsweredCommandsFit(base: nat, ports: seq<Port>, contexts: seq<nat>, looks: seq<nat>)
    requires |contexts| == |looks| == |Log(ports)|
    requires var bs := Batches(Log(ports), contexts, looks);
      |bs| <= 15 || forall i :: 0 <= i < |bs| ==> Outstanding(Ring(base, bs, i)) == 0
    ensures Permitted(Start(CMD_N, base), EventsOf(Batches(Log(ports), contexts, looks)))
  {
    hide Inv, Permitted, Fits, Start, Log, Batches, Ring;
    var bs := Batches(Log(ports), contexts, looks);
    BatchesGood(Log(ports), contexts, looks);
    assert bs[..|bs|] == bs;
    EmptyRing(base);
    FewOrAnswered(base, bs, |bs|);
    PermittedIffFits(Start(CMD_N, base), bs);
  }

  /** From the first command that finds no room, less than a lap of further commands leaves the controller
      stalled. */
  lemma CommandOverrun(base: nat, bs: seq<Batch>, i: nat)
    requires SingleTrbs(bs) && i < |bs| < i + CMD_N
    requires Fits(Start(CMD_N, base), bs[..i]) && !CommandFits(base, bs, i)
    ensures var s := Ring(base, bs, |bs|); WellFormed(s) && HwStep(s) == s && s.fetched == Ring(base, bs, i).fetched
  {
    hide Inv, StepAll, EventsOf, Fits, SubmitAll, HwStep, Start, GoodBatches;
    var rest := bs[i..];
    Standing(base, bs, i);
    assert bs[..|bs|] == bs;
    AfterSplit(Start(CMD_N, base), bs, i);
    assert forall j :: 0 <= j < |rest| ==> rest[j] == bs[i + j];
    OneEach(rest);
    assert GoodBatches(rest) by { GoodRest(bs, i); }
    StallsToTheEnd(Ring(base, bs, i), rest);
  }

  lemma GoodRest(bs: seq<Batch>, i: nat)
    requires GoodBatches(bs) && i <= |bs|
    ensures GoodBatches(bs[i..])
  {
  }

  // ---- a controller that answers nothing ----

  /** A connected port whose Enable Slot is not answered. */
  function DeadPort(): Port {
    Port(true, 255, 0, 255, false, 255, 255, false, false, false, 255, 255)
  }

  function DeadPorts(n: nat): seq<Port> {
    if n == 0 then [] else [DeadPort()] + DeadPorts(n - 1)
  }

  function Zeros(n: nat): (q: seq<nat>)
    ensures |q| == n && forall i :: 0 <= i < n ==> q[i] == 0
  {
    seq(n, i => 0)
  }

  lemma {:induction false} DeadLog(n: nat)
    ensures |Log(DeadPorts(n))| == n
  {
    if n > 0 {
      assert DeadPorts(n)[0] == DeadPort() && DeadPorts(n)[1..] == DeadPorts(n - 1);
      DeadLog(n - 1);
    }
  }

  /** Nobody looks: everything pushed is waiting. */
  lemma {:induction false} UnwatchedWaits(base: nat, bs: seq<Batch>, i: nat)
    requires SingleTrbs(bs) && i <= |bs| && i <= 15 && forall j :: 0 <= j < |bs| ==> bs[j].looks == 0
    ensures Fits(Start(CMD_N, base), bs[..i])
    ensures var s := Ring(base, bs, i); s.fetched == [] && s.cons == Consumer(0, 1)
    decreases i
  {
    hide Inv, StepAll, EventsOf, Fits, Start, SubmitAll, Permitted, Plain, TypeOf;
    EmptyRing(base);
    if i > 0 {
      var b, s := bs[i - 1], Ring(base, bs, i - 1);
      UnwatchedWaits(base, bs, i - 1);
      Standing(base, bs, i - 1);
      assert CommandFits(base, bs, i - 1);
      FitsNext(base, bs, i - 1);
      assert bs[..i][..i - 1] == bs[..i - 1] && bs[..i][i - 1..] == [b];
      AfterSplit(Start(CMD_N, base), bs[..i], i - 1);
      OneBatch(b);
      Appended(s, Pushing(b.trbs), Looking(0));
      PushingSubmits(s, b.trbs);
      PushedOnly(s, b.trbs);
    } else {
      NothingToFit(base, bs);
      NoBatches(Start(CMD_N, base));
      assert bs[..0] == [];
      FreshConsumer(base);
    }
  }

  lemma PushedOnly(s: System, dws: seq<Trb>)
    requires Sane(s.prod)
    ensures StepAll(SubmitAll(s, dws), Looking(0)) == SubmitAll(s, dws)
    ensures SubmitAll(s, dws).cons == s.cons && SubmitAll(s, dws).fetched == s.fetched
  {
  }

  lemma FreshConsumer(base: nat)
    ensures Start(CMD_N, base).cons == Consumer(0, 1)
  {
  }

  /** Sixteen connected ports and a controller that answers nothing: the sixteenth Enable Slot overruns the
      ring, and the controller will never execute any of them. */
  lemma SixteenDeadPorts(base: nat)
    ensures |Log(DeadPorts(16))| == 16
    ensures var bs := Batches(Log(DeadPorts(16)), Zeros(16), Zeros(16));
      && !CommandFits(base, bs, 15) && !Permitted(Start(CMD_N, base), EventsOf(bs))
      && var s := Ring(base, bs, 16); WellFormed(s) && HwStep(s) == s && s.fetched == []
  {
    hide Inv, Permitted, Fits, Start, Log, Batches, Ring, HwStep;
    DeadLog(16);
    var bs := Batches(Log(DeadPorts(16)), Zeros(16), Zeros(16));
    BatchesGood(Log(DeadPorts(16)), Zeros(16), Zeros(16));
    UnwatchedWaits(base, bs, 15);
    Standing(base, bs, 15);
    assert !CommandFits(base, bs, 15);
    CommandOverrun(base, bs, 15);
    CommandsFitIff(base, DeadPorts(16), Zeros(16), Zeros(16));
  }
}
