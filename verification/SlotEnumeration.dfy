/** Port enumeration: every connected port asks the controller for a device slot and must give it
    back unless it turns out to be the keyboard. Command and transfer outcomes are an oracle. */
module SlotEnumeration {
  import opened Wrappers

  const CC_SUCCESS: nat := 1

  /** What happens at one port: the answers to each command and control transfer, should it be made. */
  datatype Port = Port(
    connected: bool,
    enableCode: nat, slot: nat,
    addressBlocked: nat,
    shortDescriptor: bool,
    evaluate: nat,
    address: nat,
    deviceDescriptor: bool,
    configDescriptor: bool,
    isBootKeyboard: bool,
    configureEndpoint: nat,
    disable: nat)

  /** The commands put on the command ring, with the answers that matter for slots. */
  datatype Command =
    | EnableSlot(granted: nat)
    | AddressDevice(slot: nat, blocked: bool)
    | EvaluateContext(slot: nat)
    | ConfigureEndpoint(slot: nat)
    | DisableSlot(slot: nat, succeeded: bool)

  function GiveBack(p: Port): seq<Command> {
    [DisableSlot(p.slot, p.disable == CC_SUCCESS)]
  }

  predicate Granted(p: Port) {
    p.connected && p.enableCode == CC_SUCCESS && p.slot != 0
  }

  /** Every step after Enable Slot went well. */
  predicate Keeps(p: Port) {
    && Granted(p) && p.addressBlocked == CC_SUCCESS && p.shortDescriptor && p.evaluate == CC_SUCCESS
    && p.address == CC_SUCCESS && p.deviceDescriptor && p.configDescriptor && p.isBootKeyboard
    && p.configureEndpoint == CC_SUCCESS
  }

  /** The commands one port gives rise to. */
  function Visit(p: Port): seq<Command> {
    if !p.connected then []
    else [EnableSlot(if Granted(p) then p.slot else 0)] + if !Granted(p) then [] else AfterEnable(p)
  }

  function AfterEnable(p: Port): seq<Command> {
    if p.addressBlocked != CC_SUCCESS || !p.shortDescriptor then [AddressDevice(p.slot, true)] + GiveBack(p)
    else [AddressDevice(p.slot, true)] + AfterDescriptor(p)
  }

  function AfterDescriptor(p: Port): seq<Command> {
    if p.evaluate != CC_SUCCESS then [EvaluateContext(p.slot)] + GiveBack(p)
    else [EvaluateContext(p.slot)] + AfterEvaluate(p)
  }

  function AfterEvaluate(p: Port): seq<Command> {
    if p.address != CC_SUCCESS || !p.deviceDescriptor || !p.configDescriptor || !p.isBootKeyboard then
      [AddressDevice(p.slot, false)] + GiveBack(p)
    else if p.configureEndpoint != CC_SUCCESS then
      [AddressDevice(p.slot, false), ConfigureEndpoint(p.slot)] + GiveBack(p)
    else [AddressDevice(p.slot, false), ConfigureEndpoint(p.slot)]
  }

  /** Ports are tried in order until one is the keyboard. */
  function Log(ports: seq<Port>): seq<Command> {
    if ports == [] then []
    else if Keeps(ports[0]) then Visit(ports[0])
    else Visit(ports[0]) + Log(ports[1..])
  }

  function Kept(ports: seq<Port>): Option<nat> {
    if ports == [] then None
    else if Keeps(ports[0]) then Some(ports[0].slot)
    else Kept(ports[1..])
  }

  lemma OnePort(ports: seq<Port>, i: nat)
    requires i < |ports|
    ensures Log(ports[i..]) == Visit(ports[i]) + if Keeps(ports[i]) then [] else Log(ports[i + 1..])
    ensures Kept(ports[i..]) == if Keeps(ports[i]) then Some(ports[i].slot) else Kept(ports[i + 1..])
  {
    assert ports[i..][0] == ports[i] && ports[i..][1..] == ports[i + 1..];
  }

  /** The enumeration loop, with its early exits. */
  method Enumerate(ports: seq<Port>) returns (log: seq<Command>, kbdSlot: Option<nat>)
    ensures log == Log(ports) && kbdSlot == Kept(ports)
  {
    hide Log, Kept;
    log, kbdSlot := [], None;
    for i := 0 to |ports|
      invariant kbdSlot == None
      invariant Log(ports) == log + Log(ports[i..]) && Kept(ports) == Kept(ports[i..])
    {
      OnePort(ports, i);
      var commands, done := VisitPort(ports[i]);
      log := log + commands;
      if done {
        return log, Some(ports[i].slot);
      }
    }
    NoPorts(ports);
  }

  lemma NoPorts(ports: seq<Port>)
    ensures Log(ports[|ports|..]) == [] && Kept(ports[|ports|..]) == None
  {
  }

  /** The body of the loop for one port: each early exit gives the slot back. */
  method VisitPort(p: Port) returns (log: seq<Command>, keyboard: bool)
    ensures log == Visit(p) && keyboard == Keeps(p)
  {
    hide Visit, Keeps;
    VisitIs(p);
    KeepsIs(p);
    ghost var whole := Wholly(p.slot);
    log, keyboard := [], false;
    if !p.connected { return; }
    if p.enableCode != CC_SUCCESS || p.slot == 0 {
      log := log + [EnableSlot(0)];
      return;
    }
    log := log + [EnableSlot(p.slot)];
    log := log + [AddressDevice(p.slot, true)];
    assert log == whole[..2];
    if p.addressBlocked != CC_SUCCESS { log := log + GiveBack(p); return; }
    if !p.shortDescriptor { log := log + GiveBack(p); return; }
    log := log + [EvaluateContext(p.slot)];
    assert log == whole[..3];
    if p.evaluate != CC_SUCCESS { log := log + GiveBack(p); return; }
    log := log + [AddressDevice(p.slot, false)];
    assert log == whole[..4];
    if p.address != CC_SUCCESS { log := log + GiveBack(p); return; }
    if !p.deviceDescriptor { log := log + GiveBack(p); return; }
    if !p.configDescriptor { log := log + GiveBack(p); return; }
    if !p.isBootKeyboard { log := log + GiveBack(p); return; }
    log := log + [ConfigureEndpoint(p.slot)];
    assert log == whole[..5];
    if p.configureEndpoint != CC_SUCCESS { log := log + GiveBack(p); return; }
    keyboard := true;
  }

  // ---- which commands, for whom ----

  /** How far a port that got its slot comes: after how many commands the first answer fails it, or 5. */
  function FailsAfter(p: Port): nat {
    if p.addressBlocked != 1 || !p.shortDescriptor then 2
    else if p.evaluate != 1 then 3
    else if p.address != 1 || !p.deviceDescriptor || !p.configDescriptor || !p.isBootKeyboard then 4
    else 5
  }

  /** The five commands of a port that goes all the way. */
  function Wholly(slot: nat): seq<Command> {
    [EnableSlot(slot), AddressDevice(slot, true), EvaluateContext(slot), AddressDevice(slot, false), ConfigureEndpoint(slot)]
  }

  /** A port that got slot s is sent those five, cut short after the first answer that fails it; then, unless
      it is the keyboard, Disable Slot for s. */
  lemma VisitIs(p: Port)
    ensures !p.connected ==> Visit(p) == []
    ensures p.connected && (p.enableCode != 1 || p.slot == 0) ==> Visit(p) == [EnableSlot(0)]
    ensures p.connected && p.enableCode == 1 && p.slot != 0 ==>
      var keyboard := FailsAfter(p) == 5 && p.configureEndpoint == 1;
      Visit(p) == Wholly(p.slot)[..FailsAfter(p)] + if keyboard then [] else [DisableSlot(p.slot, p.disable == 1)]
  {
    if Granted(p) {
      var s, whole := p.slot, Wholly(p.slot);
      assert whole[..2] == [EnableSlot(s), AddressDevice(s, true)];
      assert whole[..3] == [EnableSlot(s), AddressDevice(s, true), EvaluateContext(s)];
      assert whole[..4] == [EnableSlot(s), AddressDevice(s, true), EvaluateContext(s), AddressDevice(s, false)];
      assert whole[..5] == whole;
    }
  }

  /** A port whose every answer is Success, with a slot and a keyboard behind it. */
  predicate IsKeyboardPort(p: Port) {
    && p.connected && p.enableCode == 1 && p.slot != 0 && FailsAfter(p) == 5 && p.configureEndpoint == 1
  }

  function VisitAll(ports: seq<Port>): seq<Command> {
    if ports == [] then [] else Visit(ports[0]) + VisitAll(ports[1..])
  }

  lemma KeepsIs(p: Port)
    ensures Keeps(p) <==> IsKeyboardPort(p)
  {
  }

  /** With no keyboard behind any port all of them are visited, in order, and none is kept. */
  lemma {:induction false} NoneKept(ports: seq<Port>)
    requires forall i :: 0 <= i < |ports| ==> !IsKeyboardPort(ports[i])
    ensures Kept(ports) == None && Log(ports) == VisitAll(ports)
  {
    hide Visit, Keeps, IsKeyboardPort;
    if ports != [] {
      KeepsIs(ports[0]);
      NoneKept(ports[1..]);
    }
  }

  /** The ports are visited in order up to the first keyboard, and no further; the keyboard's slot is the one
      kept. */
  lemma {:induction false} FirstKept(ports: seq<Port>, i: nat)
    requires i < |ports| && IsKeyboardPort(ports[i]) && forall j :: 0 <= j < i ==> !IsKeyboardPort(ports[j])
    ensures Kept(ports) == Some(ports[i].slot) && Log(ports) == VisitAll(ports[..i + 1])
  {
    hide Visit, Keeps, IsKeyboardPort;
    KeepsIs(ports[0]);
    assert ports[..i + 1][0] == ports[0] && ports[..i + 1][1..] == ports[1..][..i];
    if i > 0 {
      FirstKept(ports[1..], i - 1);
    } else {
      assert VisitAll(ports[..1]) == Visit(ports[0]) + VisitAll([]);
    }
  }

  // ---- accounting ----

  function Grants(log: seq<Command>): seq<nat> {
    if log == [] then []
    else (if log[0].EnableSlot? && log[0].granted != 0 then [log[0].granted] else []) + Grants(log[1..])
  }

  function Returns(log: seq<Command>): seq<nat> {
    if log == [] then [] else (if log[0].DisableSlot? then [log[0].slot] else []) + Returns(log[1..])
  }

  lemma {:induction false} GrantsConcat(a: seq<Command>, b: seq<Command>)
    ensures Grants(a + b) == Grants(a) + Grants(b)
  {
    if a == [] {
      assert a + b == b;
    } else {
      assert (a + b)[0] == a[0] && (a + b)[1..] == a[1..] + b;
      GrantsConcat(a[1..], b);
    }
  }

  lemma {:induction false} ReturnsConcat(a: seq<Command>, b: seq<Command>)
    ensures Returns(a + b) == Returns(a) + Returns(b)
  {
    if a == [] {
      assert a + b == b;
    } else {
      assert (a + b)[0] == a[0] && (a + b)[1..] == a[1..] + b;
      ReturnsConcat(a[1..], b);
    }
  }

  lemma First(c: Command, rest: seq<Command>)
    ensures Grants([c] + rest) == (if c.EnableSlot? && c.granted != 0 then [c.granted] else []) + Grants(rest)
    ensures Returns([c] + rest) == (if c.DisableSlot? then [c.slot] else []) + Returns(rest)
  {
    assert ([c] + rest)[0] == c && ([c] + rest)[1..] == rest;
  }

  lemma GiveBackAccounts(p: Port)
    ensures Grants(GiveBack(p)) == [] && Returns(GiveBack(p)) == [p.slot]
  {
    First(GiveBack(p)[0], []);
    assert GiveBack(p) == GiveBack(p) + [];
  }

  lemma VisitAccounts(p: Port)
    ensures Grants(Visit(p)) == if Granted(p) then [p.slot] else []
    ensures Returns(Visit(p)) == if Granted(p) && !Keeps(p) then [p.slot] else []
  {
    hide Grants, Returns, GiveBack, AfterDescriptor, AfterEvaluate;
    if Granted(p) {
      GiveBackAccounts(p);
      First(EnableSlot(p.slot), AfterEnable(p));
      First(AddressDevice(p.slot, true), GiveBack(p));
      First(AddressDevice(p.slot, true), AfterDescriptor(p));
      if p.addressBlocked == CC_SUCCESS && p.shortDescriptor { DescriptorAccounts(p); }
    } else if p.connected {
      Nothing();
      First(EnableSlot(0), []);
      assert [EnableSlot(0)] + [] == [EnableSlot(0)];
    } else {
      Nothing();
    }
  }

  lemma Nothing()
    ensures Grants([]) == [] && Returns([]) == []
  {
  }

  lemma DescriptorAccounts(p: Port)
    requires Granted(p) && p.addressBlocked == CC_SUCCESS && p.shortDescriptor
    ensures Grants(AfterDescriptor(p)) == [] && Returns(AfterDescriptor(p)) == if Keeps(p) then [] else [p.slot]
  {
    hide Grants, Returns, GiveBack, AfterEvaluate;
    GiveBackAccounts(p);
    First(EvaluateContext(p.slot), GiveBack(p));
    First(EvaluateContext(p.slot), AfterEvaluate(p));
    if p.evaluate == CC_SUCCESS { EvaluateAccounts(p); }
  }

  lemma EvaluateAccounts(p: Port)
    requires Granted(p) && p.addressBlocked == CC_SUCCESS && p.shortDescriptor && p.evaluate == CC_SUCCESS
    ensures Grants(AfterEvaluate(p)) == [] && Returns(AfterEvaluate(p)) == if Keeps(p) then [] else [p.slot]
  {
    hide Grants, Returns, GiveBack;
    GiveBackAccounts(p);
    Nothing();
    var a, c := AddressDevice(p.slot, false), ConfigureEndpoint(p.slot);
    First(a, GiveBack(p));
    First(c, GiveBack(p));
    First(a, [c] + GiveBack(p));
    First(c, []);
    First(a, [c] + []);
    assert [a] + ([c] + GiveBack(p)) == [a, c] + GiveBack(p);
    assert [a] + ([c] + []) == [a, c];
  }

  /** Slot conservation, for every sequence of outcomes: the slots granted are, in the same order, the
      slots given back, followed by the one kept for the keyboard if there is one. */
  lemma {:induction false} SlotsConserved(ports: seq<Port>)
    ensures Grants(Log(ports)) == Returns(Log(ports)) + (if Kept(ports).Some? then [Kept(ports).value] else [])
  {
    hide Grants, Returns, Visit;
    Nothing();
    if ports != [] {
      VisitAccounts(ports[0]);
      if !Keeps(ports[0]) {
        SlotsConserved(ports[1..]);
        GrantsConcat(Visit(ports[0]), Log(ports[1..]));
        ReturnsConcat(Visit(ports[0]), Log(ports[1..]));
      }
    }
  }

  // ---- the controller as the other party ----

  /** The slots the controller counts as taken after a prefix of the commands. */
  function HeldAfter(log: seq<Command>): set<nat> {
    if log == [] then {}
    else
      var held, last := HeldAfter(log[..|log| - 1]), log[|log| - 1];
      if last.EnableSlot? && last.granted != 0 then held + {last.granted}
      else if last.DisableSlot? && last.succeeded then held - {last.slot}
      else held
  }

  /** A controller grants only slots it does not count as taken. */
  ghost predicate GrantsFreeSlots(log: seq<Command>) {
    forall i :: 0 <= i < |log| && log[i].EnableSlot? && log[i].granted != 0 ==> log[i].granted !in HeldAfter(log[..i])
  }

  function FailedReturns(log: seq<Command>): nat {
    if log == [] then 0
    else FailedReturns(log[..|log| - 1]) + if log[|log| - 1].DisableSlot? && !log[|log| - 1].succeeded then 1 else 0
  }

  /** A slot command is about the slot being worked on; a new slot is asked for only when there is none. */
  predicate Fitting(w: Option<nat>, c: Command) {
    match c
    case EnableSlot(_) => w == None
    case AddressDevice(s, _) => w == Some(s)
    case EvaluateContext(s) => w == Some(s)
    case ConfigureEndpoint(s) => w == Some(s)
    case DisableSlot(s, _) => w == Some(s)
  }

  function Next(w: Option<nat>, c: Command): Option<nat> {
    if c.EnableSlot? then (if c.granted != 0 then Some(c.granted) else None)
    else if c.DisableSlot? then None
    else w
  }

  /** The slot the driver is working on after a prefix of the commands, if any. */
  function Working(log: seq<Command>): Option<nat> {
    if log == [] then None else Next(Working(log[..|log| - 1]), log[|log| - 1])
  }

  ghost predicate Disciplined(log: seq<Command>) {
    forall i :: 0 <= i < |log| ==> Fitting(Working(log[..i]), log[i])
  }

  lemma {:induction false} DisciplinedAppend(a: seq<Command>, b: seq<Command>)
    requires Disciplined(a) && Disciplined(b) && Working(a) == None
    ensures Disciplined(a + b) && (b != [] ==> Working(a + b) == Working(b))
    decreases |b|
  {
    if b == [] {
      assert a + b == a;
    } else {
      var init, last := b[..|b| - 1], b[|b| - 1];
      assert Disciplined(init) by {
        forall i | 0 <= i < |init| ensures init[i] == b[i] && init[..i] == b[..i] {}
      }
      DisciplinedAppend(a, init);
      assert (a + b)[..|a + b| - 1] == a + init;
      assert init == [] ==> a + init == a;
      assert b[..|b| - 1] == init;
      forall i | 0 <= i < |a + b|
        ensures i < |a + init| ==> (a + b)[i] == (a + init)[i] && (a + b)[..i] == (a + init)[..i]
        ensures i == |a + init| ==> (a + b)[i] == last && (a + b)[..i] == a + init
      {
        if i < |a + init| { assert (a + b)[..i] == (a + init)[..i]; }
      }
    }
  }

  lemma Append(a: seq<Command>, c: Command)
    requires Disciplined(a) && Fitting(Working(a), c)
    ensures Disciplined(a + [c]) && Working(a + [c]) == Next(Working(a), c)
  {
    hide Working, Fitting;
    var b := a + [c];
    WorkingLast(a, c);
    forall i | 0 <= i < |b|
      ensures Fitting(Working(b[..i]), b[i])
    {
      if i < |a| {
        assert b[..i] == a[..i] && b[i] == a[i];
      } else {
        assert b[..i] == a && b[i] == c;
      }
    }
  }

  lemma WorkingLast(a: seq<Command>, c: Command)
    ensures Working(a + [c]) == Next(Working(a), c)
  {
    assert (a + [c])[..|a + [c]| - 1] == a;
  }

  lemma Extend(a: seq<Command>, c: Command, rest: seq<Command>)
    requires Disciplined(a) && Fitting(Working(a), c)
    ensures Disciplined(a + [c]) && Working(a + [c]) == Next(Working(a), c)
    ensures a + ([c] + rest) == (a + [c]) + rest
  {
    hide Disciplined, Working, Fitting;
    Append(a, c);
  }

  lemma GiveBackDisciplined(a: seq<Command>, p: Port)
    requires Disciplined(a) && Working(a) == Some(p.slot)
    ensures Disciplined(a + GiveBack(p)) && Working(a + GiveBack(p)) == None
  {
    Extend(a, GiveBack(p)[0], []);
  }

  lemma EvaluateDisciplined(a: seq<Command>, p: Port)
    requires Disciplined(a) && Working(a) == Some(p.slot)
    requires Granted(p) && p.addressBlocked == CC_SUCCESS && p.shortDescriptor && p.evaluate == CC_SUCCESS
    ensures Disciplined(a + AfterEvaluate(p))
    ensures Working(a + AfterEvaluate(p)) == if Keeps(p) then Some(p.slot) else None
  {
    hide Disciplined, Working, GiveBack;
    var x, y := AddressDevice(p.slot, false), ConfigureEndpoint(p.slot);
    Extend(a, x, GiveBack(p));
    GiveBackDisciplined(a + [x], p);
    Extend(a + [x], y, GiveBack(p));
    GiveBackDisciplined(a + [x] + [y], p);
    assert a + [x] + [y] == a + [x, y];
    assert a + [x, y] + GiveBack(p) == a + ([x, y] + GiveBack(p));
  }

  lemma DescriptorDisciplined(a: seq<Command>, p: Port)
    requires Disciplined(a) && Working(a) == Some(p.slot)
    requires Granted(p) && p.addressBlocked == CC_SUCCESS && p.shortDescriptor
    ensures Disciplined(a + AfterDescriptor(p))
    ensures Working(a + AfterDescriptor(p)) == if Keeps(p) then Some(p.slot) else None
  {
    hide Disciplined, Working, GiveBack, AfterEvaluate;
    var x := EvaluateContext(p.slot);
    Extend(a, x, GiveBack(p));
    GiveBackDisciplined(a + [x], p);
    if p.evaluate == CC_SUCCESS {
      Extend(a, x, AfterEvaluate(p));
      EvaluateDisciplined(a + [x], p);
    }
  }

  lemma VisitDisciplined(p: Port)
    ensures Disciplined(Visit(p))
    ensures Working(Visit(p)) == if Keeps(p) then Some(p.slot) else None
  {
    hide GiveBack, AfterDescriptor;
    if Granted(p) {
      var e, x := EnableSlot(p.slot), AddressDevice(p.slot, true);
      Extend([], e, AfterEnable(p));
      assert [] + [e] == [e];
      Extend([e], x, GiveBack(p));
      GiveBackDisciplined([e] + [x], p);
      if p.addressBlocked == CC_SUCCESS && p.shortDescriptor {
        Extend([e], x, AfterDescriptor(p));
        DescriptorDisciplined([e] + [x], p);
      }
    }
  }

  /** The commands of an enumeration are disciplined, and a slot is being worked on at the end
      exactly if it is the one kept. */
  lemma {:induction false} LogDisciplined(ports: seq<Port>)
    ensures Disciplined(Log(ports)) && Working(Log(ports)) == Kept(ports)
  {
    if ports != [] {
      VisitDisciplined(ports[0]);
      if !Keeps(ports[0]) {
        LogDisciplined(ports[1..]);
        DisciplinedAppend(Visit(ports[0]), Log(ports[1..]));
        if Log(ports[1..]) == [] {
          assert Visit(ports[0]) + Log(ports[1..]) == Visit(ports[0]);
        }
      }
    }
  }

  /** How many slots a disciplined driver holds: the one it works on, and one for each Disable Slot
      that failed. */
  lemma {:induction false} HeldCount(log: seq<Command>)
    requires Disciplined(log) && GrantsFreeSlots(log)
    ensures |HeldAfter(log)| == FailedReturns(log) + if Working(log).Some? then 1 else 0
    ensures Working(log).Some? ==> Working(log).value in HeldAfter(log)
    decreases |log|
  {
    if log != [] {
      var n := |log| - 1;
      var last := log[n];
      Prefix(log, n);
      HeldCount(log[..n]);
      assert Fitting(Working(log[..n]), last);
      assert last.EnableSlot? && last.granted != 0 ==> last.granted !in HeldAfter(log[..n]);
      hide Disciplined, GrantsFreeSlots;
      assert Working(log) == Next(Working(log[..n]), last);
    }
  }

  lemma Prefix(log: seq<Command>, i: nat)
    requires i <= |log| && Disciplined(log) && GrantsFreeSlots(log)
    ensures Disciplined(log[..i]) && GrantsFreeSlots(log[..i])
  {
    assert forall j :: 0 <= j < i ==> log[..i][..j] == log[..j] && log[..i][j] == log[j];
  }

  /** Main theorem: at every moment of every enumeration the slots held are the one being worked on and
      those whose Disable Slot failed; so if every Disable Slot succeeds at most one slot is held, and
      no port is ever asked to make do while an earlier, failed port's slot is still taken. */
  lemma NoStarvation(ports: seq<Port>, i: nat)
    requires i <= |Log(ports)| && GrantsFreeSlots(Log(ports))
    ensures var now := Log(ports)[..i];
      && |HeldAfter(now)| == FailedReturns(now) + (if Working(now).Some? then 1 else 0)
      && (FailedReturns(now) == 0 ==> |HeldAfter(now)| <= 1)
      && (i < |Log(ports)| && Log(ports)[i].EnableSlot? ==> |HeldAfter(now)| == FailedReturns(now))
  {
    LogDisciplined(ports);
    Prefix(Log(ports), i);
    HeldCount(Log(ports)[..i]);
  }

  /** Exactly when enumeration is over does it still hold anything but failed returns: the keyboard's slot. */
  lemma HeldAtTheEnd(ports: seq<Port>)
    requires GrantsFreeSlots(Log(ports)) && FailedReturns(Log(ports)) == 0
    ensures HeldAfter(Log(ports)) == match Kept(ports) case Some(s) => {s} case None => {}
  {
    LogDisciplined(ports);
    HeldCount(Log(ports));
    var held := HeldAfter(Log(ports));
    if Kept(ports).Some? {
      assert |held - {Kept(ports).value}| == 0;
    }
  }
}
