/** The TRBs the driver writes to transfer rings and reads from the event ring, by the fields of xHCI 1.2
    section 6.4. */
module TrbFields {
  import opened Arith
  import opened ProducerRing
  import opened KeyboardPoll
  import Ctl = ControlTransfers

  // ---- events ----

  /** A Transfer Event as a controller posts it: what was not transferred and the completion code share the
      third double word; the fourth holds the cycle bit, nine flags, the type, the endpoint, three reserved
      bits and the slot. */
  function Posted(lo: nat, hi: nat, residual: nat, code: nat, cycle: nat, flags: nat, kind: nat, ep: nat,
                  reserved: nat, slot: nat): Trb
  {
    OfDwords(lo, hi, residual + 0x100_0000 * code,
             cycle + 2 * flags + 1024 * kind + 0x1_0000 * ep + 0x20_0000 * reserved + 0x100_0000 * slot)
  }

  /** What the poll makes of an event, field by field: it is of the keyboard's slot if it is of type 32 and
      names the slot, of its endpoint if it names that too, and good if its code is 1 or 13. */
  lemma EventFields(lo: nat, hi: nat, residual: nat, code: nat, cycle: nat, flags: nat, kind: nat, ep: nat,
                    reserved: nat, slot: nat)
    requires residual < 0x100_0000 && code < 256 && cycle < 2 && flags < 512 && kind < 64
    requires ep < 32 && reserved < 8 && slot < 256
    ensures var t := Posted(lo, hi, residual, code, cycle, flags, kind, ep, reserved, slot);
      && t.cycle == cycle && TypeOf(t) == kind && EndpointOf(t) == ep && SlotOf(t) == slot && CodeOf(t) == code
      && forall mySlot: nat, myEp: nat :: KindOf(t, mySlot, myEp) ==
           if kind != 32 || slot != mySlot then Foreign
           else if code == 1 || code == 13 then (if ep == myEp then OwnGood else StrayGood)
           else (if ep == myEp then OwnBad else StrayBad)
  {
    hide TypeOf, EndpointOf, SlotOf, CodeOf;
    var dw3 := cycle + 2 * flags + 1024 * kind + 0x1_0000 * ep + 0x20_0000 * reserved + 0x100_0000 * slot;
    UpperFields(flags, kind, ep, reserved, slot);
    var ctl := flags + 512 * kind + 0x8000 * ep + 0x10_0000 * reserved + 0x80_0000 * slot;
    ModIs(ctl, cycle, 2);
    assert dw3 == 2 * ctl + cycle;
    var t := Posted(lo, hi, residual, code, cycle, flags, kind, ep, reserved, slot);
    assert t.ctl == ctl;
    TheFields(t);
    CodeField(residual, code);
  }

  lemma TheFields(t: Trb)
    ensures TypeOf(t) == t.ctl / 512 % 64 && EndpointOf(t) == t.ctl / 0x8000 % 32 && SlotOf(t) == t.ctl / 0x80_0000 % 256
    ensures CodeOf(t) == t.dw2 / 0x100_0000 % 256
  {
  }

  lemma CodeField(residual: nat, code: nat)
    requires residual < 0x100_0000 && code < 256
    ensures (residual + 0x100_0000 * code) / 0x100_0000 % 256 == code
  {
    ModIs(code, residual, 0x100_0000);
    SmallMod(code, 256);
  }

  lemma UpperFields(flags: nat, kind: nat, ep: nat, reserved: nat, slot: nat)
    requires flags < 512 && kind < 64 && ep < 32 && reserved < 8 && slot < 256
    ensures var ctl := flags + 512 * kind + 0x8000 * ep + 0x10_0000 * reserved + 0x80_0000 * slot;
      ctl / 512 % 64 == kind && ctl / 0x8000 % 32 == ep && ctl / 0x80_0000 % 256 == slot
  {
    var a := reserved + 8 * slot;
    var b := ep + 32 * a;
    ModIs(kind + 64 * b, flags, 512);
    ModIs(b, kind, 64);
    ModIs(b, flags + 512 * kind, 0x8000);
    ModIs(a, ep, 32);
    ModIs(slot, flags + 512 * kind + 0x8000 * ep + 0x10_0000 * reserved, 0x80_0000);
    SmallMod(slot, 256);
  }

  // ---- transfers ----

  /** A transfer TRB by its fields: where its data is, how much, and whether its end is announced. */
  datatype Stage =
    | Normal(pointer: nat, length: nat, announced: bool)
    | Setup(lo: nat, hi: nat, length: nat, immediate: bool, transfer: nat, announced: bool)
    | Data(pointer: nat, length: nat, fromDevice: bool, announced: bool)
    | Status(fromDevice: bool, announced: bool)
    | Other

  function ReadStage(t: Trb): Stage {
    var control, pointer := 2 * t.ctl + t.cycle, t.dw0 + 0x1_0000_0000 * t.dw1;
    var announced, length, upper := control / 32 % 2 == 1, t.dw2 % 0x2_0000, control / 0x1_0000;
    match control / 1024 % 64
    case 1 => Normal(pointer, length, announced)
    case 2 => Setup(t.dw0, t.dw1, length, control / 64 % 2 == 1, upper % 4, announced)
    case 3 => Data(pointer, length, upper % 2 == 1, announced)
    case 4 => Status(upper % 2 == 1, announced)
    case _ => Other
  }

  function ReadStages(q: seq<Trb>): (r: seq<Stage>)
    ensures |r| == |q| && forall i :: 0 <= i < |q| ==> r[i] == ReadStage(q[i])
  {
    seq(|q|, i requires 0 <= i < |q| => ReadStage(q[i]))
  }

  lemma PointerIs(p: nat)
    ensures p % 0x1_0000_0000 + 0x1_0000_0000 * (p / 0x1_0000_0000) == p
  {
  }

  /** The transfer the poll arms: eight bytes into the report buffer, announced when it is done. */
  lemma ArmReads(bufPhys: nat)
    ensures ReadStage(ArmTrb(bufPhys)) == Normal(bufPhys, 8, true)
  {
    PointerIs(bufPhys);
  }

  /** A read is a setup stage with its eight bytes in the TRB and a data stage from the device to follow, the
      data stage into its buffer, and a status stage to the device; a request is a setup stage with no data
      to follow, and a status stage from the device. Only status stages are announced. */
  lemma StagesRead(x: Ctl.Transfer)
    requires x.In? ==> x.len < 65536
    ensures ReadStages(Ctl.Trbs(x)) == match x
      case In(lo, hi, bufPhys, len, _) =>
        [Setup(lo, hi, 8, true, 3, false), Data(bufPhys, len, true, false), Status(false, true)]
      case Out(lo, hi, _) => [Setup(lo, hi, 8, true, 0, false), Status(true, true)]
  {
    if x.In? {
      PointerIs(x.bufPhys);
      SmallMod(x.len, 0x2_0000);
    }
  }
}
