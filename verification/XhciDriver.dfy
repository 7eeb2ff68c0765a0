/** The driver's ring code as it runs: arrays and cursors updated in place, each method tied to the
    value-level functions of `ProducerRing`, `EventRing` and `KeyboardPoll`. */
module XhciDriver {
  import opened ProducerRing
  import Ev = EventRing
  import opened KeyboardPoll
  import Ctl = ControlTransfers

  /** A command ring or an EP0 transfer ring: they differ only in their number of slots. */
  class TransferRing {
    const t: array<Trb>
    var enq: nat
    var cycle: nat

    ghost predicate Valid()
      reads this, t
    {
      Sane(State())
    }

    ghost function State(): Producer
      reads this, t
    {
      Producer(t[..], enq, cycle)
    }

    constructor (n: nat, base: nat)
      requires n >= 3
      ensures Valid() && fresh(t) && State() == NewRing(n, base)
    {
      t := new Trb[n](_ => ZERO_TRB);
      enq, cycle := 0, 1;
      new;
      t[n - 1] := HomeLink(base);
    }

    /** `cmd_push` and `ep0_push`. */
    method Enqueue(dw: Trb)
      requires Valid()
      modifies this, t
      ensures Valid() && State() == Push(old(State()), dw)
    {
      var c := cycle;
      t[enq] := dw.(cycle := c);
      enq := enq + 1;
      if enq == t.Length - 1 {
        t[t.Length - 1] := t[t.Length - 1].(cycle := c);
        enq := 0;
        cycle := 1 - c;
      }
    }
  }

  /** The EP0 ring of one device, and the transfers put on it. */
  method PushControl(ring: TransferRing, x: Ctl.Transfer, ghost s: System)
    requires ring.Valid() && s.prod == ring.State()
    modifies ring, ring.t
    ensures ring.Valid() && ring.State() == SubmitAll(s, Ctl.Trbs(x)).prod
  {
    hide Push;
    ghost var dws := Ctl.Trbs(x);
    SubmitInTurn(s, dws);
    match x
    case In(lo, hi, bufPhys, len, _) =>
      ring.Enqueue(OfDwords(lo, hi, 8, Ctl.TRB_SETUP * 1024 + 64 + 3 * 0x1_0000));
      ring.Enqueue(OfDwords(bufPhys % DWORD, bufPhys / DWORD, len, Ctl.TRB_DATA * 1024 + 0x1_0000));
      ring.Enqueue(OfDwords(0, 0, 0, Ctl.TRB_STATUS * 1024 + 32));
    case Out(lo, hi, _) =>
      ring.Enqueue(OfDwords(lo, hi, 8, Ctl.TRB_SETUP * 1024 + 64));
      ring.Enqueue(OfDwords(0, 0, 0, Ctl.TRB_STATUS * 1024 + 0x1_0000 + 32));
  }

  lemma SubmitInTurn(s: System, dws: seq<Trb>)
    requires Sane(s.prod) && (|dws| == 2 || |dws| == 3)
    ensures SubmitAll(s, dws) ==
      var two := Submit(Submit(s, dws[0]), dws[1]);
      if |dws| == 2 then two else Submit(two, dws[2])
  {
    hide Submit;
    var two := dws[..2];
    assert two[..1][..0] == [] && SubmitAll(s, []) == s;
    assert SubmitAll(s, two[..1]) == Submit(s, dws[0]);
    assert SubmitAll(s, two) == Submit(Submit(s, dws[0]), dws[1]);
    if |dws| == 2 { assert two == dws; }
  }

  /** Enumeration's event consumer. */
  class EventConsumer {
    const base: nat
    const n: nat
    var deq: nat
    var cycle: nat
    var erdp: nat

    ghost predicate Valid()
      reads this
    {
      deq < n && cycle < 2
    }

    constructor (n: nat, base: nat)
      requires n > 0
      ensures Valid() && this.n == n && this.base == base && deq == 0 && cycle == 1 && erdp == base
    {
      this.n, this.base := n, base;
      deq, cycle, erdp := 0, 1, base;
    }

    /** `evt_wait`: `views` is what ring memory shows at each read before the deadline passes. */
    method Wait(views: seq<seq<Trb>>) returns (got: seq<Trb>)
      requires Valid() && forall v :: v in views ==> |v| == n
      modifies this
      ensures Valid()
      ensures (Ev.Cursor(deq, cycle), erdp, got) == WaitFor(views, Ev.Cursor(old(deq), old(cycle)), base, old(erdp))
    {
      ghost var start := Ev.Cursor(deq, cycle);
      for i := 0 to |views|
        invariant deq == old(deq) && cycle == old(cycle) && erdp == old(erdp)
        invariant WaitFor(views, start, base, erdp) == WaitFor(views[i..], start, base, erdp)
      {
        var dw := views[i][deq];
        if dw.cycle == cycle {
          deq := deq + 1;
          if deq >= n {
            deq := 0;
            cycle := 1 - cycle;
          }
          erdp := Ev.WithBusyBit(base + deq * TRB_BYTES);
          return [dw];
        }
      }
      got := [];
    }
  }

  /** Waiting is looking at the first view that shows a new event, and nothing if none does. */
  function WaitFor(views: seq<seq<Trb>>, c: Ev.Cursor, base: nat, erdp: nat): (Ev.Cursor, nat, seq<Trb>)
    requires c.cycle < 2 && forall v :: v in views ==> c.index < |v|
  {
    if views == [] then (c, erdp, [])
    else
      var now := Ev.Look(views[0], c, base, erdp);
      if now.2 != [] then now else WaitFor(views[1..], c, base, erdp)
  }

  /** A wait returns nothing exactly when every view of the slot shows the other cycle bit, and then
      moves nothing; otherwise it is the look at the first view that shows this one. */
  lemma {:induction false} WaitFindsFirst(views: seq<seq<Trb>>, c: Ev.Cursor, base: nat, erdp: nat)
    requires c.cycle < 2 && forall v :: v in views ==> c.index < |v|
    ensures (WaitFor(views, c, base, erdp).2 == []) <==> forall i :: 0 <= i < |views| ==> views[i][c.index].cycle != c.cycle
    ensures WaitFor(views, c, base, erdp).2 == [] ==> WaitFor(views, c, base, erdp) == (c, erdp, [])
    ensures WaitFor(views, c, base, erdp).2 != [] ==>
      exists i :: 0 <= i < |views| && views[i][c.index].cycle == c.cycle
        && (forall j :: 0 <= j < i ==> views[j][c.index].cycle != c.cycle)
        && WaitFor(views, c, base, erdp) == Ev.Look(views[i], c, base, erdp)
  {
    if views != [] && views[0][c.index].cycle != c.cycle {
      var rest := views[1..];
      WaitFindsFirst(rest, c, base, erdp);
      assert forall i :: 0 <= i < |rest| ==> rest[i] == views[i + 1];
      assert forall i :: 1 <= i < |views| ==> views[i] == rest[i - 1];
      if WaitFor(rest, c, base, erdp).2 != [] {
        var i :| 0 <= i < |rest| && rest[i][c.index].cycle == c.cycle
          && (forall j :: 0 <= j < i ==> rest[j][c.index].cycle != c.cycle)
          && WaitFor(rest, c, base, erdp) == Ev.Look(rest[i], c, base, erdp);
        forall j | 0 <= j < i + 1
          ensures views[j][c.index].cycle != c.cycle
        {
          if j > 0 { assert views[j] == rest[j - 1]; }
        }
        assert views[i + 1] == rest[i];
      }
    }
  }

  /** The statics the timer poll lives on. */
  class KeyboardDriver {
    var ready: bool
    const slot: nat
    const ep: nat
    const evt: array<Trb>
    const evtPhys: nat
    var evtDeq: nat
    var evtCyc: nat
    var erdp: nat
    const tr: array<Trb>
    var trEnq: nat
    var trCyc: nat
    const buf: array<nat>
    const bufPhys: nat
    /** The model this driver state is an image of, with the controller's side and the histories. */
    ghost var k: Kbd

    ghost predicate Valid()
      reads this, evt, tr, buf
    {
      && evt != tr
      && WellFormedKbd(k)
      && ready == k.ev.ready && slot == k.slot && ep == k.ep && evtPhys == k.ev.base && bufPhys == k.bufPhys
      && evt[..] == k.ev.t && k.ev.kbd == Ev.Cursor(evtDeq, evtCyc) && erdp == k.ev.erdp
      && k.tr.prod == Producer(tr[..], trEnq, trCyc)
      && buf.Length == 8 && buf[..] == k.buf
    }

    /** What enumeration stores once the keyboard is found, with its first transfer armed. */
    constructor (evt: array<Trb>, evtPhys: nat, deq: nat, cycle: nat, erdp: nat, tr: array<Trb>,
                 slot: nat, ep: nat, buf: array<nat>, bufPhys: nat, ghost ev: Ev.Events, ghost trBase: nat)
      requires evt != tr && Ev.WellFormed(ev) && !ev.ready && evt[..] == ev.t && ev.init == Ev.Cursor(deq, cycle)
      requires evtPhys == ev.base && erdp == ev.erdp
      requires tr[..] == NewRing(INT_N, trBase).t && buf.Length == 8
      modifies tr
      ensures Valid() && k == Handover(ev, trBase, slot, ep, bufPhys, buf[..])
    {
      this.evt, this.tr, this.buf := evt, tr, buf;
      this.slot, this.ep, this.bufPhys, this.evtPhys := slot, ep, bufPhys, evtPhys;
      evtDeq, evtCyc, this.erdp := deq, cycle, erdp;
      trEnq, trCyc := 0, 1;
      k := Handover(ev, trBase, slot, ep, bufPhys, buf[..]);
      ready := true;
      new;
      hide ArmTrb, Push;
      trEnq, trCyc := ArmKbdEpRaw(0, 1);
    }

    /** `arm_kbd_ep_raw`. */
    method ArmKbdEpRaw(enq: nat, cycle: nat) returns (newEnq: nat, newCycle: nat)
      requires Sane(Producer(tr[..], enq, cycle))
      modifies tr
      ensures Producer(tr[..], newEnq, newCycle) == Push(Producer(old(tr[..]), enq, cycle), ArmTrb(bufPhys))
    {
      var link := tr.Length - 1;
      tr[enq] := OfDwords(bufPhys % DWORD, bufPhys / DWORD, 8, TRB_NORMAL * 1024 + 32 + cycle);
      newEnq := enq + 1;
      if newEnq == link {
        tr[link] := tr[link].(cycle := cycle);
        newEnq, newCycle := 0, 1 - cycle;
      } else {
        newCycle := cycle;
      }
    }

    method ReadReport() returns (report: Report)
      requires buf.Length == 8
      ensures report == buf[..]
    {
      report := [];
      for i := 0 to 8
        invariant report == buf[..i]
      {
        report := report + [buf[i]];
      }
    }

    method TakeHidReport() returns (r: seq<Report>)
      requires Valid()
      modifies this`evtDeq, this`evtCyc, this`erdp, this`trEnq, this`trCyc, this`k, tr
      ensures Valid()
      ensures (k, r) == Poll(old(k))
    {
      hide Push, ArmTrb, TypeOf, SlotOf, CodeOf, Ev.Bodies;
      if !ready { return []; }
      var deq, cycle := evtDeq, evtCyc;
      var dw := evt[deq];
      if dw.cycle != cycle { return []; }
      evtDeq := if deq + 1 >= evt.Length then 0 else deq + 1;
      evtCyc := if deq + 1 >= evt.Length then 1 - cycle else cycle;
      erdp := Ev.WithBusyBit(evtPhys + evtDeq * TRB_BYTES);
      k := Poll(k).0;
      if TypeOf(dw) != TRB_EVT_TRANSFER || SlotOf(dw) != slot { return []; }
      if CodeOf(dw) != CC_SUCCESS && CodeOf(dw) != CC_SHORT_PKT { return []; }
      var report := ReadReport();
      trEnq, trCyc := ArmKbdEpRaw(trEnq, trCyc);
      r := [report];
    }
  }
}
