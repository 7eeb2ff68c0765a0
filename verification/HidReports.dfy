/** Boot keyboard reports (HID 1.11, appendix B.1): press detection against the previous report. */
module HidReports {

  type Byte = b: int | 0 <= b < 256

  const CAPS_LOCK: Byte := 0x39
  const NONE: Byte := 0
  const ROLLOVER: Byte := 1

  /** One byte of modifiers, one reserved, six key usages. */
  type Report = r: seq<Byte> | |r| == 8 witness [0, 0, 0, 0, 0, 0, 0, 0]

  function Keys(r: Report): seq<Byte> {
    r[2..8]
  }

  /** `mods & 0x22`: bits 1 and 5 are the shift keys. */
  predicate Shift(r: Report) {
    r[0] / 2 % 2 == 1 || r[0] / 32 % 2 == 1
  }

  /** `mods & 0x11`: bits 0 and 4 are the control keys. */
  predicate Ctrl(r: Report) {
    r[0] % 2 == 1 || r[0] / 16 % 2 == 1
  }

  const PLAIN: string := "1234567890"
  const SHIFTED: string := "!@#$%^&*()"

  /** `hid_to_ascii`: caps lock inverts shift for letters only; 0 means no character. */
  function HidToAscii(usage: Byte, shift: bool, caps: bool): Byte {
    if 0x04 <= usage <= 0x1D then (if shift != caps then 65 else 97) + (usage - 4)
    else if 0x1E <= usage <= 0x27 then Ascii((if shift then SHIFTED else PLAIN)[usage - 0x1E])
    else if usage == 0x28 then 10
    else if usage == 0x2A then 8
    else if usage == 0x2B then 9
    else if usage == 0x2C then 32
    else if 0x2D <= usage <= 0x31 then Ascii((if shift then "_+{}|" else "-=[]\\")[usage - 0x2D])
    else if 0x33 <= usage <= 0x38 then Ascii((if shift then ":\"~<>?" else ";'`,./")[usage - 0x33])
    else 0
  }

  function Ascii(c: char): Byte {
    var n := c as int;
    if n < 256 then n else 0
  }

  /** The navigation keys travel as control bytes. */
  function Navigation(usage: Byte): Byte {
    if usage == 0x52 then 0x10
    else if usage == 0x51 then 0x0E
    else if usage == 0x50 then 0x02
    else if usage == 0x4F then 0x06
    else if usage == 0x4A then 0x01
    else if usage == 0x4D then 0x05
    else 0
  }

  /** Control turns a letter of either case into its control code. */
  function WithCtrl(b: Byte, ctrl: bool): Byte {
    if ctrl && (65 <= b <= 90 || 97 <= b <= 122) then b % 32 else b
  }

  /** Does a press of this usage put a byte in the ring? */
  predicate Mapped(usage: Byte) {
    usage != CAPS_LOCK && (Navigation(usage) != 0 || HidToAscii(usage, false, false) != 0)
  }

  datatype Press = Press(usage: Byte, byte: Byte)

  function PressOf(usage: Byte, shift: bool, ctrl: bool, caps: bool): seq<Press> {
    if usage == CAPS_LOCK then []
    else if Navigation(usage) != 0 then [Press(usage, Navigation(usage))]
    else
      var b := HidToAscii(usage, shift, caps);
      if b != 0 then [Press(usage, WithCtrl(b, ctrl))] else []
  }

  /** Newly down: not a filler and not in the previous report. */
  predicate Fresh(usage: Byte, prev: seq<Byte>) {
    usage != NONE && usage != ROLLOVER && usage !in prev
  }

  function Presses(keys: seq<Byte>, prev: seq<Byte>, shift: bool, ctrl: bool, caps: bool): seq<Press> {
    if keys == [] then []
    else (if Fresh(keys[0], prev) then PressOf(keys[0], shift, ctrl, caps) else [])
         + Presses(keys[1..], prev, shift, ctrl, caps)
  }

  lemma PressesFrom(keys: seq<Byte>, prev: seq<Byte>, shift: bool, ctrl: bool, caps: bool, i: nat)
    requires i < |keys|
    ensures Presses(keys[i..], prev, shift, ctrl, caps) ==
      (if Fresh(keys[i], prev) then PressOf(keys[i], shift, ctrl, caps) else [])
      + Presses(keys[i + 1..], prev, shift, ctrl, caps)
  {
    assert keys[i..][1..] == keys[i + 1..];
  }

  datatype State = State(prev: seq<Byte>, caps: bool)

  const START := State([0, 0, 0, 0, 0, 0], false)

  function Feed(s: State, r: Report): State {
    State(Keys(r), if CAPS_LOCK in Keys(r) && CAPS_LOCK !in s.prev then !s.caps else s.caps)
  }

  function Sent(s: State, r: Report): seq<Press> {
    Presses(Keys(r), s.prev, Shift(r), Ctrl(r), s.caps)
  }

  class Keyboard {
    var prev: seq<Byte>
    var capsLock: bool

    ghost function Now(): State
      reads this
    {
      State(prev, capsLock)
    }

    constructor ()
      ensures Now() == START && prev == [0, 0, 0, 0, 0, 0] && !capsLock
    {
      prev, capsLock := [0, 0, 0, 0, 0, 0], false;
    }

    /** One key of a report: nothing if it is a filler or still held, else caps lock or a byte. */
    method HandleKey(usage: Byte, shift: bool, ctrl: bool, caps: bool) returns (press: seq<Press>)
      modifies this`capsLock
      ensures press == if Fresh(usage, prev) then PressOf(usage, shift, ctrl, caps) else []
      ensures capsLock == if usage == CAPS_LOCK && usage !in prev then !caps else old(capsLock)
    {
      if usage == NONE || usage == ROLLOVER { return []; }
      if usage in prev { return []; }
      if usage == CAPS_LOCK {
        capsLock := !caps;
        return [];
      }
      if Navigation(usage) != 0 { return [Press(usage, Navigation(usage))]; }
      var b := HidToAscii(usage, shift, caps);
      press := if b != 0 then [Press(usage, WithCtrl(b, ctrl))] else [];
    }

    /** `process_hid_report`: what it pushes is returned; caps is read once and may be stored twice. */
    method ProcessHidReport(report: Report) returns (sent: seq<Press>)
      modifies this
      ensures Now() == Feed(old(Now()), report) && sent == Sent(old(Now()), report)
    {
      hide Presses, PressOf, Shift, Ctrl;
      var shift, ctrl, caps := Shift(report), Ctrl(report), capsLock;
      var keys := report[2..8];
      sent := [];
      assert keys[0..] == keys;
      for i := 0 to 6
        invariant prev == old(prev)
        invariant capsLock == if CAPS_LOCK in keys[..i] && CAPS_LOCK !in prev then !caps else caps
        invariant Presses(keys, prev, shift, ctrl, caps) == sent + Presses(keys[i..], prev, shift, ctrl, caps)
      {
        PressesFrom(keys, prev, shift, ctrl, caps, i);
        assert keys[..i + 1] == keys[..i] + [keys[i]];
        var press := HandleKey(keys[i], shift, ctrl, caps);
        ghost var rest := Presses(keys[i + 1..], prev, shift, ctrl, caps);
        assert sent + (press + rest) == (sent + press) + rest;
        sent := sent + press;
      }
      NoKeysLeft(keys, prev, shift, ctrl, caps);
      prev := keys;
    }

    lemma NoKeysLeft(keys: seq<Byte>, prev: seq<Byte>, shift: bool, ctrl: bool, caps: bool)
      requires |keys| == 6
      ensures keys[..6] == keys && Presses(keys[6..], prev, shift, ctrl, caps) == []
    {
    }
  }

  // ---- runs of reports ----

  function After(s: State, rs: seq<Report>): State
    decreases |rs|
  {
    if rs == [] then s else After(Feed(s, rs[0]), rs[1..])
  }

  /** The usages report i is compared with: those of the report before it. */
  function Before(s: State, rs: seq<Report>, i: nat): seq<Byte>
    requires i < |rs|
  {
    if i == 0 then s.prev else Keys(rs[i - 1])
  }

  /** What report i of a run sends. */
  function SentAt(s: State, rs: seq<Report>, i: nat): seq<Press>
    requires i < |rs|
  {
    Sent(After(s, rs[..i]), rs[i])
  }

  lemma {:induction false} AfterSnoc(s: State, rs: seq<Report>, r: Report)
    ensures After(s, rs + [r]) == Feed(After(s, rs), r)
    decreases |rs|
  {
    if rs == [] {
      assert [r][1..] == [];
      assert rs + [r] == [r];
    } else {
      assert (rs + [r])[1..] == rs[1..] + [r];
      AfterSnoc(Feed(s, rs[0]), rs[1..], r);
    }
  }

  lemma PrevAt(s: State, rs: seq<Report>, i: nat)
    requires i < |rs|
    ensures After(s, rs[..i]).prev == Before(s, rs, i)
  {
    if i > 0 {
      assert rs[..i] == rs[..i - 1] + [rs[i - 1]];
      AfterSnoc(s, rs[..i - 1], rs[i - 1]);
    }
  }

  function Count(sent: seq<Press>, u: Byte): nat {
    if sent == [] then 0 else (if sent[0].usage == u then 1 else 0) + Count(sent[1..], u)
  }

  function Occurrences(keys: seq<Byte>, u: Byte): nat {
    if keys == [] then 0 else (if keys[0] == u then 1 else 0) + Occurrences(keys[1..], u)
  }

  lemma {:induction false} CountConcat(a: seq<Press>, b: seq<Press>, u: Byte)
    ensures Count(a + b, u) == Count(a, u) + Count(b, u)
  {
    if a == [] {
      assert a + b == b;
    } else {
      assert (a + b)[1..] == a[1..] + b;
      CountConcat(a[1..], b, u);
    }
  }

  lemma MappedIsPressed(u: Byte, shift: bool, ctrl: bool, caps: bool)
    ensures |PressOf(u, shift, ctrl, caps)| == if Mapped(u) then 1 else 0
    ensures Mapped(u) ==> PressOf(u, shift, ctrl, caps)[0].usage == u
  {
  }

  lemma {:induction false} PressCount(keys: seq<Byte>, prev: seq<Byte>, shift: bool, ctrl: bool, caps: bool, u: Byte)
    ensures Count(Presses(keys, prev, shift, ctrl, caps), u)
            == if Mapped(u) && Fresh(u, prev) then Occurrences(keys, u) else 0
  {
    hide PressOf, Mapped;
    if keys != [] {
      var k := keys[0];
      var first := if Fresh(k, prev) then PressOf(k, shift, ctrl, caps) else [];
      CountConcat(first, Presses(keys[1..], prev, shift, ctrl, caps), u);
      PressCount(keys[1..], prev, shift, ctrl, caps, u);
      MappedIsPressed(k, shift, ctrl, caps);
      if |first| == 1 { OnePress(first, k); }
    }
  }

  lemma OnePress(sent: seq<Press>, k: Byte)
    requires |sent| == 1 && sent[0].usage == k
    ensures forall u :: Count(sent, u) == if u == k then 1 else 0
  {
    assert sent[1..] == [];
  }

  /** In every run, for every report and usage: a mapped key sends as many bytes as it has entries in
      the report if it was absent from the report before, and none while it stays down. */
  lemma SentOnPressOnly(s: State, rs: seq<Report>, i: nat, u: Byte)
    requires i < |rs|
    ensures Count(SentAt(s, rs, i), u) ==
      if Mapped(u) && Fresh(u, Before(s, rs, i)) then Occurrences(Keys(rs[i]), u) else 0
  {
    PrevAt(s, rs, i);
    var st := After(s, rs[..i]);
    PressCount(Keys(rs[i]), st.prev, Shift(rs[i]), Ctrl(rs[i]), st.caps, u);
  }

  lemma {:induction false} OccursIff(keys: seq<Byte>, u: Byte)
    ensures u in keys <==> Occurrences(keys, u) > 0
  {
    if keys != [] {
      OccursIff(keys[1..], u);
      assert keys == [keys[0]] + keys[1..];
    }
  }

  function TotalSent(s: State, rs: seq<Report>, lo: nat, hi: nat, u: Byte): nat
    requires lo <= hi <= |rs|
  {
    if lo == hi then 0 else TotalSent(s, rs, lo, hi - 1, u) + Count(SentAt(s, rs, hi - 1), u)
  }

  /** A key held once in each of the consecutive reports lo..hi, and up just before, is sent exactly
      once over that stretch, however long, and it is the first of those reports that sends it. */
  lemma {:induction false} HeldKeySentOnce(s: State, rs: seq<Report>, lo: nat, hi: nat, u: Byte)
    requires lo < hi <= |rs| && Mapped(u) && u != NONE && u != ROLLOVER
    requires forall i :: lo <= i < hi ==> Occurrences(Keys(rs[i]), u) == 1
    requires u !in Before(s, rs, lo)
    ensures TotalSent(s, rs, lo, hi, u) == 1 && Count(SentAt(s, rs, lo), u) == 1
    decreases hi
  {
    SentOnPressOnly(s, rs, lo, u);
    if hi == lo + 1 {
      assert TotalSent(s, rs, lo, lo, u) == 0;
    } else {
      HeldKeySentOnce(s, rs, lo, hi - 1, u);
      SentOnPressOnly(s, rs, hi - 1, u);
      assert Occurrences(Keys(rs[hi - 2]), u) == 1;
      OccursIff(Keys(rs[hi - 2]), u);
    }
  }

  /** How many reports of a run newly hold caps lock. */
  function CapsPresses(s: State, rs: seq<Report>): nat {
    if rs == [] then 0
    else
      var n := |rs| - 1;
      CapsPresses(s, rs[..n]) + if CAPS_LOCK in Keys(rs[n]) && CAPS_LOCK !in Before(s, rs, n) then 1 else 0
  }

  /** After any run caps lock is the parity of the reports in which its key newly appeared. */
  lemma {:induction false} CapsIsParity(s: State, rs: seq<Report>)
    ensures After(s, rs).caps == (s.caps != (CapsPresses(s, rs) % 2 == 1))
    decreases |rs|
  {
    if rs != [] {
      var n := |rs| - 1;
      assert rs == rs[..n] + [rs[n]];
      AfterSnoc(s, rs[..n], rs[n]);
      CapsIsParity(s, rs[..n]);
      PrevAt(s, rs, n);
    }
  }
}
