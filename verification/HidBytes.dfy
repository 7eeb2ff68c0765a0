/** The bytes a report sends, key by key in the report's order, told by the legends on the keys and the bits
    of the modifier byte. */
module HidBytes {
  import opened HidReports
  import opened ByteBits

  /** The keys 0x1E to 0x38: digits, Enter, Escape, Backspace, Tab, the space bar and the punctuation keys;
      a zero stands for a key that sends nothing. */
  const LEGENDS: string := "1234567890\n\0\U{08}\t -=[]\\\0;'`,./"
  const SHIFTED_LEGENDS: string := "!@#$%^&*()\n\0\U{08}\t _+{}|\0:\"~<>?"

  /** The byte a key is to send, 0 for none. */
  function ByteFor(u: Byte, mods: bv8, caps: bool): Byte {
    var shift, ctrl := mods & 0x22 != 0, mods & 0x11 != 0;
    if 0x04 <= u <= 0x1D then (if ctrl then u - 3 else if shift != caps then u - 4 + 65 else u - 4 + 97)
    else if 0x1E <= u <= 0x38 then CodeOf(if shift then SHIFTED_LEGENDS[u - 0x1E] else LEGENDS[u - 0x1E])
    else match u
      case 0x4A => 0x01
      case 0x4D => 0x05
      case 0x4F => 0x06
      case 0x50 => 0x02
      case 0x51 => 0x0E
      case 0x52 => 0x10
      case _ => 0
  }

  function CodeOf(ch: char): Byte {
    if ch as int < 128 then ch as int else 0
  }

  // ---- the modifier bits ----

  /** Shift and Control are the bits 0x22 and 0x11 of a report's first byte. */
  lemma ModifierBits(r: Report)
    ensures Shift(r) <==> (r[0] as bv8) & 0x22 != 0
    ensures Ctrl(r) <==> (r[0] as bv8) & 0x11 != 0
  {
    var b := r[0] as bv8;
    SameByte(r[0]);
    MaskBits(b);
    Halved(b);
    Sixteenth(b);
    ThirtySecond(b);
    LowBit(b);
    LowBit(b / 2);
    LowBit(b / 16);
    LowBit(b / 32);
  }

  // ---- one key ----

  lemma LegendIs(u: Byte, shift: bool, caps: bool)
    requires 0x1E <= u <= 0x38
    ensures HidToAscii(u, shift, caps) == CodeOf(if shift then SHIFTED_LEGENDS[u - 0x1E] else LEGENDS[u - 0x1E])
  {
  }

  lemma SymbolIsNoLetter(u: Byte, shift: bool, caps: bool)
    requires 0x1E <= u <= 0x38
    ensures var b := HidToAscii(u, shift, caps); !(65 <= b <= 90 || 97 <= b <= 122)
  {
  }

  lemma KeyByte(u: Byte, mods: bv8, caps: bool)
    ensures PressOf(u, mods & 0x22 != 0, mods & 0x11 != 0, caps) ==
      if u == 0x39 || ByteFor(u, mods, caps) == 0 then [] else [Press(u, ByteFor(u, mods, caps))]
  {
    hide HidToAscii;
    var shift, ctrl := mods & 0x22 != 0, mods & 0x11 != 0;
    if 0x1E <= u <= 0x38 {
      LegendIs(u, shift, caps);
      SymbolIsNoLetter(u, shift, caps);
    } else {
      OtherKeys(u, shift, caps);
    }
  }

  lemma OtherKeys(u: Byte, shift: bool, caps: bool)
    requires !(0x1E <= u <= 0x38)
    ensures HidToAscii(u, shift, caps) ==
      if 4 <= u <= 0x1D then (if shift != caps then 65 else 97) + (u - 4) else 0
  {
  }

  // ---- a report ----

  /** The entries of a report that are to send a byte: those with a legend that are not in the report before,
      caps lock apart. */
  function Entries(keys: seq<Byte>, prev: seq<Byte>, mods: bv8, caps: bool): seq<Byte> {
    if keys == [] then []
    else
      var u, rest := keys[0], Entries(keys[1..], prev, mods, caps);
      if u != 0 && u != 1 && u != 0x39 && u !in prev && ByteFor(u, mods, caps) != 0 then [u] + rest else rest
  }

  lemma {:induction false} PressesAre(keys: seq<Byte>, prev: seq<Byte>, mods: bv8, caps: bool)
    ensures var sent, us := Presses(keys, prev, mods & 0x22 != 0, mods & 0x11 != 0, caps), Entries(keys, prev, mods, caps);
      |sent| == |us| && forall i :: 0 <= i < |sent| ==> sent[i] == Press(us[i], ByteFor(us[i], mods, caps))
  {
    hide PressOf, ByteFor;
    if keys != [] {
      KeyByte(keys[0], mods, caps);
      PressesAre(keys[1..], prev, mods, caps);
      var shift, ctrl := mods & 0x22 != 0, mods & 0x11 != 0;
      var first := if Fresh(keys[0], prev) then PressOf(keys[0], shift, ctrl, caps) else [];
      var us := Entries(keys[1..], prev, mods, caps);
      assert Entries(keys, prev, mods, caps) == if first == [] then us else [keys[0]] + us;
    }
  }

  /** What a report sends: for each key that is newly down and has a legend, in the order of the report, the
      byte of that key under the report's modifiers and the caps lock as it stood; the report is remembered,
      and caps lock toggled by its key newly down. */
  lemma ReportSends(s: State, r: Report)
    ensures var sent, us := Sent(s, r), Entries(r[2..8], s.prev, r[0] as bv8, s.caps);
      |sent| == |us| && forall i :: 0 <= i < |sent| ==> sent[i] == Press(us[i], ByteFor(us[i], r[0] as bv8, s.caps))
    ensures Feed(s, r).prev == r[2..8] && Feed(s, r).caps == (s.caps != (0x39 in r[2..8] && 0x39 !in s.prev))
  {
    hide Shift, Ctrl, Presses, Entries, ByteFor;
    ModifierBits(r);
    PressesAre(r[2..8], s.prev, r[0] as bv8, s.caps);
  }
}
