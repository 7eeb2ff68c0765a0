/** Finding the keyboard's interrupt endpoint in a configuration descriptor (USB 2.0 sections 9.6.3 to
    9.6.6): a walk over length-prefixed records. */
module DescriptorScan {
  import opened Wrappers

  type Byte = b: int | 0 <= b < 256

  const INTERFACE: Byte := 4
  const ENDPOINT: Byte := 5

  /** What the driver needs to set the endpoint up. */
  datatype Found = Found(configuration: Byte, interface: Byte, address: Byte, maxPacket: nat, interval: Byte)

  /** The record at the front can be stepped over: at least its two header bytes, and all of it there. */
  predicate Framed(cfg: seq<Byte>) {
    |cfg| >= 2 && 2 <= cfg[0] <= |cfg|
  }

  /** The records of a descriptor, up to the first that is cut short or too short. */
  function Records(cfg: seq<Byte>): (r: seq<seq<Byte>>)
    ensures forall i :: 0 <= i < |r| ==> 2 <= |r[i]| == r[i][0]
  {
    if !Framed(cfg) then [] else [cfg[..cfg[0]]] + Records(cfg[cfg[0]..])
  }

  predicate IsInterface(r: seq<Byte>) {
    |r| >= 9 && r[1] == INTERFACE
  }

  /** A HID boot interface speaking the keyboard protocol. */
  predicate IsKeyboard(r: seq<Byte>) {
    IsInterface(r) && r[5] == 3 && r[6] == 1 && r[7] == 1
  }

  /** An IN endpoint of interrupt type. */
  predicate IsInterruptIn(r: seq<Byte>) {
    |r| >= 7 && r[1] == ENDPOINT && r[2] >= 0x80 && r[3] % 4 == 3
  }

  function Describe(configuration: Byte, interface: seq<Byte>, endpoint: seq<Byte>): Found
    requires |interface| >= 3 && |endpoint| >= 7
  {
    Found(configuration, interface[2], endpoint[2], PacketSize(endpoint[4], endpoint[5]), endpoint[6])
  }

  /** The low eleven bits of a little-endian word. */
  function PacketSize(low: int, high: int): nat
    requires 0 <= low < 256 && 0 <= high < 256
  {
    (low + 256 * high) % 2048
  }

  /** The interface record a record at position n would belong to: the nearest one before it. */
  function InterfaceBefore(rs: seq<seq<Byte>>, n: nat): Option<nat>
    requires n <= |rs|
  {
    if n == 0 then None else if IsInterface(rs[n - 1]) then Some(n - 1) else InterfaceBefore(rs, n - 1)
  }

  lemma {:induction false} InterfaceBeforeIsNearest(rs: seq<seq<Byte>>, n: nat)
    requires n <= |rs|
    ensures var i := InterfaceBefore(rs, n);
      if i.None? then forall k :: 0 <= k < n ==> !IsInterface(rs[k])
      else i.value < n && IsInterface(rs[i.value]) && forall k :: i.value < k < n ==> !IsInterface(rs[k])
  {
    if n > 0 && !IsInterface(rs[n - 1]) {
      InterfaceBeforeIsNearest(rs, n - 1);
    }
  }

  /** Record e is an interrupt IN endpoint of a boot keyboard interface. */
  predicate KeyboardEndpoint(rs: seq<seq<Byte>>, e: nat)
    requires e < |rs|
  {
    InterfaceBeforeIsNearest(rs, e);
    IsInterruptIn(rs[e]) && InterfaceBefore(rs, e).Some? && IsKeyboard(rs[InterfaceBefore(rs, e).value])
  }

  lemma RecordsAt(cfg: seq<Byte>, off: nat, n: nat)
    requires off <= |cfg| && n <= |Records(cfg)| && Records(cfg)[n..] == Records(cfg[off..])
    ensures !Framed(cfg[off..]) ==> n == |Records(cfg)|
    ensures Framed(cfg[off..]) ==>
      && n < |Records(cfg)| && off + cfg[off] <= |cfg|
      && Records(cfg)[n] == cfg[off..off + cfg[off]]
      && Records(cfg)[n + 1..] == Records(cfg[off + cfg[off]..])
  {
    var rest := cfg[off..];
    if Framed(rest) {
      assert Records(rest)[0] == rest[..rest[0]] == cfg[off..off + cfg[off]];
      assert Records(rest)[1..] == Records(rest[rest[0]..]);
      assert rest[rest[0]..] == cfg[off + cfg[off]..];
      assert Records(cfg)[n..][0] == Records(cfg)[n];
      assert Records(cfg)[n..][1..] == Records(cfg)[n + 1..];
    }
  }

  /** `find_hid_kbd_ep`: the first interrupt IN endpoint that belongs to a boot keyboard interface, and
      nothing exactly when there is none among the whole records. */
  method FindHidKbdEp(cfg: seq<Byte>) returns (r: Option<Found>)
    ensures |cfg| < 9 ==> r == None
    ensures |cfg| >= 9 ==> Answers(cfg[5], Records(cfg), r)
  {
    hide Records, InterfaceBefore;
    if |cfg| < 9 { return None; }
    ghost var rs := Records(cfg);
    ghost var n: nat := 0;
    var off := 0;
    var inKeyboard := false;
    var iface: Byte := 0;
    assert cfg[0..] == cfg && rs[0..] == rs;
    NoneBefore(rs);
    while off + 2 <= |cfg|
      invariant off <= |cfg| && n <= |rs| && rs[n..] == Records(cfg[off..])
      invariant Tracks(rs, n, inKeyboard, iface)
      invariant forall e :: 0 <= e < n ==> !KeyboardEndpoint(rs, e)
      decreases |cfg| - off
    {
      RecordsAt(cfg, off, n);
      var blen, btype := cfg[off], cfg[off + 1];
      assert blen == cfg[off..][0];
      if blen < 2 || off + blen > |cfg| { break; }
      ghost var rec := rs[n];
      assert rec == cfg[off..off + blen];
      if btype == INTERFACE && blen >= 9 {
        inKeyboard := cfg[off + 5] == 3 && cfg[off + 6] == 1 && cfg[off + 7] == 1;
        if inKeyboard { iface := cfg[off + 2]; }
      } else if btype == ENDPOINT && blen >= 7 && inKeyboard {
        var addr, attr := cfg[off + 2], cfg[off + 3];
        var mpkt := PacketSize(cfg[off + 4], cfg[off + 5]);
        if addr >= 0x80 && attr % 4 == 3 {
          assert FirstKeyboardEndpoint(rs, n);
          return Some(Found(cfg[5], iface, addr, mpkt, cfg[off + 6]));
        }
      }
      OneMore(rs, n);
      off := off + blen;
      n := n + 1;
    }
    RecordsAt(cfg, off, n);
    r := None;
  }

  ghost predicate FirstKeyboardEndpoint(rs: seq<seq<Byte>>, e: nat) {
    e < |rs| && KeyboardEndpoint(rs, e) && forall f :: 0 <= f < e ==> !KeyboardEndpoint(rs, f)
  }

  /** Nothing if no record is a keyboard's endpoint, and else what the first that is one says. */
  ghost predicate Answers(configuration: Byte, rs: seq<seq<Byte>>, r: Option<Found>) {
    if r == None then forall e :: 0 <= e < |rs| ==> !KeyboardEndpoint(rs, e)
    else exists e {:trigger FirstKeyboardEndpoint(rs, e)} ::
      FirstKeyboardEndpoint(rs, e) && r.value == FoundAt(configuration, rs, e)
  }

  function FoundAt(configuration: Byte, rs: seq<seq<Byte>>, e: nat): Found
    requires e < |rs| && KeyboardEndpoint(rs, e)
  {
    InterfaceBeforeIsNearest(rs, e);
    Describe(configuration, rs[InterfaceBefore(rs, e).value], rs[e])
  }

  /** The loop's flag and number speak of the nearest interface before record n. */
  ghost predicate Tracks(rs: seq<seq<Byte>>, n: nat, inKeyboard: bool, iface: Byte)
    requires n <= |rs|
  {
    InterfaceBeforeIsNearest(rs, n);
    var i := InterfaceBefore(rs, n);
    && (inKeyboard <==> i.Some? && IsKeyboard(rs[i.value]))
    && (inKeyboard ==> iface == rs[i.value][2])
  }

  lemma NoneBefore(rs: seq<seq<Byte>>)
    ensures InterfaceBefore(rs, 0) == None
  {
  }

  lemma OneMore(rs: seq<seq<Byte>>, n: nat)
    requires n < |rs|
    ensures InterfaceBefore(rs, n + 1) == if IsInterface(rs[n]) then Some(n) else InterfaceBefore(rs, n)
  {
  }

  // ---- a descriptor that was not read in full ----

  /** Where record n begins. */
  function Offset(rs: seq<seq<Byte>>, n: nat): nat
    requires n <= |rs|
  {
    if n == 0 then 0 else Offset(rs, n - 1) + |rs[n - 1]|
  }

  lemma {:induction false} OffsetRest(rs: seq<seq<Byte>>, n: nat)
    requires 0 < n <= |rs|
    ensures Offset(rs, n) == |rs[0]| + Offset(rs[1..], n - 1)
  {
    if n > 1 { OffsetRest(rs, n - 1); }
  }

  lemma {:induction false} RecordIsAtOffset(cfg: seq<Byte>, n: nat)
    requires n < |Records(cfg)|
    ensures var rs := Records(cfg);
      var off := Offset(rs, n);
      off + |rs[n]| <= |cfg| && rs[n] == cfg[off..off + |rs[n]|]
    decreases n
  {
    var rs, len := Records(cfg), cfg[0];
    assert rs[0] == cfg[..len] && rs[1..] == Records(cfg[len..]);
    if n > 0 {
      hide Records, Offset;
      RecordIsAtOffset(cfg[len..], n - 1);
      OffsetRest(rs, n);
      SliceLater(cfg, len, Offset(rs[1..], n - 1), |rs[n]|);
    }
  }

  lemma SliceLater(cfg: seq<Byte>, len: nat, off: nat, n: nat)
    requires len + off + n <= |cfg|
    ensures cfg[len..][off..off + n] == cfg[len + off..len + off + n]
  {
  }

  lemma {:induction false} OffsetsGrow(rs: seq<seq<Byte>>, i: nat, n: nat)
    requires i < n <= |rs|
    ensures Offset(rs, i) + |rs[i]| <= Offset(rs, n)
  {
    if i + 1 < n { OffsetsGrow(rs, i, n - 1); }
  }

  /** A buffer that holds a configuration header of at least nine bytes, and nothing from byte 18 on --
      what the reads before the full one leave there -- does not read as a keyboard's. */
  lemma UnreadIsNoKeyboard(cfg: seq<Byte>, e: nat)
    requires |cfg| >= 9 && cfg[0] >= 9 && cfg[1] != INTERFACE
    requires forall i :: 18 <= i < |cfg| ==> cfg[i] == 0
    requires e < |Records(cfg)|
    ensures !KeyboardEndpoint(Records(cfg), e)
  {
    hide Records, Offset;
    var rs := Records(cfg);
    RecordIsAtOffset(cfg, 0);
    RecordIsAtOffset(cfg, e);
    OffsetZero(rs);
    assert rs[0][1] == cfg[1] && rs[e][0] == cfg[Offset(rs, e)];
    if KeyboardEndpoint(rs, e) {
      InterfaceBeforeIsNearest(rs, e);
      var i := InterfaceBefore(rs, e).value;
      OffsetsGrow(rs, 0, i);
      OffsetsGrow(rs, i, e);
    }
  }

  lemma OffsetZero(rs: seq<seq<Byte>>)
    ensures Offset(rs, 0) == 0
  {
  }

  // ---- descriptors written out ----

  /** The records that follow a configuration's header, by their fields; `more` are bytes past the fields. */
  datatype Item =
    | AnInterface(number: Byte, alternate: Byte, endpoints: Byte, class_: Byte, subclass: Byte, protocol: Byte,
                  name: Byte, more: seq<Byte>)
    | AnEndpoint(address: Byte, attributes: Byte, maxPacket: nat, interval: Byte, more: seq<Byte>)
    | AnOther(kind: Byte, body: seq<Byte>)

  predicate GoodItem(i: Item) {
    match i
    case AnInterface(_, _, _, _, _, _, _, more) => |more| <= 246
    case AnEndpoint(_, _, maxPacket, _, more) => maxPacket < 65536 && |more| <= 248
    case AnOther(kind, body) => kind != 4 && kind != 5 && |body| <= 253
  }

  predicate GoodItems(items: seq<Item>) {
    forall k :: 0 <= k < |items| ==> GoodItem(items[k])
  }

  /** The bytes of a record: its length, its type, its fields in order, words with the low byte first. */
  function Bytes(i: Item): seq<Byte>
    requires GoodItem(i)
  {
    match i
    case AnInterface(number, alternate, endpoints, c, s, p, name, more) =>
      [9 + |more|, 4, number, alternate, endpoints, c, s, p, name] + more
    case AnEndpoint(address, attributes, maxPacket, interval, more) =>
      [7 + |more|, 5, address, attributes, maxPacket % 256, maxPacket / 256, interval] + more
    case AnOther(kind, body) => [2 + |body|, kind] + body
  }

  /** A configuration's header, whose sixth byte is the configuration's value. */
  datatype Header = Header(total: nat, interfaces: Byte, value: Byte, name: Byte, attributes: Byte, power: Byte)

  function HeaderBytes(h: Header): seq<Byte>
    requires h.total < 65536
  {
    [9, 2, h.total % 256, h.total / 256, h.interfaces, h.value, h.name, h.attributes, h.power]
  }

  function AllBytes(items: seq<Item>): seq<Byte>
    requires GoodItems(items)
  {
    if items == [] then [] else Bytes(items[0]) + AllBytes(items[1..])
  }

  function RecordsOf(items: seq<Item>): (r: seq<seq<Byte>>)
    requires GoodItems(items)
    ensures |r| == |items| && forall k :: 0 <= k < |items| ==> r[k] == Bytes(items[k])
  {
    if items == [] then [] else [Bytes(items[0])] + RecordsOf(items[1..])
  }

  /** The endpoint the driver is after: the first IN endpoint of interrupt type that stands, with no other
      interface between, after an interface of class 3, subclass 1 and protocol 1. */
  function Wanted(value: Byte, items: seq<Item>, keyboard: Option<Byte>): Option<Found> {
    if items == [] then None
    else match items[0]
      case AnInterface(number, _, _, c, s, p, _, _) =>
        Wanted(value, items[1..], if (c, s, p) == (3, 1, 1) then Some(number) else None)
      case AnEndpoint(address, attributes, maxPacket, interval, _) =>
        if keyboard.Some? && address >= 128 && attributes % 4 == 3
        then Some(Found(value, keyboard.value, address, maxPacket % 2048, interval))
        else Wanted(value, items[1..], keyboard)
      case AnOther(_, _) => Wanted(value, items[1..], keyboard)
  }

  lemma RecordPeel(r: seq<Byte>, rest: seq<Byte>)
    requires |r| >= 2 && r[0] == |r|
    ensures Records(r + rest) == [r] + Records(rest)
  {
    var cfg := r + rest;
    assert cfg[0] == r[0] && cfg[..cfg[0]] == r && cfg[cfg[0]..] == rest;
  }

  lemma {:induction false} RecordsAreItems(items: seq<Item>)
    requires GoodItems(items)
    ensures Records(AllBytes(items)) == RecordsOf(items)
  {
    if items != [] {
      RecordPeel(Bytes(items[0]), AllBytes(items[1..]));
      RecordsAreItems(items[1..]);
    }
  }

  /** The interface number the driver would give an endpoint standing at record n. */
  ghost function KeyboardAt(rs: seq<seq<Byte>>, n: nat): Option<Byte>
    requires n <= |rs|
  {
    InterfaceBeforeIsNearest(rs, n);
    var i := InterfaceBefore(rs, n);
    if i.Some? && IsKeyboard(rs[i.value]) then Some(rs[i.value][2]) else None
  }

  /** What one more record changes. */
  lemma KeyboardAtNext(rs: seq<seq<Byte>>, n: nat, i: Item)
    requires n < |rs| && GoodItem(i) && rs[n] == Bytes(i)
    ensures KeyboardAt(rs, n + 1) ==
      if i.AnInterface? then (if (i.class_, i.subclass, i.protocol) == (3, 1, 1) then Some(i.number) else None)
      else KeyboardAt(rs, n)
    ensures KeyboardEndpoint(rs, n) <==>
      i.AnEndpoint? && KeyboardAt(rs, n).Some? && i.address >= 128 && i.attributes % 4 == 3
  {
    hide InterfaceBefore;
    OneMore(rs, n);
  }

  lemma FoundIs(value: Byte, rs: seq<seq<Byte>>, n: nat, i: Item)
    requires n < |rs| && GoodItem(i) && rs[n] == Bytes(i) && i.AnEndpoint? && KeyboardEndpoint(rs, n)
    ensures FoundAt(value, rs, n) == Found(value, KeyboardAt(rs, n).value, i.address, i.maxPacket % 2048, i.interval)
  {
    hide InterfaceBefore;
  }

  lemma {:induction false} WantedFrom(value: Byte, rs: seq<seq<Byte>>, n: nat, items: seq<Item>)
    requires GoodItems(items) && n + |items| == |rs| && rs[n..] == RecordsOf(items)
    requires forall e :: 0 <= e < n ==> !KeyboardEndpoint(rs, e)
    ensures Answers(value, rs, Wanted(value, items, KeyboardAt(rs, n)))
    decreases |items|
  {
    hide KeyboardAt, KeyboardEndpoint, Bytes, GoodItem, FoundAt;
    if items != [] {
      var i := items[0];
      assert rs[n] == rs[n..][0] == Bytes(i) && rs[n + 1..] == rs[n..][1..];
      KeyboardAtNext(rs, n, i);
      if KeyboardEndpoint(rs, n) {
        assert FirstKeyboardEndpoint(rs, n);
        FoundIs(value, rs, n, i);
      } else {
        WantedFrom(value, rs, n + 1, items[1..]);
      }
    }
  }

  lemma OneAnswer(value: Byte, rs: seq<seq<Byte>>, a: Option<Found>, b: Option<Found>)
    requires Answers(value, rs, a) && Answers(value, rs, b)
    ensures a == b
  {
    if a.Some? && b.Some? {
      var e :| FirstKeyboardEndpoint(rs, e) && a.value == FoundAt(value, rs, e);
      var f :| FirstKeyboardEndpoint(rs, f) && b.value == FoundAt(value, rs, f);
      assert e == f;
    }
  }

  /** Any configuration written out byte by byte: the scan's one answer is the endpoint the driver is after. */
  lemma WrittenIsFound(h: Header, items: seq<Item>)
    requires h.total < 65536 && GoodItems(items)
    ensures var cfg := HeaderBytes(h) + AllBytes(items);
      && |cfg| >= 9 && cfg[5] == h.value
      && forall r :: Answers(h.value, Records(cfg), r) <==> r == Wanted(h.value, items, None)
  {
    hide Answers, Records, AllBytes, Wanted;
    var cfg := HeaderBytes(h) + AllBytes(items);
    var rs := [HeaderBytes(h)] + RecordsOf(items);
    RecordPeel(HeaderBytes(h), AllBytes(items));
    RecordsAreItems(items);
    assert rs[1..] == RecordsOf(items);
    HeaderIsNoKeyboard(h, rs);
    WantedFrom(h.value, rs, 1, items);
    forall r | Answers(h.value, rs, r)
      ensures r == Wanted(h.value, items, None)
    {
      OneAnswer(h.value, rs, r, Wanted(h.value, items, None));
    }
  }

  lemma HeaderIsNoKeyboard(h: Header, rs: seq<seq<Byte>>)
    requires h.total < 65536 && |rs| > 0 && rs[0] == HeaderBytes(h)
    ensures KeyboardAt(rs, 1) == None && !KeyboardEndpoint(rs, 0)
  {
    OneMore(rs, 0);
  }
}
