/** The ustar archive format ("ustar Interchange Format", pax, POSIX.1-2017): the kernel's parser and
    a writer for the archives it is meant to read. */
module Ustar {
  import opened Wrappers
  import opened Paths
  import opened DirTree
  import opened Listing

  const BLOCK: nat := 512
  const NAME_LEN: nat := 100
  const SIZE_OFF: nat := 124
  const SIZE_LEN: nat := 12
  const TYPE_OFF: nat := 156
  const MAGIC_OFF: nat := 257
  const MAGIC: seq<Byte> := [117, 115, 116, 97, 114]
  const DOT: Byte := 46
  const TYPE_DIR: Byte := 53

  // ---- text fields ----

  predicate Continues(b: Byte) {
    0x80 <= b <= 0xBF
  }

  /** How many bytes the UTF-8 sequence at the front takes, or 0 if it is malformed (Unicode, table 3-7). */
  function SequenceLength(s: seq<Byte>): (n: nat)
    requires s != []
    ensures n <= |s|
  {
    var b := s[0];
    if b < 0x80 then 1
    else if 0xC2 <= b <= 0xDF && |s| >= 2 && Continues(s[1]) then 2
    else if 0xE0 <= b <= 0xEF && |s| >= 3 && Continues(s[1]) && Continues(s[2])
            && (b == 0xE0 ==> s[1] >= 0xA0) && (b == 0xED ==> s[1] <= 0x9F) then 3
    else if 0xF0 <= b <= 0xF4 && |s| >= 4 && Continues(s[1]) && Continues(s[2]) && Continues(s[3])
            && (b == 0xF0 ==> s[1] >= 0x90) && (b == 0xF4 ==> s[1] <= 0x8F) then 4
    else 0
  }

  predicate ValidUtf8(s: seq<Byte>)
    decreases |s|
  {
    s == [] || (SequenceLength(s) > 0 && ValidUtf8(s[SequenceLength(s)..]))
  }

  /** `trim_nul`: everything before the first NUL. */
  function TrimNul(s: seq<Byte>): seq<Byte> {
    if s == [] || s[0] == 0 then [] else [s[0]] + TrimNul(s[1..])
  }

  function TrimStart(s: seq<Byte>, drop: set<Byte>): seq<Byte> {
    if s != [] && s[0] in drop then TrimStart(s[1..], drop) else s
  }

  function TrimEnd(s: seq<Byte>, drop: set<Byte>): seq<Byte> {
    if s != [] && s[|s| - 1] in drop then TrimEnd(s[..|s| - 1], drop) else s
  }

  function Trim(s: seq<Byte>, drop: set<Byte>): seq<Byte> {
    TrimEnd(TrimStart(s, drop), drop)
  }

  /** `trim_start_matches("./")` */
  function StripDotSlash(s: seq<Byte>): seq<Byte> {
    if |s| >= 2 && s[0] == DOT && s[1] == SLASH then StripDotSlash(s[2..]) else s
  }

  function EntryName(field: seq<Byte>): seq<Byte> {
    var raw := TrimNul(field);
    StripDotSlash(Trim(if ValidUtf8(raw) then raw else [], {SLASH}))
  }

  predicate AllOctal(s: seq<Byte>) {
    forall i :: 0 <= i < |s| ==> 48 <= s[i] <= 55
  }

  function OctalValue(s: seq<Byte>): nat
    requires AllOctal(s)
  {
    if s == [] then 0 else OctalValue(s[..|s| - 1]) * 8 + (s[|s| - 1] - 48)
  }

  /** The UTF-8 bytes of one white space character: the 25 code points `str::trim` takes off. */
  predicate IsBlank(s: seq<Byte>) {
    || (|s| == 1 && (9 <= s[0] <= 13 || s[0] == 32))
    || s == [0xC2, 0x85] || s == [0xC2, 0xA0] || s == [0xE1, 0x9A, 0x80] || s == [0xE2, 0x81, 0x9F] || s == [0xE3, 0x80, 0x80]
    || (|s| == 3 && s[0] == 0xE2 && s[1] == 0x80 && (0x80 <= s[2] <= 0x8A || s[2] == 0xA8 || s[2] == 0xA9 || s[2] == 0xAF))
  }

  /** How many bytes the blank at the front takes, 0 if there is none. */
  function FrontBlank(s: seq<Byte>): (n: nat)
    ensures n <= |s| && (n > 0 ==> IsBlank(s[..n]))
  {
    if |s| >= 1 && IsBlank(s[..1]) then 1
    else if |s| >= 2 && IsBlank(s[..2]) then 2
    else if |s| >= 3 && IsBlank(s[..3]) then 3
    else 0
  }

  function BackBlank(s: seq<Byte>): (n: nat)
    ensures n <= |s| && (n > 0 ==> IsBlank(s[|s| - n..]))
  {
    if |s| >= 1 && IsBlank(s[|s| - 1..]) then 1
    else if |s| >= 2 && IsBlank(s[|s| - 2..]) then 2
    else if |s| >= 3 && IsBlank(s[|s| - 3..]) then 3
    else 0
  }

  function TrimBlanksStart(s: seq<Byte>): seq<Byte> {
    if FrontBlank(s) > 0 then TrimBlanksStart(s[FrontBlank(s)..]) else s
  }

  function TrimBlanksEnd(s: seq<Byte>): seq<Byte> {
    if BackBlank(s) > 0 then TrimBlanksEnd(s[..|s| - BackBlank(s)]) else s
  }

  /** `str::trim` */
  function TrimBlanks(s: seq<Byte>): seq<Byte> {
    TrimBlanksEnd(TrimBlanksStart(s))
  }

  /** `usize::from_str_radix(_, 8).unwrap_or(0)`: an optional plus sign, then at least one digit. */
  function FromRadix8(s: seq<Byte>): nat {
    var digits := if s != [] && s[0] == 43 then s[1..] else s;
    if digits == [] || !AllOctal(digits) || OctalValue(digits) >= 0x1_0000_0000_0000_0000 then 0
    else OctalValue(digits)
  }

  /** `parse_octal` */
  function ParseOctal(field: seq<Byte>): nat {
    FromRadix8(if ValidUtf8(field) then TrimBlanks(Trim(field, {0})) else [48])
  }

  // ---- the parser ----

  function PaddedSize(size: nat): nat {
    (size + BLOCK - 1) / BLOCK * BLOCK
  }

  predicate AllZero(s: seq<Byte>) {
    forall i :: 0 <= i < |s| ==> s[i] == 0
  }

  predicate IsHeader(block: seq<Byte>)
    requires |block| == BLOCK
  {
    !AllZero(block) && block[MAGIC_OFF..MAGIC_OFF + |MAGIC|] == MAGIC
  }

  /** The member a header and the bytes after it describe, if the parser keeps it. */
  function MemberOf(header: seq<Byte>, rest: seq<Byte>): Option<Item>
    requires |header| == BLOCK
  {
    var name := EntryName(header[..NAME_LEN]);
    var size := ParseOctal(header[SIZE_OFF..SIZE_OFF + SIZE_LEN]);
    if name == [] || name == [DOT] then None
    else
      Some(Item(Components(name, SLASH),
        if header[TYPE_OFF] == TYPE_DIR then Dir([])
        else File(if size > 0 && size <= |rest| then rest[..size] else [])))
  }

  function Drop(s: seq<Byte>, n: nat): seq<Byte> {
    if n <= |s| then s[n..] else []
  }

  /** The members read from an archive, in order. */
  function Members(data: seq<Byte>): seq<Item>
    decreases |data|
  {
    if |data| < BLOCK || !IsHeader(data[..BLOCK]) then []
    else
      var header, rest := data[..BLOCK], data[BLOCK..];
      var m := MemberOf(header, rest);
      (if m.Some? then [m.value] else [])
      + Members(Drop(rest, PaddedSize(ParseOctal(header[SIZE_OFF..SIZE_OFF + SIZE_LEN]))))
  }

  /** Insert members one after the other; None is the parser's panic. */
  function InsertAll(entries: seq<Entry>, items: seq<Item>): Option<seq<Entry>>
    decreases |items|
  {
    if items == [] then Some(entries)
    else
      var r := Insert(entries, items[0].path, items[0].node);
      if r.None? then None else InsertAll(r.value, items[1..])
  }

  lemma MembersAt(data: seq<Byte>, offset: nat)
    requires offset + BLOCK <= |data| && IsHeader(data[offset..offset + BLOCK])
    ensures var header, rest := data[offset..offset + BLOCK], data[offset + BLOCK..];
      var size := ParseOctal(header[SIZE_OFF..SIZE_OFF + SIZE_LEN]);
      Members(Drop(data, offset)) ==
        (if MemberOf(header, rest).Some? then [MemberOf(header, rest).value] else [])
        + Members(Drop(data, offset + BLOCK + PaddedSize(size)))
  {
    hide ParseOctal, MemberOf, PaddedSize;
    var here, header := Drop(data, offset), data[offset..offset + BLOCK];
    var size := ParseOctal(header[SIZE_OFF..SIZE_OFF + SIZE_LEN]);
    assert here[..BLOCK] == header;
    assert here[BLOCK..] == data[offset + BLOCK..];
    assert Drop(here[BLOCK..], PaddedSize(size)) == Drop(data, offset + BLOCK + PaddedSize(size));
  }

  lemma NoMembersAt(data: seq<Byte>, offset: nat)
    requires offset + BLOCK > |data| || !IsHeader(data[offset..offset + BLOCK])
    ensures Members(Drop(data, offset)) == []
  {
    if offset + BLOCK <= |data| {
      assert Drop(data, offset)[..BLOCK] == data[offset..offset + BLOCK];
    }
  }

  lemma InsertFirst(entries: seq<Entry>, item: Item, later: seq<Item>)
    ensures InsertAll(entries, [item] + later) ==
      var r := Insert(entries, item.path, item.node);
      if r.None? then None else InsertAll(r.value, later)
  {
    assert ([item] + later)[1..] == later;
  }

  /** `parse_ustar`: one header at a time, moving past each member's padded data. */
  method ParseUstar(data: seq<Byte>) returns (root: Option<seq<Entry>>)
    ensures root == InsertAll([], Members(data))
  {
    hide Members, InsertAll, Insert, EntryName, ParseOctal, Components;
    var entries: seq<Entry> := [];
    var offset := 0;
    assert Drop(data, 0) == data;
    while offset + BLOCK <= |data|
      invariant InsertAll([], Members(data)) == InsertAll(entries, Members(Drop(data, offset)))
    {
      var header := data[offset..offset + BLOCK];
      if AllZero(header) { break; }
      if header[MAGIC_OFF..MAGIC_OFF + |MAGIC|] != MAGIC { break; }
      var name := EntryName(header[..NAME_LEN]);
      var size := ParseOctal(header[SIZE_OFF..SIZE_OFF + SIZE_LEN]);
      MembersAt(data, offset);
      ghost var later := Members(Drop(data, offset + BLOCK + PaddedSize(size)));
      ghost var rest := data[offset + BLOCK..];
      offset := offset + BLOCK;
      if name != [] && name != [DOT] {
        var slice := if size > 0 && offset + size <= |data| then data[offset..offset + size] else [];
        assert slice == if size > 0 && size <= |rest| then rest[..size] else [];
        var node := if header[TYPE_OFF] == TYPE_DIR then Dir([]) else File(slice);
        ghost var item := Item(Components(name, SLASH), node);
        assert MemberOf(header, rest) == Some(item);
        InsertFirst(entries, item, later);
        var r := Insert(entries, Components(name, SLASH), node);
        if r.None? { return None; }
        entries := r.value;
      } else {
        assert [] + later == later;
      }
      offset := offset + (size + BLOCK - 1) / BLOCK * BLOCK;
    }
    NoMembersAt(data, offset);
    NothingToInsert(entries);
    root := Some(entries);
  }

  lemma NothingToInsert(entries: seq<Entry>)
    ensures InsertAll(entries, []) == Some(entries)
  {
  }
}
