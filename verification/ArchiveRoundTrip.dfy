/** Writing an archive and reading it back: what the parser sees of each member, and what path lookup
    then finds in the tree. */
module ArchiveRoundTrip {
  import opened Wrappers
  import opened Paths
  import opened DirTree
  import opened Listing
  import opened Ustar

  /** One member as a tar program may write it. The name may carry leading slashes, "./" prefixes and trailing slashes,
      the size field may end in NUL or a space, a file may have any type flag but '5', and header bytes
      the parser does not read are arbitrary. */
  datatype Member = Member(
    path: seq<Name>, isDir: bool, data: seq<Byte>,
    lead: nat, dots: nat, slashes: nat, terminator: Byte, typeFlag: Byte, filler: seq<Byte>)

  function Repeat(s: seq<Byte>, n: nat): seq<Byte> {
    if n == 0 then [] else s + Repeat(s, n - 1)
  }

  function NameBytes(m: Member): seq<Byte> {
    Repeat([SLASH], m.lead) + (Repeat([DOT, SLASH], m.dots) + Join(m.path, SLASH) + Repeat([SLASH], m.slashes))
  }

  predicate GoodMember(m: Member) {
    && m.path != [] && AreNames(m.path, SLASH) && m.path[0] != [DOT]
    && |NameBytes(m)| <= NAME_LEN && 0 !in NameBytes(m) && ValidUtf8(NameBytes(m))
    && |m.data| < 0x2_0000_0000 && (m.isDir ==> m.data == [])
    && m.terminator in {0, 32} && m.typeFlag != TYPE_DIR && |m.filler| == BLOCK
  }

  /** n in k octal digits. */
  function Octal(n: nat, k: nat): (r: seq<Byte>)
    ensures |r| == k && AllOctal(r)
  {
    if k == 0 then [] else Octal(n / 8, k - 1) + [48 + n % 8]
  }

  function SizeField(m: Member): (r: seq<Byte>)
    ensures |r| == SIZE_LEN
  {
    Octal(|m.data|, SIZE_LEN - 1) + [m.terminator]
  }

  function HeaderByte(m: Member, i: nat): Byte
    requires i < BLOCK && |m.filler| == BLOCK
  {
    if i < NAME_LEN then (if i < |NameBytes(m)| then NameBytes(m)[i] else 0)
    else if SIZE_OFF <= i < SIZE_OFF + SIZE_LEN then SizeField(m)[i - SIZE_OFF]
    else if i == TYPE_OFF then (if m.isDir then TYPE_DIR else m.typeFlag)
    else if MAGIC_OFF <= i < MAGIC_OFF + |MAGIC| then MAGIC[i - MAGIC_OFF]
    else m.filler[i]
  }

  function Header(m: Member): (r: seq<Byte>)
    requires |m.filler| == BLOCK
    ensures |r| == BLOCK
  {
    seq(BLOCK, i requires 0 <= i < BLOCK => HeaderByte(m, i))
  }

  function Zeros(n: nat): (r: seq<Byte>)
    ensures |r| == n
  {
    seq(n, i => 0)
  }

  function Padding(size: nat): (r: seq<Byte>)
    ensures |r| + size == PaddedSize(size)
  {
    Zeros(PaddedSize(size) - size)
  }

  /** Headers and padded data one after the other, a zero block, and whatever follows it. */
  function Archive(ms: seq<Member>, tail: seq<Byte>): seq<Byte>
    requires forall i :: 0 <= i < |ms| ==> |ms[i].filler| == BLOCK
  {
    if ms == [] then Zeros(BLOCK) + tail
    else Header(ms[0]) + (ms[0].data + Padding(|ms[0].data|) + Archive(ms[1..], tail))
  }

  function ItemOf(m: Member): Item {
    Item(m.path, if m.isDir then Dir([]) else File(m.data))
  }

  function Items(ms: seq<Member>): (r: seq<Item>)
    ensures |r| == |ms| && forall i :: 0 <= i < |ms| ==> r[i] == ItemOf(ms[i])
  {
    if ms == [] then [] else [ItemOf(ms[0])] + Items(ms[1..])
  }

  // ---- the size field ----

  lemma {:induction false} OctalRoundTrip(n: nat, k: nat)
    requires n < Pow8(k)
    ensures OctalValue(Octal(n, k)) == n
  {
    if k > 0 {
      OctalRoundTrip(n / 8, k - 1);
    }
  }

  function Pow8(k: nat): nat {
    if k == 0 then 1 else 8 * Pow8(k - 1)
  }

  lemma {:induction false} AsciiIsUtf8(s: seq<Byte>)
    requires forall i :: 0 <= i < |s| ==> s[i] < 0x80
    ensures ValidUtf8(s)
  {
    if s != [] {
      AsciiIsUtf8(s[1..]);
    }
  }

  lemma SizeRoundTrip(m: Member)
    requires GoodMember(m)
    ensures ParseOctal(SizeField(m)) == |m.data|
  {
    var digits, field := Octal(|m.data|, SIZE_LEN - 1), SizeField(m);
    assert Pow8(11) == 0x2_0000_0000;
    OctalRoundTrip(|m.data|, SIZE_LEN - 1);
    AsciiIsUtf8(field);
    assert field[..|field| - 1] == digits;
    assert field[0] == digits[0];
    assert TrimStart(field, {0}) == field && TrimStart(digits, {0}) == digits;
    assert TrimEnd(digits, {0}) == digits;
    assert Trim(field, {0}) == if m.terminator == 0 then digits else field;
    DigitsNotBlank(digits);
    if m.terminator == 32 {
      assert field[|digits|..] == [32];
      DigitsNotBlank(field);
    }
  }

  /** Digits, perhaps with a space behind them, trimmed. */
  lemma DigitsNotBlank(s: seq<Byte>)
    requires |s| >= 4 && AllOctal(s[..|s| - 1]) && (s[|s| - 1] == 32 || AllOctal(s))
    ensures TrimBlanks(s) == if s[|s| - 1] == 32 then s[..|s| - 1] else s
  {
    var t := s[..|s| - 1];
    NoBlankBefore(s);
    if s[|s| - 1] == 32 {
      NoBlankAfter(t);
      assert s[|s| - 1..] == [32];
      assert TrimBlanksEnd(s) == TrimBlanksEnd(t);
    } else {
      NoBlankAfter(s);
    }
  }

  lemma NoBlankBefore(s: seq<Byte>)
    requires s != [] && 48 <= s[0] <= 55
    ensures FrontBlank(s) == 0
  {
    assert s[..1][0] == s[0];
    assert |s| >= 2 ==> s[..2][0] == s[0];
    assert |s| >= 3 ==> s[..3][0] == s[0];
  }

  lemma NoBlankAfter(s: seq<Byte>)
    requires s != [] && 48 <= s[|s| - 1] <= 55
    ensures BackBlank(s) == 0
  {
    hide IsBlank;
    var n := |s|;
    if IsBlank(s[n - 1..]) { BlankEnds(s[n - 1..]); }
    if n >= 2 && IsBlank(s[n - 2..]) { BlankEnds(s[n - 2..]); }
    if n >= 3 && IsBlank(s[n - 3..]) { BlankEnds(s[n - 3..]); }
  }

  lemma BlankEnds(t: seq<Byte>)
    requires IsBlank(t)
    ensures t != [] && !(48 <= t[|t| - 1] <= 55)
  {
  }

  // ---- the name field ----

  lemma {:induction false} TrimNulPadded(s: seq<Byte>, pad: seq<Byte>)
    requires 0 !in s && (pad != [] ==> pad[0] == 0)
    ensures TrimNul(s + pad) == s
  {
    if s != [] {
      assert (s + pad)[1..] == s[1..] + pad;
      assert s[0] in s && [s[0]] + s[1..] == s;
      TrimNulPadded(s[1..], pad);
    }
  }

  lemma {:induction false} TrimEndSlashes(s: seq<Byte>, n: nat)
    requires s != [] && s[|s| - 1] != SLASH
    ensures TrimEnd(s + Repeat([SLASH], n), {SLASH}) == s
  {
    if n > 0 {
      RepeatEnd(n);
      var t := s + Repeat([SLASH], n);
      assert t[..|t| - 1] == s + Repeat([SLASH], n - 1);
      TrimEndSlashes(s, n - 1);
    } else {
      assert s + Repeat([SLASH], 0) == s;
    }
  }

  lemma {:induction false} TrimStartSlashes(n: nat, s: seq<Byte>)
    requires s != [] && s[0] != SLASH
    ensures TrimStart(Repeat([SLASH], n) + s, {SLASH}) == s
  {
    var t := Repeat([SLASH], n) + s;
    if n > 0 {
      assert t[1..] == Repeat([SLASH], n - 1) + s;
      TrimStartSlashes(n - 1, s);
    } else {
      assert t == s;
    }
  }

  lemma {:induction false} RepeatEnd(n: nat)
    requires n > 0
    ensures Repeat([SLASH], n) == Repeat([SLASH], n - 1) + [SLASH]
  {
    if n > 1 {
      RepeatEnd(n - 1);
    }
  }

  lemma {:induction false} StripDots(n: nat, s: seq<Byte>)
    ensures StripDotSlash(Repeat([DOT, SLASH], n) + s) == StripDotSlash(s)
  {
    var t := Repeat([DOT, SLASH], n) + s;
    if n > 0 {
      assert t[2..] == Repeat([DOT, SLASH], n - 1) + s;
      StripDots(n - 1, s);
    } else {
      assert t == s;
    }
  }

  lemma {:induction false} JoinEnds(parts: seq<Name>)
    requires parts != [] && AreNames(parts, SLASH)
    ensures var j := Join(parts, SLASH);
      && j != [] && j[0] != SLASH && j[|j| - 1] != SLASH
      && parts[0] <= j && (|parts[0]| < |j| ==> j[|parts[0]|] == SLASH)
  {
    assert parts[0][0] in parts[0];
    assert parts[0][|parts[0]| - 1] in parts[0];
    if |parts| > 1 {
      JoinEnds(parts[1..]);
    }
  }

  /** A joined path starts with "./" or is "." only if its first component is ".". */
  lemma JoinIsStripped(parts: seq<Name>)
    requires parts != [] && AreNames(parts, SLASH) && parts[0] != [DOT]
    ensures var j := Join(parts, SLASH); StripDotSlash(j) == j && j != [] && j != [DOT]
  {
    var j := Join(parts, SLASH);
    JoinEnds(parts);
    assert j[..|parts[0]|] == parts[0];
    if |parts[0]| >= 2 {
      assert j[1] == parts[0][1] && parts[0][1] in parts[0];
    } else {
      assert parts[0] == [j[0]];
    }
  }

  lemma NameRoundTrip(m: Member, field: seq<Byte>)
    requires GoodMember(m) && |field| == NAME_LEN
    requires forall i :: 0 <= i < NAME_LEN ==> field[i] == if i < |NameBytes(m)| then NameBytes(m)[i] else 0
    ensures EntryName(field) == Join(m.path, SLASH)
  {
    var name, j := NameBytes(m), Join(m.path, SLASH);
    assert field == name + field[|name|..];
    TrimNulPadded(name, field[|name|..]);
    JoinEnds(m.path);
    var front := Repeat([DOT, SLASH], m.dots) + j;
    assert m.dots > 0 ==> front[0] == DOT;
    assert m.dots == 0 ==> front == j;
    var shown := front + Repeat([SLASH], m.slashes);
    assert shown[0] == front[0] != SLASH;
    TrimStartSlashes(m.lead, shown);
    TrimEndSlashes(front, m.slashes);
    StripDots(m.dots, j);
    JoinIsStripped(m.path);
  }

  // ---- one member, then all ----

  lemma HeaderFields(m: Member)
    requires GoodMember(m)
    ensures IsHeader(Header(m))
    ensures Header(m)[SIZE_OFF..SIZE_OFF + SIZE_LEN] == SizeField(m)
    ensures Header(m)[TYPE_OFF] == TYPE_DIR <==> m.isDir
    ensures EntryName(Header(m)[..NAME_LEN]) == Join(m.path, SLASH)
  {
    var h := Header(m);
    assert h[MAGIC_OFF..MAGIC_OFF + |MAGIC|] == MAGIC;
    assert h[MAGIC_OFF] == MAGIC[0];
    assert h[SIZE_OFF..SIZE_OFF + SIZE_LEN] == SizeField(m);
    NameRoundTrip(m, h[..NAME_LEN]);
  }

  lemma MemberRoundTrip(m: Member, after: seq<Byte>)
    requires GoodMember(m)
    ensures MemberOf(Header(m), m.data + after) == Some(ItemOf(m))
  {
    HeaderFields(m);
    SizeRoundTrip(m);
    JoinIsStripped(m.path);
    ComponentsJoin(m.path, SLASH);
    assert (m.data + after)[..|m.data|] == m.data;
  }

  predicate GoodMembers(ms: seq<Member>) {
    forall i :: 0 <= i < |ms| ==> GoodMember(ms[i])
  }

  lemma FillersFit(ms: seq<Member>)
    requires GoodMembers(ms)
    ensures forall i :: 0 <= i < |ms| ==> |ms[i].filler| == BLOCK
  {
  }

  lemma AfterMember(data: seq<Byte>, later: seq<Byte>)
    ensures Drop(data + (Padding(|data|) + later), PaddedSize(|data|)) == later
  {
    var pad := Padding(|data|);
    assert data + (pad + later) == (data + pad) + later;
  }

  lemma OneMember(ms: seq<Member>, tail: seq<Byte>)
    requires ms != [] && forall i :: 0 <= i < |ms| ==> |ms[i].filler| == BLOCK
    ensures Archive(ms, tail) == Header(ms[0]) + (ms[0].data + Padding(|ms[0].data|) + Archive(ms[1..], tail))
  {
  }

  lemma {:induction false} MembersRoundTrip(ms: seq<Member>, tail: seq<Byte>)
    requires GoodMembers(ms)
    ensures Members(Archive(ms, tail)) == Items(ms)
  {
    hide Members, Header, Padding, ParseOctal, SizeField, MemberOf, GoodMember, PaddedSize;
    FillersFit(ms);
    var data := Archive(ms, tail);
    MembersStep(data);
    if ms == [] {
      assert data[..BLOCK] == Zeros(BLOCK);
    } else {
      var m := ms[0];
      var later := Archive(ms[1..], tail);
      assert data == Header(m) + (m.data + Padding(|m.data|) + later) by { OneMember(ms, tail); }
      assert data[..BLOCK] == Header(m);
      assert data[BLOCK..] == m.data + (Padding(|m.data|) + later);
      HeaderFields(m);
      SizeRoundTrip(m);
      MemberRoundTrip(m, Padding(|m.data|) + later);
      AfterMember(m.data, later);
      MembersRoundTrip(ms[1..], tail);
    }
  }

  lemma {:induction false} InsertAllConcat(entries: seq<Entry>, a: seq<Item>, b: seq<Item>)
    ensures InsertAll(entries, a + b) ==
      if InsertAll(entries, a).None? then None else InsertAll(InsertAll(entries, a).value, b)
    decreases |a|
  {
    if a == [] {
      assert a + b == b;
    } else {
      assert (a + b)[0] == a[0] && (a + b)[1..] == a[1..] + b;
      var r := Insert(entries, a[0].path, a[0].node);
      if r.Some? {
        InsertAllConcat(r.value, a[1..], b);
      }
    }
  }

  lemma {:induction false} InsertAllIsBuild(items: seq<Item>)
    ensures InsertAll([], items) == Build(items)
  {
    if items != [] {
      var init, last := items[..|items| - 1], items[|items| - 1];
      assert items == init + [last];
      InsertAllConcat([], init, [last]);
      InsertAllIsBuild(init);
      if Build(init).Some? {
        InsertFirst(Build(init).value, last, []);
        assert [last] + [] == [last];
      }
    }
  }

  /** Main theorem: write any members with distinct paths, none below a file, in any order and with or
      without their parents; then parsing does not panic and the resulting tree shows at every path
      exactly what was written there: a file's bytes, a directory for directories and ancestors, and
      nothing anywhere else. */
  lemma ArchiveShows(ms: seq<Member>, tail: seq<Byte>, q: seq<Name>)
    requires GoodMembers(ms) && GoodListing(Items(ms)) && q != []
    ensures var root := InsertAll([], Members(Archive(ms, tail)));
      root.Some? && Look(root.value, q) == Listed(Items(ms), q)
  {
    MembersRoundTrip(ms, tail);
    InsertAllIsBuild(Items(ms));
    BuildLook(Items(ms), q);
  }

  // ---- archives of any kind ----

  lemma {:induction false} TrimEndEnds(s: seq<Byte>, drop: set<Byte>)
    ensures var t := TrimEnd(s, drop); t != [] ==> t[|t| - 1] !in drop
  {
    if s != [] && s[|s| - 1] in drop { TrimEndEnds(s[..|s| - 1], drop); }
  }

  lemma {:induction false} StripKeepsEnd(s: seq<Byte>)
    ensures var t := StripDotSlash(s); t != [] ==> s != [] && t[|t| - 1] == s[|s| - 1]
  {
    if |s| >= 2 && s[0] == DOT && s[1] == SLASH { StripKeepsEnd(s[2..]); }
  }

  lemma NameHasComponent(field: seq<Byte>)
    requires EntryName(field) != []
    ensures Components(EntryName(field), SLASH) != []
  {
    hide TrimEnd, StripDotSlash, ValidUtf8, TrimNul, TrimStart, Components;
    var raw := TrimNul(field);
    var text := TrimStart(if ValidUtf8(raw) then raw else [], {SLASH});
    TrimEndEnds(text, {SLASH});
    StripKeepsEnd(TrimEnd(text, {SLASH}));
    HasComponent(EntryName(field), SLASH);
  }

  lemma MemberShaped(header: seq<Byte>, rest: seq<Byte>)
    requires |header| == BLOCK && MemberOf(header, rest).Some?
    ensures var item := MemberOf(header, rest).value; item.path != [] && (item.node.Dir? ==> item.node.entries == [])
  {
    hide ParseOctal, EntryName, Components;
    NameHasComponent(header[..NAME_LEN]);
  }

  lemma {:induction false} MembersShaped(data: seq<Byte>)
    ensures Shaped(Members(data))
    decreases |data|
  {
    hide ParseOctal, MemberOf, PaddedSize, IsHeader, Members;
    MembersStep(data);
    if |data| >= BLOCK && IsHeader(data[..BLOCK]) {
      var header, rest := data[..BLOCK], data[BLOCK..];
      if MemberOf(header, rest).Some? { MemberShaped(header, rest); }
      MembersShaped(Drop(rest, PaddedSize(ParseOctal(header[SIZE_OFF..SIZE_OFF + SIZE_LEN]))));
    }
  }

  lemma MembersStep(data: seq<Byte>)
    ensures Members(data) ==
      if |data| < BLOCK || !IsHeader(data[..BLOCK]) then []
      else
        var header, rest := data[..BLOCK], data[BLOCK..];
        (if MemberOf(header, rest).Some? then [MemberOf(header, rest).value] else [])
        + Members(Drop(rest, PaddedSize(ParseOctal(header[SIZE_OFF..SIZE_OFF + SIZE_LEN]))))
  {
    hide ParseOctal, MemberOf, PaddedSize, IsHeader;
  }

  /** For any bytes at all: parsing panics exactly if some member lies below a path at which the first
      member before it, at or below that path, was a file. */
  lemma ParsePanicsIff(data: seq<Byte>)
    ensures InsertAll([], Members(data)).None? <==> exists i :: Blocked(Members(data), i)
  {
    hide Members;
    MembersShaped(data);
    InsertAllIsBuild(Members(data));
    BuildFailsIff(Members(data));
  }

  /** And otherwise the first member at or below a path decides what shows there. */
  lemma ParsedShows(data: seq<Byte>, q: seq<Name>)
    requires InsertAll([], Members(data)).Some? && q != []
    ensures Look(InsertAll([], Members(data)).value, q) == FirstSeen(Members(data), q)
  {
    hide Members;
    MembersShaped(data);
    InsertAllIsBuild(Members(data));
    FirstDecides(Members(data), q);
  }

  // ---- an archive that panics ----

  function PlainMember(path: seq<Name>): Member {
    Member(path, false, [], 0, 0, 0, 0, 48, Zeros(BLOCK))
  }

  const A: Name := [97]
  const B: Name := [98]

  /** A file "a", and below it a file "a/b": each is a good member, and parsing the two panics. */
  lemma FileBelowFilePanics(tail: seq<Byte>)
    ensures var ms := [PlainMember([A]), PlainMember([A, B])];
      GoodMembers(ms) && InsertAll([], Members(Archive(ms, tail))).None?
  {
    hide Members, InsertAll, First, Archive, Header;
    var ms := [PlainMember([A]), PlainMember([A, B])];
    ShortNames();
    MembersRoundTrip(ms, tail);
    ParsePanicsIff(Archive(ms, tail));
    var items := Items(ms);
    assert items[1].path == [A, B] && items[1].path[..1] == [A];
    FirstIsFileA(items[..1]);
    assert Blocked(items, 1);
  }

  lemma ShortNames()
    ensures GoodMember(PlainMember([A])) && GoodMember(PlainMember([A, B]))
  {
    hide ValidUtf8;
    var a, ab := PlainMember([A]), PlainMember([A, B]);
    assert Join([A], SLASH) == A && Repeat([DOT, SLASH], 0) == [] && Repeat([SLASH], 0) == [];
    assert NameBytes(a) == A;
    assert [A, B][1..] == [B] && Join([B], SLASH) == B;
    assert Join([A, B], SLASH) == A + [SLASH] + B;
    assert NameBytes(ab) == [97, 47, 98];
    AsciiIsUtf8(NameBytes(a));
    AsciiIsUtf8(NameBytes(ab));
  }

  lemma FirstIsFileA(items: seq<Item>)
    requires items == [Item([A], File([]))]
    ensures FirstSeen(items, [A]) == AFile([])
  {
    assert items[..0] == [] && First([], [A]) == None;
  }
}
