/** The parser's text fields and blocks, stated byte by byte: what a block says, where an archive ends, which
    names and numbers a field can hold. */
module UstarFields {
  import opened Wrappers
  import opened Paths
  import opened DirTree
  import opened Listing
  import opened Ustar
  import opened ArchiveRoundTrip

  // ---- blocks ----

  /** An archive goes on exactly as long as there is a whole block with "ustar" at byte 257. */
  lemma WhereItEnds(data: seq<Byte>)
    requires |data| < 512 || data[257..262] != [117, 115, 116, 97, 114]
    ensures Members(data) == []
  {
    if |data| >= 512 {
      assert data[..512][257..262] == data[257..262];
    }
  }

  /** A block with "ustar" at byte 257 is a member: its name in bytes 0 to 99, its size in octal in bytes 124 to
      135, '5' at byte 156 for a directory. What follows is its data, if there is enough of it, and else the
      file is empty; the next block begins at the next multiple of 512. A member with no name, or named ".",
      is passed over. */
  lemma WhatABlockSays(data: seq<Byte>) returns (next: nat)
    requires |data| >= 512 && data[257..262] == [117, 115, 116, 97, 114]
    ensures var name, size := EntryName(data[0..100]), ParseOctal(data[124..136]);
      var contents := if 512 + size <= |data| then data[512..512 + size] else [];
      var item := Item(Components(name, 47), if data[156] == 53 then Dir([]) else File(contents));
      && next % 512 == 0 && 512 + size <= next < 512 + size + 512
      && Members(data) == (if name == [] || name == [46] then [] else [item])
           + Members(if next <= |data| then data[next..] else [])
  {
    hide EntryName, ParseOctal, Components, Members, PaddedSize;
    MembersStep(data);
    var header, rest := data[..512], data[512..];
    assert header[257..262] == data[257..262] && header[257] == 117;
    assert header[..100] == data[0..100] && header[124..136] == data[124..136] && header[156] == data[156];
    var size := ParseOctal(data[124..136]);
    Padded(size);
    next := 512 + PaddedSize(size);
    assert Drop(rest, PaddedSize(size)) == if next <= |data| then data[next..] else [];
    assert 512 + size <= |data| ==> rest[..size] == data[512..512 + size];
    assert size == 0 ==> data[512..512] == [];
  }

  lemma Padded(size: nat)
    ensures PaddedSize(size) % 512 == 0 && size <= PaddedSize(size) < size + 512
  {
  }

  // ---- names ----

  /** A name ends at the first NUL; slashes around it and "./" before it are taken off. One that is not text is
      no name, and neither is one of slashes only. */
  lemma NameReads(lead: nat, dots: nat, stem: seq<Byte>, trail: nat, rest: seq<Byte>)
    requires rest == [] || rest[0] == 0
    requires stem != [] && stem[0] != 47 && stem[|stem| - 1] != 47 && !([46, 47] <= stem) && 0 !in stem
    ensures var name := Repeat([47], lead) + (Repeat([46, 47], dots) + stem + Repeat([47], trail));
      && EntryName(name + rest) == (if ValidUtf8(name) then stem else [])
      && EntryName(Repeat([47], lead) + rest) == []
  {
    hide ValidUtf8, Trim, TrimNul, StripDotSlash, Repeat;
    var shown := Repeat([46, 47], dots) + stem + Repeat([47], trail);
    NoNulRepeated([47], lead);
    NoNulRepeated([47], trail);
    NoNulRepeated([46, 47], dots);
    TrimNulPadded(Repeat([47], lead) + shown, rest);
    TrimNulPadded(Repeat([47], lead), rest);
    SlashesTrimmed(lead, dots, stem, trail);
    StripDots(dots, stem);
    NoDotSlash(stem);
    OnlySlashes(lead);
  }

  lemma NoDotSlash(s: seq<Byte>)
    requires !([46, 47] <= s)
    ensures StripDotSlash(s) == s
  {
  }

  lemma SlashesTrimmed(lead: nat, dots: nat, stem: seq<Byte>, trail: nat)
    requires stem != [] && stem[0] != 47 && stem[|stem| - 1] != 47
    ensures Trim(Repeat([47], lead) + (Repeat([46, 47], dots) + stem + Repeat([47], trail)), {SLASH}) ==
      Repeat([46, 47], dots) + stem
  {
    hide TrimStart, TrimEnd;
    var front := Repeat([46, 47], dots) + stem;
    assert dots > 0 ==> front[0] == 46;
    assert dots == 0 ==> front == stem;
    TrimStartSlashes(lead, front + Repeat([47], trail));
    TrimEndSlashes(front, trail);
  }

  lemma {:induction false} NoNulRepeated(s: seq<Byte>, n: nat)
    requires 0 !in s
    ensures 0 !in Repeat(s, n)
  {
    if n > 0 { NoNulRepeated(s, n - 1); }
  }

  lemma {:induction false} OnlySlashes(n: nat)
    ensures Trim(Repeat([47], n), {SLASH}) == [] && Trim([], {SLASH}) == [] && StripDotSlash([]) == []
  {
    if n > 0 {
      assert Repeat([47], n)[1..] == Repeat([47], n - 1);
      OnlySlashes(n - 1);
    }
  }

  // ---- numbers ----

  /** White space characters one after the other. */
  function Blanks(cs: seq<seq<Byte>>): seq<Byte> {
    if cs == [] then [] else cs[0] + Blanks(cs[1..])
  }

  predicate AreBlanks(cs: seq<seq<Byte>>) {
    forall i :: 0 <= i < |cs| ==> IsBlank(cs[i])
  }

  lemma BlankShape(b: seq<Byte>, s: seq<Byte>)
    requires IsBlank(b)
    ensures FrontBlank(b + s) == |b| > 0
  {
    assert (b + s)[..|b|] == b;
    assert |b| >= 2 ==> (b + s)[..1][0] == b[0];
    assert |b| >= 3 ==> (b + s)[..2][0] == b[0];
  }

  lemma BlankBehind(s: seq<Byte>, b: seq<Byte>)
    requires IsBlank(b)
    ensures BackBlank(s + b) == |b| > 0
  {
    var t := s + b;
    assert t[|t| - |b|..] == b;
    assert |b| >= 2 ==> t[|t| - 1..] == b[|b| - 1..];
    assert |b| >= 3 ==> t[|t| - 2..] == b[|b| - 2..];
  }

  lemma {:induction false} BlanksInFront(cs: seq<seq<Byte>>, s: seq<Byte>)
    requires AreBlanks(cs) && FrontBlank(s) == 0
    ensures TrimBlanksStart(Blanks(cs) + s) == s
  {
    hide IsBlank;
    if cs == [] {
      assert Blanks(cs) + s == s;
    } else {
      var rest := Blanks(cs[1..]) + s;
      assert Blanks(cs) + s == cs[0] + rest;
      BlankShape(cs[0], rest);
      assert (cs[0] + rest)[|cs[0]|..] == rest;
      BlanksInFront(cs[1..], s);
    }
  }

  lemma {:induction false} BlanksBehind(s: seq<Byte>, cs: seq<seq<Byte>>)
    requires AreBlanks(cs) && BackBlank(s) == 0
    ensures TrimBlanksEnd(s + Blanks(cs)) == s
    decreases |cs|
  {
    hide IsBlank;
    if cs == [] {
      assert s + Blanks(cs) == s;
    } else {
      var init, last := cs[..|cs| - 1], cs[|cs| - 1];
      BlanksLast(init, last);
      assert cs == init + [last];
      assert s + Blanks(cs) == (s + Blanks(init)) + last;
      BlankBehind(s + Blanks(init), last);
      assert ((s + Blanks(init)) + last)[..|s + Blanks(init)|] == s + Blanks(init);
      BlanksBehind(s, init);
    }
  }

  lemma {:induction false} BlanksLast(cs: seq<seq<Byte>>, b: seq<Byte>)
    ensures Blanks(cs + [b]) == Blanks(cs) + b
  {
    if cs == [] {
      assert (cs + [b])[1..] == [] && Blanks(cs + [b]) == b + Blanks([]);
    } else {
      assert (cs + [b])[1..] == cs[1..] + [b];
      BlanksLast(cs[1..], b);
    }
  }

  lemma {:induction false} NulsInFront(n: nat, s: seq<Byte>)
    requires s != [] && s[0] != 0
    ensures TrimStart(Zeros(n) + s, {0}) == s
  {
    if n > 0 {
      assert (Zeros(n) + s)[1..] == Zeros(n - 1) + s;
      NulsInFront(n - 1, s);
    } else {
      assert Zeros(n) + s == s;
    }
  }

  lemma {:induction false} NulsBehind(s: seq<Byte>, n: nat)
    requires s != [] && s[|s| - 1] != 0
    ensures TrimEnd(s + Zeros(n), {0}) == s
  {
    if n > 0 {
      assert (s + Zeros(n))[..|s| + n - 1] == s + Zeros(n - 1);
      NulsBehind(s, n - 1);
    } else {
      assert s + Zeros(n) == s;
    }
  }

  lemma {:induction false} NoNulAtEnds(cs: seq<seq<Byte>>)
    requires AreBlanks(cs) && cs != []
    ensures Blanks(cs) != [] && Blanks(cs)[0] != 0 && Blanks(cs)[|Blanks(cs)| - 1] != 0
  {
    if |cs| == 1 {
      assert Blanks(cs) == cs[0] + Blanks([]);
    } else {
      NoNulAtEnds(cs[1..]);
    }
  }

  /** NULs around white space around a number in octal, with or without a plus sign: the number, unless it takes
      more than 64 bits. */
  lemma NumberReads(lead: nat, before: seq<seq<Byte>>, plus: bool, digits: seq<Byte>, after: seq<seq<Byte>>, trail: nat)
    requires AreBlanks(before) && AreBlanks(after) && digits != [] && AllOctal(digits)
    requires ValidUtf8(Zeros(lead) + (Blanks(before) + ((if plus then [43] else []) + digits) + Blanks(after)) + Zeros(trail))
    ensures ParseOctal(Zeros(lead) + (Blanks(before) + ((if plus then [43] else []) + digits) + Blanks(after)) + Zeros(trail))
      == if OctalValue(digits) < 0x1_0000_0000_0000_0000 then OctalValue(digits) else 0
  {
    hide ValidUtf8, Blanks, IsBlank, TrimStart, TrimEnd, TrimBlanksStart, TrimBlanksEnd, OctalValue, FrontBlank, BackBlank;
    var number := (if plus then [43] else []) + digits;
    var inner := Blanks(before) + number + Blanks(after);
    NumberEnds(number, digits);
    if before != [] { NoNulAtEnds(before); } else { NoBlanks(before); }
    if after != [] { NoNulAtEnds(after); } else { NoBlanks(after); }
    assert inner[0] != 0 && inner[|inner| - 1] != 0;
    assert Zeros(lead) + inner + Zeros(trail) == Zeros(lead) + (inner + Zeros(trail));
    NulsInFront(lead, inner + Zeros(trail));
    NulsBehind(inner, trail);
    assert inner == Blanks(before) + (number + Blanks(after));
    NotBlankBefore(number, number + Blanks(after));
    BlanksInFront(before, number + Blanks(after));
    BlanksBehind(number, after);
    assert plus ==> number[1..] == digits;
    assert !plus ==> number == digits && digits[0] != 43;
  }

  lemma NoBlanks(cs: seq<seq<Byte>>)
    requires cs == []
    ensures Blanks(cs) == []
  {
  }

  lemma NumberEnds(number: seq<Byte>, digits: seq<Byte>)
    requires digits != [] && AllOctal(digits) && (number == [43] + digits || number == [] + digits)
    ensures BackBlank(number) == 0 && 48 <= number[|number| - 1] <= 55 && (number[0] == 43 || 48 <= number[0] <= 55)
  {
    assert number[|number| - 1] == digits[|digits| - 1];
    NoBlankAfter(number);
  }

  lemma NotBlankBefore(number: seq<Byte>, s: seq<Byte>)
    requires number != [] && number <= s && (number[0] == 43 || 48 <= number[0] <= 55)
    ensures FrontBlank(s) == 0
  {
    assert s[..1][0] == s[0];
    assert |s| >= 2 ==> s[..2][0] == s[0];
    assert |s| >= 3 ==> s[..3][0] == s[0];
  }

  predicate Around(s: seq<Byte>) {
    forall i :: 0 <= i < |s| ==> s[i] == 0 || s[i] == 43 || 9 <= s[i] <= 13 || s[i] == 32 || s[i] >= 0x80
  }

  /** A field that gives anything but 0 consists of the octal digits of what it gives and, around them, only
      NULs, white space and a plus sign. */
  lemma NumberOrZero(field: seq<Byte>) returns (front: seq<Byte>, digits: seq<Byte>, back: seq<Byte>)
    requires ParseOctal(field) != 0
    ensures field == front + digits + back && Around(front) && Around(back)
    ensures AllOctal(digits) && OctalValue(digits) == ParseOctal(field)
  {
    hide TrimStart, TrimEnd, TrimBlanksStart, TrimBlanksEnd, OctalValue, Around, ValidUtf8;
    assert ValidUtf8(field) by { ZeroReads(); }
    var nuls := StartNuls(field);
    var moreNuls := EndNuls(TrimStart(field, {0}));
    var blanks := StartBlanks(Trim(field, {0}));
    var moreBlanks := EndBlanks(TrimBlanksStart(Trim(field, {0})));
    var d := TrimBlanks(Trim(field, {0}));
    AroundConcat(nuls, blanks);
    AroundConcat(moreBlanks, moreNuls);
    front, digits, back := nuls + blanks, d, moreBlanks + moreNuls;
    Nested(nuls, blanks, d, moreBlanks, moreNuls);
    if d != [] && d[0] == 43 {
      AroundConcat(front, PLUS);
      assert PLUS + d[1..] == d && front + (PLUS + d[1..]) == (front + PLUS) + d[1..];
      front, digits := front + PLUS, d[1..];
    }
  }

  const PLUS: seq<Byte> := [43]

  lemma ZeroReads()
    ensures FromRadix8([48]) == 0
  {
    assert [48][..0] == [];
  }

  lemma Nested(a: seq<Byte>, b: seq<Byte>, c: seq<Byte>, d: seq<Byte>, e: seq<Byte>)
    ensures a + ((b + (c + d)) + e) == (a + b) + c + (d + e)
  {
  }

  lemma AroundConcat(a: seq<Byte>, b: seq<Byte>)
    requires Around(a) && (Around(b) || b == PLUS)
    ensures Around(a + b)
  {
  }

  lemma {:induction false} StartNuls(s: seq<Byte>) returns (front: seq<Byte>)
    ensures s == front + TrimStart(s, {0}) && Around(front)
  {
    front := [];
    if s != [] && s[0] == 0 {
      var more := StartNuls(s[1..]);
      front := [0] + more;
    }
  }

  lemma {:induction false} EndNuls(s: seq<Byte>) returns (back: seq<Byte>)
    ensures s == TrimEnd(s, {0}) + back && Around(back)
  {
    back := [];
    if s != [] && s[|s| - 1] == 0 {
      var more := EndNuls(s[..|s| - 1]);
      back := more + [0];
      assert s == s[..|s| - 1] + [0];
    }
  }

  lemma BlankAround(b: seq<Byte>)
    requires b == [] || IsBlank(b)
    ensures Around(b)
  {
  }

  lemma {:induction false} StartBlanks(s: seq<Byte>) returns (front: seq<Byte>)
    ensures s == front + TrimBlanksStart(s) && Around(front)
  {
    hide IsBlank, Around, FrontBlank;
    front := [];
    BlankAround([]);
    var n := FrontBlank(s);
    if n > 0 {
      BlankAround(s[..n]);
      var more := StartBlanks(s[n..]);
      front := s[..n] + more;
      AroundConcat(s[..n], more);
      assert s == s[..n] + s[n..];
    }
  }

  lemma {:induction false} EndBlanks(s: seq<Byte>) returns (back: seq<Byte>)
    ensures s == TrimBlanksEnd(s) + back && Around(back)
  {
    hide IsBlank, Around, BackBlank;
    back := [];
    BlankAround([]);
    var n := BackBlank(s);
    if n > 0 {
      var init, last := s[..|s| - n], s[|s| - n..];
      BlankAround(last);
      var more := EndBlanks(init);
      back := more + last;
      AroundConcat(more, last);
      assert s == init + last;
    }
  }
}
