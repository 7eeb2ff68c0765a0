/** The byte strings the parser takes for text are the UTF-8 encodings of sequences of Unicode scalar values. */
module Utf8Scalars {
  import opened DirTree
  import opened Ustar

  /** Code points but for the surrogates. */
  predicate IsScalar(c: nat) {
    c < 0xD800 || 0xE000 <= c <= 0x10FFFF
  }

  /** Unicode table 3-6. */
  function Encode(c: nat): (r: seq<Byte>)
    requires IsScalar(c)
    ensures 1 <= |r| <= 4
  {
    if c < 0x80 then [c]
    else if c < 0x800 then [0xC0 + c / 64, 0x80 + c % 64]
    else if c < 0x1_0000 then [0xE0 + c / 4096, 0x80 + c / 64 % 64, 0x80 + c % 64]
    else [0xF0 + c / 262144, 0x80 + c / 4096 % 64, 0x80 + c / 64 % 64, 0x80 + c % 64]
  }

  predicate AreScalars(cs: seq<nat>) {
    forall i :: 0 <= i < |cs| ==> IsScalar(cs[i])
  }

  function EncodeAll(cs: seq<nat>): seq<Byte>
    requires AreScalars(cs)
  {
    if cs == [] then [] else Encode(cs[0]) + EncodeAll(cs[1..])
  }

  lemma ScalarIsSequence(c: nat, rest: seq<Byte>)
    requires IsScalar(c)
    ensures SequenceLength(Encode(c) + rest) == |Encode(c)|
  {
    if c >= 0x1_0000 { FourBytes(c); }
  }

  lemma FourBytes(c: nat)
    requires 0x1_0000 <= c <= 0x10FFFF
    ensures c / 262144 <= 4 && (c / 262144 == 0 ==> c / 4096 % 64 >= 0x10) && (c / 262144 == 4 ==> c / 4096 % 64 <= 0x0F)
  {
    var q := c / 4096;
    assert q / 64 == c / 262144 && 16 <= q <= 271;
  }

  /** The scalar value a well-formed sequence stands for. */
  function ScalarOf(s: seq<Byte>): nat
    requires 1 <= |s| <= 4 && SequenceLength(s) == |s|
  {
    if |s| == 1 then s[0]
    else if |s| == 2 then (s[0] as int - 0xC0) * 64 + (s[1] as int - 0x80)
    else if |s| == 3 then (s[0] as int - 0xE0) * 4096 + (s[1] as int - 0x80) * 64 + (s[2] as int - 0x80)
    else (s[0] as int - 0xF0) * 262144 + (s[1] as int - 0x80) * 4096 + (s[2] as int - 0x80) * 64 + (s[3] as int - 0x80)
  }

  lemma SequenceIsScalar(s: seq<Byte>)
    requires 1 <= |s| <= 4 && SequenceLength(s) == |s|
    ensures IsScalar(ScalarOf(s)) && Encode(ScalarOf(s)) == s
  {
    if |s| == 3 {
      Digits(s[0] - 0xE0, s[1] - 0x80, s[2] - 0x80);
    } else if |s| == 4 {
      Digits((s[0] as int - 0xF0) * 64 + (s[1] as int - 0x80), s[2] - 0x80, s[3] - 0x80);
    }
  }

  lemma Digits(a: nat, b: nat, c: nat)
    requires b < 64 && c < 64
    ensures var x := a * 4096 + b * 64 + c; x / 4096 == a && x / 64 % 64 == b && x % 64 == c && x / 262144 == a / 64
  {
    var x := a * 4096 + b * 64 + c;
    assert x / 64 == a * 64 + b;
  }

  lemma FirstSequence(s: seq<Byte>)
    requires s != [] && SequenceLength(s) > 0
    ensures var n := SequenceLength(s); n <= 4 && SequenceLength(s[..n]) == n
  {
  }

  lemma {:induction false} EncodedIsValid(cs: seq<nat>)
    requires AreScalars(cs)
    ensures ValidUtf8(EncodeAll(cs))
  {
    if cs != [] {
      var rest := EncodeAll(cs[1..]);
      ScalarIsSequence(cs[0], rest);
      assert (Encode(cs[0]) + rest)[|Encode(cs[0])|..] == rest;
      EncodedIsValid(cs[1..]);
    }
  }

  lemma {:induction false} ValidIsEncoded(s: seq<Byte>) returns (cs: seq<nat>)
    requires ValidUtf8(s)
    ensures AreScalars(cs) && EncodeAll(cs) == s
    decreases |s|
  {
    if s == [] {
      cs := [];
    } else {
      var n := SequenceLength(s);
      hide SequenceLength, Encode;
      FirstSequence(s);
      SequenceIsScalar(s[..n]);
      var more := ValidIsEncoded(s[n..]);
      cs := [ScalarOf(s[..n])] + more;
      assert cs[1..] == more;
      assert s == s[..n] + s[n..];
    }
  }

  /** What is text: exactly the encodings of scalar values, one after the other. */
  lemma ValidIff(s: seq<Byte>)
    ensures ValidUtf8(s) <==> exists cs :: AreScalars(cs) && EncodeAll(cs) == s
  {
    if ValidUtf8(s) {
      var cs := ValidIsEncoded(s);
    }
    if cs :| AreScalars(cs) && EncodeAll(cs) == s {
      EncodedIsValid(cs);
    }
  }
}
