/** Splitting on a separator and joining back, shared by the file system and the shell. */
module Paths {

  /** Rust's `split`: always at least one piece, and pieces may be empty. */
  function Split<T(==)>(s: seq<T>, sep: T): (r: seq<seq<T>>)
    ensures |r| >= 1
  {
    if s == [] then [[]]
    else
      var rest := Split(s[1..], sep);
      if s[0] == sep then [[]] + rest else [[s[0]] + rest[0]] + rest[1..]
  }

  function Join<T>(parts: seq<seq<T>>, sep: T): seq<T> {
    if parts == [] then []
    else if |parts| == 1 then parts[0]
    else parts[0] + [sep] + Join(parts[1..], sep)
  }

  function NonEmpty<T>(parts: seq<seq<T>>): (r: seq<seq<T>>)
    ensures forall p :: p in r ==> p != []
  {
    if parts == [] then [] else (if parts[0] == [] then [] else [parts[0]]) + NonEmpty(parts[1..])
  }

  /** The non-empty pieces of a path. */
  function Components<T(==)>(s: seq<T>, sep: T): seq<seq<T>> {
    NonEmpty(Split(s, sep))
  }

  /** A component: not empty and free of the separator. */
  predicate IsName<T(==)>(p: seq<T>, sep: T) {
    p != [] && sep !in p
  }

  predicate AreNames<T(==)>(parts: seq<seq<T>>, sep: T) {
    forall i :: 0 <= i < |parts| ==> IsName(parts[i], sep)
  }

  /** Splitting a piece without the separator, followed by the separator and more, peels it off. */
  lemma {:induction false} SplitPeel<T>(p: seq<T>, sep: T, rest: seq<T>)
    requires sep !in p
    ensures Split(p + [sep] + rest, sep) == [p] + Split(rest, sep)
  {
    var s := p + [sep] + rest;
    if p == [] {
      assert s[0] == sep && s[1..] == rest;
    } else {
      assert s[0] == p[0] && s[1..] == p[1..] + [sep] + rest;
      assert p[0] != sep && [p[0]] + p[1..] == p;
      SplitPeel(p[1..], sep, rest);
    }
  }

  lemma {:induction false} SplitWhole<T>(p: seq<T>, sep: T)
    requires sep !in p
    ensures Split(p, sep) == [p]
  {
    if p != [] {
      assert p[0] != sep && [p[0]] + p[1..] == p;
      SplitWhole(p[1..], sep);
    }
  }

  /** Splitting undoes joining. */
  lemma {:induction false} SplitJoin<T>(parts: seq<seq<T>>, sep: T)
    requires parts != [] && forall i :: 0 <= i < |parts| ==> sep !in parts[i]
    ensures Split(Join(parts, sep), sep) == parts
  {
    if |parts| == 1 {
      SplitWhole(parts[0], sep);
    } else {
      SplitPeel(parts[0], sep, Join(parts[1..], sep));
      SplitJoin(parts[1..], sep);
    }
  }

  lemma {:induction false} NonEmptySame<T>(parts: seq<seq<T>>)
    requires forall i :: 0 <= i < |parts| ==> parts[i] != []
    ensures NonEmpty(parts) == parts
  {
    if parts != [] {
      NonEmptySame(parts[1..]);
    }
  }

  /** The components of joined names are the names. */
  lemma ComponentsJoin<T>(parts: seq<seq<T>>, sep: T)
    requires parts != [] && AreNames(parts, sep)
    ensures Components(Join(parts, sep), sep) == parts
  {
    SplitJoin(parts, sep);
    NonEmptySame(parts);
  }

  /** What the components of any path are: separators count for nothing in front of it, and a name in front of
      one is its first component. */
  lemma ComponentsAre<T>(name: seq<T>, sep: T, rest: seq<T>)
    requires IsName(name, sep)
    ensures Components([], sep) == []
    ensures Components([sep] + rest, sep) == Components(rest, sep)
    ensures Components(name, sep) == [name]
    ensures Components(name + [sep] + rest, sep) == [name] + Components(rest, sep)
  {
    SplitWhole<T>([], sep);
    SplitPeel([], sep, rest);
    SplitWhole(name, sep);
    SplitPeel(name, sep, rest);
    var pieces := Split(rest, sep);
    assert [] + [sep] + rest == [sep] + rest;
    assert ([[]] + pieces)[1..] == pieces && ([name] + pieces)[1..] == pieces && [name][1..] == [];
    var nothing: seq<seq<T>> := [[]];
    assert nothing[1..] == [];
  }

  lemma {:induction false} SplitNoSep<T>(s: seq<T>, sep: T)
    ensures forall i :: 0 <= i < |Split(s, sep)| ==> sep !in Split(s, sep)[i]
  {
    if s != [] {
      SplitNoSep(s[1..], sep);
    }
  }

  /** Splitting across a separator splits both sides. */
  lemma {:induction false} SplitAcross<T>(a: seq<T>, sep: T, b: seq<T>)
    ensures Split(a + [sep] + b, sep) == Split(a, sep) + Split(b, sep)
  {
    var s := a + [sep] + b;
    if a == [] {
      assert s[0] == sep && s[1..] == b;
    } else {
      assert s[0] == a[0] && s[1..] == a[1..] + [sep] + b;
      SplitAcross(a[1..], sep, b);
    }
  }

  /** Text that ends in something other than the separator has a component. */
  lemma {:induction false} HasComponent<T>(s: seq<T>, sep: T)
    requires s != [] && s[|s| - 1] != sep
    ensures Components(s, sep) != []
  {
    var rest := Split(s[1..], sep);
    if s[0] == sep {
      HasComponent(s[1..], sep);
      assert ([[]] + rest)[1..] == rest;
    } else {
      assert Split(s, sep)[0] == [s[0]] + rest[0];
    }
  }
}
