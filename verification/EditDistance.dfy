/** The shell's "did you mean": a one-row edit distance and the choice of a suggestion. */
module EditDistance {
  import opened Wrappers

  // ---- what an edit distance is ----

  /** An edit script, growing at the right end. */
  datatype Script =
    | Done
    | Keep(before: Script, c: char)
    | Substitute(before: Script, from: char, to: char)
    | Delete(before: Script, c: char)
    | Insert(before: Script, c: char)

  function Source(s: Script): string {
    match s
    case Done => []
    case Keep(p, c) => Source(p) + [c]
    case Substitute(p, x, _) => Source(p) + [x]
    case Delete(p, c) => Source(p) + [c]
    case Insert(p, _) => Source(p)
  }

  function Target(s: Script): string {
    match s
    case Done => []
    case Keep(p, c) => Target(p) + [c]
    case Substitute(p, _, y) => Target(p) + [y]
    case Delete(p, _) => Target(p)
    case Insert(p, c) => Target(p) + [c]
  }

  function Cost(s: Script): nat {
    match s
    case Done => 0
    case Keep(p, _) => Cost(p)
    case Substitute(p, _, _) => Cost(p) + 1
    case Delete(p, _) => Cost(p) + 1
    case Insert(p, _) => Cost(p) + 1
  }

  // ---- what the code computes ----

  function Min(x: nat, y: nat): nat {
    if x < y then x else y
  }

  function Init(s: string): string
    requires s != []
  {
    s[..|s| - 1]
  }

  function Last(s: string): char
    requires s != []
  {
    s[|s| - 1]
  }

  /** The table entry for two prefixes: equal last characters take the diagonal without a minimum. */
  function Dist(a: string, b: string): nat
    decreases |a| + |b|
  {
    if a == [] then |b|
    else if b == [] then |a|
    else if Last(a) == Last(b) then Dist(Init(a), Init(b))
    else 1 + Min(Min(Dist(Init(a), Init(b)), Dist(Init(a), b)), Dist(a, Init(b)))
  }

  /** Dropping the last character of either side changes the entry by at most one. */
  lemma {:induction false} Neighbours(a: string, b: string)
    ensures a != [] ==> Dist(Init(a), b) <= Dist(a, b) + 1 && Dist(a, b) <= Dist(Init(a), b) + 1
    ensures b != [] ==> Dist(a, Init(b)) <= Dist(a, b) + 1 && Dist(a, b) <= Dist(a, Init(b)) + 1
    decreases |a| + |b|
  {
    if a != [] && b != [] {
      Neighbours(Init(a), b);
      Neighbours(a, Init(b));
    }
  }

  /** No script is cheaper than the entry. */
  lemma {:induction false} DistIsLowerBound(s: Script)
    ensures Dist(Source(s), Target(s)) <= Cost(s)
  {
    var a, b := Source(s), Target(s);
    match s
    case Done =>
    case Keep(p, c) =>
      DistIsLowerBound(p);
      assert Init(a) == Source(p) && Init(b) == Target(p);
    case Substitute(p, x, y) =>
      DistIsLowerBound(p);
      assert Init(a) == Source(p) && Init(b) == Target(p);
    case Delete(p, c) =>
      DistIsLowerBound(p);
      assert Init(a) == Source(p);
      Neighbours(a, b);
    case Insert(p, c) =>
      DistIsLowerBound(p);
      assert Init(b) == Target(p);
      Neighbours(a, b);
  }

  lemma DistCases(a: string, b: string)
    ensures a == [] ==> Dist(a, b) == |b|
    ensures b == [] ==> Dist(a, b) == |a|
    ensures a != [] && b != [] && Last(a) == Last(b) ==> Dist(a, b) == Dist(Init(a), Init(b))
    ensures a != [] && b != [] && Last(a) != Last(b) ==>
      || Dist(a, b) == 1 + Dist(Init(a), Init(b))
      || Dist(a, b) == 1 + Dist(Init(a), b)
      || Dist(a, b) == 1 + Dist(a, Init(b))
  {
  }

  /** Some script costs exactly the entry. */
  lemma {:induction false} DistIsReached(a: string, b: string) returns (s: Script)
    ensures Source(s) == a && Target(s) == b && Cost(s) == Dist(a, b)
    decreases |a| + |b|
  {
    hide Dist;
    DistCases(a, b);
    if a != [] {
      assert Init(a) + [Last(a)] == a;
      DistCases(Init(a), b);
    }
    if b != [] {
      assert Init(b) + [Last(b)] == b;
      DistCases(a, Init(b));
    }
    if a == [] && b == [] {
      s := Done;
    } else if a == [] {
      var p := DistIsReached(a, Init(b));
      s := Insert(p, Last(b));
    } else if b == [] {
      var p := DistIsReached(Init(a), b);
      s := Delete(p, Last(a));
    } else if Last(a) == Last(b) {
      var p := DistIsReached(Init(a), Init(b));
      s := Keep(p, Last(a));
    } else if Dist(a, b) == 1 + Dist(Init(a), Init(b)) {
      var p := DistIsReached(Init(a), Init(b));
      s := Substitute(p, Last(a), Last(b));
    } else if Dist(a, b) == 1 + Dist(Init(a), b) {
      var p := DistIsReached(Init(a), b);
      s := Delete(p, Last(a));
    } else {
      var p := DistIsReached(a, Init(b));
      s := Insert(p, Last(b));
    }
  }

  /** The edit distance: the least cost of any script from a to b. */
  ghost predicate IsEditDistance(a: string, b: string, d: nat) {
    && (exists s :: Source(s) == a && Target(s) == b && Cost(s) == d)
    && (forall s :: Source(s) == a && Target(s) == b ==> d <= Cost(s))
  }

  lemma DistIsEditDistance(a: string, b: string)
    ensures IsEditDistance(a, b, Dist(a, b))
  {
    var s := DistIsReached(a, b);
    forall t | Source(t) == a && Target(t) == b
      ensures Dist(a, b) <= Cost(t)
    {
      DistIsLowerBound(t);
    }
  }

  lemma DistStep(a: string, b: string, i: nat, j: nat)
    requires 0 < i <= |a| && 0 < j <= |b|
    ensures Dist(a[..i], b[..j]) ==
      if a[i - 1] == b[j - 1] then Dist(a[..i - 1], b[..j - 1])
      else 1 + Min(Min(Dist(a[..i - 1], b[..j - 1]), Dist(a[..i - 1], b[..j])), Dist(a[..i], b[..j - 1]))
  {
    assert Init(a[..i]) == a[..i - 1] && Init(b[..j]) == b[..j - 1];
  }

  /** `edit_distance`: one row, overwritten from left to right, computes the least cost of any script. */
  method EditDistanceOf(a: string, b: string) returns (d: nat)
    ensures d == Dist(a, b)
    ensures IsEditDistance(a, b, d)
  {
    hide Dist, IsEditDistance;
    var m, n := |a|, |b|;
    var row := new nat[n + 1](j => j);
    FirstRow(b);
    for i := 1 to m + 1
      invariant forall j :: 0 <= j <= n ==> row[j] == Dist(a[..i - 1], b[..j])
    {
      var prev := row[0];
      row[0] := i;
      FirstColumn(a, i, b);
      for j := 1 to n + 1
        invariant prev == Dist(a[..i - 1], b[..j - 1])
        invariant forall k :: 0 <= k < j ==> row[k] == Dist(a[..i], b[..k])
        invariant forall k :: j <= k <= n ==> row[k] == Dist(a[..i - 1], b[..k])
      {
        DistStep(a, b, i, j);
        var saved := row[j];
        row[j] := if a[i - 1] == b[j - 1] then prev else 1 + Min(Min(prev, row[j]), row[j - 1]);
        prev := saved;
      }
    }
    d := row[n];
    assert a[..m] == a && b[..n] == b;
    DistIsEditDistance(a, b);
  }

  lemma FirstRow(b: string)
    ensures forall j :: 0 <= j <= |b| ==> Dist([], b[..j]) == j
  {
  }

  lemma FirstColumn(a: string, i: nat, b: string)
    requires i <= |a|
    ensures Dist(a[..i], b[..0]) == i
  {
  }

  // ---- choosing a suggestion ----

  ghost predicate FirstWith(names: seq<string>, k: nat, good: string -> bool) {
    k < |names| && good(names[k]) && forall j :: 0 <= j < k ==> !good(names[j])
  }

  /** k is the first of the closest names. */
  ghost predicate FirstClosest(names: seq<string>, k: nat, typed: string) {
    && k < |names|
    && (forall j :: 0 <= j < |names| ==> Dist(typed, names[k]) <= Dist(typed, names[j]))
    && (forall j :: 0 <= j < k ==> Dist(typed, names[k]) < Dist(typed, names[j]))
  }

  /** The suggestion for an unknown command: the first name it is a prefix of; failing that the first of
      the closest names, but only within two edits. */
  method Suggest(typed: string, names: seq<string>) returns (r: Option<string>)
    ensures (exists i :: 0 <= i < |names| && typed <= names[i]) ==>
      r.Some? && exists k: nat :: FirstWith(names, k, n => typed <= n) && r.value == names[k]
    ensures (forall i :: 0 <= i < |names| ==> !(typed <= names[i])) ==>
      (r.Some? <==> exists i :: 0 <= i < |names| && Dist(typed, names[i]) <= 2)
    ensures (forall i :: 0 <= i < |names| ==> !(typed <= names[i])) && r.Some? ==>
      exists k: nat :: FirstClosest(names, k, typed) && r.value == names[k] && Dist(typed, names[k]) <= 2
  {
    for i := 0 to |names|
      invariant forall j :: 0 <= j < i ==> !(typed <= names[j])
    {
      if typed <= names[i] {
        assert FirstWith(names, i, n => typed <= n);
        return Some(names[i]);
      }
    }
    hide Dist;
    var best: Option<nat> := None;
    var bestName := "";
    ghost var k := 0;
    for i := 0 to |names|
      invariant best.None? <==> i == 0
      invariant k <= i
      invariant best.Some? ==> k < i && bestName == names[k] && best.value == Dist(typed, names[k])
      invariant best.Some? ==> forall j :: 0 <= j < i ==> best.value <= Dist(typed, names[j])
      invariant best.Some? ==> forall j :: 0 <= j < k ==> best.value < Dist(typed, names[j])
    {
      var d := EditDistanceOf(typed, names[i]);
      if best.None? || d < best.value {
        best := Some(d);
        bestName := names[i];
        k := i;
      }
    }
    if best.Some? && best.value <= 2 {
      assert FirstClosest(names, k, typed);
      r := Some(bestName);
    } else {
      r := None;
    }
  }
}
