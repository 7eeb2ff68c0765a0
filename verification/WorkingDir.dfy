/** Path normalization and the working directory as `cd` moves it. */
module WorkingDir {
  import opened Wrappers
  import opened Paths

  const SLASH: char := '/'

  /** Fold the components: "" and "." go, ".." takes the one before it. */
  function Fold(parts: seq<string>, stack: seq<string>): seq<string>
    decreases |parts|
  {
    if parts == [] then stack
    else if parts[0] == "" || parts[0] == "." then Fold(parts[1..], stack)
    else if parts[0] == ".." then Fold(parts[1..], if stack == [] then [] else stack[..|stack| - 1])
    else Fold(parts[1..], stack + [parts[0]])
  }

  /** "/" alone, or each component with a slash before it. */
  function Render(stack: seq<string>): string {
    if stack == [] then "/" else "/" + Join(stack, SLASH)
  }

  function Normalize(path: string): string {
    Render(Fold(Split(path, SLASH), []))
  }

  predicate IsStep(p: string) {
    IsName(p, SLASH) && p != "." && p != ".."
  }

  /** A canonical path: "/" or slash-separated names, none of them empty, "." or "..". */
  ghost predicate Canonical(path: string) {
    exists stack :: AllSteps(stack) && path == Render(stack)
  }

  predicate AllSteps(stack: seq<string>) {
    forall i :: 0 <= i < |stack| ==> IsStep(stack[i])
  }

  /** `normalize` */
  method NormalizeLoop(path: string) returns (out: string)
    ensures out == Normalize(path)
  {
    hide Split, Render;
    var pieces := Split(path, SLASH);
    var parts: seq<string> := [];
    for i := 0 to |pieces|
      invariant Fold(pieces, []) == Fold(pieces[i..], parts)
    {
      var component := pieces[i];
      assert pieces[i..][0] == component && pieces[i..][1..] == pieces[i + 1..];
      if component == "" || component == "." {
      } else if component == ".." {
        if parts != [] { parts := parts[..|parts| - 1]; }
      } else {
        parts := parts + [component];
      }
    }
    assert Fold(pieces, []) == parts;
    out := RenderLoop(parts);
  }

  method RenderLoop(parts: seq<string>) returns (out: string)
    ensures out == Render(parts)
  {
    hide Join;
    if parts == [] { return "/"; }
    out := "";
    for i := 0 to |parts|
      invariant out == if i == 0 then "" else "/" + Join(parts[..i], SLASH)
    {
      JoinSnoc(parts[..i], parts[i]);
      assert parts[..i + 1] == parts[..i] + [parts[i]];
      out := out + "/" + parts[i];
    }
    assert parts[..|parts|] == parts;
  }

  lemma {:induction false} JoinSnoc(parts: seq<string>, p: string)
    ensures Join(parts + [p], SLASH) == if parts == [] then p else Join(parts, SLASH) + "/" + p
  {
    if |parts| > 1 {
      JoinSnoc(parts[1..], p);
      assert (parts + [p])[1..] == parts[1..] + [p];
    } else if |parts| == 1 {
      assert (parts + [p])[1..] == [p];
    }
  }

  lemma {:induction false} FoldSteps(parts: seq<string>, stack: seq<string>)
    requires AllSteps(stack) && forall i :: 0 <= i < |parts| ==> SLASH !in parts[i]
    ensures AllSteps(Fold(parts, stack))
    decreases |parts|
  {
    if parts != [] {
      if parts[0] == "" || parts[0] == "." {
        FoldSteps(parts[1..], stack);
      } else if parts[0] == ".." {
        FoldSteps(parts[1..], if stack == [] then [] else stack[..|stack| - 1]);
      } else {
        FoldSteps(parts[1..], stack + [parts[0]]);
      }
    }
  }

  /** Normalizing always gives a canonical path. */
  lemma NormalizeIsCanonical(path: string)
    ensures AllSteps(Fold(Split(path, SLASH), [])) && Canonical(Normalize(path))
  {
    SplitNoSep(path, SLASH);
    FoldSteps(Split(path, SLASH), []);
  }

  lemma {:induction false} FoldConcat(a: seq<string>, b: seq<string>, stack: seq<string>)
    ensures Fold(a + b, stack) == Fold(b, Fold(a, stack))
    decreases |a|
  {
    if a == [] {
      assert a + b == b;
    } else {
      assert (a + b)[0] == a[0] && (a + b)[1..] == a[1..] + b;
      if a[0] == "" || a[0] == "." {
        FoldConcat(a[1..], b, stack);
      } else if a[0] == ".." {
        FoldConcat(a[1..], b, if stack == [] then [] else stack[..|stack| - 1]);
      } else {
        FoldConcat(a[1..], b, stack + [a[0]]);
      }
    }
  }

  lemma {:induction false} FoldOfSteps(parts: seq<string>, stack: seq<string>)
    requires AllSteps(parts)
    ensures Fold(parts, stack) == stack + parts
    decreases |parts|
  {
    if parts != [] {
      FoldOfSteps(parts[1..], stack + [parts[0]]);
    }
  }

  /** A rendered stack of names folds back to itself. */
  lemma RenderRoundTrip(stack: seq<string>)
    requires AllSteps(stack)
    ensures Fold(Split(Render(stack), SLASH), []) == stack
  {
    if stack == [] {
      SplitAcross("", SLASH, "");
      assert "" + [SLASH] + "" == "/";
      assert Split("/", SLASH) == ["", ""];
      assert ["", ""][1..] == [""] && [""][1..] == [];
    } else {
      var j := Join(stack, SLASH);
      SplitPeel("", SLASH, j);
      assert "" + [SLASH] + j == Render(stack);
      SplitJoin(stack, SLASH);
      assert Split(Render(stack), SLASH) == [""] + stack;
      assert ([""] + stack)[1..] == stack;
      FoldOfSteps(stack, []);
    }
  }

  /** Canonical paths are exactly those normalizing leaves alone; so normalizing twice is normalizing once. */
  lemma CanonicalIff(path: string)
    ensures Canonical(path) <==> Normalize(path) == path
    ensures Normalize(Normalize(path)) == Normalize(path)
  {
    NormalizeIsCanonical(path);
    RenderRoundTrip(Fold(Split(path, SLASH), []));
    if Canonical(path) {
      var stack :| AllSteps(stack) && path == Render(stack);
      RenderRoundTrip(stack);
    }
  }

  /** Normalizing a base before going on from it makes no difference. */
  lemma NormalizeBase(a: string, b: string)
    ensures Normalize(Normalize(a) + "/" + b) == Normalize(a + "/" + b)
  {
    var base := Fold(Split(a, SLASH), []);
    NormalizeIsCanonical(a);
    RenderRoundTrip(base);
    SplitAcross(a, SLASH, b);
    SplitAcross(Normalize(a), SLASH, b);
    assert a + [SLASH] + b == a + "/" + b && Normalize(a) + [SLASH] + b == Normalize(a) + "/" + b;
    FoldConcat(Split(a, SLASH), Split(b, SLASH), []);
    FoldConcat(Split(Normalize(a), SLASH), Split(b, SLASH), []);
  }

  // ---- cd ----

  datatype Kind = IsFile | IsDir

  /** The mounted tree, as far as `cd` asks: what is at a path, if anything. */
  type Tree = string -> Option<Kind>

  /** The two statics, either of which may still be unset (""), and the PWD variable. */
  datatype Dirs = Dirs(cwd: string, prev: string, pwd: string)

  const START := Dirs("", "", "/")

  function OrRoot(s: string): string {
    if s == "" then "/" else s
  }

  function Set(d: Dirs, dir: string): Dirs {
    Dirs(dir, d.cwd, dir)
  }

  function Resolve(d: Dirs, path: string): string {
    if path != "" && path[0] == SLASH then path
    else
      var base := OrRoot(d.cwd);
      if base[|base| - 1] == SLASH then base + path else base + "/" + path
  }

  /** `cd`: no argument, "-", or a path that must be the root or a directory. */
  function Cd(t: Tree, d: Dirs, arg: Option<string>): Dirs {
    if arg.None? then Set(d, "/")
    else if arg.value == "-" then Set(d, OrRoot(d.prev))
    else
      var resolved := Normalize(Resolve(d, arg.value));
      if resolved == "/" then Set(d, "/")
      else if t(resolved) == Some(IsDir) then Set(d, resolved)
      else d
  }

  class Session {
    var cwd: string
    var prevCwd: string
    var pwd: string

    function State(): Dirs
      reads this
    {
      Dirs(cwd, prevCwd, pwd)
    }

    constructor ()
      ensures State() == START && cwd == "" && prevCwd == "" && pwd == "/"
    {
      cwd, prevCwd, pwd := "", "", "/";
    }

    /** `cwd_set` */
    method CwdSet(dir: string)
      modifies this`cwd, this`prevCwd
      ensures cwd == dir && prevCwd == old(cwd)
    {
      prevCwd := cwd;
      cwd := dir;
    }

    /** `cmd_cd` */
    method CmdCd(t: Tree, arg: Option<string>)
      modifies this
      ensures State() == Cd(t, old(State()), arg)
    {
      if arg.None? {
        CwdSet("/");
        pwd := "/";
        return;
      }
      if arg.value == "-" {
        var prev := OrRoot(prevCwd);
        pwd := prev;
        CwdSet(prev);
        return;
      }
      var resolved := NormalizeLoop(Resolve(State(), arg.value));
      if resolved == "/" {
        CwdSet("/");
        pwd := "/";
        return;
      }
      if t(resolved) == Some(IsDir) {
        pwd := resolved;
        CwdSet(resolved);
      }
    }
  }

  // ---- runs of cd ----

  ghost predicate Place(t: Tree, path: string) {
    path == "/" || (Normalize(path) == path && t(path) == Some(IsDir))
  }

  ghost predicate Inv(t: Tree, d: Dirs) {
    Place(t, OrRoot(d.cwd)) && Place(t, OrRoot(d.prev)) && d.pwd == OrRoot(d.cwd)
  }

  function Run(t: Tree, d: Dirs, args: seq<Option<string>>): Dirs
    decreases |args|
  {
    if args == [] then d else Run(t, Cd(t, d, args[0]), args[1..])
  }

  lemma CdKeeps(t: Tree, d: Dirs, arg: Option<string>)
    requires Inv(t, d)
    ensures Inv(t, Cd(t, d, arg))
  {
    if arg.Some? && arg.value != "-" {
      CanonicalIff(Resolve(d, arg.value));
    }
  }

  lemma {:induction false} RunKeeps(t: Tree, d: Dirs, args: seq<Option<string>>)
    requires Inv(t, d)
    ensures Inv(t, Run(t, d, args))
    decreases |args|
  {
    if args != [] {
      CdKeeps(t, d, args[0]);
      RunKeeps(t, Cd(t, d, args[0]), args[1..]);
    }
  }

  /** After any run of `cd`s in a fixed tree the working directory is the root or the normalized path of a
      directory that is there, and PWD says the same. */
  lemma CwdIsAPlace(t: Tree, args: seq<Option<string>>)
    ensures var d := Run(t, START, args);
      Place(t, OrRoot(d.cwd)) && Place(t, OrRoot(d.prev)) && d.pwd == OrRoot(d.cwd)
  {
    RunKeeps(t, START, args);
  }

  /** `cd -` goes back, and going back twice changes nothing that can be asked for. */
  lemma CdDashTwice(t: Tree, d: Dirs)
    ensures var once := Cd(t, d, Some("-"));
      && OrRoot(once.cwd) == OrRoot(d.prev) && OrRoot(once.prev) == OrRoot(d.cwd)
      && OrRoot(Cd(t, once, Some("-")).cwd) == OrRoot(d.cwd)
      && OrRoot(Cd(t, once, Some("-")).prev) == OrRoot(d.prev)
  {
  }

  /** Where a relative path leads depends only on the names in the working directory and in the path. */
  lemma RelativeCd(d: Dirs, path: string)
    requires path == "" || path[0] != SLASH
    ensures Normalize(Resolve(d, path)) == Render(Fold(Split(path, SLASH), Fold(Split(OrRoot(d.cwd), SLASH), [])))
  {
    var base := OrRoot(d.cwd);
    if base[|base| - 1] == SLASH {
      var stem := base[..|base| - 1];
      assert base == stem + [SLASH] + "" && base + path == stem + [SLASH] + path;
      SplitAcross(stem, SLASH, path);
      SplitAcross(stem, SLASH, "");
      FoldConcat(Split(stem, SLASH), Split(path, SLASH), []);
      FoldConcat(Split(stem, SLASH), Split("", SLASH), []);
      var s := Fold(Split(stem, SLASH), []);
      assert Split("", SLASH) == [""];
      assert Fold([""], s) == Fold([""][1..], s) == s;
    } else {
      assert base + "/" + path == base + [SLASH] + path;
      SplitAcross(base, SLASH, path);
      FoldConcat(Split(base, SLASH), Split(path, SLASH), []);
    }
  }

  // ---- one step at a time ----

  /** Writing a path one name longer. */
  lemma RenderSnoc(stack: seq<string>, n: string)
    ensures Render([]) == "/" && Render(stack + [n]) == (if stack == [] then "" else Render(stack)) + "/" + n
  {
    JoinSnoc(stack, n);
  }

  lemma OneMore(stack: seq<string>, c: string)
    requires AllSteps(stack) && SLASH !in c
    ensures Normalize(Render(stack) + "/" + c) == Render(Fold([c], stack))
  {
    var base := Render(stack);
    assert base + "/" + c == base + [SLASH] + c;
    SplitAcross(base, SLASH, c);
    SplitWhole(c, SLASH);
    FoldConcat(Split(base, SLASH), [c], []);
    RenderRoundTrip(stack);
  }

  /** What one more component does to a path of names: a name goes down, ".." up, at the root nowhere, and "."
      or nothing stays. With `NormalizeBase` this decides every path, component by component. */
  lemma StepLaws(stack: seq<string>, n: string)
    requires AllSteps(stack) && IsStep(n)
    ensures Normalize(Render(stack) + "/" + n) == Render(stack + [n])
    ensures Normalize(Render(stack + [n]) + "/" + "..") == Render(stack)
    ensures Normalize("/" + "/" + "..") == "/"
    ensures Normalize(Render(stack) + "/" + ".") == Normalize(Render(stack) + "/" + "") == Render(stack)
  {
    assert AllSteps(stack + [n]);
    OneMore(stack, n);
    OneMore(stack + [n], "..");
    OneMore([], "..");
    OneMore(stack, ".");
    OneMore(stack, "");
    assert [n][1..] == [] && [".."][1..] == [] && ["."][1..] == [] && [""][1..] == [];
    assert (stack + [n])[..|stack|] == stack;
  }

  /** Where `cd` with a path leads: to the path itself if it starts with a slash, else to it from the working
      directory. If that is the root or a directory it becomes the working directory and PWD, and the old one
      is remembered; if not, nothing changes. */
  lemma CdLaw(t: Tree, d: Dirs, path: string)
    requires path != "-"
    ensures var from := if d.cwd == "" then "/" else d.cwd;
      var target := Normalize(if path != "" && path[0] == '/' then path else from + "/" + path);
      Cd(t, d, Some(path)) == if target == "/" || t(target) == Some(IsDir) then Dirs(target, d.cwd, target) else d
    ensures Cd(t, d, None) == Dirs("/", d.cwd, "/")
    ensures Cd(t, d, Some("-")) == (var to := if d.prev == "" then "/" else d.prev; Dirs(to, d.cwd, to))
  {
    if path == "" || path[0] != SLASH {
      var base := OrRoot(d.cwd);
      RelativeCd(d, path);
      assert base + "/" + path == base + [SLASH] + path;
      SplitAcross(base, SLASH, path);
      FoldConcat(Split(base, SLASH), Split(path, SLASH), []);
    }
  }

  /** In a directory, `cd` to a name goes down if that is a directory and else stays; `cd ..` goes up. */
  lemma CdSteps(t: Tree, d: Dirs, stack: seq<string>, n: string)
    requires AllSteps(stack) && IsStep(n) && n != "-"
    ensures var here, there := Render(stack), Render(stack + [n]);
      && (OrRoot(d.cwd) == here ==> Cd(t, d, Some(n)) == if t(there) == Some(IsDir) then Dirs(there, d.cwd, there) else d)
      && (OrRoot(d.cwd) == there ==>
            Cd(t, d, Some("..")) == if here == "/" || t(here) == Some(IsDir) then Dirs(here, d.cwd, here) else d)
  {
    hide Normalize, Cd, Fold;
    CdLaw(t, d, n);
    CdLaw(t, d, "..");
    StepLaws(stack, n);
    RenderSnoc(stack, n);
  }
}
