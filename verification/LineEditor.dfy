/** The shell's line editor and history as values: the line is a zipper around the cursor, and the
    history is the log of every line recorded. */
module LineEditor {

  const BUF_CAP: nat := 256
  const HIST_CAP: nat := 16

  /** The text before and after the cursor. */
  datatype Line = Line(left: string, right: string)

  function Text(l: Line): string {
    l.left + l.right
  }

  /** `log` is every line ever recorded, oldest first; `live` the unsent line kept while browsing. */
  datatype Editor = Editor(line: Line, log: seq<string>, histCursor: nat, live: string)

  const START := Editor(Line("", ""), [], 0, "")

  // ---- editing ----

  function Insert(l: Line, ch: char): Line {
    if |Text(l)| < BUF_CAP then Line(l.left + [ch], l.right) else l
  }

  function Backspace(l: Line): Line {
    if l.left == [] then l else Line(l.left[..|l.left| - 1], l.right)
  }

  function GoLeft(l: Line): Line {
    if l.left == [] then l else Line(l.left[..|l.left| - 1], [l.left[|l.left| - 1]] + l.right)
  }

  function GoRight(l: Line): Line {
    if l.right == [] then l else Line(l.left + [l.right[0]], l.right[1..])
  }

  function ToStart(l: Line): Line {
    Line("", Text(l))
  }

  function ToEnd(l: Line): Line {
    Line(Text(l), "")
  }

  function DropSpaces(t: string): string {
    if t != [] && t[|t| - 1] == ' ' then DropSpaces(t[..|t| - 1]) else t
  }

  function DropWord(t: string): string {
    if t != [] && t[|t| - 1] != ' ' then DropWord(t[..|t| - 1]) else t
  }

  /** Ctrl-W takes trailing spaces and the word before them off the end of the line, wherever the cursor is. */
  function CutWord(l: Line): Line {
    if Text(l) == [] then l else Line(DropWord(DropSpaces(Text(l))), "")
  }

  /** What Tab does to the line: nothing, append as much as fits, or list candidates and redraw. */
  datatype Completion = NoChange | Append(tail: string) | ListCandidates

  function Complete(l: Line, c: Completion): Line {
    match c
    case NoChange => l
    case Append(tail) => Line(Text(l) + tail[..Room(l, tail)], "")
    case ListCandidates => ToEnd(l)
  }

  function Room(l: Line, tail: string): (n: nat)
    ensures n <= |tail|
  {
    if |Text(l)| >= BUF_CAP then 0
    else if |Text(l)| + |tail| <= BUF_CAP then |tail| else BUF_CAP - |Text(l)|
  }

  /** Moving never changes the text. */
  lemma MovesKeepText(l: Line)
    ensures Text(GoLeft(l)) == Text(GoRight(l)) == Text(ToStart(l)) == Text(ToEnd(l)) == Text(l)
  {
    if l.left != [] { Peel(l.left, l.right); }
    if l.right != [] { PeelFront(l.left, l.right); }
  }

  /** Each move undoes the other. */
  lemma MovesAreInverse(l: Line)
    ensures l.left != [] ==> GoRight(GoLeft(l)) == l
    ensures l.right != [] ==> GoLeft(GoRight(l)) == l
  {
    if l.left != [] {
      Peel(l.left, l.right);
      assert ([l.left[|l.left| - 1]] + l.right)[1..] == l.right;
    }
    if l.right != [] {
      assert (l.left + [l.right[0]])[..|l.left|] == l.left;
      assert [l.right[0]] + l.right[1..] == l.right;
    }
  }

  /** Erasing undoes typing, and a full line takes no more. */
  lemma EraseUndoesTyping(l: Line, ch: char)
    ensures |Text(l)| < BUF_CAP ==> Backspace(Insert(l, ch)) == l
    ensures |Text(l)| >= BUF_CAP ==> Insert(l, ch) == l
  {
    assert (l.left + [ch])[..|l.left|] == l.left;
  }

  lemma PeelFront(left: string, right: string)
    requires right != []
    ensures (left + [right[0]]) + right[1..] == left + right
  {
  }

  lemma Peel(left: string, right: string)
    requires left != []
    ensures var init, last := left[..|left| - 1], left[|left| - 1];
      init + [last] == left && init + ([last] + right) == left + right
  {
    var init, last := left[..|left| - 1], left[|left| - 1];
    assert init + ([last] + right) == (init + [last]) + right;
  }

  // ---- history ----

  function Available(log: seq<string>): nat {
    if |log| < HIST_CAP then |log| else HIST_CAP
  }

  /** A line is recorded unless it is empty or repeats the one recorded last. */
  function Record(log: seq<string>, text: string): seq<string> {
    if text == "" || (log != [] && log[|log| - 1] == text) then log else log + [text]
  }

  function Submit(e: Editor): Editor {
    Editor(Line("", ""), Record(e.log, Text(e.line)), 0, e.live)
  }

  function HistoryUp(e: Editor): Editor {
    if e.histCursor >= Available(e.log) then e
    else Editor(Line(e.log[|e.log| - e.histCursor - 1], ""), e.log, e.histCursor + 1,
                if e.histCursor == 0 then Text(e.line) else e.live)
  }

  /** The history cursor is never past the log, see `Sound`. */
  function HistoryDown(e: Editor): Editor {
    if e.histCursor == 0 || e.histCursor > |e.log| then e
    else e.(histCursor := e.histCursor - 1,
            line := Line(if e.histCursor == 1 then e.live else e.log[|e.log| - e.histCursor + 1], ""))
  }

  // ---- keys ----

  datatype Key =
    | Printable(ch: char) | Erase | Enter | Tab(completion: Completion) | CtrlA | CtrlB | CtrlC | CtrlE | CtrlF
    | CtrlL | CtrlN | CtrlP | CtrlU | CtrlW

  predicate Sound(e: Editor) {
    && |Text(e.line)| <= BUF_CAP && |e.live| <= BUF_CAP
    && e.histCursor <= Available(e.log)
    && (forall i :: 0 <= i < |e.log| ==> 0 < |e.log[i]| <= BUF_CAP)
    && (forall i :: 0 < i < |e.log| ==> e.log[i] != e.log[i - 1])
  }

  function Press(e: Editor, k: Key): Editor
    requires Sound(e)
  {
    match k
    case Printable(ch) => e.(line := Insert(e.line, ch))
    case Erase => e.(line := Backspace(e.line))
    case Enter => Submit(e)
    case Tab(c) => e.(line := Complete(e.line, c))
    case CtrlA => e.(line := ToStart(e.line))
    case CtrlB => e.(line := GoLeft(e.line))
    case CtrlC => e.(line := Line("", ""), histCursor := 0)
    case CtrlE => e.(line := ToEnd(e.line))
    case CtrlF => e.(line := GoRight(e.line))
    case CtrlL => e.(line := ToEnd(e.line))
    case CtrlN => HistoryDown(e)
    case CtrlP => HistoryUp(e)
    case CtrlU => e.(line := Line("", ""))
    case CtrlW => e.(line := CutWord(e.line))
  }

  /** The line never outgrows its buffer, the history cursor never leaves what the ring still holds,
      and recorded lines are non-empty with no line repeated at once. */
  lemma PressKeepsSound(e: Editor, k: Key)
    requires Sound(e)
    ensures Sound(Press(e, k))
  {
    match k
    case CtrlW =>
      hide DropWord, DropSpaces;
      var word, spaces := CutWordParts(e.line);
    case CtrlB => MovesKeepText(e.line);
    case CtrlF => MovesKeepText(e.line);
    case _ =>
  }

  /** What Ctrl-W removes: the line is what it leaves, then one word, then spaces; it leaves nothing or
      something that ends in a space; and if anything but spaces was there, the word is not empty. */
  lemma CutWordParts(l: Line) returns (word: string, spaces: string)
    ensures Text(l) == Text(CutWord(l)) + word + spaces
    ensures CutWord(l).right == ""  || Text(l) == ""
    ensures (forall i :: 0 <= i < |spaces| ==> spaces[i] == ' ') && (forall i :: 0 <= i < |word| ==> word[i] != ' ')
    ensures Text(CutWord(l)) != "" ==> Text(CutWord(l))[|Text(CutWord(l))| - 1] == ' '
    ensures (exists i :: 0 <= i < |Text(l)| && Text(l)[i] != ' ') ==> word != ""
    ensures word == "" ==> Text(CutWord(l)) == ""
  {
    var t := Text(l);
    spaces := SpacesDropped(t);
    word := WordDropped(DropSpaces(t));
    if word == "" && DropSpaces(t) == "" {
      assert t == spaces;
    }
  }

  lemma {:induction false} SpacesDropped(t: string) returns (spaces: string)
    ensures t == DropSpaces(t) + spaces && forall i :: 0 <= i < |spaces| ==> spaces[i] == ' '
    ensures DropSpaces(t) != "" ==> DropSpaces(t)[|DropSpaces(t)| - 1] != ' '
  {
    if t != [] && t[|t| - 1] == ' ' {
      var rest := SpacesDropped(t[..|t| - 1]);
      spaces := rest + [' '];
    } else {
      spaces := "";
    }
  }

  lemma {:induction false} WordDropped(t: string) returns (word: string)
    ensures t == DropWord(t) + word && forall i :: 0 <= i < |word| ==> word[i] != ' '
    ensures DropWord(t) != "" ==> DropWord(t)[|DropWord(t)| - 1] == ' '
    ensures t != "" && t[|t| - 1] != ' ' ==> word != ""
  {
    if t != [] && t[|t| - 1] != ' ' {
      var init := t[..|t| - 1];
      var rest := WordDropped(init);
      hide DropWord;
      assert t == init + [t[|t| - 1]];
      word := rest + [t[|t| - 1]];
    } else {
      word := "";
    }
  }

  // ---- what each key does to the text and the cursor ----

  /** The line is the text t with the cursor after its first p characters. */
  predicate LineIs(l: Line, t: string, p: nat) {
    Text(l) == t && |l.left| == p
  }

  lemma PrintableDoes(e: Editor, ch: char)
    requires Sound(e)
    ensures var t, p, f := Text(e.line), |e.line.left|, Press(e, Printable(ch));
      && (|t| < 256 ==> LineIs(f.line, t[..p] + [ch] + t[p..], p + 1))
      && (|t| == 256 ==> LineIs(f.line, t, p))
      && f == e.(line := f.line)
  {
    assert e.line.left + [ch] + e.line.right == (e.line.left + [ch]) + e.line.right;
  }

  lemma EraseDoes(e: Editor)
    requires Sound(e)
    ensures var t, p, f := Text(e.line), |e.line.left|, Press(e, Erase);
      && (p == 0 ==> LineIs(f.line, t, 0))
      && (p > 0 ==> LineIs(f.line, t[..p - 1] + t[p..], p - 1))
      && f == e.(line := f.line)
  {
  }

  lemma MovesDo(e: Editor)
    requires Sound(e)
    ensures var t, p := Text(e.line), |e.line.left|;
      && (var f := Press(e, CtrlA); LineIs(f.line, t, 0) && f == e.(line := f.line))
      && (var f := Press(e, CtrlB); LineIs(f.line, t, if p == 0 then 0 else p - 1) && f == e.(line := f.line))
      && (var f := Press(e, CtrlE); LineIs(f.line, t, |t|) && f == e.(line := f.line))
      && (var f := Press(e, CtrlF); LineIs(f.line, t, if p == |t| then p else p + 1) && f == e.(line := f.line))
      && (var f := Press(e, CtrlL); LineIs(f.line, t, |t|) && f == e.(line := f.line))
  {
    MovesKeepText(e.line);
  }

  /** Ctrl-C and Ctrl-U empty the line, and only Ctrl-C leaves history; Enter also records a line that is not
      empty and not the one recorded last. */
  lemma ClearingDoes(e: Editor)
    requires Sound(e)
    ensures Press(e, CtrlC) == Editor(Line("", ""), e.log, 0, e.live)
    ensures Press(e, CtrlU) == Editor(Line("", ""), e.log, e.histCursor, e.live)
    ensures var t := Text(e.line);
      var log := if t == "" || (e.log != [] && e.log[|e.log| - 1] == t) then e.log else e.log + [t];
      Press(e, Enter) == Editor(Line("", ""), log, 0, e.live)
  {
  }

  /** Tab: a completion is appended as far as the line has room; with candidates to list the cursor goes to
      the end. */
  lemma TabDoes(e: Editor, tail: string)
    requires Sound(e)
    ensures Press(e, Tab(NoChange)) == e
    ensures var t, f := Text(e.line), Press(e, Tab(Append(tail)));
      var t' := if |t| + |tail| <= 256 then t + tail else t + tail[..256 - |t|];
      LineIs(f.line, t', |t'|) && f == e.(line := f.line)
    ensures var t, f := Text(e.line), Press(e, Tab(ListCandidates)); LineIs(f.line, t, |t|) && f == e.(line := f.line)
  {
    assert tail[..|tail|] == tail;
  }

  /** Ctrl-P and Ctrl-N: one line further back, or forward, in the last sixteen recorded, the unsent line
      being before them all. */
  lemma HistoryDoes(e: Editor)
    requires Sound(e)
    ensures var h, n, f := e.histCursor, |e.log|, Press(e, CtrlP);
      var t := if h < n && h < 16 then e.log[n - 1 - h] else Text(e.line);
      && (h < n && h < 16 ==> LineIs(f.line, t, |t|) && f.histCursor == h + 1)
      && (h == n || h == 16 ==> f == e)
      && f.log == e.log && f.live == (if h == 0 && n > 0 then Text(e.line) else e.live)
    ensures var h, n, f := e.histCursor, |e.log|, Press(e, CtrlN);
      var t := if 2 <= h <= n then e.log[n + 1 - h] else e.live;
      && (h > 0 ==> LineIs(f.line, t, |t|) && f.histCursor == h - 1)
      && (h == 0 ==> f == e)
      && f.log == e.log && f.live == e.live
  {
  }

  // ---- runs ----

  function Run(e: Editor, keys: seq<Key>): Editor
    requires Sound(e)
    decreases |keys|
  {
    if keys == [] then e else PressKeepsSound(e, keys[0]); Run(Press(e, keys[0]), keys[1..])
  }

  /** The lines a run sends, in order. */
  function Sent(e: Editor, keys: seq<Key>): seq<string>
    requires Sound(e)
    decreases |keys|
  {
    if keys == [] then []
    else
      PressKeepsSound(e, keys[0]);
      (if keys[0].Enter? then [Text(e.line)] else []) + Sent(Press(e, keys[0]), keys[1..])
  }

  function RecordAll(log: seq<string>, lines: seq<string>): seq<string>
    decreases |lines|
  {
    if lines == [] then log else RecordAll(Record(log, lines[0]), lines[1..])
  }

  function WithoutEmpty(lines: seq<string>): seq<string> {
    if lines == [] then [] else (if lines[0] == "" then [] else [lines[0]]) + WithoutEmpty(lines[1..])
  }

  /** Keep a line unless it equals the one just before it. */
  function WithoutRepeats(lines: seq<string>): seq<string> {
    if |lines| <= 1 then lines
    else
      var n := |lines| - 1;
      WithoutRepeats(lines[..n]) + if lines[n] == lines[n - 1] then [] else [lines[n]]
  }

  lemma {:induction false} RepeatsLast(lines: seq<string>)
    requires lines != []
    ensures WithoutRepeats(lines) != []
    ensures WithoutRepeats(lines)[|WithoutRepeats(lines)| - 1] == lines[|lines| - 1]
  {
    if |lines| > 1 {
      RepeatsLast(lines[..|lines| - 1]);
    }
  }

  lemma {:induction false} RecordAllIs(before: seq<string>, lines: seq<string>)
    ensures RecordAll(WithoutRepeats(before), lines) == WithoutRepeats(before + WithoutEmpty(lines))
    decreases |lines|
  {
    if lines == [] {
      assert before + [] == before;
    } else {
      hide WithoutRepeats, Record, RecordAll, WithoutEmpty;
      var x, rest := lines[0], lines[1..];
      RecordFirst(WithoutRepeats(before), lines);
      if x == "" {
        EmptyNotRecorded(WithoutRepeats(before));
        RecordAllIs(before, rest);
      } else {
        RecordStep(before, x);
        RecordAllIs(before + [x], rest);
        Regroup(before, x, WithoutEmpty(rest));
      }
    }
  }

  lemma RecordFirst(log: seq<string>, lines: seq<string>)
    requires lines != []
    ensures RecordAll(log, lines) == RecordAll(Record(log, lines[0]), lines[1..])
    ensures lines[0] == "" ==> WithoutEmpty(lines) == WithoutEmpty(lines[1..])
    ensures lines[0] != "" ==> WithoutEmpty(lines) == [lines[0]] + WithoutEmpty(lines[1..])
  {
  }

  lemma Regroup(a: seq<string>, x: string, b: seq<string>)
    ensures a + ([x] + b) == (a + [x]) + b
  {
  }

  lemma EmptyNotRecorded(log: seq<string>)
    ensures Record(log, "") == log
  {
  }

  lemma RecordStep(before: seq<string>, x: string)
    requires x != ""
    ensures Record(WithoutRepeats(before), x) == WithoutRepeats(before + [x])
  {
    var more := before + [x];
    assert more[..|more| - 1] == before;
    if before != [] { RepeatsLast(before); }
  }

  lemma {:induction false} RunRecords(e: Editor, keys: seq<Key>)
    requires Sound(e)
    ensures Sound(Run(e, keys)) && Run(e, keys).log == RecordAll(e.log, Sent(e, keys))
    decreases |keys|
  {
    hide Sound;
    if keys != [] {
      PressKeepsSound(e, keys[0]);
      var next := Press(e, keys[0]);
      RunRecords(next, keys[1..]);
      var later := Sent(next, keys[1..]);
      if keys[0].Enter? {
        assert Sent(e, keys) == [Text(e.line)] + later;
        assert Sent(e, keys)[1..] == later;
      } else {
        LogUntouched(e, keys[0]);
        assert Sent(e, keys) == later;
      }
    }
  }

  lemma LogUntouched(e: Editor, k: Key)
    requires Sound(e) && !k.Enter?
    ensures Press(e, k).log == e.log
  {
  }

  /** History, for every run of keys: the log is the lines sent, without empty ones and without immediate
      repeats, and the line buffer and the history cursor stay within bounds. */
  lemma LogIsWhatWasSent(keys: seq<Key>)
    ensures Sound(START)
    ensures var e := Run(START, keys);
      && e.log == WithoutRepeats(WithoutEmpty(Sent(START, keys)))
      && |e.line.left| <= |Text(e.line)| <= BUF_CAP && e.histCursor <= Available(e.log)
  {
    RunRecords(START, keys);
    RecordAllIs([], Sent(START, keys));
    assert [] + WithoutEmpty(Sent(START, keys)) == WithoutEmpty(Sent(START, keys));
  }

  // ---- a typed line ----

  function Typing(t: string): (keys: seq<Key>)
    ensures |keys| == |t| && forall i :: 0 <= i < |t| ==> keys[i] == Printable(t[i])
  {
    seq(|t|, i requires 0 <= i < |t| => Printable(t[i]))
  }

  lemma {:induction false} TypedSoFar(e: Editor, t: string)
    requires Sound(e) && e.line.right == "" && |e.line.left| + |t| <= 256
    ensures Run(e, Typing(t) + [Enter]) == Press(e.(line := Line(e.line.left + t, "")), Enter)
    ensures Sent(e, Typing(t) + [Enter]) == [e.line.left + t]
    decreases |t|
  {
    var keys := Typing(t) + [Enter];
    if t == "" {
      assert e.line.left + t == e.line.left && keys == [Enter] && keys[1..] == [];
      assert e.(line := Line(e.line.left, "")) == e;
    } else {
      assert keys[0] == Printable(t[0]) && keys[1..] == Typing(t[1..]) + [Enter];
      PressKeepsSound(e, keys[0]);
      TypedSoFar(Press(e, keys[0]), t[1..]);
      assert e.line.left + t == (e.line.left + [t[0]]) + t[1..];
    }
  }

  /** Typing any line that fits at an empty prompt, and Enter: exactly that line is sent, it is recorded unless
      it is the one recorded last, and the prompt is empty again. */
  lemma TypedLineIsSent(e: Editor, t: string)
    requires Sound(e) && Text(e.line) == "" && 0 < |t| <= 256
    ensures Sent(e, Typing(t) + [Enter]) == [t]
    ensures Run(e, Typing(t) + [Enter]) ==
      Editor(Line("", ""), if e.log != [] && e.log[|e.log| - 1] == t then e.log else e.log + [t], 0, e.live)
    ensures Sent(START, Typing(t) + [Enter]) == [t]
    ensures Run(START, Typing(t) + [Enter]) == Editor(Line("", ""), [t], 0, "")
  {
    assert Text(START.line) == "";
    assert e.line.left + t == t && START.line.left + t == t && t + "" == t;
    TypedSoFar(e, t);
    TypedSoFar(START, t);
    TypedLineSound(e, t);
    TypedLineSound(START, t);
  }

  lemma TypedLineSound(e: Editor, t: string)
    requires Sound(e) && 0 < |t| <= 256
    ensures Sound(e.(line := Line(t, ""))) && Text(Line(t, "")) == t
  {
  }

  // ---- browsing ----

  function Ups(e: Editor, k: nat): Editor {
    if k == 0 then e else HistoryUp(Ups(e, k - 1))
  }

  function Downs(e: Editor, k: nat): Editor {
    if k == 0 then e else HistoryDown(Downs(e, k - 1))
  }

  /** c lines back from where browsing started: that entry, or the unsent line itself. */
  function Browsing(e: Editor, c: nat): Editor
    requires c <= |e.log|
  {
    Editor(Line(if c == 0 then Text(e.line) else e.log[|e.log| - c], ""), e.log, c, Text(e.line))
  }

  /** The k-th press of up shows the k-th newest recorded line, as long as the ring still has it. */
  lemma {:induction false} UpsShow(e: Editor, k: nat)
    requires Sound(e) && e.histCursor == 0 && 0 < k <= Available(e.log)
    ensures Ups(e, k) == Browsing(e, k)
  {
    if k > 1 {
      UpsShow(e, k - 1);
    }
  }

  lemma OneDown(e: Editor, c: nat)
    requires 0 < c <= |e.log|
    ensures HistoryDown(Browsing(e, c)) == Browsing(e, c - 1)
  {
  }

  lemma {:induction false} DownsShow(e: Editor, k: nat, j: nat)
    requires Sound(e) && e.histCursor == 0 && j <= k && 0 < k <= Available(e.log)
    ensures Downs(Ups(e, k), j) == Browsing(e, k - j)
  {
    hide Ups, HistoryUp, HistoryDown, Browsing, Sound;
    if j == 0 {
      UpsShow(e, k);
    } else {
      DownsShow(e, k, j - 1);
      OneDown(e, k - (j - 1));
    }
  }

  /** Going up and then down as often gives the unsent line back, with the cursor at its end. */
  lemma UpsThenDowns(e: Editor, k: nat)
    requires Sound(e) && e.histCursor == 0 && 0 < k <= Available(e.log)
    ensures Downs(Ups(e, k), k) == Editor(ToEnd(e.line), e.log, 0, Text(e.line))
  {
    DownsShow(e, k, k);
  }

  /** Going up any further changes nothing. */
  lemma {:induction false} UpsStop(e: Editor, k: nat)
    requires Sound(e) && e.histCursor == 0 && k >= Available(e.log)
    ensures Ups(e, k) == Ups(e, Available(e.log))
  {
    if Available(e.log) > 0 { UpsShow(e, Available(e.log)); }
    if k > Available(e.log) {
      UpsStop(e, k - 1);
    }
  }
}
