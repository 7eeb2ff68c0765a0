/** The shell object: fixed buffers and counters changed in place, tied to the editor of `LineEditor`. */
module ShellState {
  import opened LineEditor

  class Shell {
    const buf: array<char>
    var len: nat
    var cursorPos: nat
    const history: array2<char>
    const histLen: array<nat>
    var histCount: nat
    var histCursor: nat
    const liveBuf: array<char>
    var liveLen: nat
    /** Every line recorded, of which the ring holds the last sixteen. */
    ghost var log: seq<string>

    ghost predicate Valid()
      reads this, buf, history, histLen, liveBuf
    {
      && buf != liveBuf
      && buf.Length == liveBuf.Length == history.Length1 == BUF_CAP
      && history.Length0 == histLen.Length == HIST_CAP
      && cursorPos <= len <= BUF_CAP && liveLen <= BUF_CAP
      && histCount == |log|
      && RingHolds(log)
      && Sound(State())
    }

    /** For each of the last sixteen entries i of the log, ring slot i mod 16 holds it. */
    ghost predicate RingHolds(log: seq<string>)
      requires history.Length1 == BUF_CAP && history.Length0 == histLen.Length == HIST_CAP
      reads history, histLen
    {
      forall i {:trigger log[i]} :: 0 <= i < |log| && |log| <= i + HIST_CAP ==>
        && histLen[i % HIST_CAP] == |log[i]| <= BUF_CAP
        && forall c :: 0 <= c < |log[i]| ==> history[i % HIST_CAP, c] == log[i][c]
    }

    ghost function State(): Editor
      requires buf.Length == liveBuf.Length == BUF_CAP && cursorPos <= len <= BUF_CAP && liveLen <= BUF_CAP
      reads this, buf, liveBuf
    {
      Editor(Line(buf[..cursorPos], buf[cursorPos..len]), log, histCursor, liveBuf[..liveLen])
    }

    constructor ()
      ensures Valid() && State() == START
      ensures fresh(buf) && fresh(history) && fresh(histLen) && fresh(liveBuf)
    {
      buf := new char[BUF_CAP](_ => '\0');
      history := new char[HIST_CAP, BUF_CAP]((_, _) => '\0');
      histLen := new nat[HIST_CAP](_ => 0);
      liveBuf := new char[BUF_CAP](_ => '\0');
      len, cursorPos, histCount, histCursor, liveLen, log := 0, 0, 0, 0, 0, [];
    }

    /** `copy_within(from..to, from + 1)` */
    method ShiftRight(from: nat, to: nat)
      requires from <= to < buf.Length
      modifies buf
      ensures buf[..from] == old(buf[..from]) && buf[from + 1..to + 1] == old(buf[from..to])
    {
      forall i | from <= i < to { buf[i + 1] := buf[i]; }
    }

    /** `copy_within(from..to, from - 1)` */
    method ShiftLeft(from: nat, to: nat)
      requires 0 < from <= to <= buf.Length
      modifies buf
      ensures buf[..from - 1] == old(buf[..from - 1]) && buf[from - 1..to - 1] == old(buf[from..to])
    {
      forall i | from <= i < to { buf[i - 1] := buf[i]; }
    }

    /** A printable key: append at the end, or shift right and insert. */
    method PushPrintable(ch: char)
      requires Valid()
      modifies this`len, this`cursorPos, buf
      ensures Valid() && State() == Press(old(State()), Printable(ch))
    {
      hide Sound, RingHolds;
      PressKeepsSound(State(), Printable(ch));
      ghost var left, right := buf[..cursorPos], buf[cursorPos..len];
      if len < BUF_CAP {
        if cursorPos == len {
          buf[len] := ch;
          len := len + 1;
          cursorPos := len;
        } else {
          ShiftRight(cursorPos, len);
          buf[cursorPos] := ch;
          len := len + 1;
          cursorPos := cursorPos + 1;
        }
        assert buf[..cursorPos] == left + [ch];
        assert buf[cursorPos..len] == right;
      }
    }

    method Backspace()
      requires Valid()
      modifies this`len, this`cursorPos, buf
      ensures Valid() && State() == Press(old(State()), Erase)
    {
      hide Sound, RingHolds;
      PressKeepsSound(State(), Erase);
      ghost var left, right := buf[..cursorPos], buf[cursorPos..len];
      if cursorPos == 0 { return; }
      if cursorPos == len {
        len := len - 1;
        cursorPos := cursorPos - 1;
      } else {
        ShiftLeft(cursorPos, len);
        len := len - 1;
        cursorPos := cursorPos - 1;
      }
      assert buf[..cursorPos] == left[..|left| - 1];
      assert buf[cursorPos..len] == right;
    }

    method CursorLeft()
      requires Valid()
      modifies this`cursorPos
      ensures Valid() && State() == Press(old(State()), CtrlB)
    {
      hide Sound, RingHolds;
      PressKeepsSound(State(), CtrlB);
      if cursorPos == 0 { return; }
      cursorPos := cursorPos - 1;
      assert buf[cursorPos..len] == [buf[cursorPos]] + buf[cursorPos + 1..len];
      assert buf[..cursorPos] == old(buf[..cursorPos])[..cursorPos];
      assert Text(State().line) == old(Text(State().line));
    }

    method CursorRight()
      requires Valid()
      modifies this`cursorPos
      ensures Valid() && State() == Press(old(State()), CtrlF)
    {
      hide Sound, RingHolds;
      PressKeepsSound(State(), CtrlF);
      if cursorPos == len { return; }
      cursorPos := cursorPos + 1;
      assert buf[..cursorPos] == old(buf[..cursorPos]) + [buf[cursorPos - 1]];
      assert buf[cursorPos..len] == old(buf[cursorPos..len])[1..];
      assert Text(State().line) == old(Text(State().line));
    }

    method CursorToStart()
      requires Valid()
      modifies this`cursorPos
      ensures Valid() && State() == Press(old(State()), CtrlA)
    {
      hide Sound, RingHolds;
      PressKeepsSound(State(), CtrlA);
      cursorPos := 0;
      assert buf[0..len] == old(buf[..cursorPos]) + old(buf[cursorPos..len]);
      assert buf[..0] == "";
      assert Text(State().line) == old(Text(State().line));
    }

    method CursorToEnd()
      requires Valid()
      modifies this`cursorPos
      ensures Valid() && State() == Press(old(State()), CtrlE)
    {
      hide Sound, RingHolds;
      PressKeepsSound(State(), CtrlE);
      cursorPos := len;
      assert buf[..len] == old(buf[..cursorPos]) + old(buf[cursorPos..len]);
      assert buf[len..len] == "";
    }

    /** Ctrl-C, and Ctrl-U without the change of history cursor. */
    method CtrlC()
      requires Valid()
      modifies this`len, this`cursorPos, this`histCursor
      ensures Valid() && State() == Press(old(State()), Key.CtrlC)
    {
      hide Sound, RingHolds;
      PressKeepsSound(State(), Key.CtrlC);
      len, cursorPos, histCursor := 0, 0, 0;
    }

    method CtrlU()
      requires Valid()
      modifies this`len, this`cursorPos
      ensures Valid() && State() == Press(old(State()), Key.CtrlU)
    {
      hide Sound, RingHolds;
      PressKeepsSound(State(), Key.CtrlU);
      len, cursorPos := 0, 0;
    }

    /** Ctrl-W: shorten from the end, through spaces and then through a word. */
    method CtrlW()
      requires Valid()
      modifies this`len, this`cursorPos
      ensures Valid() && State() == Press(old(State()), Key.CtrlW)
    {
      hide Sound, RingHolds;
      PressKeepsSound(State(), Key.CtrlW);
      hide DropSpaces, DropWord, Press, Text, CutWord;
      ghost var e, text := State(), buf[..len];
      TextIsBuffer();
      CutWordIs(e.line);
      OnlyTheLine(e);
      CutLastWord();
      if text == "" {
        assert State().line == e.line;
      } else {
        assert buf[..cursorPos] == DropWord(DropSpaces(text)) && buf[cursorPos..len] == "";
      }
    }

    lemma TextIsBuffer()
      requires Valid()
      ensures Text(State().line) == buf[..len]
    {
    }

    lemma CutWordIs(l: Line)
      ensures CutWord(l) == if Text(l) == "" then l else Line(DropWord(DropSpaces(Text(l))), "")
    {
    }

    lemma OnlyTheLine(e: Editor)
      requires Sound(e)
      ensures Press(e, Key.CtrlW) == e.(line := CutWord(e.line))
    {
    }

    /** Both loops of Ctrl-W. */
    method CutLastWord()
      requires buf.Length == BUF_CAP && cursorPos <= len <= BUF_CAP
      modifies this`len, this`cursorPos
      ensures cursorPos <= len <= old(len) && buf[..len] == DropWord(DropSpaces(buf[..old(len)]))
      ensures cursorPos == if old(len) > 0 then len else old(cursorPos)
    {
      hide DropSpaces, DropWord;
      CutSpaces();
      CutToSpace();
    }

    /** The first loop of Ctrl-W; the cursor moves only if something goes. */
    method CutSpaces()
      requires buf.Length == BUF_CAP && cursorPos <= len <= BUF_CAP
      modifies this`len, this`cursorPos
      ensures cursorPos <= len <= old(len) && buf[..len] == DropSpaces(buf[..old(len)])
      ensures if len < old(len) then cursorPos == len else cursorPos == old(cursorPos)
      ensures len == 0 || buf[len - 1] != ' '
    {
      while len > 0 && buf[len - 1] == ' '
        invariant cursorPos <= len <= old(len)
        invariant if len < old(len) then cursorPos == len else cursorPos == old(cursorPos)
        invariant DropSpaces(buf[..old(len)]) == DropSpaces(buf[..len])
      {
        assert buf[..len][..len - 1] == buf[..len - 1];
        len := len - 1;
        cursorPos := len;
      }
    }

    /** The second loop of Ctrl-W. */
    method CutToSpace()
      requires buf.Length == BUF_CAP && cursorPos <= len <= BUF_CAP
      modifies this`len, this`cursorPos
      ensures cursorPos <= len <= old(len) && buf[..len] == DropWord(buf[..old(len)])
      ensures if len < old(len) then cursorPos == len else cursorPos == old(cursorPos)
      ensures len == 0 || buf[len - 1] == ' '
    {
      while len > 0 && buf[len - 1] != ' '
        invariant cursorPos <= len <= old(len)
        invariant if len < old(len) then cursorPos == len else cursorPos == old(cursorPos)
        invariant DropWord(buf[..old(len)]) == DropWord(buf[..len])
      {
        assert buf[..len][..len - 1] == buf[..len - 1];
        len := len - 1;
        cursorPos := len;
      }
    }

    /** Tab: the candidates are someone else's business; what fits of the common part is appended. */
    method CompleteWith(c: Completion)
      requires Valid()
      modifies this`len, this`cursorPos, buf
      ensures Valid() && State() == Press(old(State()), Tab(c))
    {
      hide Sound, RingHolds;
      PressKeepsSound(State(), Tab(c));
      match c
      case NoChange =>
      case Append(tail) =>
        ghost var text, room := Text(State().line), Room(State().line, tail);
        assert text == buf[..len];
        for i := 0 to |tail|
          invariant len == |text| + if i < room then i else room
          invariant len <= BUF_CAP && cursorPos == old(cursorPos)
          invariant buf[..len] == text + tail[..if i < room then i else room]
        {
          if len < BUF_CAP {
            buf[len] := tail[i];
            len := len + 1;
          }
        }
        cursorPos := len;
        assert buf[..cursorPos] == text + tail[..room] && buf[cursorPos..len] == "";
      case ListCandidates =>
        CursorToEnd();
    }

    // ---- history ----

    /** Enter: record the line in the ring unless it is empty or repeats the newest entry, then start over. */
    method Submit()
      requires Valid()
      modifies this`len, this`cursorPos, this`histCount, this`histCursor, this`log, history, histLen
      ensures Valid() && State() == Press(old(State()), Enter)
    {
      hide Sound;
      PressKeepsSound(State(), Enter);
      ghost var text := Text(State().line);
      assert text == buf[..len];
      if len > 0 {
        var dup := RepeatsNewest();
        if !dup {
          Store();
        }
      }
      histCursor := 0;
      len := 0;
      cursorPos := 0;
    }

    /** Does the line equal the newest entry of the ring? */
    method RepeatsNewest() returns (dup: bool)
      requires Valid() && len > 0
      ensures dup <==> log != [] && log[|log| - 1] == buf[..len]
    {
      if histCount == 0 { return false; }
      var last := (histCount - 1) % HIST_CAP;
      assert log[|log| - 1] == log[histCount - 1];
      if histLen[last] != len { return false; }
      for c := 0 to len
        invariant forall d :: 0 <= d < c ==> history[last, d] == buf[d]
      {
        if history[last, c] != buf[c] {
          assert log[histCount - 1][c] != buf[..len][c];
          return false;
        }
      }
      assert log[histCount - 1] == buf[..len];
      dup := true;
    }

    /** Overwrite the oldest slot of the ring with the line. */
    method Store()
      requires Valid() && len > 0
      modifies this`histCount, this`log, history, histLen
      ensures log == old(log) + [buf[..len]] && histCount == |log| && RingHolds(log)
    {
      hide Sound;
      var slot := histCount % HIST_CAP;
      forall c | 0 <= c < len { history[slot, c] := buf[c]; }
      histLen[slot] := len;
      histCount := histCount + 1;
      log := log + [buf[..len]];
      forall i | 0 <= i < |log| && |log| <= i + HIST_CAP
        ensures histLen[i % HIST_CAP] == |log[i]| <= BUF_CAP
        ensures forall c :: 0 <= c < |log[i]| ==> history[i % HIST_CAP, c] == log[i][c]
      {
        if i < |log| - 1 {
          assert log[i] == old(log)[i];
          assert i % HIST_CAP != slot;
        }
      }
    }

    method HistoryUp()
      requires Valid()
      modifies this`len, this`cursorPos, this`histCursor, this`liveLen, buf, liveBuf
      ensures Valid() && State() == Press(old(State()), CtrlP)
    {
      hide RingHolds;
      PressKeepsSound(State(), CtrlP);
      var available := if histCount < HIST_CAP then histCount else HIST_CAP;
      if histCursor >= available { return; }
      if histCursor == 0 {
        ghost var text := Text(State().line);
        assert text == buf[..len];
        forall i | 0 <= i < len { liveBuf[i] := buf[i]; }
        liveLen := len;
        assert liveBuf[..liveLen] == text;
      }
      histCursor := histCursor + 1;
      LoadHistoryEntry();
    }

    method HistoryDown()
      requires Valid()
      modifies this`len, this`cursorPos, this`histCursor, buf
      ensures Valid() && State() == Press(old(State()), CtrlN)
    {
      hide RingHolds;
      PressKeepsSound(State(), CtrlN);
      if histCursor == 0 { return; }
      histCursor := histCursor - 1;
      if histCursor == 0 {
        forall i | 0 <= i < liveLen { buf[i] := liveBuf[i]; }
        len := liveLen;
        cursorPos := liveLen;
        assert buf[..cursorPos] == liveBuf[..liveLen] && buf[cursorPos..len] == "";
      } else {
        LoadHistoryEntry();
      }
    }

    /** Show the entry the history cursor is on, with the cursor at its end. */
    method LoadHistoryEntry()
      requires buf != liveBuf && buf.Length == history.Length1 == BUF_CAP && history.Length0 == histLen.Length == HIST_CAP
      requires histCount == |log| && RingHolds(log) && 0 < histCursor <= Available(log)
      modifies this`len, this`cursorPos, buf
      ensures cursorPos == len <= BUF_CAP && buf[..cursorPos] == log[|log| - histCursor] && buf[cursorPos..len] == ""
    {
      var idx := (histCount - histCursor) % HIST_CAP;
      assert histLen[idx] == |log[histCount - histCursor]|;
      var n := histLen[idx];
      forall c | 0 <= c < n { buf[c] := history[idx, c]; }
      len := n;
      cursorPos := n;
      assert buf[..n] == log[histCount - histCursor];
    }

    /** `history [n]`: the last n entries the ring holds, numbered from the first line ever recorded. */
    method ListHistory(limit: nat) returns (lines: seq<(nat, string)>)
      requires Valid()
      ensures |lines| == if limit < Available(log) then limit else Available(log)
      ensures forall i :: 0 <= i < |lines| ==>
        var k := |log| - |lines| + i; lines[i] == (k + 1, log[k])
    {
      hide Sound;
      lines := [];
      var available := if histCount < HIST_CAP then histCount else HIST_CAP;
      if available == 0 { return; }
      var n := if limit < available then limit else available;
      var skip := available - n;
      var startSlot := (histCount - available + skip) % HIST_CAP;
      var startNum := histCount - available + skip + 1;
      for i := 0 to n
        invariant |lines| == i
        invariant forall j :: 0 <= j < i ==> lines[j] == (histCount - n + j + 1, log[histCount - n + j])
      {
        var slot := (startSlot + i) % HIST_CAP;
        assert slot == (histCount - n + i) % HIST_CAP;
        assert histLen[slot] == |log[histCount - n + i]|;
        var s := ReadSlot(slot);
        assert s == log[histCount - n + i];
        lines := lines + [(startNum + i, s)];
      }
    }

    method ReadSlot(slot: nat) returns (s: string)
      requires slot < HIST_CAP && history.Length1 == BUF_CAP && history.Length0 == histLen.Length == HIST_CAP
      requires histLen[slot] <= BUF_CAP
      ensures |s| == histLen[slot] && forall c :: 0 <= c < |s| ==> s[c] == history[slot, c]
    {
      s := "";
      for c := 0 to histLen[slot]
        invariant |s| == c && forall d :: 0 <= d < c ==> s[d] == history[slot, d]
      {
        s := s + [history[slot, c]];
      }
    }
  }
}
