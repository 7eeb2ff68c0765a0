/** The console against a typewriter: text written on paper that never scrolls. The screen is always the
    foot of the paper, but for the cells in which a newline left the cursor's remembered character. */
module Paper {
  import opened Arith
  import opened Console

  /** Rows of the screen's width, as many as it takes, and where the next character goes. */
  datatype Sheet = Sheet(rows: seq<seq<char>>, row: nat, col: nat)

  predicate OnSheet(g: Geometry, p: Sheet) {
    && Rows(g) <= |p.rows| && |p.rows| - Rows(g) <= p.row < |p.rows| && p.col < Cols(g)
    && forall r :: 0 <= r < |p.rows| ==> |p.rows[r]| == Cols(g)
  }

  /** To the start of the next row, with a blank one added at the foot if need be. */
  function NextRow(g: Geometry, p: Sheet): Sheet {
    Sheet(if p.row + 1 < |p.rows| then p.rows else p.rows + [BlankRow(g)], p.row + 1, 0)
  }

  /** The first cell of the sheet that is still on the screen, counting cells in reading order. */
  function TopCell(g: Geometry, p: Sheet): nat
    requires OnSheet(g, p)
  {
    (|p.rows| - Rows(g)) * Cols(g)
  }

  /** One cell back in reading order, and no further than the top of the screen. */
  function CellBack(g: Geometry, p: Sheet): nat
    requires OnSheet(g, p)
  {
    var here := p.row * Cols(g) + p.col;
    if here <= TopCell(g, p) then TopCell(g, p) else here - 1
  }

  /** Back one cell, which is then blank. */
  function Erased(g: Geometry, p: Sheet): (q: Sheet)
    requires GoodGeometry(g) && OnSheet(g, p)
    ensures OnSheet(g, q)
  {
    BackIs(g, p);
    var row, col := CellBack(g, p) / Cols(g), CellBack(g, p) % Cols(g);
    if (row, col) == (p.row, p.col) then p else Sheet(Put(p.rows, row, col, ' '), row, col)
  }

  lemma BackIs(g: Geometry, p: Sheet)
    requires GoodGeometry(g) && OnSheet(g, p)
    ensures CellBack(g, p) / Cols(g) == if p.col == 0 && p.row > |p.rows| - Rows(g) then p.row - 1 else p.row
    ensures CellBack(g, p) % Cols(g) ==
      if p.col > 0 then p.col - 1 else if p.row > |p.rows| - Rows(g) then Cols(g) - 1 else 0
  {
    CellsBack(p.row, p.col, Cols(g), |p.rows| - Rows(g));
  }

  lemma CellsBack(row: nat, col: nat, c: nat, top: nat)
    requires top <= row && col < c
    ensures var here := row * c + col;
      var back := if here <= top * c then top * c else here - 1;
      && back / c == (if col == 0 && row > top then row - 1 else row)
      && back % c == if col > 0 then col - 1 else if row > top then c - 1 else 0
  {
    var before, above := row * c, top * c;
    if col > 0 {
      assert above <= before by { if row > top { Multiples(top, row, c); } }
      ModIs(row, col - 1, c);
      assert c * row + (col - 1) == before + col - 1;
    } else if row > top {
      assert above + c <= before by { Multiples(top, row, c); }
      ModIs(row - 1, c - 1, c);
      assert c * (row - 1) + (c - 1) == before - 1;
    } else {
      ModIs(top, 0, c);
      assert c * top + 0 == above;
    }
  }

  /** A typewriter: a newline moves on, a backspace moves back and blanks, anything else is put in its cell. */
  function Typed(g: Geometry, p: Sheet, ch: char): (q: Sheet)
    requires GoodGeometry(g) && OnSheet(g, p)
    ensures OnSheet(g, q)
  {
    if ch == '\n' then NextRow(g, p)
    else if ch == '\U{08}' then Erased(g, p)
    else
      var put := p.(rows := Put(p.rows, p.row, p.col, ch));
      if p.col + 1 < Cols(g) then put.(col := p.col + 1) else NextRow(g, put)
  }

  predicate Leaves(ch: char) {
    ch == '\n' || ch == '\U{08}'
  }

  /** The console: a newline or a backspace first leaves the remembered character in its cell. */
  function Written(g: Geometry, p: Sheet, ch: char, stale: char): (q: Sheet)
    requires GoodGeometry(g) && OnSheet(g, p)
    ensures OnSheet(g, q)
  {
    if Leaves(ch) then Typed(g, p.(rows := Put(p.rows, p.row, p.col, stale)), ch) else Typed(g, p, ch)
  }

  function TypedAll(g: Geometry, p: Sheet, text: string): (q: Sheet)
    requires GoodGeometry(g) && OnSheet(g, p)
    ensures OnSheet(g, q)
  {
    if text == "" then p else Typed(g, TypedAll(g, p, text[..|text| - 1]), text[|text| - 1])
  }

  function WrittenAll(g: Geometry, p: Sheet, text: string, stale: char): (q: Sheet)
    requires GoodGeometry(g) && OnSheet(g, p)
    ensures OnSheet(g, q)
  {
    if text == "" then p else Written(g, WrittenAll(g, p, text[..|text| - 1], stale), text[|text| - 1], stale)
  }

  /** The cells a newline or a backspace was the last to leave, with nothing put in them since. */
  function LeftCells(g: Geometry, p: Sheet, text: string): set<(nat, nat)>
    requires GoodGeometry(g) && OnSheet(g, p)
  {
    if text == "" then {}
    else
      var init, last := text[..|text| - 1], text[|text| - 1];
      LeftNow(g, TypedAll(g, p, init), last, LeftCells(g, p, init))
  }

  function LeftNow(g: Geometry, p: Sheet, ch: char, cells: set<(nat, nat)>): set<(nat, nat)>
    requires GoodGeometry(g) && OnSheet(g, p)
  {
    var here, next := (p.row, p.col), Typed(g, p, ch);
    if ch == '\n' || (ch == '\U{08}' && here == (next.row, next.col)) then cells + {here}
    else if ch == '\U{08}' then cells + {here} - {(next.row, next.col)}
    else cells - {here}
  }

  // ---- the screen is the foot of the sheet ----

  predicate Foot(g: Geometry, s: Screen, p: Sheet)
    requires GoodGeometry(g) && InGrid(g, s) && OnSheet(g, p)
  {
    var top := |p.rows| - Rows(g);
    s.grid == p.rows[top..] && s.row + top == p.row && s.col == p.col
  }

  lemma PutIsFoot(g: Geometry, s: Screen, p: Sheet, ch: char)
    requires GoodGeometry(g) && InGrid(g, s) && OnSheet(g, p) && Foot(g, s, p)
    ensures var s', p' := s.(grid := Put(s.grid, s.row, s.col, ch)), p.(rows := Put(p.rows, p.row, p.col, ch));
      InGrid(g, s') && OnSheet(g, p') && Foot(g, s', p')
  {
    var top := |p.rows| - Rows(g);
    assert p.rows[p.row] == s.grid[s.row];
    assert Put(p.rows, p.row, p.col, ch)[top..] == Put(s.grid, s.row, s.col, ch);
  }

  lemma NextIsFoot(g: Geometry, s: Screen, p: Sheet)
    requires GoodGeometry(g) && InGrid(g, s) && OnSheet(g, p) && Foot(g, s, p)
    ensures OnSheet(g, NextRow(g, p)) && Foot(g, MoveOn(g, s, 0, s.row + 1), NextRow(g, p))
  {
    hide Rows, Cols;
    var top := |p.rows| - Rows(g);
    if s.row + 1 >= Rows(g) {
      assert p.row + 1 == |p.rows|;
      assert (p.rows + [BlankRow(g)])[top + 1..] == p.rows[top..][1..] + [BlankRow(g)];
    }
  }

  lemma SameFoot(g: Geometry, s: Screen, s': Screen, p: Sheet)
    requires GoodGeometry(g) && InGrid(g, s) && OnSheet(g, p) && Foot(g, s, p)
    requires s'.grid == s.grid && s'.row == s.row && s'.col == s.col
    ensures InGrid(g, s') && Foot(g, s', p)
  {
  }

  lemma WrittenIsFoot(g: Geometry, s: Screen, p: Sheet, ch: char)
    requires GoodGeometry(g) && InGrid(g, s) && OnSheet(g, p) && Foot(g, s, p)
    ensures Foot(g, WriteChar(g, s, ch), Written(g, p, ch, s.cursorChar))
    ensures WriteChar(g, s, ch).cursorChar == s.cursorChar
  {
    hide Foot, NextRow, Erased, Rows, Cols;
    var h, q := CursorHide(g, s), p.(rows := Put(p.rows, p.row, p.col, s.cursorChar));
    PutIsFoot(g, s, p, s.cursorChar);
    SameFoot(g, s.(grid := h.grid), h, q);
    if ch == '\n' {
      NextIsFoot(g, h, q);
    } else if ch == '\U{08}' {
      PutTwice(s.grid, s.row, s.col, s.cursorChar, s.cursorChar);
      assert CursorHide(g, h) == h && h.cursorChar == s.cursorChar;
      ErasedIsFoot(g, h, q);
    } else {
      PutTwice(s.grid, s.row, s.col, s.cursorChar, ch);
      PutIsFoot(g, s, p, ch);
      CharIsFoot(g, h.(grid := Put(s.grid, s.row, s.col, ch)), s.(grid := Put(s.grid, s.row, s.col, ch)),
                 p.(rows := Put(p.rows, p.row, p.col, ch)));
    }
  }

  /** A backspace whose cursor cell already holds the remembered character. */
  lemma ErasedIsFoot(g: Geometry, h: Screen, p: Sheet)
    requires GoodGeometry(g) && InGrid(g, h) && OnSheet(g, p) && Foot(g, h, p) && CursorHide(g, h) == h
    ensures Foot(g, Backspace(g, h), Erased(g, p))
    ensures Backspace(g, h).cursorChar == h.cursorChar
  {
    hide Rows, Cols, CellBack, CursorHide, Put;
    BackIs(g, p);
    var t := Backspace(g, h);
    if h.col > 0 || h.row > 0 {
      MovedPutIsFoot(g, h, p, t.row, t.col);
    }
  }

  lemma MovedPutIsFoot(g: Geometry, s: Screen, p: Sheet, row: nat, col: nat)
    requires GoodGeometry(g) && InGrid(g, s) && OnSheet(g, p) && Foot(g, s, p) && row < Rows(g) && col < Cols(g)
    ensures var top := |p.rows| - Rows(g);
      Put(p.rows, row + top, col, ' ')[top..] == Put(s.grid, row, col, ' ')
  {
    hide Rows, Cols;
    var top := |p.rows| - Rows(g);
    assert p.rows[row + top] == s.grid[row];
  }

  lemma CharIsFoot(g: Geometry, t: Screen, s: Screen, p: Sheet)
    requires GoodGeometry(g) && InGrid(g, s) && OnSheet(g, p) && Foot(g, s, p)
    requires t.grid == s.grid && t.row == s.row && t.col == s.col
    ensures InGrid(g, t)
    ensures OnSheet(g, NextRow(g, p)) && Foot(g, MoveOn(g, t, 0, t.row + 1), NextRow(g, p))
    ensures t.col + 1 < Cols(g) ==>
      OnSheet(g, p.(col := p.col + 1)) && Foot(g, MoveOn(g, t, t.col + 1, t.row), p.(col := p.col + 1))
  {
    SameFoot(g, s, t, p);
    NextIsFoot(g, t, p);
  }

  lemma {:induction false} WriteAllLast(g: Geometry, s: Screen, text: string)
    requires GoodGeometry(g) && InGrid(g, s) && text != ""
    ensures WriteAll(g, s, text) == WriteChar(g, WriteAll(g, s, text[..|text| - 1]), text[|text| - 1])
  {
    var n := |text| - 1;
    assert text == text[..n] + [text[n]];
    WriteOneMore(g, s, text[..n], text[n]);
  }

  /** Any text, however long: the screen shows the foot of the sheet. */
  lemma {:induction false} TextIsFoot(g: Geometry, s: Screen, p: Sheet, text: string)
    requires GoodGeometry(g) && InGrid(g, s) && OnSheet(g, p) && Foot(g, s, p)
    ensures Foot(g, WriteAll(g, s, text), WrittenAll(g, p, text, s.cursorChar))
    ensures WriteAll(g, s, text).cursorChar == s.cursorChar
    decreases |text|
  {
    hide Foot, WriteChar, Written;
    if text != "" {
      var n := |text| - 1;
      TextIsFoot(g, s, p, text[..n]);
      WriteAllLast(g, s, text);
      WrittenIsFoot(g, WriteAll(g, s, text[..n]), WrittenAll(g, p, text[..n], s.cursorChar), text[n]);
    }
  }

  // ---- what newlines and backspaces leave behind ----

  /** q is p but for the given cells, which hold the character. */
  ghost predicate StainedBy(p: Sheet, q: Sheet, cells: set<(nat, nat)>, stale: char) {
    && q.row == p.row && q.col == p.col && |q.rows| == |p.rows|
    && (forall cell :: cell in cells ==> cell.0 < |p.rows|)
    && forall r :: 0 <= r < |p.rows| ==> |q.rows[r]| == |p.rows[r]| && RowStained(p.rows[r], q.rows[r], r, cells, stale)
  }

  ghost predicate RowStained(a: seq<char>, b: seq<char>, r: nat, cells: set<(nat, nat)>, stale: char)
    requires |a| == |b|
  {
    forall c :: 0 <= c < |a| ==> b[c] == if (r, c) in cells then stale else a[c]
  }

  lemma StainStep(g: Geometry, p: Sheet, q: Sheet, cells: set<(nat, nat)>, ch: char, stale: char)
    requires GoodGeometry(g) && OnSheet(g, p) && OnSheet(g, q) && StainedBy(p, q, cells, stale)
    ensures StainedBy(Typed(g, p, ch), Written(g, q, ch, stale), LeftNow(g, p, ch, cells), stale)
  {
    hide StainedBy, RowStained, Put, NextRow, Rows, Cols, CellBack;
    SameCells(p, q, cells, stale);
    var here := (p.row, p.col);
    if Leaves(ch) {
      StainOne(p, q, cells, p.row, p.col, stale);
      var q' := q.(rows := Put(q.rows, q.row, q.col, stale));
      if ch == '\n' {
        StainNext(g, p, q', cells + {here}, stale);
      } else {
        ErasedAlike(g, p, q', cells + {here}, stale);
        assert cells + {here} - {(Typed(g, p, ch).row, Typed(g, p, ch).col)} == LeftNow(g, p, ch, cells)
          || here == (Typed(g, p, ch).row, Typed(g, p, ch).col);
      }
    } else {
      StainPut(p, q, cells, p.row, p.col, ch, stale);
      var p', q' := p.(rows := Put(p.rows, p.row, p.col, ch)), q.(rows := Put(q.rows, q.row, q.col, ch));
      if p.col + 1 < Cols(g) {
        StainMoved(p', q', cells - {here}, stale, p.row, p.col + 1);
      } else {
        StainNext(g, p', q', cells - {here}, stale);
      }
    }
  }

  lemma SameCells(p: Sheet, q: Sheet, cells: set<(nat, nat)>, stale: char)
    requires StainedBy(p, q, cells, stale)
    ensures q.row == p.row && q.col == p.col && |q.rows| == |p.rows|
    ensures forall r :: 0 <= r < |p.rows| ==> |q.rows[r]| == |p.rows[r]|
  {
  }

  lemma StainOne(p: Sheet, q: Sheet, cells: set<(nat, nat)>, r: nat, c: nat, stale: char)
    requires StainedBy(p, q, cells, stale) && r < |p.rows| && c < |p.rows[r]|
    ensures |q.rows| == |p.rows| && |q.rows[r]| == |p.rows[r]|
    ensures StainedBy(p, q.(rows := Put(q.rows, r, c, stale)), cells + {(r, c)}, stale)
  {
    forall i | 0 <= i < |p.rows| && i != r
      ensures RowStained(p.rows[i], q.rows[i], i, cells + {(r, c)}, stale)
    {
      assert RowStained(p.rows[i], q.rows[i], i, cells, stale);
    }
    assert RowStained(p.rows[r], q.rows[r], r, cells, stale);
  }

  lemma StainPut(p: Sheet, q: Sheet, cells: set<(nat, nat)>, r: nat, c: nat, ch: char, stale: char)
    requires StainedBy(p, q, cells, stale) && r < |p.rows| && c < |p.rows[r]|
    ensures |q.rows| == |p.rows| == |Put(p.rows, r, c, ch)| && |q.rows[r]| == |p.rows[r]|
    ensures StainedBy(p.(rows := Put(p.rows, r, c, ch)), q.(rows := Put(q.rows, r, c, ch)), cells - {(r, c)}, stale)
  {
    forall i | 0 <= i < |p.rows| && i != r
      ensures RowStained(p.rows[i], q.rows[i], i, cells - {(r, c)}, stale)
    {
      assert RowStained(p.rows[i], q.rows[i], i, cells, stale);
    }
    assert RowStained(p.rows[r], q.rows[r], r, cells, stale);
  }

  lemma StainMoved(p: Sheet, q: Sheet, cells: set<(nat, nat)>, stale: char, row: nat, col: nat)
    requires StainedBy(p, q, cells, stale)
    ensures StainedBy(p.(row := row, col := col), q.(row := row, col := col), cells, stale)
  {
  }

  lemma StainNext(g: Geometry, p: Sheet, q: Sheet, cells: set<(nat, nat)>, stale: char)
    requires p.row < |p.rows| && StainedBy(p, q, cells, stale)
    ensures StainedBy(NextRow(g, p), NextRow(g, q), cells, stale)
  {
    hide Rows, Cols;
    if p.row + 1 == |p.rows| {
      assert RowStained(BlankRow(g), BlankRow(g), |p.rows|, cells, stale);
      forall r | 0 <= r < |p.rows|
        ensures RowStained((p.rows + [BlankRow(g)])[r], (q.rows + [BlankRow(g)])[r], r, cells, stale)
      {
        assert RowStained(p.rows[r], q.rows[r], r, cells, stale);
      }
    }
  }

  lemma ErasedAlike(g: Geometry, p: Sheet, q: Sheet, cells: set<(nat, nat)>, stale: char)
    requires GoodGeometry(g) && OnSheet(g, p) && OnSheet(g, q) && StainedBy(p, q, cells, stale)
    ensures var p', q' := Erased(g, p), Erased(g, q);
      StainedBy(p', q', if (p'.row, p'.col) == (p.row, p.col) then cells else cells - {(p'.row, p'.col)}, stale)
  {
    hide StainedBy, Put, Rows, Cols;
    SameCells(p, q, cells, stale);
    BackIs(g, p);
    var row, col := CellBack(g, p) / Cols(g), CellBack(g, p) % Cols(g);
    if (row, col) != (p.row, p.col) {
      StainPut(p, q, cells, row, col, ' ', stale);
      StainMoved(p.(rows := Put(p.rows, row, col, ' ')), q.(rows := Put(q.rows, row, col, ' ')), cells - {(row, col)},
                 stale, row, col);
    }
  }

  /** The sheet the console writes is the typewriter's, except that each cell a newline or a backspace was the
      last to leave holds the remembered character. */
  lemma {:induction false} WrittenIsStained(g: Geometry, p: Sheet, text: string, stale: char)
    requires GoodGeometry(g) && OnSheet(g, p)
    ensures StainedBy(TypedAll(g, p, text), WrittenAll(g, p, text, stale), LeftCells(g, p, text), stale)
    decreases |text|
  {
    hide StainedBy, Typed, Written;
    if text == "" {
      Unstained(p, stale);
    } else {
      var n := |text| - 1;
      var init, last := text[..n], text[n];
      WrittenIsStained(g, p, init, stale);
      StainStep(g, TypedAll(g, p, init), WrittenAll(g, p, init, stale), LeftCells(g, p, init), last, stale);
    }
  }

  lemma Unstained(p: Sheet, stale: char)
    ensures StainedBy(p, p, {}, stale)
  {
  }

  /** The text the typewriter has put where the screen is. */
  function Shown(g: Geometry, p: Sheet): seq<seq<char>>
    requires GoodGeometry(g) && OnSheet(g, p)
  {
    p.rows[|p.rows| - Rows(g)..]
  }

  /** Those of the cells that are still on the screen hold the character. */
  ghost predicate Unspoilt(g: Geometry, p: Sheet, cells: set<(nat, nat)>, ch: char)
    requires GoodGeometry(g) && OnSheet(g, p)
  {
    forall r, c :: (r, c) in cells && |p.rows| - Rows(g) <= r < |p.rows| && c < Cols(g) ==> p.rows[r][c] == ch
  }

  /** Main theorem about printed text, of any length and with any backspaces, wrapping and scrolling as it may:
      the screen shows exactly what a typewriter would have put there if and only if, in every cell a newline
      or a backspace was the last to leave and that is still on the screen, the character there is the one
      remembered. */
  lemma PrintedTextIff(g: Geometry, s: Screen, text: string)
    requires GoodGeometry(g) && InGrid(g, s)
    ensures var p := Sheet(s.grid, s.row, s.col);
      && OnSheet(g, p)
      && (WriteAll(g, s, text).grid == Shown(g, TypedAll(g, p, text)) <==>
            Unspoilt(g, TypedAll(g, p, text), LeftCells(g, p, text), s.cursorChar))
  {
    hide TypedAll, WrittenAll, LeftCells, WriteAll, Unspoilt, StainedBy, Rows, Cols;
    var p := Sheet(s.grid, s.row, s.col);
    assert s.grid[0..] == s.grid;
    TextIsFoot(g, s, p, text);
    WrittenIsStained(g, p, text, s.cursorChar);
    StainedShows(g, TypedAll(g, p, text), WrittenAll(g, p, text, s.cursorChar), LeftCells(g, p, text), s.cursorChar);
  }

  lemma StainedShows(g: Geometry, p: Sheet, q: Sheet, cells: set<(nat, nat)>, stale: char)
    requires GoodGeometry(g) && OnSheet(g, p) && OnSheet(g, q) && StainedBy(p, q, cells, stale)
    ensures Shown(g, q) == Shown(g, p) <==> Unspoilt(g, p, cells, stale)
  {
    if Shown(g, q) == Shown(g, p) { SameMeansUnspoilt(g, p, q, cells, stale); }
    if Unspoilt(g, p, cells, stale) { UnspoiltMeansSame(g, p, q, cells, stale); }
  }

  lemma SameMeansUnspoilt(g: Geometry, p: Sheet, q: Sheet, cells: set<(nat, nat)>, stale: char)
    requires GoodGeometry(g) && OnSheet(g, p) && OnSheet(g, q) && StainedBy(p, q, cells, stale)
    requires Shown(g, q) == Shown(g, p)
    ensures Unspoilt(g, p, cells, stale)
  {
    var top := |p.rows| - Rows(g);
    forall r, c | (r, c) in cells && top <= r < |p.rows| && 0 <= c < Cols(g)
      ensures p.rows[r][c] == stale
    {
      assert Shown(g, q)[r - top] == Shown(g, p)[r - top];
      assert RowStained(p.rows[r], q.rows[r], r, cells, stale);
    }
  }

  lemma UnspoiltMeansSame(g: Geometry, p: Sheet, q: Sheet, cells: set<(nat, nat)>, stale: char)
    requires GoodGeometry(g) && OnSheet(g, p) && OnSheet(g, q) && StainedBy(p, q, cells, stale)
    requires Unspoilt(g, p, cells, stale)
    ensures Shown(g, q) == Shown(g, p)
  {
    forall r | |p.rows| - Rows(g) <= r < |p.rows|
      ensures q.rows[r] == p.rows[r]
    {
      assert RowStained(p.rows[r], q.rows[r], r, cells, stale);
    }
  }
}
