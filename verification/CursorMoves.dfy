/** Where the cursor goes, with the cells of the screen counted in reading order: row * Cols + column. */
module CursorMoves {
  import opened Arith
  import opened Console

  /** How many cells come before the cursor. */
  function Place(g: Geometry, s: Screen): nat {
    s.row * Cols(g) + s.col
  }

  function Cells(g: Geometry): nat {
    Rows(g) * Cols(g)
  }

  /** The cell with n cells before it. */
  function CellAt(g: Geometry, s: Screen, n: nat): char
    requires GoodGeometry(g) && InGrid(g, s) && n < Cells(g)
  {
    PlaceInside(g, n);
    s.grid[n / Cols(g)][n % Cols(g)]
  }

  lemma PlaceInside(g: Geometry, n: nat)
    requires GoodGeometry(g) && n < Cells(g)
    ensures n / Cols(g) < Rows(g) && n % Cols(g) < Cols(g)
  {
    var c, q := Cols(g), n / Cols(g);
    assert n == c * q + n % c;
    assert q >= Rows(g) ==> c * q >= c * Rows(g);
  }

  /** A row and a column tell the place, and the place them. */
  lemma PlaceIs(g: Geometry, row: nat, col: nat)
    requires GoodGeometry(g) && col < Cols(g) && row < Rows(g)
    ensures var n := row * Cols(g) + col; n < Cells(g) && n / Cols(g) == row && n % Cols(g) == col
  {
    ModIs(row, col, Cols(g));
    Multiples(row, Rows(g), Cols(g));
  }

  /** Where the cursor is after each call, whether it shows, and what it remembers. A printed character moves
      it one cell on and a newline to the next row, the last row scrolling instead; a backspace moves it one
      cell back, from the first cell nowhere. */
  lemma CursorLaw(g: Geometry, s: Screen, op: Op)
    requires GoodGeometry(g) && InGrid(g, s)
    ensures var t, n := Apply(g, s, op), Place(g, s);
      match op
      case OpWrite(ch) =>
        && !t.blink && t.cursorChar == s.cursorChar
        && (ch == '\n' ==> t.col == 0 && t.row == if s.row + 1 < Rows(g) then s.row + 1 else Rows(g) - 1)
        && (ch == '\U{08}' ==> Place(g, t) == if n == 0 then 0 else n - 1)
        && (ch != '\n' && ch != '\U{08}' && n + 1 < Cells(g) ==> Place(g, t) == n + 1)
        && (ch != '\n' && ch != '\U{08}' && n + 1 == Cells(g) ==> t.row == Rows(g) - 1 && t.col == 0)
      case OpBackspace => (Place(g, t) == if n == 0 then 0 else n - 1) && !t.blink && t.cursorChar == s.cursorChar
      case OpClear => t.row == 0 && t.col == 0 && !t.blink && t.cursorChar == ' '
      case OpShow(ch) => Place(g, t) == n && t.blink && t.cursorChar == ch
      case OpHide => Place(g, t) == n && !t.blink && t.cursorChar == s.cursorChar
      case OpTick => Place(g, t) == n && t.blink == !s.blink && t.cursorChar == s.cursorChar
      case OpSetCol(col) =>
        && t.row == s.row && t.col == (if col < Cols(g) then col else Cols(g) - 1)
        && t.blink == s.blink && t.cursorChar == s.cursorChar
    ensures Place(g, s) < Cells(g)
  {
    PlaceIs(g, s.row, s.col);
    match op
    case OpWrite(ch) =>
      if ch == '\U{08}' {
        BackOne(g, s);
      } else if ch != '\n' {
        OnOne(g, s, ch);
      }
    case OpBackspace => BackOne(g, s);
    case _ =>
  }

  lemma OnOne(g: Geometry, s: Screen, ch: char)
    requires GoodGeometry(g) && InGrid(g, s) && Printable(ch)
    ensures var t, n := WriteChar(g, s, ch), Place(g, s);
      && (n + 1 < Cells(g) ==> Place(g, t) == n + 1)
      && (n + 1 == Cells(g) ==> t.row == Rows(g) - 1 && t.col == 0)
  {
    hide GoodGeometry;
    if s.row + 1 < Rows(g) {
      Multiples(s.row + 1, Rows(g), Cols(g));
    }
    assert (s.row + 1) * Cols(g) == s.row * Cols(g) + Cols(g);
    assert s.row + 1 == Rows(g) ==> Cells(g) == (s.row + 1) * Cols(g);
  }

  lemma BackOne(g: Geometry, s: Screen)
    requires GoodGeometry(g) && InGrid(g, s)
    ensures var n := Place(g, s); Place(g, Backspace(g, s)) == if n == 0 then 0 else n - 1
    ensures var n := Place(g, s); Place(g, WriteChar(g, s, '\U{08}')) == if n == 0 then 0 else n - 1
  {
    hide InGrid, Put, Cols, Rows;
    assert s.col < Cols(g) by { InsideGrid(g, s); }
    if s.row > 0 {
      assert (s.row - 1) * Cols(g) + Cols(g) == s.row * Cols(g);
      Multiples(0, s.row, Cols(g));
    }
  }

  lemma InsideGrid(g: Geometry, s: Screen)
    requires InGrid(g, s)
    ensures s.col < Cols(g) && s.row < Rows(g)
  {
  }

  // ---- cells ----

  lemma CellsOfPut(g: Geometry, s: Screen, t: Screen, r: nat, c: nat, ch: char, k: nat)
    requires GoodGeometry(g) && InGrid(g, s) && InGrid(g, t) && r < Rows(g) && c < Cols(g) && k < Cells(g)
    requires t.grid == Put(s.grid, r, c, ch)
    ensures CellAt(g, t, k) == if k == r * Cols(g) + c then ch else CellAt(g, s, k)
  {
    hide GoodGeometry, Cells, Cols, Rows;
    PlaceInside(g, k);
    PlaceIs(g, r, c);
    Named(g, k);
  }

  /** A printed character, unless in the last cell, changes its own cell only. */
  lemma PrintedCell(g: Geometry, s: Screen, ch: char, k: nat)
    requires GoodGeometry(g) && InGrid(g, s) && Printable(ch) && Place(g, s) + 1 < Cells(g) && k < Cells(g)
    ensures CellAt(g, WriteChar(g, s, ch), k) == if k == Place(g, s) then ch else CellAt(g, s, k)
  {
    hide GoodGeometry, Cells, Cols, Rows, CellAt;
    NotTheLast(g, s);
    PutTwice(s.grid, s.row, s.col, s.cursorChar, ch);
    CellsOfPut(g, s, WriteChar(g, s, ch), s.row, s.col, ch, k);
  }

  lemma NotTheLast(g: Geometry, s: Screen)
    requires GoodGeometry(g) && InGrid(g, s) && Place(g, s) + 1 < Cells(g)
    ensures s.col + 1 < Cols(g) || s.row + 1 < Rows(g)
  {
    if s.row + 1 == Rows(g) {
      assert Cells(g) == s.row * Cols(g) + Cols(g);
    }
  }

  lemma Named(g: Geometry, k: nat)
    requires GoodGeometry(g)
    ensures k == k / Cols(g) * Cols(g) + k % Cols(g)
  {
  }

  /** A backspace blanks the cell before the cursor and restores the remembered character in the cell it
      leaves. */
  lemma ErasedCell(g: Geometry, s: Screen, k: nat)
    requires GoodGeometry(g) && InGrid(g, s) && Place(g, s) > 0 && k < Cells(g)
    ensures CellAt(g, WriteChar(g, s, '\U{08}'), k) ==
      if k == Place(g, s) - 1 then ' ' else if k == Place(g, s) then s.cursorChar else CellAt(g, s, k)
  {
    hide GoodGeometry, Cells, CellAt, Put;
    BackOne(g, s);
    var h, t := CursorHide(g, s), WriteChar(g, s, '\U{08}');
    PutTwice(s.grid, s.row, s.col, s.cursorChar, s.cursorChar);
    CellsOfPut(g, s, h, s.row, s.col, s.cursorChar, k);
    if s.col > 0 || s.row > 0 { CellsOfPut(g, h, t, t.row, t.col, ' ', k); }
  }

  // ---- printing and erasing ----

  function Backspaces(n: nat): (r: string)
    ensures |r| == n && forall i :: 0 <= i < n ==> r[i] == '\U{08}'
  {
    seq(n, i => '\U{08}')
  }

  /** Text that fits on the screen from the cursor on: each character in its cell, the cursor after them. */
  lemma {:induction false} TextInCells(g: Geometry, s: Screen, text: string)
    requires GoodGeometry(g) && InGrid(g, s) && Place(g, s) + |text| < Cells(g)
    requires forall i :: 0 <= i < |text| ==> Printable(text[i])
    ensures var t, n := WriteAll(g, s, text), Place(g, s);
      && Place(g, t) == n + |text| && t.cursorChar == s.cursorChar
      && forall k :: 0 <= k < Cells(g) ==>
           CellAt(g, t, k) == if n <= k < n + |text| then text[k - n] else CellAt(g, s, k)
    decreases |text|
  {
    hide GoodGeometry, Cells, Place, CellAt, WriteChar;
    if text != "" {
      var one := WriteChar(g, s, text[0]);
      CursorLaw(g, s, OpWrite(text[0]));
      forall k | 0 <= k < Cells(g)
        ensures CellAt(g, one, k) == if k == Place(g, s) then text[0] else CellAt(g, s, k)
      {
        PrintedCell(g, s, text[0], k);
      }
      TextInCells(g, one, text[1..]);
    }
  }

  /** Some backspaces: the cell the cursor comes to rest in is blank, and every other cell it was in holds the
      remembered character. */
  lemma {:induction false} BackspacesErase(g: Geometry, s: Screen, n: nat)
    requires GoodGeometry(g) && InGrid(g, s) && 0 < n <= Place(g, s)
    ensures var t, p := WriteAll(g, s, Backspaces(n)), Place(g, s);
      && Place(g, t) == p - n && t.cursorChar == s.cursorChar
      && forall k :: 0 <= k < Cells(g) ==>
           CellAt(g, t, k) == if k == p - n then ' ' else if p - n < k <= p then s.cursorChar else CellAt(g, s, k)
    decreases n
  {
    hide GoodGeometry, Cells, Place, CellAt, WriteChar;
    var one, p := WriteChar(g, s, '\U{08}'), Place(g, s);
    assert Backspaces(n)[1..] == Backspaces(n - 1);
    CursorLaw(g, s, OpWrite('\U{08}'));
    forall k | 0 <= k < Cells(g)
      ensures CellAt(g, one, k) == if k == p - 1 then ' ' else if k == p then s.cursorChar else CellAt(g, s, k)
    {
      ErasedCell(g, s, k);
    }
    if n > 1 {
      BackspacesErase(g, one, n - 1);
    } else {
      assert Backspaces(0) == "";
    }
  }

  lemma {:induction false} WriteAllConcat(g: Geometry, s: Screen, a: string, b: string)
    requires GoodGeometry(g) && InGrid(g, s)
    ensures WriteAll(g, s, a + b) == WriteAll(g, WriteAll(g, s, a), b)
    decreases |a|
  {
    hide WriteChar;
    if a == "" {
      assert a + b == b;
    } else {
      assert (a + b)[0] == a[0] && (a + b)[1..] == a[1..] + b;
      WriteAllConcat(g, WriteChar(g, s, a[0]), a[1..], b);
    }
  }

  /** t is s but for m blanks from cell n on. */
  ghost predicate BlankFrom(g: Geometry, s: Screen, t: Screen, n: nat, m: nat)
    requires GoodGeometry(g) && InGrid(g, s) && InGrid(g, t)
  {
    forall k :: 0 <= k < Cells(g) ==> CellAt(g, t, k) == if n <= k < n + m then ' ' else CellAt(g, s, k)
  }

  /** Printing text that fits and erasing it: the cursor is back where it was. The cells of the text are blank
      and all others untouched exactly if the remembered character is what the cell after the text held and,
      when there are two characters or more, is a blank; it is drawn in each cell the cursor leaves. */
  lemma PrintThenErase(g: Geometry, s: Screen, text: string)
    requires GoodGeometry(g) && InGrid(g, s) && text != "" && Place(g, s) + |text| < Cells(g)
    requires forall i :: 0 <= i < |text| ==> Printable(text[i])
    ensures var t, n := WriteAll(g, s, text + Backspaces(|text|)), Place(g, s);
      && t.row == s.row && t.col == s.col && t.cursorChar == s.cursorChar
      && (BlankFrom(g, s, t, n, |text|) <==>
            s.cursorChar == CellAt(g, s, n + |text|) && (|text| == 1 || s.cursorChar == ' '))
  {
    hide GoodGeometry, Cells, Place, CellAt, WriteAll, BlankFrom;
    var mid, t := WriteAll(g, s, text), WriteAll(g, s, text + Backspaces(|text|));
    TextInCells(g, s, text);
    BackspacesErase(g, mid, |text|);
    WriteAllConcat(g, s, text, Backspaces(|text|));
    SamePlace(g, s, t);
    assert ErasedFrom(g, s, t, Place(g, s), |text|);
    BlankIff(g, s, t, Place(g, s), |text|);
  }

  ghost predicate ErasedFrom(g: Geometry, s: Screen, t: Screen, n: nat, m: nat)
    requires GoodGeometry(g) && InGrid(g, s) && InGrid(g, t)
  {
    forall k :: 0 <= k < Cells(g) ==>
      CellAt(g, t, k) == if k == n then ' ' else if n < k <= n + m then s.cursorChar else CellAt(g, s, k)
  }

  lemma BlankIff(g: Geometry, s: Screen, t: Screen, n: nat, m: nat)
    requires GoodGeometry(g) && InGrid(g, s) && InGrid(g, t) && ErasedFrom(g, s, t, n, m) && m > 0 && n + m < Cells(g)
    ensures BlankFrom(g, s, t, n, m) <==> s.cursorChar == CellAt(g, s, n + m) && (m == 1 || s.cursorChar == ' ')
  {
    hide GoodGeometry, Cells, CellAt;
    assert CellAt(g, t, n + m) == s.cursorChar;
    assert m > 1 ==> CellAt(g, t, n + 1) == s.cursorChar;
  }

  lemma SamePlace(g: Geometry, s: Screen, t: Screen)
    requires GoodGeometry(g) && InGrid(g, s) && InGrid(g, t) && Place(g, s) == Place(g, t)
    ensures s.row == t.row && s.col == t.col
  {
    PlaceIs(g, s.row, s.col);
    PlaceIs(g, t.row, t.col);
  }
}
