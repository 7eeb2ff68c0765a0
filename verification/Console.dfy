/** The text console as a grid of characters, and what the pixels must look like for a given grid. */
module Console {

  const GLYPH: nat := 8

  datatype Color = Color(r: nat, g: nat, b: nat)

  /** Text area in cells, and the frame buffer: `lines` scan lines of `stride` pixels. */
  datatype Geometry = Geometry(stride: nat, width: nat, height: nat, lines: nat)

  predicate GoodGeometry(g: Geometry) {
    GLYPH <= g.width <= g.stride && GLYPH <= g.height <= g.lines
  }

  function Cols(g: Geometry): nat {
    g.width / GLYPH
  }

  function Rows(g: Geometry): nat {
    g.height / GLYPH
  }

  /** As many whole cells of eight by eight pixels as the text area holds. */
  lemma CellsFill(g: Geometry, n: nat)
    ensures n <= Cols(g) <==> 8 * n <= g.width
    ensures n <= Rows(g) <==> 8 * n <= g.height
  {
  }

  // ---- the grid ----

  datatype Screen = Screen(grid: seq<seq<char>>, col: nat, row: nat, blink: bool, cursorChar: char)

  /** The cursor stays inside the grid. */
  predicate InGrid(g: Geometry, s: Screen) {
    && |s.grid| == Rows(g) && s.col < Cols(g) && s.row < Rows(g)
    && (forall r :: 0 <= r < |s.grid| ==> |s.grid[r]| == Cols(g))
  }

  function Put(grid: seq<seq<char>>, r: nat, c: nat, ch: char): seq<seq<char>>
    requires r < |grid| && c < |grid[r]|
  {
    grid[r := grid[r][c := ch]]
  }

  /** Drawing the cursor cell writes the remembered character there, whatever the cell held. */
  function Stamp(g: Geometry, s: Screen): (t: Screen)
    requires InGrid(g, s)
    ensures InGrid(g, t)
  {
    s.(grid := Put(s.grid, s.row, s.col, s.cursorChar))
  }

  function BlankRow(g: Geometry): (r: seq<char>)
    ensures |r| == Cols(g) && forall c :: 0 <= c < |r| ==> r[c] == ' '
  {
    seq(Cols(g), i => ' ')
  }

  function Blank(g: Geometry): (s: Screen)
    requires GoodGeometry(g)
    ensures InGrid(g, s)
  {
    Screen(seq(Rows(g), i => BlankRow(g)), 0, 0, false, ' ')
  }

  /** Drop the top row and open a blank one at the bottom. */
  function ScrollGrid(g: Geometry, grid: seq<seq<char>>): seq<seq<char>>
    requires |grid| > 0
  {
    grid[1..] + [BlankRow(g)]
  }

  function CursorShow(g: Geometry, s: Screen, ch: char): (t: Screen)
    requires InGrid(g, s)
    ensures InGrid(g, t)
  {
    Stamp(g, s.(cursorChar := ch, blink := true))
  }

  function CursorHide(g: Geometry, s: Screen): (t: Screen)
    requires InGrid(g, s)
    ensures InGrid(g, t)
  {
    Stamp(g, s.(blink := false))
  }

  function Tick(g: Geometry, s: Screen): (t: Screen)
    requires InGrid(g, s)
    ensures InGrid(g, t)
  {
    Stamp(g, s.(blink := !s.blink))
  }

  function SetCol(g: Geometry, s: Screen, col: nat): (t: Screen)
    requires GoodGeometry(g) && InGrid(g, s)
    ensures InGrid(g, t)
  {
    s.(col := if col < Cols(g) then col else Cols(g) - 1)
  }

  function Backspace(g: Geometry, s: Screen): (t: Screen)
    requires GoodGeometry(g) && InGrid(g, s)
    ensures InGrid(g, t)
  {
    var h := CursorHide(g, s);
    if h.col > 0 then h.(col := h.col - 1, grid := Put(h.grid, h.row, h.col - 1, ' '))
    else if h.row > 0 then h.(row := h.row - 1, col := Cols(g) - 1, grid := Put(h.grid, h.row - 1, Cols(g) - 1, ' '))
    else h
  }

  /** Where the cursor goes after a printed character or a newline, scrolling at most once. */
  function MoveOn(g: Geometry, s: Screen, col: nat, row: nat): (t: Screen)
    requires GoodGeometry(g) && InGrid(g, s) && col < Cols(g) && row <= Rows(g)
    ensures InGrid(g, t)
  {
    if row >= Rows(g) then s.(col := col, row := Rows(g) - 1, grid := ScrollGrid(g, s.grid))
    else s.(col := col, row := row)
  }

  function WriteChar(g: Geometry, s: Screen, ch: char): (t: Screen)
    requires GoodGeometry(g) && InGrid(g, s)
    ensures InGrid(g, t)
  {
    var h := CursorHide(g, s);
    if ch == '\n' then MoveOn(g, h, 0, h.row + 1)
    else if ch == '\U{08}' then Backspace(g, h)
    else
      var p := h.(grid := Put(h.grid, h.row, h.col, ch));
      if p.col + 1 >= Cols(g) then MoveOn(g, p, 0, p.row + 1) else MoveOn(g, p, p.col + 1, p.row)
  }

  // ---- glyphs ----

  /** 96 glyphs of eight row bytes each, for the characters 0x20 to 0x7F. */
  type Font = seq<seq<nat>>

  predicate GoodFont(font: Font) {
    && |font| == 96 && (forall i :: 0 <= i < 96 ==> |font[i]| == GLYPH)
    && (forall j :: 0 <= j < GLYPH ==> font[0][j] == 0)
  }

  function Pow2(n: nat): (r: nat)
    ensures r > 0
  {
    if n == 0 then 1 else 2 * Pow2(n - 1)
  }

  /** Is the pixel at column x, row y of the character's glyph lit? The leftmost pixel is the top bit. */
  predicate GlyphBit(font: Font, ch: char, x: nat, y: nat)
    requires GoodFont(font) && x < GLYPH && y < GLYPH
  {
    var idx := ch as nat;
    var glyph := if 0x20 <= idx <= 0x7F then font[idx - 0x20] else font[0];
    glyph[y] / Pow2(7 - x) % 2 != 0
  }

  lemma SpaceIsBlank(font: Font, x: nat, y: nat)
    requires GoodFont(font) && x < GLYPH && y < GLYPH
    ensures !GlyphBit(font, ' ', x, y)
  {
  }

  // ---- pixels ----

  /** The colours of the frame buffer, pixel by pixel, in scan order. */
  type Pixels = seq<Color>

  function At(g: Geometry, x: nat, y: nat): nat {
    y * g.stride + x
  }

  lemma AtBound(g: Geometry, x: nat, y: nat)
    requires x < g.stride && y < g.lines
    ensures At(g, x, y) < g.lines * g.stride
  {
    assert (y + 1) * g.stride <= g.lines * g.stride;
  }

  lemma AtInjective(g: Geometry, x: nat, y: nat, x': nat, y': nat)
    requires x < g.stride && x' < g.stride && (x != x' || y != y')
    ensures At(g, x, y) != At(g, x', y')
  {
    if y < y' {
      assert (y + 1) * g.stride <= y' * g.stride;
    } else if y' < y {
      assert (y' + 1) * g.stride <= y * g.stride;
    }
  }

  /** The colour a screen calls for at a pixel of the text area; the cursor cell is inverted while it blinks. */
  function Wanted(g: Geometry, font: Font, fg: Color, bg: Color, s: Screen, x: nat, y: nat): Color
    requires GoodFont(font) && InGrid(g, s) && x < Cols(g) * GLYPH && y < Rows(g) * GLYPH
  {
    var c, r := x / GLYPH, y / GLYPH;
    var inverted := s.blink && c == s.col && r == s.row;
    if GlyphBit(font, s.grid[r][c], x % GLYPH, y % GLYPH) != inverted then fg else bg
  }

  ghost predicate TextShows(px: Pixels, g: Geometry, font: Font, fg: Color, bg: Color, s: Screen)
    requires GoodGeometry(g) && GoodFont(font) && InGrid(g, s) && |px| == g.lines * g.stride
  {
    forall x, y {:trigger At(g, x, y)} :: 0 <= x < Cols(g) * GLYPH && 0 <= y < Rows(g) * GLYPH ==>
      At(g, x, y) < |px| && px[At(g, x, y)] == Wanted(g, font, fg, bg, s, x, y)
  }

  /** The scan lines below the last text row are background, so that scrolling brings in background. */
  ghost predicate BelowIsBlank(px: Pixels, g: Geometry, bg: Color)
    requires |px| == g.lines * g.stride
  {
    forall x, y {:trigger At(g, x, y)} :: 0 <= x < Cols(g) * GLYPH && Rows(g) * GLYPH <= y < g.lines ==>
      At(g, x, y) < |px| && px[At(g, x, y)] == bg
  }

  ghost predicate Shows(px: Pixels, g: Geometry, font: Font, fg: Color, bg: Color, s: Screen) {
    && GoodGeometry(g) && GoodFont(font) && InGrid(g, s) && |px| == g.lines * g.stride
    && TextShows(px, g, font, fg, bg, s) && BelowIsBlank(px, g, bg)
  }

  /** What a shown screen puts at pixel (x, y) of cell (c, r): the font's bit, the leftmost pixel being the top
      bit of the row byte, in the text colour; inverted in the cursor's cell while the cursor shows. */
  lemma PixelOfCell(px: Pixels, g: Geometry, font: Font, fg: Color, bg: Color, s: Screen, c: nat, r: nat, x: nat, y: nat)
    requires Shows(px, g, font, fg, bg, s) && c < Cols(g) && r < Rows(g) && x < 8 && y < 8
    ensures var ch, p := s.grid[r][c], (8 * r + y) * g.stride + 8 * c + x;
      var glyph := if ' ' <= ch <= '\U{7F}' then font[ch as int - 32] else font[0];
      var lit := glyph[y] / [128, 64, 32, 16, 8, 4, 2, 1][x] % 2 == 1;
      p < |px| && px[p] == if lit != (s.blink && c == s.col && r == s.row) then fg else bg
  {
    var x', y' := 8 * c + x, 8 * r + y;
    PowersOfTwo();
    assert x' / 8 == c && x' % 8 == x && y' / 8 == r && y' % 8 == y;
    assert px[At(g, x', y')] == Wanted(g, font, fg, bg, s, x', y');
  }

  lemma PowersOfTwo()
    ensures Pow2(7) == 128 && Pow2(6) == 64 && Pow2(5) == 32 && Pow2(4) == 16
    ensures Pow2(3) == 8 && Pow2(2) == 4 && Pow2(1) == 2 && Pow2(0) == 1
  {
    assert Pow2(3) == 8;
    assert Pow2(5) == 32;
  }

  /** px' is px with one glyph drawn in the cell (c, r). */
  ghost predicate Blitted(px: Pixels, px': Pixels, g: Geometry, font: Font, ch: char, c: nat, r: nat, on: Color,
          off: Color)
    requires GoodFont(font)
  {
    && |px'| == |px| == g.lines * g.stride
    && forall x, y {:trigger At(g, x, y)} :: 0 <= x < g.stride && 0 <= y < g.lines ==>
         At(g, x, y) < |px| && px'[At(g, x, y)] ==
           if c * GLYPH <= x < c * GLYPH + GLYPH && r * GLYPH <= y < r * GLYPH + GLYPH
           then (if GlyphBit(font, ch, x - c * GLYPH, y - r * GLYPH) then on else off)
           else px[At(g, x, y)]
  }

  /** Drawing a glyph in the cursor cell, inverted or not, shows the grid with that character there,
      and the cursor as visible as it was drawn. */
  lemma BlitShows(px: Pixels, px': Pixels, g: Geometry, font: Font, fg: Color, bg: Color, s: Screen, ch: char,
          visible: bool)
    requires Shows(px, g, font, fg, bg, s)
    requires Blitted(px, px', g, font, ch, s.col, s.row, if visible then bg else fg, if visible then fg else bg)
    ensures Shows(px', g, font, fg, bg, s.(grid := Put(s.grid, s.row, s.col, ch), blink := visible))
  {
    var t := s.(grid := Put(s.grid, s.row, s.col, ch), blink := visible);
    forall x, y | 0 <= x < Cols(g) * GLYPH && 0 <= y < Rows(g) * GLYPH
      ensures At(g, x, y) < |px'| && px'[At(g, x, y)] == Wanted(g, font, fg, bg, t, x, y)
    {
      assert px[At(g, x, y)] == Wanted(g, font, fg, bg, s, x, y);
    }
    forall x, y | 0 <= x < Cols(g) * GLYPH && Rows(g) * GLYPH <= y < g.lines
      ensures At(g, x, y) < |px'| && px'[At(g, x, y)] == bg
    {
      assert px[At(g, x, y)] == bg;
    }
  }

  /** Once the cursor is hidden it may be anywhere: only the grid matters. */
  lemma HiddenCursorMoves(px: Pixels, g: Geometry, font: Font, fg: Color, bg: Color, s: Screen, t: Screen)
    requires Shows(px, g, font, fg, bg, s) && !s.blink && !t.blink && t.grid == s.grid && InGrid(g, t)
    ensures Shows(px, g, font, fg, bg, t)
  {
    forall x, y | 0 <= x < Cols(g) * GLYPH && 0 <= y < Rows(g) * GLYPH
      ensures At(g, x, y) < |px| && px[At(g, x, y)] == Wanted(g, font, fg, bg, t, x, y)
    {
      assert px[At(g, x, y)] == Wanted(g, font, fg, bg, s, x, y);
    }
  }

  /** px' is px moved up by one glyph row of scan lines, with background coming in from below. */
  ghost predicate Shifted(px: Pixels, px': Pixels, g: Geometry, bg: Color) {
    && |px'| == |px| == g.lines * g.stride
    && forall q :: 0 <= q < |px| ==>
         px'[q] == if q + GLYPH * g.stride < |px| then px[q + GLYPH * g.stride] else bg
  }

  lemma AtBelow(g: Geometry, x: nat, y: nat)
    requires x < g.stride && y < g.lines
    ensures At(g, x, y) + GLYPH * g.stride == At(g, x, y + GLYPH)
    ensures At(g, x, y + GLYPH) < g.lines * g.stride <==> y + GLYPH < g.lines
    ensures At(g, x, y) < g.lines * g.stride
  {
    AtBound(g, x, y);
    assert (y + GLYPH) * g.stride == y * g.stride + GLYPH * g.stride;
    if y + GLYPH < g.lines {
      AtBound(g, x, y + GLYPH);
    } else {
      assert (y + GLYPH) * g.stride >= g.lines * g.stride;
    }
  }

  /** Scrolling the pixels is dropping the top grid row, whatever the height is modulo the glyph height. */
  lemma ShiftShows(px: Pixels, px': Pixels, g: Geometry, font: Font, fg: Color, bg: Color, s: Screen)
    requires Shows(px, g, font, fg, bg, s) && !s.blink && Shifted(px, px', g, bg)
    ensures Shows(px', g, font, fg, bg, s.(grid := ScrollGrid(g, s.grid)))
  {
    var t := s.(grid := ScrollGrid(g, s.grid));
    forall x, y | 0 <= x < Cols(g) * GLYPH && 0 <= y < g.lines
      ensures At(g, x, y) < |px'|
      ensures px'[At(g, x, y)] == if y < Rows(g) * GLYPH then Wanted(g, font, fg, bg, t, x, y) else bg
    {
      AtBelow(g, x, y);
      SpaceIsBlank(font, x % GLYPH, y % GLYPH);
      if y + GLYPH < Rows(g) * GLYPH {
        assert px[At(g, x, y + GLYPH)] == Wanted(g, font, fg, bg, s, x, y + GLYPH);
        assert (y + GLYPH) / GLYPH == y / GLYPH + 1 && (y + GLYPH) % GLYPH == y % GLYPH;
        assert t.grid[y / GLYPH] == s.grid[y / GLYPH + 1];
      } else {
        assert y + GLYPH < g.lines ==> px[At(g, x, y + GLYPH)] == bg;
        if y < Rows(g) * GLYPH {
          assert y / GLYPH == Rows(g) - 1;
          assert t.grid[y / GLYPH] == BlankRow(g);
        }
      }
    }
  }

  lemma FilledShows(px: Pixels, g: Geometry, font: Font, fg: Color, bg: Color)
    requires GoodGeometry(g) && GoodFont(font) && |px| == g.lines * g.stride
    requires forall q :: 0 <= q < |px| ==> px[q] == bg
    ensures Shows(px, g, font, fg, bg, Blank(g))
  {
    forall x, y | 0 <= x < Cols(g) * GLYPH && 0 <= y < g.lines
      ensures At(g, x, y) < |px| && px[At(g, x, y)] == bg
      ensures y < Rows(g) * GLYPH ==> Wanted(g, font, fg, bg, Blank(g), x, y) == bg
    {
      AtBound(g, x, y);
      SpaceIsBlank(font, x % GLYPH, y % GLYPH);
    }
  }

  // ---- what a call is meant to do to the text ----

  datatype Op = OpWrite(ch: char) | OpBackspace | OpClear | OpShow(ch: char) | OpHide | OpTick | OpSetCol(col: nat)

  function Apply(g: Geometry, s: Screen, op: Op): (t: Screen)
    requires GoodGeometry(g) && InGrid(g, s)
    ensures InGrid(g, t)
  {
    match op
    case OpWrite(ch) => WriteChar(g, s, ch)
    case OpBackspace => Backspace(g, s)
    case OpClear => Blank(g)
    case OpShow(ch) => CursorShow(g, s, ch)
    case OpHide => CursorHide(g, s)
    case OpTick => Tick(g, s)
    case OpSetCol(col) => SetCol(g, s, col)
  }

  function ApplyAll(g: Geometry, s: Screen, ops: seq<Op>): (t: Screen)
    requires GoodGeometry(g) && InGrid(g, s)
    ensures InGrid(g, t)
    decreases |ops|
  {
    if ops == [] then s else ApplyAll(g, Apply(g, s, ops[0]), ops[1..])
  }

  /** The character in the cursor's cell. */
  function CursorCell(g: Geometry, s: Screen): char
    requires InGrid(g, s)
  {
    s.grid[s.row][s.col]
  }

  predicate Printable(ch: char) {
    ch != '\n' && ch != '\U{08}'
  }

  /** The text a call is meant to leave, had the cursor no drawing of its own: a printed character in its
      cell, the cell before the cursor blanked, a row scrolled away; moving or blinking changes nothing. */
  function Meant(g: Geometry, s: Screen, op: Op): seq<seq<char>>
    requires GoodGeometry(g) && InGrid(g, s)
  {
    match op
    case OpWrite(ch) =>
      if ch == '\n' then (if s.row + 1 < Rows(g) then s.grid else ScrollGrid(g, s.grid))
      else if ch == '\U{08}' then BlankBefore(g, s)
      else
        var grid := Put(s.grid, s.row, s.col, ch);
        if s.col + 1 == Cols(g) && s.row + 1 == Rows(g) then ScrollGrid(g, grid) else grid
    case OpBackspace => BlankBefore(g, s)
    case OpClear => seq(Rows(g), i => BlankRow(g))
    case _ => s.grid
  }

  function BlankBefore(g: Geometry, s: Screen): seq<seq<char>>
    requires GoodGeometry(g) && InGrid(g, s)
  {
    if s.col > 0 then Put(s.grid, s.row, s.col - 1, ' ')
    else if s.row > 0 then Put(s.grid, s.row - 1, Cols(g) - 1, ' ')
    else s.grid
  }

  /** Does the call draw a character in the cursor's cell that is still there afterwards, and which? A
      printed character replaces it, and the only row there is scrolls it away. */
  function Restored(g: Geometry, s: Screen, op: Op): seq<char>
    requires InGrid(g, s)
  {
    match op
    case OpWrite(ch) => if Printable(ch) || (ch == '\n' && Rows(g) == 1) then [] else [s.cursorChar]
    case OpShow(ch) => [ch]
    case OpClear => []
    case OpSetCol(_) => []
    case _ => [s.cursorChar]
  }

  /** For every call: it leaves the text it is meant to leave exactly if the character it restores in the
      cursor's cell, when it restores one, is the character that is there. */
  lemma CursorKeepsTextIff(g: Geometry, s: Screen, op: Op)
    requires GoodGeometry(g) && InGrid(g, s)
    ensures Apply(g, s, op).grid == Meant(g, s, op) <==> (Restored(g, s, op) == [] || Restored(g, s, op) == [CursorCell(g, s)])
  {
    match op
    case OpWrite(ch) =>
      StampKeepsIff(g, s, s.cursorChar);
      if ch == '\n' {
        if s.row + 1 == Rows(g) { ScrollKeepsIff(g, s, s.cursorChar); }
      } else if ch == '\U{08}' {
        BackspaceKeepsIff(g, s);
      } else {
        PutTwice(s.grid, s.row, s.col, s.cursorChar, ch);
      }
    case OpBackspace => BackspaceKeepsIff(g, s);
    case OpShow(ch) => StampKeepsIff(g, s, ch);
    case OpClear =>
    case OpSetCol(_) =>
    case _ => StampKeepsIff(g, s, s.cursorChar);
  }

  lemma StampKeepsIff(g: Geometry, s: Screen, ch: char)
    requires InGrid(g, s)
    ensures Put(s.grid, s.row, s.col, ch) == s.grid <==> ch == CursorCell(g, s)
  {
    if ch == CursorCell(g, s) {
      assert s.grid[s.row][s.col := ch] == s.grid[s.row];
    } else {
      assert Put(s.grid, s.row, s.col, ch)[s.row][s.col] == ch;
    }
  }

  lemma PutTwice(grid: seq<seq<char>>, r: nat, c: nat, a: char, b: char)
    requires r < |grid| && c < |grid[r]|
    ensures Put(Put(grid, r, c, a), r, c, b) == Put(grid, r, c, b)
  {
    assert grid[r][c := a][c := b] == grid[r][c := b];
  }

  /** A row that scrolls up keeps its stamped cell, unless it is the top row and is dropped. */
  lemma ScrollKeepsIff(g: Geometry, s: Screen, ch: char)
    requires GoodGeometry(g) && InGrid(g, s) && s.row + 1 == Rows(g)
    ensures ScrollGrid(g, Put(s.grid, s.row, s.col, ch)) == ScrollGrid(g, s.grid) <==> Rows(g) == 1 || ch == CursorCell(g, s)
  {
    StampKeepsIff(g, s, ch);
    var a, b := ScrollGrid(g, Put(s.grid, s.row, s.col, ch)), ScrollGrid(g, s.grid);
    if Rows(g) > 1 {
      assert a[s.row - 1] == s.grid[s.row][s.col := ch] && b[s.row - 1] == s.grid[s.row];
      assert a[s.row - 1][s.col] == ch;
    } else {
      assert a == b;
    }
  }

  lemma BackspaceKeepsIff(g: Geometry, s: Screen)
    requires GoodGeometry(g) && InGrid(g, s)
    ensures Backspace(g, s).grid == BlankBefore(g, s) <==> s.cursorChar == CursorCell(g, s)
    ensures WriteChar(g, s, '\U{08}').grid == Backspace(g, s).grid
  {
    StampKeepsIff(g, s, s.cursorChar);
    var b := Backspace(g, s).grid;
    assert b[s.row][s.col] == s.cursorChar;
    assert BlankBefore(g, s)[s.row][s.col] == CursorCell(g, s);
    var h := CursorHide(g, s);
    assert Put(h.grid, s.row, s.col, s.cursorChar) == h.grid by { PutTwice(s.grid, s.row, s.col, s.cursorChar, s.cursorChar); }
  }

  /** The remembered character can go stale: show the cursor on an 'x', overwrite it, and the next blink,
      or the next newline, draws an 'x' one cell further on, where nothing was written. */
  lemma StaleCursorChar(g: Geometry)
    requires GoodGeometry(g) && Cols(g) >= 2
    ensures var s := WriteChar(g, CursorShow(g, Blank(g), 'x'), 'y');
      && s.grid[0][0] == 'y' && s.grid[0][1] == ' '
      && Tick(g, s).grid[0][1] == 'x'
      && (Rows(g) >= 2 ==> WriteChar(g, s, '\n').grid[0][1] == 'x')
  {
  }

  // ---- text ----

  function WriteAll(g: Geometry, s: Screen, text: string): (t: Screen)
    requires GoodGeometry(g) && InGrid(g, s)
    ensures InGrid(g, t)
    decreases |text|
  {
    if text == "" then s else WriteAll(g, WriteChar(g, s, text[0]), text[1..])
  }

  /** Printing text that fits in the row puts exactly that text there, moves the cursor past it and leaves
      every other cell alone, even if the remembered cursor character was stale. */
  lemma {:induction false} PrintedInPlace(g: Geometry, s: Screen, text: string)
    requires GoodGeometry(g) && InGrid(g, s) && s.col + |text| < Cols(g)
    requires text != "" && forall i :: 0 <= i < |text| ==> Printable(text[i])
    ensures var t, row := WriteAll(g, s, text), s.grid[s.row];
      && t.grid == s.grid[s.row := row[..s.col] + text + row[s.col + |text|..]]
      && t.row == s.row && t.col == s.col + |text| && !t.blink && t.cursorChar == s.cursorChar
    decreases |text|
  {
    var one, row := WriteChar(g, s, text[0]), s.grid[s.row];
    var oneRow := row[..s.col] + [text[0]] + row[s.col + 1..];
    assert one.grid[s.row] == oneRow;
    assert one.grid == s.grid[s.row := oneRow];
    if |text| == 1 {
      assert text == [text[0]];
      assert WriteAll(g, one, text[1..]) == one;
    } else {
      PrintedInPlace(g, one, text[1..]);
      assert oneRow[..s.col + 1] + text[1..] + oneRow[s.col + |text|..] == row[..s.col] + text + row[s.col + |text|..];
    }
  }

  lemma {:induction false} WriteOneMore(g: Geometry, s: Screen, text: string, ch: char)
    requires GoodGeometry(g) && InGrid(g, s)
    ensures WriteAll(g, s, text + [ch]) == WriteChar(g, WriteAll(g, s, text), ch)
    decreases |text|
  {
    if text == "" {
      assert text + [ch] == [ch] && [ch][1..] == "";
    } else {
      assert (text + [ch])[1..] == text[1..] + [ch];
      WriteOneMore(g, WriteChar(g, s, text[0]), text[1..], ch);
    }
  }

  lemma NewlineKeepsIff(g: Geometry, s: Screen)
    requires GoodGeometry(g) && InGrid(g, s)
    ensures WriteChar(g, s, '\n').grid == (if s.row + 1 < Rows(g) then s.grid else ScrollGrid(g, s.grid)) <==>
      Rows(g) == 1 || s.cursorChar == CursorCell(g, s)
  {
    CursorKeepsTextIff(g, s, OpWrite('\n'));
  }

  /** Main theorem about printed lines: any text that fits in the row, and a newline, show exactly that
      text and nothing else if and only if the remembered character is the one in the cell after the text
      (or the row is the only one and scrolls away). */
  lemma PrintedLineIff(g: Geometry, s: Screen, text: string)
    requires GoodGeometry(g) && InGrid(g, s) && s.col + |text| < Cols(g)
    requires forall i :: 0 <= i < |text| ==> Printable(text[i])
    ensures var row := s.grid[s.row];
      var lined := s.grid[s.row := row[..s.col] + text + row[s.col + |text|..]];
      WriteAll(g, s, text + "\n").grid == (if s.row + 1 < Rows(g) then lined else ScrollGrid(g, lined)) <==>
        Rows(g) == 1 || s.cursorChar == row[s.col + |text|]
  {
    hide WriteChar, ScrollGrid;
    var row, t := s.grid[s.row], WriteAll(g, s, text);
    var lined := s.grid[s.row := row[..s.col] + text + row[s.col + |text|..]];
    WriteOneMore(g, s, text, '\n');
    assert text + "\n" == text + ['\n'];
    assert t.grid == lined && t.row == s.row && t.col == s.col + |text| && t.cursorChar == s.cursorChar by {
      if text == "" {
        assert row[..s.col] + text + row[s.col..] == row;
      } else {
        PrintedInPlace(g, s, text);
      }
    }
    assert CursorCell(g, t) == row[s.col + |text|];
    NewlineKeepsIff(g, t);
  }

  /** A visible cursor that is moved without being drawn is left behind on the screen, unless the two
      colours are the same. */
  lemma VisibleCursorStays(px: Pixels, g: Geometry, font: Font, fg: Color, bg: Color, s: Screen, col: nat)
    requires Shows(px, g, font, fg, bg, s) && s.blink && col < Cols(g) && col != s.col && fg != bg
    ensures !Shows(px, g, font, fg, bg, s.(col := col))
  {
    var x, y := s.col * GLYPH, s.row * GLYPH;
    assert px[At(g, x, y)] == Wanted(g, font, fg, bg, s, x, y);
    assert Wanted(g, font, fg, bg, s, x, y) != Wanted(g, font, fg, bg, s.(col := col), x, y);
  }

  /** With one colour everything shows alike. */
  lemma OneColorShows(px: Pixels, g: Geometry, font: Font, c: Color, s: Screen, t: Screen)
    requires Shows(px, g, font, c, c, s) && InGrid(g, t)
    ensures Shows(px, g, font, c, c, t)
  {
    forall x, y | 0 <= x < Cols(g) * GLYPH && 0 <= y < Rows(g) * GLYPH
      ensures At(g, x, y) < |px| && px[At(g, x, y)] == c
    {
      assert px[At(g, x, y)] == Wanted(g, font, c, c, s, x, y);
    }
  }
}
