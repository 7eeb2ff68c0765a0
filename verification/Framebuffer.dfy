/** The console writer as it runs: bytes of a frame buffer changed in place. `screen` is the grid the
    bytes are proved to show after every call. */
module Framebuffer {
  import opened Console

  type Byte = b: int | 0 <= b < 256

  /** The colour stored at pixel p: blue, green, red, in that order. */
  function ColorAt(buf: seq<Byte>, bpp: nat, n: nat, p: nat): Color
    requires bpp >= 3 && |buf| == n * bpp && p < n
  {
    PixelInside(bpp, n, p);
    Color(buf[p * bpp + 2], buf[p * bpp + 1], buf[p * bpp])
  }

  lemma PixelInside(bpp: nat, n: nat, p: nat)
    requires p < n
    ensures 0 <= p * bpp && p * bpp + bpp <= n * bpp
  {
    assert (p + 1) * bpp <= n * bpp;
  }

  lemma PixelsApart(bpp: nat, p: nat, q: nat)
    requires p != q
    ensures p * bpp + bpp <= q * bpp || q * bpp + bpp <= p * bpp
  {
    if p < q {
      assert (p + 1) * bpp <= q * bpp;
    } else {
      assert (q + 1) * bpp <= p * bpp;
    }
  }

  function Colors(buf: seq<Byte>, bpp: nat, n: nat): (px: Pixels)
    requires bpp >= 3 && |buf| == n * bpp
    ensures |px| == n
  {
    seq(n, p requires 0 <= p < n => ColorAt(buf, bpp, n, p))
  }

  /** Bytes moved down by k pixels are pixels moved down by k. */
  lemma CopiedColors(was: seq<Byte>, now: seq<Byte>, bpp: nat, n: nat, k: nat)
    requires bpp >= 3 && |was| == |now| == n * bpp && k <= n
    requires forall i :: 0 <= i < n * bpp - k * bpp ==> i + k * bpp < |was| && now[i] == was[i + k * bpp]
    ensures forall q :: 0 <= q < n - k ==> Colors(now, bpp, n)[q] == Colors(was, bpp, n)[q + k]
  {
    forall q | 0 <= q < n - k
      ensures Colors(now, bpp, n)[q] == Colors(was, bpp, n)[q + k]
    {
      PixelInside(bpp, n, q + k);
      PixelInside(bpp, n - k, q);
      var i := q * bpp;
      assert (q + k) * bpp == i + k * bpp;
      assert (n - k) * bpp == n * bpp - k * bpp;
      assert now[i] == was[i + k * bpp] && now[i + 1] == was[i + 1 + k * bpp] && now[i + 2] == was[i + 2 + k * bpp];
    }
  }

  class Writer {
    const buffer: array<Byte>
    const g: Geometry
    const bpp: nat
    const font: Font
    const fg: Color
    const bg: Color
    var col: nat
    var row: nat
    var blinkOn: bool
    var cursorChar: char
    /** The grid this buffer shows. */
    ghost var screen: Screen

    ghost predicate Sized()
      reads this
    {
      && bpp >= 3 && GoodGeometry(g) && GoodFont(font) && buffer.Length == g.lines * g.stride * bpp
      && fg.r < 256 && fg.g < 256 && fg.b < 256 && bg.r < 256 && bg.g < 256 && bg.b < 256
    }

    ghost function Px(): Pixels
      requires Sized()
      reads this, buffer
    {
      Colors(buffer[..], bpp, g.lines * g.stride)
    }

    ghost predicate Valid()
      reads this, buffer
    {
      && Sized()
      && col == screen.col && row == screen.row && blinkOn == screen.blink && cursorChar == screen.cursorChar
      && Shows(Px(), g, font, fg, bg, screen)
    }

    /** `new`: nothing is known of what the buffer shows until the first `Clear`. */
    constructor (buffer: array<Byte>, g: Geometry, bpp: nat, font: Font)
      requires bpp >= 3 && GoodGeometry(g) && GoodFont(font) && buffer.Length == g.lines * g.stride * bpp
      ensures Sized() && this.buffer == buffer && this.g == g && this.bpp == bpp && this.font == font
      ensures fg == Color(255, 255, 255) && bg == Color(0, 0, 0)
      ensures col == 0 && row == 0 && !blinkOn && cursorChar == ' '
    {
      this.buffer, this.g, this.bpp, this.font := buffer, g, bpp, font;
      fg, bg := Color(255, 255, 255), Color(0, 0, 0);
      col, row, blinkOn, cursorChar := 0, 0, false, ' ';
    }

    /** Store one pixel: three colour bytes and, at four bytes a pixel, an opaque alpha. */
    method PutPixel(p: nat, color: Color)
      requires Sized() && p < g.lines * g.stride && color.r < 256 && color.g < 256 && color.b < 256
      modifies buffer
      ensures Px() == old(Px())[p := color]
      ensures 0 <= p * bpp && p * bpp + bpp <= buffer.Length
      ensures buffer[p * bpp] == color.b && buffer[p * bpp + 1] == color.g && buffer[p * bpp + 2] == color.r
      ensures bpp == 4 ==> buffer[p * bpp + 3] == 0xFF
      ensures forall i :: 0 <= i < buffer.Length && !(p * bpp <= i < p * bpp + if bpp == 4 then 4 else 3) ==>
        buffer[i] == old(buffer[i])
    {
      ghost var n := g.lines * g.stride;
      PixelInside(bpp, n, p);
      var offset := p * bpp;
      buffer[offset] := color.b;
      buffer[offset + 1] := color.g;
      buffer[offset + 2] := color.r;
      if bpp == 4 { buffer[offset + 3] := 0xFF; }
      forall q | 0 <= q < n
        ensures Px()[q] == if q == p then color else old(Px())[q]
      {
        PixelInside(bpp, n, q);
        if q != p { PixelsApart(bpp, p, q); }
      }
    }

    /** `write_glyph` in the cell of the text cursor. */
    method WriteGlyph(ch: char, on: Color, off: Color)
      requires Sized() && col < Cols(g) && row < Rows(g)
      requires on.r < 256 && on.g < 256 && on.b < 256 && off.r < 256 && off.g < 256 && off.b < 256
      modifies buffer
      ensures Blitted(old(Px()), Px(), g, font, ch, col, row, on, off)
    {
      hide Drawn, Blitted, GlyphBit, Colors;
      var px, py := col * GLYPH, row * GLYPH;
      ghost var before := Px();
      StartDrawing(before, ch, on, off);
      for r := 0 to GLYPH
        invariant Drawn(before, Px(), ch, on, off, r, 0)
      {
        for c := 0 to GLYPH
          invariant Drawn(before, Px(), ch, on, off, r, c)
        {
          var color := if GlyphBit(font, ch, c, r) then on else off;
          AtBound(g, px + c, py + r);
          var p := (py + r) * g.stride + (px + c);
          ghost var now := Px();
          if p * bpp + bpp <= buffer.Length {
            PutPixel(p, color);
          } else {
            PixelInside(bpp, g.lines * g.stride, p);
            assert false;
          }
          DrawnOneMore(before, now, ch, on, off, r, c);
        }
        NextRow(before, Px(), ch, on, off, r);
      }
      AllDrawn(before, Px(), ch, on, off);
    }

    lemma AllDrawn(before: Pixels, now: Pixels, ch: char, on: Color, off: Color)
      requires GoodFont(font) && Drawn(before, now, ch, on, off, GLYPH, 0)
      ensures Blitted(before, now, g, font, ch, col, row, on, off)
    {
    }

    /** Rows 0 to r of the glyph, and columns 0 to c of row r, are drawn. */
    ghost predicate Drawn(before: Pixels, now: Pixels, ch: char, on: Color, off: Color, r: nat, c: nat)
      requires GoodFont(font)
      reads this
    {
      && |now| == |before| == g.lines * g.stride
      && forall x, y {:trigger At(g, x, y)} :: 0 <= x < g.stride && 0 <= y < g.lines ==>
           At(g, x, y) < |before| && now[At(g, x, y)] ==
             if InCell(x, y) && (y - row * GLYPH < r || (y - row * GLYPH == r && x - col * GLYPH < c))
             then (if GlyphBit(font, ch, x - col * GLYPH, y - row * GLYPH) then on else off)
             else before[At(g, x, y)]
    }

    ghost predicate InCell(x: nat, y: nat)
      reads this
    {
      col * GLYPH <= x < col * GLYPH + GLYPH && row * GLYPH <= y < row * GLYPH + GLYPH
    }

    lemma StartDrawing(px: Pixels, ch: char, on: Color, off: Color)
      requires GoodFont(font) && |px| == g.lines * g.stride
      ensures Drawn(px, px, ch, on, off, 0, 0)
    {
      forall x, y | 0 <= x < g.stride && 0 <= y < g.lines
        ensures At(g, x, y) < |px|
      {
        AtBound(g, x, y);
      }
    }

    lemma DrawnOneMore(before: Pixels, now: Pixels, ch: char, on: Color, off: Color, r: nat, c: nat)
      requires GoodGeometry(g) && GoodFont(font) && r < GLYPH && c < GLYPH && col < Cols(g) && row < Rows(g)
      requires Drawn(before, now, ch, on, off, r, c)
      ensures var p := At(g, col * GLYPH + c, row * GLYPH + r);
        p < |now| && Drawn(before, now[p := if GlyphBit(font, ch, c, r) then on else off], ch, on, off, r, c + 1)
    {
      hide GlyphBit, GoodFont;
      var x0, y0 := col * GLYPH + c, row * GLYPH + r;
      AtBound(g, x0, y0);
      var after := now[At(g, x0, y0) := if GlyphBit(font, ch, c, r) then on else off];
      forall x, y | 0 <= x < g.stride && 0 <= y < g.lines
        ensures At(g, x, y) < |before| && after[At(g, x, y)] ==
          if InCell(x, y) && (y - row * GLYPH < r || (y - row * GLYPH == r && x - col * GLYPH < c + 1))
          then (if GlyphBit(font, ch, x - col * GLYPH, y - row * GLYPH) then on else off)
          else before[At(g, x, y)]
      {
        if x != x0 || y != y0 { AtInjective(g, x, y, x0, y0); }
      }
    }

    lemma NextRow(before: Pixels, now: Pixels, ch: char, on: Color, off: Color, r: nat)
      requires GoodFont(font) && Drawn(before, now, ch, on, off, r, GLYPH)
      ensures Drawn(before, now, ch, on, off, r + 1, 0)
    {
      forall x, y | 0 <= x < g.stride && 0 <= y < g.lines
        ensures At(g, x, y) < |before| && now[At(g, x, y)] ==
          if InCell(x, y) && (y - row * GLYPH < r + 1 || (y - row * GLYPH == r + 1 && x - col * GLYPH < 0))
          then (if GlyphBit(font, ch, x - col * GLYPH, y - row * GLYPH) then on else off)
          else before[At(g, x, y)]
      {
        assert At(g, x, y) < |before|;
      }
    }

    /** Fill every pixel from p on with the background. */
    method FillFrom(start: nat)
      requires Sized() && start <= g.lines * g.stride
      modifies buffer
      ensures forall q :: 0 <= q < g.lines * g.stride ==> Px()[q] == if q < start then old(Px())[q] else bg
    {
      var n := g.lines * g.stride;
      for p := start to n
        invariant forall q :: 0 <= q < n ==> Px()[q] == if start <= q < p then bg else old(Px())[q]
      {
        PutPixel(p, bg);
      }
    }

    /** `draw_cursor_cell` */
    method DrawCursorCell(visible: bool)
      requires Valid()
      modifies buffer, this`screen, this`blinkOn
      ensures Valid() && screen == Stamp(g, old(screen).(blink := visible))
    {
      if visible { WriteGlyph(cursorChar, bg, fg); } else { WriteGlyph(cursorChar, fg, bg); }
      BlitShows(old(Px()), Px(), g, font, fg, bg, screen, cursorChar, visible);
      screen := Stamp(g, screen.(blink := visible));
      blinkOn := visible;
    }

    method CursorShow(ch: char)
      requires Valid()
      modifies buffer, this`screen, this`blinkOn, this`cursorChar
      ensures Valid() && screen == Console.CursorShow(g, old(screen), ch)
    {
      cursorChar := ch;
      WriteGlyph(cursorChar, bg, fg);
      BlitShows(old(Px()), Px(), g, font, fg, bg, screen, ch, true);
      screen := Console.CursorShow(g, screen, ch);
      blinkOn := true;
      SameTextShows(old(screen).(grid := screen.grid, blink := true));
    }

    /** The remembered character itself is not on display. */
    lemma SameTextShows(s: Screen)
      requires Sized() && Shows(Px(), g, font, fg, bg, s)
      requires screen.grid == s.grid && screen.col == s.col && screen.row == s.row && screen.blink == s.blink
      ensures Shows(Px(), g, font, fg, bg, screen)
    {
      var px := Px();
      forall x, y | 0 <= x < Cols(g) * GLYPH && 0 <= y < Rows(g) * GLYPH
        ensures At(g, x, y) < |px| && px[At(g, x, y)] == Wanted(g, font, fg, bg, screen, x, y)
      {
        assert px[At(g, x, y)] == Wanted(g, font, fg, bg, s, x, y);
      }
    }

    method CursorHide()
      requires Valid()
      modifies buffer, this`screen, this`blinkOn
      ensures Valid() && screen == Console.CursorHide(g, old(screen))
    {
      DrawCursorCell(false);
    }

    method TickCursor()
      requires Valid()
      modifies buffer, this`screen, this`blinkOn
      ensures Valid() && screen == Tick(g, old(screen))
    {
      DrawCursorCell(!blinkOn);
    }

    /** `set_col`. Nothing is drawn, so the bytes still show the screen exactly if the cursor was hidden or
        did not move (or cannot be told from the text at all). */
    method SetColumn(c: nat)
      requires Valid()
      modifies this`col, this`screen
      ensures screen == SetCol(g, old(screen), c) && col == screen.col
      ensures Valid() <==> !blinkOn || col == old(col) || fg == bg
    {
      ghost var moved := SetCol(g, screen, c);
      if !blinkOn {
        HiddenCursorMoves(Px(), g, font, fg, bg, screen, moved);
      } else if fg == bg {
        OneColorShows(Px(), g, font, fg, screen, moved);
      } else if moved.col != col {
        VisibleCursorStays(Px(), g, font, fg, bg, screen, moved.col);
      }
      col := if c < Cols(g) then c else Cols(g) - 1;
      screen := moved;
    }

    method ScrollUp()
      requires Valid() && !blinkOn
      modifies buffer, this`screen
      ensures Valid() && screen == old(screen).(grid := ScrollGrid(g, old(screen).grid))
    {
      hide Colors, TextShows, BelowIsBlank, Shifted;
      ghost var before := Px();
      CopyUp();
      ghost var copied := Px();
      EnoughLines();
      FillFrom(g.lines * g.stride - GLYPH * g.stride);
      CopiedAndFilled(before, copied, Px());
      ShiftShows(before, Px(), g, font, fg, bg, screen);
      screen := screen.(grid := ScrollGrid(g, screen.grid));
    }

    lemma CopiedAndFilled(before: Pixels, copied: Pixels, after: Pixels)
      requires |before| == |copied| == |after| == g.lines * g.stride && GLYPH * g.stride <= |before|
      requires forall q :: 0 <= q < |before| - GLYPH * g.stride ==> copied[q] == before[q + GLYPH * g.stride]
      requires forall q :: 0 <= q < |before| ==> after[q] == if q < |before| - GLYPH * g.stride then copied[q] else bg
      ensures Shifted(before, after, g, bg)
    {
    }

    lemma EnoughLines()
      requires GoodGeometry(g)
      ensures GLYPH * g.stride <= g.lines * g.stride
    {
    }

    /** `copy_within(row_bytes.., 0)` */
    method CopyUp()
      requires Sized()
      modifies buffer
      ensures forall q :: 0 <= q < g.lines * g.stride - GLYPH * g.stride ==> Px()[q] == old(Px())[q + GLYPH * g.stride]
    {
      hide Colors, ColorAt;
      EnoughLines();
      var rowBytes := g.stride * bpp * GLYPH;
      ghost var was := buffer[..];
      RowBytes();
      forall i | 0 <= i < buffer.Length - rowBytes {
        buffer[i] := buffer[i + rowBytes];
      }
      CopiedColors(was, buffer[..], bpp, g.lines * g.stride, GLYPH * g.stride);
    }

    lemma RowBytes()
      requires Sized()
      ensures 0 <= g.stride * bpp * GLYPH == GLYPH * g.stride * bpp <= g.lines * g.stride * bpp
    {
      EnoughLines();
      assert g.stride * bpp * GLYPH == (GLYPH * g.stride) * bpp;
      assert (g.lines * g.stride - GLYPH * g.stride) * bpp >= 0;
    }

    /** Nothing is asked of the buffer's contents before the first clear. */
    method Clear()
      requires Sized()
      modifies buffer, this`screen, this`col, this`row, this`blinkOn, this`cursorChar
      ensures Valid() && screen == Blank(g)
    {
      FillFrom(0);
      col, row, blinkOn, cursorChar := 0, 0, false, ' ';
      screen := Blank(g);
      FilledShows(Px(), g, font, fg, bg);
    }

    method Backspace()
      requires Valid()
      modifies buffer, this`screen, this`col, this`row, this`blinkOn
      ensures Valid() && screen == Console.Backspace(g, old(screen))
    {
      DrawCursorCell(false);
      if col == 0 && row == 0 { return; }
      ghost var h := screen;
      if col > 0 {
        col := col - 1;
      } else {
        row := row - 1;
        col := Cols(g) - 1;
      }
      screen := h.(col := col, row := row);
      HiddenCursorMoves(Px(), g, font, fg, bg, h, screen);
      DrawHere(' ');
    }

    /** Draw a character in the cell of the hidden cursor. */
    method DrawHere(ch: char)
      requires Valid() && !blinkOn
      modifies buffer, this`screen
      ensures Valid() && screen == old(screen).(grid := Put(old(screen).grid, row, col, ch))
    {
      WriteGlyph(ch, fg, bg);
      BlitShows(old(Px()), Px(), g, font, fg, bg, screen, ch, false);
      screen := screen.(grid := Put(screen.grid, row, col, ch));
    }

    method WriteChar(ch: char)
      requires Valid()
      modifies buffer, this`screen, this`col, this`row, this`blinkOn
      ensures Valid() && screen == Console.WriteChar(g, old(screen), ch)
    {
      DrawCursorCell(false);
      if ch == '\n' {
        MoveCursor(0, row + 1);
      } else if ch == '\U{08}' {
        Backspace();
      } else {
        DrawHere(ch);
        if col + 1 >= Cols(g) {
          MoveCursor(0, row + 1);
        } else {
          MoveCursor(col + 1, row);
        }
      }
    }

    /** `write_str` */
    method WriteStr(text: string)
      requires Valid()
      modifies buffer, this`screen, this`col, this`row, this`blinkOn
      ensures Valid() && screen == WriteAll(g, old(screen), text)
    {
      for i := 0 to |text|
        invariant Valid() && WriteAll(g, old(screen), text) == WriteAll(g, screen, text[i..])
      {
        assert text[i..][0] == text[i] && text[i..][1..] == text[i + 1..];
        WriteChar(text[i]);
      }
    }

    /** Place the hidden cursor, scrolling once if that is past the last row. */
    method MoveCursor(c: nat, r: nat)
      requires Valid() && !blinkOn && c < Cols(g) && r <= Rows(g)
      modifies buffer, this`screen, this`col, this`row
      ensures Valid() && screen == MoveOn(g, old(screen), c, r) && !blinkOn
    {
      if r >= Rows(g) { ScrollUp(); }
      ghost var s := screen;
      col := c;
      row := if r >= Rows(g) then Rows(g) - 1 else r;
      screen := s.(col := col, row := row);
      HiddenCursorMoves(Px(), g, font, fg, bg, s, screen);
    }

    /** Callers move the cursor only while it is hidden. */
    predicate HiddenMoves(s: Screen, ops: seq<Op>)
      requires GoodGeometry(g) && InGrid(g, s)
      decreases |ops|
    {
      ops == [] || ((ops[0].OpSetCol? ==> !s.blink) && HiddenMoves(Apply(g, s, ops[0]), ops[1..]))
    }

    /** Any run of calls: at its end, as after each of them, the bytes show the grid it comes to. */
    method Perform(ops: seq<Op>)
      requires Valid() && HiddenMoves(screen, ops)
      modifies buffer, this`screen, this`col, this`row, this`blinkOn, this`cursorChar
      ensures Valid() && screen == ApplyAll(g, old(screen), ops)
    {
      hide TextShows, BelowIsBlank, Colors;
      for i := 0 to |ops|
        invariant Valid() && HiddenMoves(screen, ops[i..])
        invariant ApplyAll(g, old(screen), ops) == ApplyAll(g, screen, ops[i..])
      {
        assert ops[i..][0] == ops[i] && ops[i..][1..] == ops[i + 1..];
        match ops[i]
        case OpWrite(ch) => WriteChar(ch);
        case OpBackspace => Backspace();
        case OpClear => Clear();
        case OpShow(ch) => CursorShow(ch);
        case OpHide => CursorHide();
        case OpTick => TickCursor();
        case OpSetCol(c) => SetColumn(c);
      }
    }
  }
}
