/**
 * The static framebuffer of oled_i2c.c and the routines that change it in
 * place: `oled_clear`, `oled_draw_pixel`, `oled_clear_line` and the drawing
 * loop of `render_text`. Each method is proved against the framebuffer
 * functions of `Framebuffer` and `Text`.
 */
module Oled {
  import opened Common
  import opened Framebuffer
  import opened Text
  import opened Utf8

  class Display {
    /** `static uint8_t buffer[OLED_WIDTH*OLED_HEIGHT/8]` (oled_i2c.c:15). */
    const buffer: array<byte>

    ghost predicate Valid()
      reads this
    {
      buffer.Length == SIZE
    }

    /** The zero-initialised static buffer, as `oled_init` leaves it (oled_i2c.c:15, 36). */
    constructor()
      ensures Valid() && fresh(buffer)
      ensures buffer[..] == Blank()
    {
      buffer := new byte[SIZE](_ => 0);
    }

    /** `oled_clear` (oled_i2c.c:51): every byte becomes 0. */
    method Clear()
      requires Valid()
      modifies buffer
      ensures buffer[..] == Blank()
    {
      forall i | 0 <= i < buffer.Length {
        buffer[i] := 0;
      }
    }

    /** `oled_draw_pixel` (oled_i2c.c:61-66): off-screen coordinates are ignored. */
    method DrawPixel(x: int, y: int, color: byte)
      requires Valid()
      modifies buffer
      ensures buffer[..] == Plot(old(buffer[..]), x, y, color != 0)
    {
      if x < 0 || x >= WIDTH || y < 0 || y >= HEIGHT {
        return;
      }
      WritePixel(x, y, color);
    }

    /** The in-range part of `oled_draw_pixel` (oled_i2c.c:63-65): set or clear bit y % 8 of byte (y / 8) * 128 + x. */
    method WritePixel(x: int, y: int, color: byte)
      requires Valid() && OnScreen(x, y)
      modifies buffer
      ensures buffer[..] == Plot(old(buffer[..]), x, y, color != 0)
    {
      var page := y / PAGE_ROWS;
      var bit := y % PAGE_ROWS;
      var i := page * WIDTH + x;
      assert i == Offset(x, y);
      ghost var b := WithBit(buffer[i], bit, color != 0);
      if color != 0 {
        buffer[i] := buffer[i] | BitMask(bit);
      } else {
        buffer[i] := buffer[i] & !BitMask(bit);
      }
      assert buffer[i] == b;
    }

    /**
     * `oled_clear_line(y, height)` (oled_i2c.c:68-74): the rows from y up to
     * y + height - 1 that are on the screen go dark across the full width;
     * every other pixel keeps its state.
     */
    method ClearLine(y: int, height: int)
      requires Valid()
      modifies buffer
      ensures RowsCleared(old(buffer[..]), buffer[..], y, y + height)
    {
      ghost var before := buffer[..];
      var row := y;
      while row < y + height && row < HEIGHT
        invariant y <= row && (row == y || row <= y + height)
        invariant |buffer[..]| == SIZE
        invariant RowsCleared(before, buffer[..], y, row)
        decreases HEIGHT - row
      {
        ClearRow(row, before, y);
        row := row + 1;
      }
    }

    /** The inner loop of `oled_clear_line`: row `row` goes dark, columns 0 to 127. */
    method ClearRow(row: int, ghost before: seq<byte>, ghost lo: int)
      requires Valid() && |before| == SIZE && lo <= row
      requires RowsCleared(before, buffer[..], lo, row)
      modifies buffer
      ensures RowsCleared(before, buffer[..], lo, row + 1)
    {
      var col := 0;
      while col < WIDTH
        invariant 0 <= col <= WIDTH
        invariant |buffer[..]| == SIZE
        invariant forall x, y :: OnScreen(x, y) ==>
          PixelOn(buffer[..], x, y) == if lo <= y < row || (y == row && x < col) then false else PixelOn(before, x, y)
      {
        ghost var prev := buffer[..];
        DrawPixel(col, row, 0);
        PlotPixels(prev, col, row, false);
        col := col + 1;
      }
    }

    /** The blit loops of `render_text` (oled_i2c.c:91-100) for glyph `g` with its pen at (ox, oy). */
    method Blit(g: Glyph, ox: int, oy: int)
      requires Valid() && g.Wf()
      modifies buffer
      ensures buffer[..] == Text.Blit(old(buffer[..]), g, ox, oy)
    {
      var row := 0;
      while row < g.rows
        invariant |buffer[..]| == SIZE
        invariant BlitFrom(buffer[..], g, ox, oy, row, 0) == BlitFrom(old(buffer[..]), g, ox, oy, 0, 0)
      {
        var col := 0;
        while col < g.width
          invariant col <= g.width
          invariant |buffer[..]| == SIZE
          invariant BlitFrom(buffer[..], g, ox, oy, row, col) == BlitFrom(old(buffer[..]), g, ox, oy, 0, 0)
        {
          var pixel := g.Coverage(row, col);
          if pixel > INK_THRESHOLD {
            DrawPixel(ox + g.left + col, oy - g.top + row, 1);
          }
          col := col + 1;
        }
        row := row + 1;
      }
    }

    /**
     * `render_text(text, x, y, face)` (oled_i2c.c:77-104) over the bytes
     * `text` from the string's first byte on, with `font` standing for
     * `FT_Load_Char`. The result says whether the walk read past `text`.
     */
    method RenderText(text: seq<byte>, x: int, y: int, font: bv32 -> Option<Glyph>) returns (overrun: bool)
      requires Valid() && FontWf(font)
      modifies buffer
      ensures buffer[..] == RenderFrom(old(buffer[..]), text, 0, x, y, font).buffer
      ensures overrun == RenderFrom(old(buffer[..]), text, 0, x, y, font).overrun
    {
      var i := 0;
      var pen := x;
      while i < |text| && text[i] != 0
        invariant 0 <= i <= |text|
        invariant |buffer[..]| == SIZE
        invariant RenderFrom(buffer[..], text, i, pen, y, font) == RenderFrom(old(buffer[..]), text, 0, x, y, font)
        decreases |text| - i
      {
        match DecodeAt(text, i)
        case Skip =>
          i := i + 1;
        case Truncated =>
          return true;
        case Char(cp, len) =>
          match font(cp)
          case None =>
            i := i + len;
          case Some(g) =>
            Blit(g, pen, y);
            pen := pen + PenStep(g);
            i := i + len;
      }
      overrun := i >= |text|;
    }
  }
}
