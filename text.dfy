/**
 * The glyph blit and the text walk of `render_text` (oled_i2c.c:77-104), as
 * functions on the framebuffer value.
 *
 * A glyph is what FreeType leaves in `face->glyph` after `FT_Load_Char` with
 * `FT_LOAD_RENDER`: an 8-bit coverage bitmap of `rows` x `width` cells laid
 * out `pitch` bytes per row, the bearings `bitmap_left`/`bitmap_top` and the
 * advance in 26.6 fixed point. The font itself is a parameter: a function
 * from code point to the glyph it loads, `None` where loading fails.
 */
module Text {
  import opened Common
  import opened Framebuffer
  import opened Utf8

  /** Coverage strictly above this value lights a pixel. */
  const INK_THRESHOLD: byte := 128

  datatype Glyph = Glyph(rows: nat, width: nat, pitch: nat, buffer: seq<byte>, left: int, top: int, advance: int)
  {
    /** Every cell `row * pitch + col` the blit reads lies inside the bitmap buffer. */
    predicate Wf()
    {
      width <= pitch && rows * pitch <= |buffer|
    }

    /** The coverage of cell (row, col). */
    function Coverage(row: nat, col: nat): byte
      requires Wf() && row < rows && col < width
    {
      CellInBuffer(row, col, rows, width, pitch);
      buffer[row * pitch + col]
    }
  }

  lemma CellInBuffer(row: nat, col: nat, rows: nat, width: nat, pitch: nat)
    requires row < rows && col < width <= pitch
    ensures row * pitch + col < rows * pitch
  {
    assert (row + 1) * pitch <= rows * pitch;
  }

  /** A font whose every loaded glyph is well formed. */
  ghost predicate FontWf(font: bv32 -> Option<Glyph>)
  {
    forall cp :: font(cp).Some? ==> font(cp).value.Wf()
  }

  /**
   * Drawing `g` with its pen at (ox, oy) lights (x, y): the pixel lies on the
   * cell (y - oy + top, x - ox - left) of the bitmap, whose coverage is above
   * the threshold.
   */
  predicate Covers(g: Glyph, ox: int, oy: int, x: int, y: int)
    requires g.Wf()
  {
    var row := y - oy + g.top;
    var col := x - ox - g.left;
    0 <= row < g.rows && 0 <= col < g.width && g.Coverage(row, col) > INK_THRESHOLD
  }

  /** `Covers` restricted to the cells from (row, col) on, in the row-major order of the blit loops. */
  predicate CoversFrom(g: Glyph, ox: int, oy: int, row: nat, col: nat, x: int, y: int)
    requires g.Wf()
  {
    Covers(g, ox, oy, x, y) && (y - oy + g.top > row || (y - oy + g.top == row && x - ox - g.left >= col))
  }

  /** What the blit loops (oled_i2c.c:91-100) still do from cell (row, col) on. */
  function BlitFrom(s: seq<byte>, g: Glyph, ox: int, oy: int, row: nat, col: nat): (r: seq<byte>)
    requires |s| == SIZE && g.Wf() && col <= g.width
    ensures |r| == SIZE
    decreases g.rows - row, g.width - col
  {
    if row >= g.rows then s
    else if col == g.width then BlitFrom(s, g, ox, oy, row + 1, 0)
    else
      var s' := if g.Coverage(row, col) > INK_THRESHOLD then Plot(s, ox + g.left + col, oy - g.top + row, true) else s;
      BlitFrom(s', g, ox, oy, row, col + 1)
  }

  /** The remaining cells of the blit light exactly the pixels they cover and turn nothing off. */
  lemma {:induction false} BlitFromPixels(s: seq<byte>, g: Glyph, ox: int, oy: int, row: nat, col: nat)
    requires |s| == SIZE && g.Wf() && col <= g.width
    ensures forall x, y :: OnScreen(x, y) ==>
      (PixelOn(BlitFrom(s, g, ox, oy, row, col), x, y) <==> PixelOn(s, x, y) || CoversFrom(g, ox, oy, row, col, x, y))
    decreases g.rows - row, g.width - col
  {
    if row >= g.rows {
    } else if col == g.width {
      BlitFromPixels(s, g, ox, oy, row + 1, 0);
    } else {
      var px, py := ox + g.left + col, oy - g.top + row;
      var s' := if g.Coverage(row, col) > INK_THRESHOLD then Plot(s, px, py, true) else s;
      PlotPixels(s, px, py, true);
      BlitFromPixels(s', g, ox, oy, row, col + 1);
      forall x, y | OnScreen(x, y)
        ensures CoversFrom(g, ox, oy, row, col, x, y) <==>
          (x == px && y == py && g.Coverage(row, col) > INK_THRESHOLD) || CoversFrom(g, ox, oy, row, col + 1, x, y)
      {
      }
    }
  }

  /**
   * The blit of one glyph with its pen at (ox, oy): a pixel is lit afterwards
   * exactly when it was lit before or the glyph covers it.
   */
  function Blit(s: seq<byte>, g: Glyph, ox: int, oy: int): (r: seq<byte>)
    requires |s| == SIZE && g.Wf()
    ensures |r| == SIZE
    ensures forall x, y :: OnScreen(x, y) ==> (PixelOn(r, x, y) <==> PixelOn(s, x, y) || Covers(g, ox, oy, x, y))
  {
    BlitFromPixels(s, g, ox, oy, 0, 0);
    BlitFrom(s, g, ox, oy, 0, 0)
  }

  /** The pen step `advance.x >> 6`: an arithmetic shift of the 26.6 value, rounding down. */
  function PenStep(g: Glyph): (d: int)
    ensures d * 64 <= g.advance < d * 64 + 64
  {
    g.advance / 64
  }

  /** Where the walk ended: the buffer, the final pen x and whether it read past the bytes given. */
  datatype Rendered = Rendered(buffer: seq<byte>, pen: int, overrun: bool)

  /**
   * The `while (*text)` walk of `render_text` from byte i with the pen at x.
   * `text` is the memory from the string on; a read past its end, which C
   * performs when no terminator stops it or when a lead byte announces more
   * bytes than follow, stops the walk with `overrun` set. The decoder's
   * following bytes are read without looking for the terminator.
   */
  function RenderFrom(s: seq<byte>, text: seq<byte>, i: nat, x: int, y: int, font: bv32 -> Option<Glyph>): (r: Rendered)
    requires |s| == SIZE && FontWf(font)
    ensures |r.buffer| == SIZE
    decreases |text| - i
  {
    if i >= |text| then Rendered(s, x, true)
    else if text[i] == 0 then Rendered(s, x, false)
    else match DecodeAt(text, i)
      case Skip => RenderFrom(s, text, i + 1, x, y, font)
      case Truncated => Rendered(s, x, true)
      case Char(cp, len) =>
        match font(cp)
        case None => RenderFrom(s, text, i + len, x, y, font)
        case Some(g) => RenderFrom(Blit(s, g, x, y), text, i + len, x + PenStep(g), y, font)
  }

  /** Rendering never turns a pixel off. */
  lemma {:induction false} RenderOnlySets(s: seq<byte>, text: seq<byte>, i: nat, x: int, y: int, font: bv32 -> Option<Glyph>)
    requires |s| == SIZE && FontWf(font)
    ensures forall px, py :: OnScreen(px, py) && PixelOn(s, px, py) ==> PixelOn(RenderFrom(s, text, i, x, y, font).buffer, px, py)
    decreases |text| - i
  {
    if i >= |text| || text[i] == 0 {
    } else {
      match DecodeAt(text, i)
      case Skip => RenderOnlySets(s, text, i + 1, x, y, font);
      case Truncated =>
      case Char(cp, len) =>
        match font(cp)
        case None => RenderOnlySets(s, text, i + len, x, y, font);
        case Some(g) => RenderOnlySets(Blit(s, g, x, y), text, i + len, x + PenStep(g), y, font);
    }
  }

  /**
   * The pen moves only by the advance of glyphs that load: with a font that
   * loads nothing the walk draws nothing and the pen stays where it started.
   */
  lemma {:induction false} NothingLoadedDrawsNothing(s: seq<byte>, text: seq<byte>, i: nat, x: int, y: int, font: bv32 -> Option<Glyph>)
    requires |s| == SIZE && forall cp :: font(cp).None?
    ensures RenderFrom(s, text, i, x, y, font).buffer == s
    ensures RenderFrom(s, text, i, x, y, font).pen == x
    decreases |text| - i
  {
    if i >= |text| || text[i] == 0 {
    } else {
      match DecodeAt(text, i)
      case Skip => NothingLoadedDrawsNothing(s, text, i + 1, x, y, font);
      case Truncated =>
      case Char(cp, len) => NothingLoadedDrawsNothing(s, text, i + len, x, y, font);
    }
  }

  /**
   * The code points the walk decodes from byte i, in order: a skipped byte
   * contributes none, and the walk's stops (the terminator, the end of the
   * bytes given, a truncated form) end the list.
   */
  function CodePoints(text: seq<byte>, i: nat): (cps: seq<bv32>)
    ensures forall k :: 0 <= k < |cps| ==> cps[k] < 0x200000
    decreases |text| - i
  {
    if i >= |text| || text[i] == 0 then []
    else match DecodeAt(text, i)
      case Skip => CodePoints(text, i + 1)
      case Truncated => []
      case Char(cp, _) => [cp] + CodePoints(text, i + DecodeAt(text, i).len)
  }

  /** The glyphs `font` loads for `cps`, in order; code points it has no glyph for are dropped. */
  function Loaded(cps: seq<bv32>, font: bv32 -> Option<Glyph>): (gs: seq<Glyph>)
    requires FontWf(font)
    ensures |gs| <= |cps|
    ensures forall g <- gs :: g.Wf()
    ensures (forall k :: 0 <= k < |cps| ==> font(cps[k]).None?) ==> gs == []
  {
    if cps == [] then []
    else
      var cp := cps[0];
      match font(cp)
      case None => Loaded(cps[1..], font)
      case Some(g) => [g] + Loaded(cps[1..], font)
  }

  /** The total advance of a run of glyphs. */
  function Advances(gs: seq<Glyph>): int
  {
    if gs == [] then 0 else PenStep(gs[0]) + Advances(gs[1..])
  }

  /** The glyphs blitted one after another, each at the pen the advances of those before it leave. */
  function BlitAll(s: seq<byte>, gs: seq<Glyph>, x: int, y: int): (r: seq<byte>)
    requires |s| == SIZE && forall g <- gs :: g.Wf()
    ensures |r| == SIZE
    decreases |gs|
  {
    if gs == [] then s else BlitAll(Blit(s, gs[0], x, y), gs[1..], x + PenStep(gs[0]), y)
  }

  /**
   * The walk is the decoding followed by the drawing: the picture is the
   * glyphs that load for the decoded code points, blitted in order, and the
   * pen ends moved by their advances and by nothing else.
   */
  lemma {:induction false} RenderFromDecomposes(s: seq<byte>, text: seq<byte>, i: nat, x: int, y: int, font: bv32 -> Option<Glyph>)
    requires |s| == SIZE && FontWf(font)
    ensures var gs := Loaded(CodePoints(text, i), font);
      && RenderFrom(s, text, i, x, y, font).buffer == BlitAll(s, gs, x, y)
      && RenderFrom(s, text, i, x, y, font).pen == x + Advances(gs)
    decreases |text| - i
  {
    if i >= |text| || text[i] == 0 {
    } else {
      var d := DecodeAt(text, i);
      if d.Skip? {
        RenderFromDecomposes(s, text, i + 1, x, y, font);
      } else if d.Char? {
        var glyph := font(d.codepoint);
        RenderFromDecomposes(Draw(s, glyph, x, y), text, i + d.len, Advance(glyph, x), y, font);
        DecodedStep(s, text, i, x, y, font);
      }
    }
  }

  /** One decoded character: the walk draws it and moves on, and so do the decomposed lists. */
  lemma DecodedStep(s: seq<byte>, text: seq<byte>, i: nat, x: int, y: int, font: bv32 -> Option<Glyph>)
    requires |s| == SIZE && FontWf(font)
    requires i < |text| && text[i] != 0 && DecodeAt(text, i).Char?
    ensures var d := DecodeAt(text, i);
      var glyph := font(d.codepoint);
      var gs := Loaded(CodePoints(text, i + d.len), font);
      && RenderFrom(s, text, i, x, y, font) == RenderFrom(Draw(s, glyph, x, y), text, i + d.len, Advance(glyph, x), y, font)
      && BlitAll(s, Loaded(CodePoints(text, i), font), x, y) == BlitAll(Draw(s, glyph, x, y), gs, Advance(glyph, x), y)
      && x + Advances(Loaded(CodePoints(text, i), font)) == Advance(glyph, x) + Advances(gs)
  {
    var d := DecodeAt(text, i);
    CharStep(s, text, i, x, y, font);
    assert CodePoints(text, i) == [d.codepoint] + CodePoints(text, i + d.len);
    LoadedStep(s, d.codepoint, CodePoints(text, i + d.len), x, y, font);
  }

  /** Loading, blitting and advancing over a list that starts with `cp`. */
  lemma LoadedStep(s: seq<byte>, cp: bv32, rest: seq<bv32>, x: int, y: int, font: bv32 -> Option<Glyph>)
    requires |s| == SIZE && FontWf(font)
    ensures var glyph := font(cp);
      var gs := Loaded(rest, font);
      && BlitAll(s, Loaded([cp] + rest, font), x, y) == BlitAll(Draw(s, glyph, x, y), gs, Advance(glyph, x), y)
      && x + Advances(Loaded([cp] + rest, font)) == Advance(glyph, x) + Advances(gs)
  {
    assert ([cp] + rest)[1..] == rest;
    var gs := Loaded(rest, font);
    match font(cp)
    case None =>
    case Some(g) =>
      assert ([g] + gs)[1..] == gs;
  }

  /** A byte that starts no sequence costs one byte of the string and draws nothing. */
  lemma SkipDrawsNothing(s: seq<byte>, text: seq<byte>, i: nat, x: int, y: int, font: bv32 -> Option<Glyph>)
    requires |s| == SIZE && FontWf(font)
    requires i < |text| && text[i] != 0 && SequenceLength(text[i]) == 0
    ensures RenderFrom(s, text, i, x, y, font) == RenderFrom(s, text, i + 1, x, y, font)
    ensures CodePoints(text, i) == CodePoints(text, i + 1)
  {
  }

  /**
   * The walk reads past the terminator: a two-byte lead right before the NUL
   * takes the NUL as its following byte and steps over it, so even the
   * terminated string "\xC3" sends the walk beyond its two bytes.
   */
  lemma TerminatorOverrun(s: seq<byte>, x: int, y: int, font: bv32 -> Option<Glyph>)
    requires |s| == SIZE && FontWf(font)
    ensures RenderFrom(s, [0xC3, 0x00], 0, x, y, font).overrun
  {
    assert SequenceLength(0xC3) == 2;
  }

  /** A sequence that starts at i and runs into the terminator or past the end of `text`. */
  predicate CrossesTerminator(text: seq<byte>, i: nat, n: nat)
    requires i < |text| && 1 <= n
  {
    i + n > |text| || 0 in text[i + 1..i + n]
  }

  /**
   * `render_text` with the decoder stopping at the terminator: a sequence
   * whose following bytes would include the NUL ends the string instead of
   * swallowing it. This walk never reads past the first NUL.
   */
  function RenderString(s: seq<byte>, text: seq<byte>, i: nat, x: int, y: int, font: bv32 -> Option<Glyph>): (r: seq<byte>)
    requires |s| == SIZE && FontWf(font)
    requires i <= |text| && 0 in text[i..]
    ensures |r| == SIZE
    decreases |text| - i
  {
    if text[i] == 0 then s
    else
      var n := SequenceLength(text[i]);
      if n == 0 then RenderString(s, text, i + 1, x, y, font)
      else if CrossesTerminator(text, i, n) then s
      else
        var d := DecodeAt(text, i);
        assert 0 in text[i + d.len..] by { TerminatorAfter(text, i, d.len); }
        var glyph := font(d.codepoint);
        RenderString(Draw(s, glyph, x, y), text, i + d.len, Advance(glyph, x), y, font)
  }

  /**
   * On a terminated string the program's walk finishes without reading past,
   * the corrected walk draws the same picture: the two differ only on
   * strings whose last sequence runs into the terminator.
   */
  lemma {:induction false} RenderStringAgrees(s: seq<byte>, text: seq<byte>, i: nat, x: int, y: int, font: bv32 -> Option<Glyph>)
    requires |s| == SIZE && FontWf(font)
    requires i < |text| && text[|text| - 1] == 0 && 0 !in text[i..|text| - 1]
    requires !RenderFrom(s, text, i, x, y, font).overrun
    ensures 0 in text[i..]
    ensures RenderString(s, text, i, x, y, font) == RenderFrom(s, text, i, x, y, font).buffer
    decreases |text| - i
  {
    assert text[i..][|text| - 1 - i] == 0;
    if text[i] != 0 {
      var n := SequenceLength(text[i]);
      if n == 0 {
        TerminatorFreeTail(text, i, 1);
        RenderStringAgrees(s, text, i + 1, x, y, font);
      } else {
        NotCrossing(s, text, i, x, y, font);
        var glyph := font(DecodeAt(text, i).codepoint);
        CharStep(s, text, i, x, y, font);
        StringStep(s, text, i, x, y, font);
        TerminatorFreeTail(text, i, n);
        RenderStringAgrees(Draw(s, glyph, x, y), text, i + n, Advance(glyph, x), y, font);
      }
    }
  }

  /** The corrected walk over one decoded character that ends before the terminator. */
  lemma StringStep(s: seq<byte>, text: seq<byte>, i: nat, x: int, y: int, font: bv32 -> Option<Glyph>)
    requires |s| == SIZE && FontWf(font)
    requires i < |text| && 0 in text[i..] && text[i] != 0 && SequenceLength(text[i]) != 0
    requires !CrossesTerminator(text, i, SequenceLength(text[i]))
    ensures var d := DecodeAt(text, i);
      var glyph := font(d.codepoint);
      && d.Char? && 0 in text[i + d.len..]
      && RenderString(s, text, i, x, y, font) == RenderString(Draw(s, glyph, x, y), text, i + d.len, Advance(glyph, x), y, font)
  {
    TerminatorAfter(text, i, SequenceLength(text[i]));
  }

  /** Stepping over m bytes before the last keeps the rest free of terminators. */
  lemma TerminatorFreeTail(text: seq<byte>, i: nat, m: nat)
    requires i + m < |text| && 0 !in text[i..|text| - 1]
    ensures 0 !in text[i + m..|text| - 1]
  {
    assert text[i + m..|text| - 1] == text[i..|text| - 1][m..];
  }

  /** A sequence the program's walk steps over without overrunning ends before the terminator. */
  lemma NotCrossing(s: seq<byte>, text: seq<byte>, i: nat, x: int, y: int, font: bv32 -> Option<Glyph>)
    requires |s| == SIZE && FontWf(font)
    requires i < |text| && text[|text| - 1] == 0 && 0 !in text[i..|text| - 1]
    requires text[i] != 0 && SequenceLength(text[i]) != 0
    requires !RenderFrom(s, text, i, x, y, font).overrun
    ensures DecodeAt(text, i).Char? && i + DecodeAt(text, i).len < |text|
    ensures !CrossesTerminator(text, i, SequenceLength(text[i]))
  {
    var n := SequenceLength(text[i]);
    var d := DecodeAt(text, i);
    assert d.Char?;
    var glyph := font(d.codepoint);
    CharStep(s, text, i, x, y, font);
    assert i + n < |text|;
    NoTerminatorInside(text, i, n);
  }

  /** A form that ends before the last byte lies within a stretch without terminator. */
  lemma NoTerminatorInside(text: seq<byte>, i: nat, n: nat)
    requires 1 <= n && i + n < |text| && 0 !in text[i..|text| - 1]
    ensures 0 !in text[i + 1..i + n]
  {
    forall j | i + 1 <= j < i + n
      ensures text[j] != 0
    {
      assert text[j] == text[i..|text| - 1][j - i];
    }
  }

  /** The program's walk over one decoded character. */
  lemma CharStep(s: seq<byte>, text: seq<byte>, i: nat, x: int, y: int, font: bv32 -> Option<Glyph>)
    requires |s| == SIZE && FontWf(font)
    requires i < |text| && text[i] != 0 && DecodeAt(text, i).Char?
    ensures var d := DecodeAt(text, i);
      var glyph := font(d.codepoint);
      RenderFrom(s, text, i, x, y, font) == RenderFrom(Draw(s, glyph, x, y), text, i + d.len, Advance(glyph, x), y, font)
  {
  }

  /** The buffer after one decoded character: its glyph blitted when it loaded, unchanged when it did not. */
  function Draw(s: seq<byte>, glyph: Option<Glyph>, x: int, y: int): (r: seq<byte>)
    requires |s| == SIZE && (glyph.Some? ==> glyph.value.Wf())
    ensures |r| == SIZE
  {
    match glyph
    case None => s
    case Some(g) => Blit(s, g, x, y)
  }

  /** The pen after one decoded character: moved by the glyph's advance only when it loaded. */
  function Advance(glyph: Option<Glyph>, x: int): int
  {
    match glyph
    case None => x
    case Some(g) => x + PenStep(g)
  }

  /** The terminator after byte i survives stepping over a sequence that does not reach it. */
  lemma TerminatorAfter(text: seq<byte>, i: nat, n: nat)
    requires i < |text| && 0 in text[i..] && text[i] != 0
    requires 1 <= n && i + n <= |text| && 0 !in text[i + 1..i + n]
    ensures 0 in text[i + n..]
  {
    var j :| i <= j < |text| && text[j] == 0;
    assert text[i + n..][j - i - n] == 0;
  }

  /** The decoder reads only the bytes of the sequence it decodes. */
  lemma DecodeAtPrefix(text: seq<byte>, tail: seq<byte>, i: nat)
    requires i < |text| && i + SequenceLength(text[i]) <= |text|
    ensures DecodeAt(text + tail, i) == DecodeAt(text, i)
  {
    var n := SequenceLength(text[i]);
    assert (text + tail)[i] == text[i];
    if n >= 2 {
      assert (text + tail)[i + 1] == text[i + 1];
    }
    if n >= 3 {
      assert (text + tail)[i + 2] == text[i + 2];
    }
    if n >= 4 {
      assert (text + tail)[i + 3] == text[i + 3];
    }
  }

  /** Whether a sequence crosses the terminator is decided before the terminator. */
  lemma CrossesPrefix(text: seq<byte>, tail: seq<byte>, i: nat, n: nat)
    requires i < |text| && 0 in text[i..] && text[i] != 0 && 1 <= n
    ensures CrossesTerminator(text + tail, i, n) == CrossesTerminator(text, i, n)
  {
    var all := text + tail;
    if i + n <= |text| {
      assert all[i + 1..i + n] == text[i + 1..i + n];
    } else {
      var j :| i <= j < |text| && text[j] == 0;
      if i + n <= |all| {
        assert all[i + 1..i + n][j - i - 1] == 0;
      }
    }
  }

  /** The corrected walk reads nothing past the terminator: what follows it does not change the picture. */
  lemma {:induction false} RenderStringIgnoresTail(s: seq<byte>, text: seq<byte>, tail: seq<byte>, i: nat, x: int, y: int, font: bv32 -> Option<Glyph>)
    requires |s| == SIZE && FontWf(font)
    requires i <= |text| && 0 in text[i..]
    ensures (text + tail)[i..] == text[i..] + tail
    ensures RenderString(s, text + tail, i, x, y, font) == RenderString(s, text, i, x, y, font)
    decreases |text| - i
  {
    var all := text + tail;
    assert all[i..] == text[i..] + tail;
    assert all[i] == text[i];
    if text[i] != 0 {
      var n := SequenceLength(text[i]);
      if n == 0 {
        RenderStringIgnoresTail(s, text, tail, i + 1, x, y, font);
      } else {
        CrossesPrefix(text, tail, i, n);
        if !CrossesTerminator(text, i, n) {
          DecodeAtPrefix(text, tail, i);
          var d := DecodeAt(text, i);
          assert 0 in text[i + d.len..] by { TerminatorAfter(text, i, d.len); }
          var glyph := font(d.codepoint);
          RenderStringIgnoresTail(Draw(s, glyph, x, y), text, tail, i + d.len, Advance(glyph, x), y, font);
        }
      }
    }
  }
}
