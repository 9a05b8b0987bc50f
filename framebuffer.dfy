/**
 * The page-organised framebuffer of oled_i2c.c (lines 10-15) as a value.
 *
 * The 128x64 monochrome display is stored in 1024 bytes: byte
 * `(y / 8) * 128 + x` holds the column x of the page y / 8, and its bit
 * `y % 8` is the pixel (x, y). `Plot` is what `oled_draw_pixel` does to it.
 */
module Framebuffer {
  import opened Common

  const WIDTH := 128
  const HEIGHT := 64
  /** Rows per page: the bits of one byte. */
  const PAGE_ROWS := 8
  /** `OLED_WIDTH*OLED_HEIGHT/8`. */
  const SIZE := WIDTH * HEIGHT / PAGE_ROWS

  predicate OnScreen(x: int, y: int)
  {
    0 <= x < WIDTH && 0 <= y < HEIGHT
  }

  /** The byte that holds pixel (x, y). */
  function Offset(x: int, y: int): (i: int)
    requires OnScreen(x, y)
    ensures 0 <= i < SIZE
  {
    (y / PAGE_ROWS) * WIDTH + x
  }

  /** `1 << bit` for bit `k`, spelled out bit by bit (`MaskIsShift` shows it is the shift). */
  function BitMask(k: int): byte
    requires 0 <= k < PAGE_ROWS
  {
    if k == 0 then 0x01 else if k == 1 then 0x02 else if k == 2 then 0x04 else if k == 3 then 0x08
    else if k == 4 then 0x10 else if k == 5 then 0x20 else if k == 6 then 0x40 else 0x80
  }

  /** The mask is `1 << k`. */
  lemma MaskIsShift(k: int)
    requires 0 <= k < PAGE_ROWS
    ensures BitMask(k) == (1 as byte) << k
  {
  }

  /** Bit `k` of `b`. */
  predicate BitSet(b: byte, k: int)
    requires 0 <= k < PAGE_ROWS
  {
    b & BitMask(k) != 0
  }

  /** Whether pixel (x, y) is lit in the buffer `s`. */
  predicate PixelOn(s: seq<byte>, x: int, y: int)
    requires |s| == SIZE && OnScreen(x, y)
  {
    BitSet(s[Offset(x, y)], y % PAGE_ROWS)
  }

  /**
   * `oled_draw_pixel(x, y, color)` (oled_i2c.c:61-66): off-screen it does
   * nothing; on screen it sets (`on`) or clears bit y % 8 of its byte and no
   * other bit of the buffer.
   */
  function Plot(s: seq<byte>, x: int, y: int, on: bool): (r: seq<byte>)
    requires |s| == SIZE
    ensures |r| == SIZE
    ensures !OnScreen(x, y) ==> r == s
    ensures OnScreen(x, y) ==> forall j :: 0 <= j < SIZE && j != Offset(x, y) ==> r[j] == s[j]
  {
    if !OnScreen(x, y) then s
    else
      var i := Offset(x, y);
      s[i := WithBit(s[i], y % PAGE_ROWS, on)]
  }

  /** `b` with bit k set (`|= 1 << k`) or cleared (`&= ~(1 << k)`). */
  function WithBit(b: byte, k: int, on: bool): byte
    requires 0 <= k < PAGE_ROWS
  {
    if on then b | BitMask(k) else b & !BitMask(k)
  }

  /** Or-ing in `1 << k` sets bit k alone; and-ing with its complement clears bit k alone. */
  lemma MaskBits(b: byte, k: int, j: int)
    requires 0 <= k < PAGE_ROWS && 0 <= j < PAGE_ROWS
    ensures BitSet(b | BitMask(k), j) == (j == k || BitSet(b, j))
    ensures BitSet(b & !BitMask(k), j) == (j != k && BitSet(b, j))
  {
  }

  /** Bit k of `WithBit(b, k, on)` is `on`; its other bits are those of `b`. */
  lemma WithBitBits(b: byte, k: int, on: bool)
    requires 0 <= k < PAGE_ROWS
    ensures forall j :: 0 <= j < PAGE_ROWS ==> BitSet(WithBit(b, k, on), j) == if j == k then on else BitSet(b, j)
  {
    forall j | 0 <= j < PAGE_ROWS
      ensures BitSet(WithBit(b, k, on), j) == if j == k then on else BitSet(b, j)
    {
      MaskBits(b, k, j);
    }
  }

  /** The bit view of `Plot` on screen: bit y % 8 of byte Offset(x, y) takes the colour, its other bits stay. */
  lemma PlotBits(s: seq<byte>, x: int, y: int, on: bool)
    requires |s| == SIZE && OnScreen(x, y)
    ensures forall k :: 0 <= k < PAGE_ROWS ==>
      BitSet(Plot(s, x, y, on)[Offset(x, y)], k) == if k == y % PAGE_ROWS then on else BitSet(s[Offset(x, y)], k)
  {
    var i := Offset(x, y);
    assert Plot(s, x, y, on)[i] == WithBit(s[i], y % PAGE_ROWS, on);
    WithBitBits(s[i], y % PAGE_ROWS, on);
  }

  /** Two different pixels live in different bytes or in different bits. */
  lemma DistinctPixelsDistinctBits(x: int, y: int, x': int, y': int)
    requires OnScreen(x, y) && OnScreen(x', y') && (x, y) != (x', y')
    ensures Offset(x, y) != Offset(x', y') || y % PAGE_ROWS != y' % PAGE_ROWS
  {
    if Offset(x, y) == Offset(x', y') {
      assert y / PAGE_ROWS == y' / PAGE_ROWS;
    }
  }

  /** The pixel view of `Plot`: exactly the pixel (x, y) takes the new colour; every other pixel keeps its own. */
  lemma PlotPixels(s: seq<byte>, x: int, y: int, on: bool)
    requires |s| == SIZE
    ensures forall x', y' {:trigger PixelOn(Plot(s, x, y, on), x', y')} :: OnScreen(x', y') ==>
      PixelOn(Plot(s, x, y, on), x', y') == if x' == x && y' == y then on else PixelOn(s, x', y')
  {
    var r := Plot(s, x, y, on);
    forall x', y' | OnScreen(x', y')
      ensures PixelOn(r, x', y') == if x' == x && y' == y then on else PixelOn(s, x', y')
    {
      if OnScreen(x, y) {
        PlotBits(s, x, y, on);
        if (x', y') != (x, y) {
          DistinctPixelsDistinctBits(x, y, x', y');
        }
      }
    }
  }

  /** Drawing the same pixel twice is drawing it once. */
  lemma PlotIdempotent(s: seq<byte>, x: int, y: int, on: bool)
    requires |s| == SIZE
    ensures Plot(Plot(s, x, y, on), x, y, on) == Plot(s, x, y, on)
  {
  }

  /** A byte is determined by its eight bits. */
  lemma BitsDetermineByte(a: byte, b: byte)
    requires forall k :: 0 <= k < PAGE_ROWS ==> BitSet(a, k) == BitSet(b, k)
    ensures a == b
  {
    assert BitSet(a, 0) == BitSet(b, 0) && BitSet(a, 1) == BitSet(b, 1);
    assert BitSet(a, 2) == BitSet(b, 2) && BitSet(a, 3) == BitSet(b, 3);
    assert BitSet(a, 4) == BitSet(b, 4) && BitSet(a, 5) == BitSet(b, 5);
    assert BitSet(a, 6) == BitSet(b, 6) && BitSet(a, 7) == BitSet(b, 7);
  }

  /**
   * The buffer holds the 128x64 pixels and nothing else: two buffers that
   * show the same pixels are equal, byte for byte.
   */
  lemma PixelsDetermineBuffer(s: seq<byte>, t: seq<byte>)
    requires |s| == SIZE && |t| == SIZE
    requires forall x, y :: OnScreen(x, y) ==> PixelOn(s, x, y) == PixelOn(t, x, y)
    ensures s == t
  {
    forall j | 0 <= j < SIZE
      ensures s[j] == t[j]
    {
      var x := j % WIDTH;
      forall k | 0 <= k < PAGE_ROWS
        ensures BitSet(s[j], k) == BitSet(t[j], k)
      {
        var y := (j / WIDTH) * PAGE_ROWS + k;
        assert OnScreen(x, y);
        assert Offset(x, y) == j && y % PAGE_ROWS == k;
        assert PixelOn(s, x, y) == PixelOn(t, x, y);
      }
      BitsDetermineByte(s[j], t[j]);
    }
  }

  /** The cleared buffer of `oled_clear` (oled_i2c.c:51). */
  function Blank(): (s: seq<byte>)
    ensures |s| == SIZE
    ensures forall x, y :: OnScreen(x, y) ==> !PixelOn(s, x, y)
  {
    seq(SIZE, _ => 0)
  }

  /**
   * `after` is `before` with the rows lo..hi-1 turned off across the width
   * and every other pixel as it was.
   */
  ghost predicate RowsCleared(before: seq<byte>, after: seq<byte>, lo: int, hi: int)
    requires |before| == SIZE && |after| == SIZE
  {
    forall x, y :: OnScreen(x, y) ==>
      PixelOn(after, x, y) == if lo <= y < hi then false else PixelOn(before, x, y)
  }
}
