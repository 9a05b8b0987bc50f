/**
 * The lead-byte decoder inside `render_text` (oled_i2c.c:79-86).
 *
 * It recognises the four encoding forms of section 3 of RFC 3629 by the lead
 * byte alone and assembles the code point from the lead's payload bits and
 * the low six bits of each following byte. It does not check that the
 * following bytes are continuation bytes, nor reject overlong forms,
 * surrogates or values above U+10FFFF. Any other lead byte is skipped.
 */
module Utf8 {
  import opened Common

  datatype Decoded =
    | Char(codepoint: bv32, len: nat)  // a code point and the bytes it took
    | Skip                            // a byte that cannot start a sequence
    | Truncated                       // the lead asks for bytes past the end of the text

  /** The sequence length a lead byte announces, 0 for `10xxxxxx` and `11111xxx`. */
  function SequenceLength(c: byte): (n: nat)
    ensures n <= 4
    ensures n == 1 <==> c < 0x80
  {
    if c < 0x80 then 1
    else if c & 0xE0 == 0xC0 then 2
    else if c & 0xF0 == 0xE0 then 3
    else if c & 0xF8 == 0xF0 then 4
    else 0
  }

  /** The lead-byte masks pick out these ranges of byte values. */
  lemma SequenceLengthRanges(c: byte)
    ensures SequenceLength(c) == 1 <==> c <= 0x7F
    ensures SequenceLength(c) == 2 <==> 0xC0 <= c <= 0xDF
    ensures SequenceLength(c) == 3 <==> 0xE0 <= c <= 0xEF
    ensures SequenceLength(c) == 4 <==> 0xF0 <= c <= 0xF7
    ensures SequenceLength(c) == 0 <==> (0x80 <= c <= 0xBF || 0xF8 <= c)
  {
  }

  /** The low six bits of a following byte (`text[k] & 0x3F`), widened to the code point's 32 bits. */
  function Low6(b: byte): (v: bv32)
    ensures v < 64
  {
    (b & 0x3F) as bv32
  }

  /** The largest code point an n-byte form can carry, plus one. */
  function FormLimit(n: nat): bv32
  {
    if n == 1 then 0x80 else if n == 2 then 0x800 else if n == 3 then 0x10000 else 0x200000
  }

  /** Decode the sequence that starts at `text[i]` into a `uint32_t` code point. */
  function DecodeAt(text: seq<byte>, i: nat): (d: Decoded)
    requires i < |text|
    ensures d.Skip? <==> SequenceLength(text[i]) == 0
    ensures d.Truncated? <==> SequenceLength(text[i]) > 1 && i + SequenceLength(text[i]) > |text|
    ensures d.Char? ==>
      && d.len == SequenceLength(text[i])
      && i + d.len <= |text|
      && d.codepoint < FormLimit(d.len)
  {
    var c := text[i];
    var n := SequenceLength(c);
    if n == 0 then Skip
    else if i + n > |text| then Truncated
    else if n == 1 then Char(c as bv32, 1)
    else if n == 2 then Char(Assemble2(c, text[i + 1]), 2)
    else if n == 3 then Char(Assemble3(c, text[i + 1], text[i + 2]), 3)
    else Char(Assemble4(c, text[i + 1], text[i + 2], text[i + 3]), 4)
  }

  /** The code point of a two-byte form: five payload bits of the lead, six of the next byte. */
  function Assemble2(c: byte, t1: byte): (cp: bv32)
    ensures cp < FormLimit(2)
  {
    ((c & 0x1F) as bv32 << 6) | Low6(t1)
  }

  /** The code point of a three-byte form: four payload bits of the lead, six of each next byte. */
  function Assemble3(c: byte, t1: byte, t2: byte): (cp: bv32)
    ensures cp < FormLimit(3)
  {
    ((c & 0x0F) as bv32 << 12) | (Low6(t1) << 6) | Low6(t2)
  }

  /** The code point of a four-byte form: three payload bits of the lead, six of each next byte. */
  function Assemble4(c: byte, t1: byte, t2: byte, t3: byte): (cp: bv32)
    ensures cp < FormLimit(4)
  {
    ((c & 0x07) as bv32 << 18) | (Low6(t1) << 12) | (Low6(t2) << 6) | Low6(t3)
  }

  /** The shortest encoding form of `cp` (section 3 of RFC 3629, extended to 21 bits). */
  function Encode(cp: bv32): (bs: seq<byte>)
    requires cp < 0x200000
    ensures 1 <= |bs| <= 4
    ensures |bs| == 1 <==> cp < 0x80
    ensures forall k :: 1 <= k < |bs| ==> bs[k] & 0xC0 == 0x80
  {
    if cp < 0x80 then [cp as byte]
    else if cp < 0x800 then [(0xC0 | (cp >> 6)) as byte, (0x80 | (cp & 0x3F)) as byte]
    else if cp < 0x10000 then
      [(0xE0 | (cp >> 12)) as byte, (0x80 | ((cp >> 6) & 0x3F)) as byte, (0x80 | (cp & 0x3F)) as byte]
    else
      [(0xF0 | (cp >> 18)) as byte, (0x80 | ((cp >> 12) & 0x3F)) as byte,
       (0x80 | ((cp >> 6) & 0x3F)) as byte, (0x80 | (cp & 0x3F)) as byte]
  }

  /** Decoding the encoding of a code point gives the code point and consumes the whole form. */
  lemma DecodeEncode(cp: bv32)
    requires cp < 0x200000
    ensures DecodeAt(Encode(cp), 0) == Char(cp, |Encode(cp)|)
  {
    var bs := Encode(cp);
    if cp < 0x80 {
      assert bs == [cp as byte];
      assert SequenceLength(bs[0]) == 1;
    } else if cp < 0x800 {
      DecodeTwo(cp);
    } else if cp < 0x10000 {
      DecodeThree(cp);
    } else {
      DecodeFour(cp);
    }
  }

  lemma DecodeTwo(cp: bv32)
    requires 0x80 <= cp < 0x800
    ensures DecodeAt(Encode(cp), 0) == Char(cp, 2)
  {
    var bs := Encode(cp);
    TwoByteForm(cp, bs[0], bs[1]);
  }

  lemma DecodeThree(cp: bv32)
    requires 0x800 <= cp < 0x10000
    ensures DecodeAt(Encode(cp), 0) == Char(cp, 3)
  {
    var bs := Encode(cp);
    ThreeByteForm(cp, bs[0], bs[1], bs[2]);
  }

  lemma DecodeFour(cp: bv32)
    requires 0x10000 <= cp < 0x200000
    ensures DecodeAt(Encode(cp), 0) == Char(cp, 4)
  {
    var bs := Encode(cp);
    FourByteForm(cp, bs[0], bs[1], bs[2], bs[3]);
  }

  lemma TwoByteForm(cp: bv32, b0: byte, b1: byte)
    requires 0x80 <= cp < 0x800
    requires b0 == (0xC0 | (cp >> 6)) as byte && b1 == (0x80 | (cp & 0x3F)) as byte
    ensures SequenceLength(b0) == 2
    ensures Assemble2(b0, b1) == cp
  {
  }

  lemma ThreeByteForm(cp: bv32, b0: byte, b1: byte, b2: byte)
    requires 0x800 <= cp < 0x10000
    requires b0 == (0xE0 | (cp >> 12)) as byte
    requires b1 == (0x80 | ((cp >> 6) & 0x3F)) as byte && b2 == (0x80 | (cp & 0x3F)) as byte
    ensures SequenceLength(b0) == 3
    ensures Assemble3(b0, b1, b2) == cp
  {
  }

  lemma FourByteForm(cp: bv32, b0: byte, b1: byte, b2: byte, b3: byte)
    requires 0x10000 <= cp < 0x200000
    requires b0 == (0xF0 | (cp >> 18)) as byte && b1 == (0x80 | ((cp >> 12) & 0x3F)) as byte
    requires b2 == (0x80 | ((cp >> 6) & 0x3F)) as byte && b3 == (0x80 | (cp & 0x3F)) as byte
    ensures SequenceLength(b0) == 4
    ensures Assemble4(b0, b1, b2, b3) == cp
  {
  }
}
