/** Small shared vocabulary: an optional value and the byte type. */
module Common {

  /** A value that may be missing: a reply that never came, a glyph FreeType could not load. */
  datatype Option<+T> = None | Some(value: T)

  /** An unsigned 8-bit quantity (`uint8_t`, `unsigned char`). */
  type byte = bv8
}
