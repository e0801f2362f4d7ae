/**
 * The three macros of utils.h that pack a picture size into a packet's
 * 64-bit `pos` field and read it back.
 *
 * `pos` is an int64. The macros are bit operations; they are written here
 * as the arithmetic they perform on two's-complement values:
 *  - `(int64_t) w << 32` is w * 2^32 (w is a non-negative int, so no overflow);
 *  - `| h` first sign-extends the int h to 64 bits. For h >= 0 the low 32
 *    bits are h and the high 32 bits stay w; for h < 0 the sign extension
 *    sets all 32 high bits, so the result is h itself and w is lost;
 *  - `pos >> 32` on a signed value is an arithmetic shift, i.e. floor
 *    division by 2^32 (Dafny's `/` by a positive divisor is exactly that);
 *  - `pos & 0xFFFF` keeps the low 16 bits of the two's-complement pattern,
 *    i.e. the Euclidean remainder modulo 2^16.
 */
module PacketSize {
  import opened Packets

  const TWO32: int := 0x1_0000_0000
  const HEIGHT_MASK_RANGE: int := 0x1_0000

  predicate IsInt64(x: int) { -0x8000_0000_0000_0000 <= x < 0x8000_0000_0000_0000 }

  /** PKT_MKSIZE(pkt, w, h): the value assigned to pkt->pos. */
  function MkSize(w: int, h: int): (pos: int)
    requires 0 <= w <= INT32_MAX && IsInt32(h)
    ensures IsInt64(pos)
    ensures 0 <= h ==> 0 <= pos
  {
    if h >= 0 then w * TWO32 + h else h
  }

  /**
   * PKT_WIDTH(pkt): the arithmetic shift keeps the high 32 bits, rounding
   * toward minus infinity, so the result fits an int32.
   */
  function Width(pos: int): (w: int)
    requires IsInt64(pos)
    ensures IsInt32(w)
    ensures w * TWO32 <= pos < w * TWO32 + TWO32
  {
    pos / TWO32
  }

  /** PKT_HEIGHT(pkt) */
  function Height(pos: int): (h: int)
    requires IsInt64(pos)
    ensures 0 <= h < HEIGHT_MASK_RANGE
  {
    pos % HEIGHT_MASK_RANGE
  }

  /** The width survives packing whenever the height is not negative. */
  lemma WidthRoundTrip(w: int, h: int)
    requires 0 <= w <= INT32_MAX && 0 <= h <= INT32_MAX
    ensures Width(MkSize(w, h)) == w
  {
    assert MkSize(w, h) == w * TWO32 + h;
  }

  /**
   * Only 16 bits of the height come back: the mask is 0xFFFF although the
   * height occupies the whole low 32-bit half.
   */
  lemma HeightRoundTrip(w: int, h: int)
    requires 0 <= w <= INT32_MAX && 0 <= h <= INT32_MAX
    ensures Height(MkSize(w, h)) == h % HEIGHT_MASK_RANGE
    ensures h < HEIGHT_MASK_RANGE ==> Height(MkSize(w, h)) == h
  {
    var pos := w * TWO32 + h;
    assert pos == (w * (TWO32 / HEIGHT_MASK_RANGE)) * HEIGHT_MASK_RANGE + h;
  }

  /** A height of 65536 or more reads back wrong: 65536 reads back as 0. */
  lemma HeightTruncated(w: int)
    requires 0 <= w <= INT32_MAX
    ensures Height(MkSize(w, HEIGHT_MASK_RANGE)) == 0
  {
    HeightRoundTrip(w, HEIGHT_MASK_RANGE);
  }

  /**
   * A negative height sign-extends over the width: the packed value is the
   * height itself and the width reads back as -1, whatever it was.
   */
  lemma NegativeHeightCorruptsWidth(w: int, h: int)
    requires 0 <= w <= INT32_MAX && INT32_MIN <= h < 0
    ensures MkSize(w, h) == h
    ensures Width(MkSize(w, h)) == -1
  {
  }
}
