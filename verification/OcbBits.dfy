/** The byte-shifting of OCB read as bits: polynomials over GF(2) and slices of bit strings (RFC 7253). */
module OcbBits {
  import opened Ocb

  /** Bit `k` of a byte, the most significant first. */
  predicate BitOf(b: bv8, k: nat)
    requires k < 8
  {
    match k
    case 0 => b & 0x80 != 0
    case 1 => b & 0x40 != 0
    case 2 => b & 0x20 != 0
    case 3 => b & 0x10 != 0
    case 4 => b & 0x08 != 0
    case 5 => b & 0x04 != 0
    case 6 => b & 0x02 != 0
    case 7 => b & 0x01 != 0
  }

  /** Bit `j` of a byte string, as the RFC counts bits but from 0. */
  predicate Bit(s: Octets, j: nat)
    requires j < 8 * |s|
  {
    BitOf(s[j / 8], j % 8)
  }

  /** A window starts `k` bits into its two bytes. */
  lemma WindowBits(a: bv8, b: bv8, k: nat, t: nat)
    requires k < 8 && t < 8
    ensures BitOf(Window(a, b, k), t) == if t + k < 8 then BitOf(a, t + k) else BitOf(b, t + k - 8)
  {
    match k { case 0 => case 1 => case 2 => case 3 => case 4 => case 5 => case 6 => case 7 => }
  }

  // ---------------------------------------------------------------- doubling

  /** A block as a polynomial of degree below 128: the coefficient of x^i. */
  predicate Coefficient(s: Block, i: nat)
    requires i < 128
  {
    Bit(s, 127 - i)
  }

  /** The coefficients of x^7 + x^2 + x + 1, to which x^128 reduces. */
  predicate Reduction(i: nat) {
    i == 0 || i == 1 || i == 2 || i == 7
  }

  lemma FoldedBits(last: bv8, first: bv8, t: nat)
    requires t < 8
    ensures BitOf(Folded(last, first), t)
         == ((t < 7 && BitOf(last, t + 1)) != (BitOf(first, 0) && Reduction(7 - t)))
  {
    match t { case 0 => case 1 => case 2 => case 3 => case 4 => case 5 => case 6 => case 7 => }
  }

  lemma DoubledBit(s: Block, j: nat)
    requires j < 120
    ensures Bit(Doubled(s), j) == Bit(s, j + 1)
  {
    hide Window, Folded, BitOf;
    var n, t := j / 8, j % 8;
    WindowBits(s[n], s[n + 1], 1, t);
    if t < 7 {
      assert (j + 1) / 8 == n && (j + 1) % 8 == t + 1;
    } else {
      assert (j + 1) / 8 == n + 1 && (j + 1) % 8 == 0;
    }
  }

  lemma DoubledLastBit(s: Block, t: nat)
    requires t < 8
    ensures Bit(Doubled(s), 120 + t) == ((t < 7 && Bit(s, 121 + t)) != (Bit(s, 0) && Reduction(7 - t)))
  {
    hide Window, Folded, BitOf;
    FoldedBits(s[15], s[0], t);
    assert (120 + t) / 8 == 15 && (120 + t) % 8 == t;
    if t < 7 {
      assert (121 + t) / 8 == 15 && (121 + t) % 8 == t + 1;
    }
  }

  /** Doubling is multiplication by x modulo x^128 + x^7 + x^2 + x + 1 (section 2 of RFC 7253). */
  lemma DoubledMultipliesByX(s: Block, i: nat)
    requires i < 128
    ensures Coefficient(Doubled(s), i) == ((i > 0 && Coefficient(s, i - 1)) != (Coefficient(s, 127) && Reduction(i)))
  {
    hide Doubled, Bit;
    if i >= 8 {
      DoubledBit(s, 127 - i);
    } else {
      DoubledLastBit(s, 7 - i);
    }
  }

  // ---------------------------------------------------------------- the initial offset

  /** Offset_0 is bits 1+bottom to 128+bottom of the stretch, at every bottom (section 4.2 of RFC 7253). */
  lemma SliceIsBitSlice(stretch: Octets, bottom: nat, j: nat)
    requires |stretch| == 24 && bottom < 64 && j < 128
    ensures Bit(Slice(stretch, bottom), j) == Bit(stretch, bottom + j)
  {
    hide Window, BitOf;
    var i, t := j / 8, j % 8;
    var byteOff, bitOff := bottom / 8, bottom % 8;
    var a, b := stretch[byteOff + i], if bitOff == 0 then 0 else stretch[byteOff + i + 1];
    WindowBits(a, b, bitOff, t);
    assert bottom + j == 8 * (byteOff + i) + (bitOff + t);
    if t + bitOff < 8 {
      assert (bottom + j) / 8 == byteOff + i && (bottom + j) % 8 == t + bitOff;
    } else {
      assert (bottom + j) / 8 == byteOff + i + 1 && (bottom + j) % 8 == t + bitOff - 8;
    }
  }
}
