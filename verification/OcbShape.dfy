/**
 * What sealing computes, bit by bit and block by block, apart from its own recursion (sections 2 and 4.2 of
 * RFC 7253): offsets as Gray codes, the checksum as a parity, and tags that notice every altered block.
 */
module OcbShape {
  import opened Basics
  import opened Ocb
  import opened OcbBits
  import opened OcbCipher

  // ---------------------------------------------------------------- exclusive or

  /** The mask of bit `k`. */
  function Mask(k: nat): bv8
    requires k < 8
  {
    match k
    case 0 => 0x80
    case 1 => 0x40
    case 2 => 0x20
    case 3 => 0x10
    case 4 => 0x08
    case 5 => 0x04
    case 6 => 0x02
    case 7 => 0x01
  }

  lemma BitMasked(b: bv8, k: nat)
    requires k < 8
    ensures BitOf(b, k) <==> b & Mask(k) != 0
  {
  }

  lemma MaskSingle(k: nat)
    requires k < 8
    ensures Mask(k) & (Mask(k) - 1) == 0
  {
  }

  lemma XorMasked(a: bv8, b: bv8, m: bv8)
    requires m & (m - 1) == 0
    ensures (a ^ b) & m != 0 <==> (a & m != 0) != (b & m != 0)
  {
  }

  lemma XorBit(a: bv8, b: bv8, k: nat)
    requires k < 8
    ensures BitOf(a ^ b, k) == (BitOf(a, k) != BitOf(b, k))
  {
    hide BitOf, Mask;
    BitMasked(a, k);
    BitMasked(b, k);
    BitMasked(a ^ b, k);
    MaskSingle(k);
    XorMasked(a, b, Mask(k));
  }

  lemma XorBits(a: Octets, b: Octets, j: nat)
    requires |a| == |b| && j < 8 * |a|
    ensures Bit(Xor(a, b), j) == (Bit(a, j) != Bit(b, j))
  {
    hide BitOf;
    XorBit(a[j / 8], b[j / 8], j % 8);
  }

  lemma XorByteLaws(a: bv8, b: bv8, c: bv8)
    ensures (a ^ b) ^ c == a ^ (b ^ c) && a ^ b == b ^ a && a ^ 0 == a
  {
  }

  lemma XorAssoc(a: Octets, b: Octets, c: Octets)
    requires |a| == |b| == |c|
    ensures Xor(Xor(a, b), c) == Xor(a, Xor(b, c))
  {
    forall i | 0 <= i < |a|
      ensures Xor(Xor(a, b), c)[i] == Xor(a, Xor(b, c))[i]
    {
      XorByteLaws(a[i], b[i], c[i]);
    }
  }

  lemma XorZeros(a: Octets)
    ensures Xor(a, Zeros(|a|)) == a
  {
    forall i | 0 <= i < |a|
      ensures Xor(a, Zeros(|a|))[i] == a[i]
    {
      XorByteLaws(a[i], 0, 0);
    }
  }

  lemma XorInjective(a: Octets, b: Octets, c: Octets)
    requires |a| == |b| == |c| && Xor(a, c) == Xor(b, c)
    ensures a == b
  {
    hide Xor;
    XorCancels(a, c);
    XorCancels(b, c);
  }

  // ---------------------------------------------------------------- offsets are Gray codes

  /** `i` shifted right by `j` bits. */
  function Shr(i: nat, j: nat): nat
    decreases j
  {
    if j == 0 then i else Shr(i / 2, j - 1)
  }

  /** Bit `j` of the Gray code of `i`. */
  predicate Gray(i: nat, j: nat) {
    Shr(i, j) % 2 != Shr(i, j + 1) % 2
  }

  /** Counting up by one flips the bits up to the lowest one set in the result. */
  lemma {:induction false} CountingFlips(i: nat, j: nat)
    ensures Shr(i + 1, j) % 2 != Shr(i, j) % 2 <==> j <= Ntz(i + 1)
    decreases j
  {
    if j > 0 {
      if i % 2 == 0 {
        assert (i + 1) / 2 == i / 2;
      } else {
        assert (i + 1) / 2 == i / 2 + 1;
        CountingFlips(i / 2, j - 1);
      }
    }
  }

  lemma GrayFlips(i: nat, j: nat)
    ensures Gray(i + 1, j) != Gray(i, j) <==> j == Ntz(i + 1)
  {
    CountingFlips(i, j);
    CountingFlips(i, j + 1);
  }

  /** The blocks L_j picked out by the first `n` bits of the Gray code of `i`, all exclusive-ored. */
  function Picked(c: BlockCipher, i: nat, n: nat): Block {
    if n == 0 then Zeros(16)
    else if Gray(i, n - 1) then Xor(Picked(c, i, n - 1), L(c, n - 1))
    else Picked(c, i, n - 1)
  }

  lemma {:induction false} PickedFlips(c: BlockCipher, i: nat, n: nat)
    ensures Picked(c, i + 1, n)
         == if Ntz(i + 1) < n then Xor(Picked(c, i, n), L(c, Ntz(i + 1))) else Picked(c, i, n)
    decreases n
  {
    hide L, Gray, Xor, Ntz;
    if n > 0 {
      var k, a, l := Ntz(i + 1), Picked(c, i, n - 1), L(c, n - 1);
      PickedFlips(c, i, n - 1);
      GrayFlips(i, n - 1);
      if k == n - 1 {
        if Gray(i, n - 1) {
          XorCancels(a, l);
        }
      } else if k < n - 1 && Gray(i, n - 1) {
        XorSwap(a, L(c, k), l);
      }
    }
  }

  lemma XorSwap(a: Octets, b: Octets, c: Octets)
    requires |a| == |b| == |c|
    ensures Xor(Xor(a, b), c) == Xor(Xor(a, c), b)
  {
    hide Xor;
    XorAssoc(a, b, c);
    XorAssoc(a, c, b);
    XorCancels(b, c);
  }

  lemma {:induction false} NothingPicked(c: BlockCipher, n: nat)
    ensures Picked(c, 0, n) == Zeros(16)
    decreases n
  {
    if n > 0 {
      NothingPicked(c, n - 1);
      ShrZero(n - 1);
      ShrZero(n);
    }
  }

  lemma {:induction false} ShrZero(j: nat)
    ensures Shr(0, j) == 0
    decreases j
  {
    if j > 0 {
      ShrZero(j - 1);
    }
  }

  /** Offset_i is Offset_0 and those L_j for which bit j of the Gray code of i is set (section 4.2 of RFC 7253). */
  lemma {:induction false} OffsetIsGrayCode(c: BlockCipher, o0: Block, i: nat, n: nat)
    requires i < Pow2(n)
    ensures Offset(c, o0, i) == Xor(o0, Picked(c, i, n))
    decreases i
  {
    hide L, Xor, Picked, Ntz;
    if i == 0 {
      NothingPicked(c, n);
      XorZeros(o0);
    } else {
      OffsetIsGrayCode(c, o0, i - 1, n);
      PickedFlips(c, i - 1, n);
      NtzBound(i, n);
      XorAssoc(o0, Picked(c, i - 1, n), L(c, Ntz(i)));
    }
  }

  /** `s` doubled `n` times: multiplied by x^n. */
  function Doubles(s: Block, n: nat): Block {
    if n == 0 then s else Doubled(Doubles(s, n - 1))
  }

  /** L_$ is x L_* and L_i is x^(i+2) L_*, where L_* is the cipher of zero (section 4.2 of RFC 7253). */
  lemma {:induction false} KeyBlocksArePowers(c: BlockCipher, i: nat)
    ensures LStar(c) == c.enc(Zeros(16)) && LDollar(c) == Doubles(LStar(c), 1)
    ensures L(c, i) == Doubles(LStar(c), i + 2)
    decreases i
  {
    hide Doubled;
    assert Doubles(LStar(c), 0) == LStar(c);
    assert Doubles(LStar(c), 1) == Doubled(LStar(c));
    assert Doubles(LStar(c), 2) == Doubled(Doubles(LStar(c), 1));
    if i > 0 {
      KeyBlocksArePowers(c, i - 1);
    }
  }

  // ---------------------------------------------------------------- the nonce, bit by bit

  /** A nonce is preceded by 31 zeros, the tag length of 128 among them, and a one. */
  lemma PaddedNonceBits(nonce: Octets, j: nat)
    requires |nonce| == 12 && j < 128
    ensures Bit(PaddedNonce(nonce), j) == if j < 32 then j == 31 else Bit(nonce, j - 32)
  {
    var n := PaddedNonce(nonce);
    if j >= 32 {
      assert n[j / 8] == nonce[(j - 32) / 8];
    }
  }

  lemma MaskedBits(b: bv8, t: nat)
    requires t < 8
    ensures BitOf(b & 0xC0, t) == (t < 2 && BitOf(b, t))
  {
    match t { case 0 => case 1 => case 2 => case 3 => case 4 => case 5 => case 6 => case 7 => }
  }

  /** Top is the padded nonce with its last six bits cleared. */
  lemma TopBits(nonce: Octets, j: nat)
    requires |nonce| == 12 && j < 128
    ensures Bit(Top(nonce), j) == (j < 122 && Bit(PaddedNonce(nonce), j))
  {
    hide BitOf;
    var n := PaddedNonce(nonce);
    if j >= 120 {
      MaskedBits(n[15], j - 120);
      assert j / 8 == 15 && j % 8 == j - 120;
    }
  }

  function Weight(set_: bool, w: nat): nat {
    if set_ then w else 0
  }

  lemma LowSixBits(b: bv8)
    ensures (b & 0x3F) as nat
         == Weight(BitOf(b, 2), 32) + Weight(BitOf(b, 3), 16) + Weight(BitOf(b, 4), 8)
          + Weight(BitOf(b, 5), 4) + Weight(BitOf(b, 6), 2) + Weight(BitOf(b, 7), 1)
  {
  }

  /** Bottom is the number those six bits spell. */
  lemma BottomBits(nonce: Octets)
    requires |nonce| == 12
    ensures Bottom(nonce)
         == Weight(Bit(nonce, 90), 32) + Weight(Bit(nonce, 91), 16) + Weight(Bit(nonce, 92), 8)
          + Weight(Bit(nonce, 93), 4) + Weight(Bit(nonce, 94), 2) + Weight(Bit(nonce, 95), 1)
  {
    hide BitOf;
    LowSixBits(nonce[11]);
  }

  /** The stretch is the ciphered top, then each of its first 64 bits against the one eight places on. */
  lemma StretchBits(ktop: Block, j: nat)
    requires j < 192
    ensures Bit(Stretch(ktop), j) == if j < 128 then Bit(ktop, j) else Bit(ktop, j - 128) != Bit(ktop, j - 120)
  {
    hide BitOf;
    if j >= 128 {
      var a, b := ktop[..8], ktop[1..9];
      XorBits(a, b, j - 128);
      assert Stretch(ktop)[j / 8] == Xor(a, b)[(j - 128) / 8];
      assert (j - 120) / 8 == (j - 128) / 8 + 1 && (j - 120) % 8 == j % 8 == (j - 128) % 8;
    }
  }

  // ---------------------------------------------------------------- the checksum

  /** How many of the first `m` blocks have bit `j` set. */
  function SetBits(p: Octets, j: nat, m: nat): nat
    requires j < 128 && m <= |p| / 16
  {
    if m == 0 then 0
    else SetBits(p, j, m - 1) + if Bit(p, 128 * (m - 1) + j) then 1 else 0
  }

  lemma BlockBit(p: Octets, i: nat, j: nat)
    requires 0 < i <= |p| / 16 && j < 128
    ensures Bit(BlockAt(p, i), j) == Bit(p, 128 * (i - 1) + j)
  {
    hide BitOf;
    assert (128 * (i - 1) + j) / 8 == 16 * (i - 1) + j / 8 && (128 * (i - 1) + j) % 8 == j % 8;
  }

  /** Bit j of the checksum is the parity of bit j over all whole blocks. */
  lemma {:induction false} ChecksumIsParity(p: Octets, j: nat, m: nat)
    requires j < 128 && m <= |p| / 16
    ensures Bit(Checksum(p, m), j) <==> SetBits(p, j, m) % 2 == 1
    decreases m
  {
    hide BlockAt, Bit, Xor;
    if m == 0 {
      ZeroBit(j);
    } else {
      ChecksumIsParity(p, j, m - 1);
      XorBits(Checksum(p, m - 1), BlockAt(p, m), j);
      BlockBit(p, m, j);
    }
  }

  lemma ZeroBit(j: nat)
    requires j < 128
    ensures !Bit(Zeros(16), j)
  {
    assert Zeros(16)[j / 8] == 0;
    match j % 8 { case 0 => case 1 => case 2 => case 3 => case 4 => case 5 => case 6 => case 7 => }
  }

  lemma OneBit(k: nat)
    requires k < 8
    ensures BitOf(0x80, k) == (k == 0) && !BitOf(0, k)
  {
    match k { case 0 => case 1 => case 2 => case 3 => case 4 => case 5 => case 6 => case 7 => }
  }

  /** A partial block is followed by a single one bit and zeros. */
  lemma PaddedBits(rest: Octets, j: nat)
    requires |rest| < 16 && j < 128
    ensures Bit(Padded(rest), j) == if j < 8 * |rest| then Bit(rest, j) else j == 8 * |rest|
  {
    hide BitOf;
    OneBit(j % 8);
    var b := Padded(rest)[j / 8];
    if j >= 8 * |rest| {
      assert b == if j / 8 == |rest| then 0x80 else 0;
    }
  }

  // ---------------------------------------------------------------- blocks and tag

  /** Every whole block is ciphered between two applications of its own offset. */
  lemma {:induction false} BlocksAt(c: BlockCipher, f: Block -> Block, o0: Block, s: Octets, m: nat, i: nat)
    requires 0 < i <= m <= |s| / 16
    ensures var o := Offset(c, o0, i);
      Xor(BlockAt(Blocks(c, f, o0, s, m), i), o) == f(Xor(BlockAt(s, i), o))
    decreases m
  {
    hide Offset;
    var o := Offset(c, o0, i);
    if i < m {
      BlocksAt(c, f, o0, s, m - 1, i);
      assert BlockAt(Blocks(c, f, o0, s, m), i) == BlockAt(Blocks(c, f, o0, s, m - 1), i);
    } else {
      assert BlockAt(Blocks(c, f, o0, s, m), m) == Whiten(o, f, BlockAt(s, m));
      XorCancels(o, f(Xor(BlockAt(s, m), o)));
      XorCancels(f(Xor(BlockAt(s, m), o)), o);
    }
  }

  /** The partial block is masked by as much of the next ciphered offset, L_* added, as it is long. */
  lemma PartialMasked(c: BlockCipher, o0: Block, s: Octets)
    ensures var m := |s| / 16;
      var rest := s[16 * m..];
      && Transform(c, c.enc, o0, s)[16 * m..] == Transform(c, c.dec, o0, s)[16 * m..]
      && Xor(Transform(c, c.enc, o0, s)[16 * m..], rest) == c.enc(Xor(Offset(c, o0, m), LStar(c)))[..|rest|]
  {
    hide Offset, LStar, Blocks, Xor;
    var m := |s| / 16;
    var rest := s[16 * m..];
    var mask := c.enc(Xor(Offset(c, o0, m), LStar(c)))[..|rest|];
    assert Transform(c, c.enc, o0, s)[16 * m..] == Partial(c, o0, s) == Xor(rest, mask);
    assert Transform(c, c.dec, o0, s)[16 * m..] == Partial(c, o0, s);
    XorCancels(rest, mask);
    XorCancels(Xor(rest, mask), rest);
  }

  /** `p` and `q` agree outside whole block `i`. */
  ghost predicate AgreeBut(p: Octets, q: Octets, i: nat) {
    |p| == |q| && forall k :: 0 <= k < |p| && !(16 * (i - 1) <= k < 16 * i) ==> p[k] == q[k]
  }

  /** `p` and `q` differ in whole block `i` and in no other. */
  ghost predicate DifferOnlyAt(p: Octets, q: Octets, i: nat) {
    AgreeBut(p, q, i) && 0 < i <= |p| / 16 && BlockAt(p, i) != BlockAt(q, i)
  }

  lemma OtherBlocksSame(p: Octets, q: Octets, i: nat, k: nat)
    requires DifferOnlyAt(p, q, i) && 0 < k <= |p| / 16 && k != i
    ensures BlockAt(p, k) == BlockAt(q, k)
  {
  }

  lemma {:induction false} ChecksumNotices(p: Octets, q: Octets, i: nat, m: nat)
    requires DifferOnlyAt(p, q, i) && m <= |p| / 16
    ensures Checksum(p, m) == Checksum(q, m) <==> m < i
    decreases m
  {
    hide DifferOnlyAt, Xor, BlockAt;
    assert |p| == |q| && 0 < i <= |p| / 16 && BlockAt(p, i) != BlockAt(q, i) by { DifferMeans(p, q, i); }
    if m > 0 {
      ChecksumNotices(p, q, i, m - 1);
      var a, b := Checksum(p, m - 1), Checksum(q, m - 1);
      if m == i {
        if Xor(a, BlockAt(p, m)) == Xor(b, BlockAt(q, m)) {
          XorCancels(a, BlockAt(p, m));
          XorCancels(b, BlockAt(q, m));
        }
      } else {
        OtherBlocksSame(p, q, i, m);
        if Xor(a, BlockAt(p, m)) == Xor(b, BlockAt(q, m)) {
          XorInjective(a, b, BlockAt(p, m));
        }
      }
    }
  }

  lemma DifferMeans(p: Octets, q: Octets, i: nat)
    requires DifferOnlyAt(p, q, i)
    ensures |p| == |q| && 0 < i <= |p| / 16 && BlockAt(p, i) != BlockAt(q, i)
  {
  }

  /** What a tag is the cipher of. */
  function Sum(p: Octets): Block {
    var m := |p| / 16;
    var rest := p[16 * m..];
    if rest == [] then Checksum(p, m) else Xor(Checksum(p, m), Padded(rest))
  }

  lemma TagOfSum(c: BlockCipher, o0: Block, p: Octets)
    ensures var m := |p| / 16;
      var o := if |p| % 16 == 0 then Offset(c, o0, m) else Xor(Offset(c, o0, m), LStar(c));
      Tag(c, o0, p) == c.enc(Xor(Xor(Sum(p), o), LDollar(c)))
  {
    hide Checksum, Offset, LDollar, LStar;
  }

  /** Two texts of one length have one tag only if their checksums, padding included, are one. */
  lemma TagsEqualIff(c: BlockCipher, o0: Block, p: Octets, q: Octets)
    requires Permutation(c) && |p| == |q|
    ensures Tag(c, o0, p) == Tag(c, o0, q) <==> Sum(p) == Sum(q)
  {
    hide Tag, Sum, Offset, Xor, LDollar, LStar;
    TagOfSum(c, o0, p);
    TagOfSum(c, o0, q);
    var m := |p| / 16;
    var o := if |p| % 16 == 0 then Offset(c, o0, m) else Xor(Offset(c, o0, m), LStar(c));
    var a, b := Xor(Xor(Sum(p), o), LDollar(c)), Xor(Xor(Sum(q), o), LDollar(c));
    if Tag(c, o0, p) == Tag(c, o0, q) {
      assert c.dec(c.enc(a)) == a && c.dec(c.enc(b)) == b;
      XorInjective(Xor(Sum(p), o), Xor(Sum(q), o), LDollar(c));
      XorInjective(Sum(p), Sum(q), o);
    }
  }

  /** The tag notices every change of one whole block. */
  lemma TagNoticesBlock(c: BlockCipher, o0: Block, p: Octets, q: Octets, i: nat)
    requires Permutation(c) && DifferOnlyAt(p, q, i)
    ensures Tag(c, o0, p) != Tag(c, o0, q)
  {
    hide Tag, Checksum, Xor, Permutation, BlockAt, Padded;
    TagsEqualIff(c, o0, p, q);
    var m := |p| / 16;
    ChecksumNotices(p, q, i, m);
    assert p[16 * m..] == q[16 * m..];
    if p[16 * m..] != [] && Sum(p) == Sum(q) {
      XorInjective(Checksum(p, m), Checksum(q, m), Padded(p[16 * m..]));
    }
  }

  lemma PaddedInjective(a: Octets, b: Octets)
    requires |a| == |b| < 16 && a != b
    ensures Padded(a) != Padded(b)
  {
    assert Padded(a)[..|a|] == a && Padded(b)[..|b|] == b;
  }

  /** The tag notices every change of the partial block. */
  lemma TagNoticesPartial(c: BlockCipher, o0: Block, p: Octets, q: Octets)
    requires Permutation(c) && |p| == |q|
    requires var m := |p| / 16; p[..16 * m] == q[..16 * m] && p[16 * m..] != q[16 * m..]
    ensures Tag(c, o0, p) != Tag(c, o0, q)
  {
    hide Tag, Checksum, Xor, Permutation, Padded;
    TagsEqualIff(c, o0, p, q);
    var m := |p| / 16;
    var a, b, k := p[16 * m..], q[16 * m..], Checksum(p, m);
    ChecksumPrefix(p, q, m);
    PaddedInjective(a, b);
    if Sum(p) == Sum(q) {
      XorCancels(k, Padded(a));
      XorCancels(k, Padded(b));
    }
  }

  // ---------------------------------------------------------------- Open notices an altered block

  lemma {:induction false} BlocksDiffer(
      c: BlockCipher, f: Block -> Block, o0: Block, s: Octets, t: Octets, i: nat, m: nat)
    requires DifferOnlyAt(s, t, i) && m <= |s| / 16
    requires forall x: Block, y: Block :: f(x) == f(y) ==> x == y
    ensures var a, b := Blocks(c, f, o0, s, m), Blocks(c, f, o0, t, m);
      && AgreeBut(a, b, i)
      && (i <= m ==> BlockAt(a, i) != BlockAt(b, i))
    decreases m
  {
    hide DifferOnlyAt, AgreeBut, Offset, Whiten, BlockAt;
    NothingDiffers(i);
    DifferMeans(s, t, i);
    if m > 0 {
      BlocksDiffer(c, f, o0, s, t, i, m - 1);
      var a, b := Blocks(c, f, o0, s, m - 1), Blocks(c, f, o0, t, m - 1);
      var o := Offset(c, o0, m);
      var x, y := Whiten(o, f, BlockAt(s, m)), Whiten(o, f, BlockAt(t, m));
      assert Blocks(c, f, o0, s, m) == a + x && Blocks(c, f, o0, t, m) == b + y;
      if m != i {
        OtherBlocksSame(s, t, i, m);
      }
      AppendAgrees(a, b, x, y, i, m);
      if m == i {
        WhitenInjective(o, f, BlockAt(s, m), BlockAt(t, m));
        LastBlock(a, x);
        LastBlock(b, y);
      } else if i < m {
        EarlierBlock(a, x, i);
        EarlierBlock(b, y, i);
      }
    }
  }

  lemma NothingDiffers(i: nat)
    ensures AgreeBut([], [], i)
  {
  }

  lemma AppendAgrees(a: Octets, b: Octets, x: Octets, y: Octets, i: nat, m: nat)
    requires AgreeBut(a, b, i) && |a| == 16 * (m - 1) && |x| == |y| == 16 && (m == i || x == y)
    ensures AgreeBut(a + x, b + y, i)
  {
  }

  lemma LastBlock(a: Octets, x: Block)
    requires |a| % 16 == 0
    ensures BlockAt(a + x, |a| / 16 + 1) == x
  {
  }

  lemma EarlierBlock(a: Octets, x: Block, i: nat)
    requires |a| % 16 == 0 && 0 < i <= |a| / 16
    ensures BlockAt(a + x, i) == BlockAt(a, i)
  {
  }

  lemma WhitenInjective(o: Block, f: Block -> Block, x: Block, y: Block)
    requires (forall u: Block, v: Block :: f(u) == f(v) ==> u == v) && x != y
    ensures Whiten(o, f, x) != Whiten(o, f, y)
  {
    hide Xor;
    if Whiten(o, f, x) == Whiten(o, f, y) {
      XorCancels(o, f(Xor(x, o)));
      XorCancels(o, f(Xor(y, o)));
      XorInjective(x, y, o);
    }
  }

  /** Deciphering two bodies that differ in one whole block gives texts that differ in that block alone. */
  lemma DecipheredDiffer(c: BlockCipher, o0: Block, s: Octets, t: Octets, i: nat)
    requires Permutation(c) && DifferOnlyAt(s, t, i)
    ensures DifferOnlyAt(Transform(c, c.dec, o0, s), Transform(c, c.dec, o0, t), i)
  {
    hide Blocks, Xor, Offset, Partial, DifferOnlyAt;
    DifferMeans(s, t, i);
    TailsSame(s, t, i);
    var m := |s| / 16;
    forall x: Block, y: Block | c.dec(x) == c.dec(y)
      ensures x == y
    {
      assert c.enc(c.dec(x)) == x && c.enc(c.dec(y)) == y;
    }
    BlocksDiffer(c, c.dec, o0, s, t, i, m);
    var x, y, z := Blocks(c, c.dec, o0, s, m), Blocks(c, c.dec, o0, t, m), Partial(c, o0, s);
    PartialAlike(c, o0, s, t);
    TailKeepsDifference(x, y, z, i, m);
    assert Transform(c, c.dec, o0, s) == x + z && Transform(c, c.dec, o0, t) == y + z;
  }

  lemma TailsSame(s: Octets, t: Octets, i: nat)
    requires DifferOnlyAt(s, t, i)
    ensures s[16 * (|s| / 16)..] == t[16 * (|t| / 16)..]
  {
  }

  lemma PartialAlike(c: BlockCipher, o0: Block, s: Octets, t: Octets)
    requires |s| == |t| && s[16 * (|s| / 16)..] == t[16 * (|s| / 16)..]
    ensures Partial(c, o0, s) == Partial(c, o0, t)
  {
    hide OffsetStar;
  }

  lemma TailKeepsDifference(x: Octets, y: Octets, z: Octets, i: nat, m: nat)
    requires |x| == |y| == 16 * m && |z| < 16 && 0 < i <= m && BlockAt(x, i) != BlockAt(y, i)
    requires AgreeBut(x, y, i)
    ensures DifferOnlyAt(x + z, y + z, i)
  {
    var a, b := x + z, y + z;
    assert a[16 * i - 16..16 * i] == x[16 * i - 16..16 * i] && b[16 * i - 16..16 * i] == y[16 * i - 16..16 * i];
  }

  /** A sealed text with one whole block altered, under the tag it had, is never opened. */
  lemma AlteredBlockRejected(c: BlockCipher, nonce: Octets, p: Octets, body: Octets, i: nat)
    requires Permutation(c) && |nonce| == 12
    requires var sealed := SealSpec(c, nonce, p); DifferOnlyAt(body, sealed[..|p|], i)
    ensures OpenSpec(c, nonce, body + SealSpec(c, nonce, p)[|p|..]) == None
  {
    hide Transform, Tag, Offset0, DifferOnlyAt, Permutation;
    var o0, sealed := Offset0(c, nonce), SealSpec(c, nonce, p);
    assert sealed[..|p|] == Transform(c, c.enc, o0, p) && sealed[|p|..] == Tag(c, o0, p);
    assert forall y: Block :: c.dec(c.enc(y)) == y by { Deciphers(c); }
    TransformInverts(c, c.enc, c.dec, o0, p);
    DifferMeans(body, sealed[..|p|], i);
    DecipheredDiffer(c, o0, body, sealed[..|p|], i);
    TagNoticesBlock(c, o0, Transform(c, c.dec, o0, body), p, i);
    var ct := body + sealed[|p|..];
    assert ct[..|ct| - 16] == body && ct[|ct| - 16..] == sealed[|p|..];
  }

  lemma Deciphers(c: BlockCipher)
    requires Permutation(c)
    ensures forall y: Block :: c.dec(c.enc(y)) == y
  {
  }

  // ---------------------------------------------------------------- a sealed text, part by part

  /** Offset_0 is the 128 bits of the stretch of the ciphered top from bit `bottom` on (section 4.2 of RFC 7253). */
  lemma FirstOffsetBits(c: BlockCipher, nonce: Octets, j: nat)
    requires |nonce| == 12 && j < 128
    ensures Bottom(nonce) < 64
    ensures Bit(Offset0(c, nonce), j) == Bit(Stretch(c.enc(Top(nonce))), Bottom(nonce) + j)
  {
    hide Bit, Stretch, Top, Slice, Bottom;
    BottomBound(nonce);
    SliceIsBitSlice(Stretch(c.enc(Top(nonce))), Bottom(nonce), j);
  }

  /** The offset of block `i` without recursion. */
  function OffsetOf(c: BlockCipher, nonce: Octets, i: nat): Block
    requires |nonce| == 12
  {
    Xor(Offset0(c, nonce), Picked(c, i, 32))
  }

  lemma OffsetOfIs(c: BlockCipher, nonce: Octets, i: nat)
    requires |nonce| == 12 && i < 0x1_0000_0000
    ensures OffsetOf(c, nonce, i) == Offset(c, Offset0(c, nonce), i)
  {
    hide Offset0, Offset, Picked, Pow2;
    Pow2At32();
    OffsetIsGrayCode(c, Offset0(c, nonce), i, 32);
  }

  /** Whole block `i` of a sealed text, from the text alone (section 4.2 of RFC 7253). */
  lemma SealedBlock(c: BlockCipher, nonce: Octets, p: Octets, i: nat)
    requires |nonce| == 12 && |p| / 16 < 0x1_0000_0000 && 0 < i <= |p| / 16
    ensures var o := OffsetOf(c, nonce, i);
      Xor(BlockAt(SealSpec(c, nonce, p), i), o) == c.enc(Xor(BlockAt(p, i), o))
  {
    hide Offset0, Offset, OffsetOf, Xor, Blocks, Partial, Tag;
    var o0, m := Offset0(c, nonce), |p| / 16;
    OffsetOfIs(c, nonce, i);
    BlocksAt(c, c.enc, o0, p, m, i);
    assert BlockAt(SealSpec(c, nonce, p), i) == BlockAt(Blocks(c, c.enc, o0, p, m), i);
  }

  /** Its partial block. */
  lemma SealedPartial(c: BlockCipher, nonce: Octets, p: Octets)
    requires |nonce| == 12 && |p| / 16 < 0x1_0000_0000
    ensures var m := |p| / 16;
      Xor(SealSpec(c, nonce, p)[16 * m..|p|], p[16 * m..])
        == c.enc(Xor(OffsetOf(c, nonce, m), LStar(c)))[..|p| % 16]
  {
    hide Offset0, Offset, OffsetOf, Xor, Transform, Tag, LStar;
    var o0, m := Offset0(c, nonce), |p| / 16;
    OffsetOfIs(c, nonce, m);
    PartialMasked(c, o0, p);
    assert SealSpec(c, nonce, p)[16 * m..|p|] == Transform(c, c.enc, o0, p)[16 * m..];
  }

  /** Its tag. */
  lemma SealedTag(c: BlockCipher, nonce: Octets, p: Octets)
    requires |nonce| == 12 && |p| / 16 < 0x1_0000_0000
    ensures var last := OffsetOf(c, nonce, |p| / 16);
      SealSpec(c, nonce, p)[|p|..]
        == c.enc(Xor(Xor(Sum(p), if |p| % 16 == 0 then last else Xor(last, LStar(c))), LDollar(c)))
  {
    hide Offset0, Offset, OffsetOf, Xor, Transform, Tag, LStar, LDollar, Sum;
    OffsetOfIs(c, nonce, |p| / 16);
    TagOfSum(c, Offset0(c, nonce), p);
    assert SealSpec(c, nonce, p)[|p|..] == Tag(c, Offset0(c, nonce), p);
  }
}
