/** The cipher object: loops over byte arrays that compute the definitions of module Ocb (internal/ocb/ocb.go). */
module OcbCipher {
  import opened Basics
  import opened Ocb

  // ---------------------------------------------------------------- block operations in place

  /** `dst` may be `a` or `b`. */
  method XorBlock(dst: array<bv8>, a: array<bv8>, b: array<bv8>)
    requires dst.Length == a.Length == b.Length == 16
    modifies dst
    ensures dst[..] == Xor(old(a[..]), old(b[..]))
  {
    for i := 0 to 16
      invariant forall k :: 0 <= k < i ==> dst[k] == old(a[k]) ^ old(b[k])
      invariant forall k :: i <= k < 16 ==> a[k] == old(a[k]) && b[k] == old(b[k])
    {
      dst[i] := a[i] ^ b[i];
    }
  }

  /** XORs a byte string into an array in place. */
  method XorInto(dst: array<bv8>, s: Octets)
    requires |s| <= dst.Length
    modifies dst
    ensures dst[..] == Xor(old(dst[..])[..|s|], s) + old(dst[..])[|s|..]
  {
    for i := 0 to |s|
      invariant forall k :: 0 <= k < i ==> dst[k] == old(dst[k]) ^ s[k]
      invariant forall k :: i <= k < dst.Length ==> dst[k] == old(dst[k])
    {
      dst[i] := dst[i] ^ s[i];
    }
  }

  function XorByte(a: bv8, b: bv8): bv8 {
    a ^ b
  }

  lemma IsStretch(s: Octets, ktop: Block)
    requires |s| == 24 && forall k :: 0 <= k < 16 ==> s[k] == ktop[k]
    requires forall k :: 0 <= k < 8 ==> s[16 + k] == XorByte(ktop[k], ktop[k + 1])
    ensures s == Stretch(ktop)
  {
    var tail := Xor(ktop[..8], ktop[1..9]);
    forall k | 0 <= k < 8
      ensures s[16 + k] == tail[k]
    {
      assert ktop[..8][k] == ktop[k] && ktop[1..9][k] == ktop[k + 1];
    }
    assert s == s[..16] + s[16..] && s[..16] == ktop && s[16..] == tail;
  }

  method Store(dst: array<bv8>, at: nat, s: Octets)
    requires at + |s| <= dst.Length
    modifies dst
    ensures dst[..] == old(dst[..])[..at] + s + old(dst[..])[at + |s|..]
  {
    for i := 0 to |s|
      invariant forall k :: at <= k < at + i ==> dst[k] == s[k - at]
      invariant forall k :: 0 <= k < dst.Length && !(at <= k < at + i) ==> dst[k] == old(dst[k])
    {
      dst[at + i] := s[i];
    }
  }

  function ShiftByte(b: bv8, carry: bv8): bv8 {
    (b << 1) | carry
  }

  function CarryOf(b: bv8): bv8 {
    b >> 7
  }

  lemma ShiftIsWindow(b: bv8, next: bv8)
    ensures ShiftByte(b, CarryOf(next)) == Window(b, next, 1)
  {
  }

  function FoldByte(b: bv8, carry: bv8): bv8 {
    b ^ (carry * 0x87)
  }

  lemma FoldIsShift(last: bv8, first: bv8)
    ensures FoldByte(ShiftByte(last, 0), CarryOf(first)) == Folded(last, first)
  {
  }

  /** The carry runs from the last byte to the first; `dst` may be `src`. */
  method ShiftAll(dst: array<bv8>, src: array<bv8>) returns (carry: bv8)
    requires dst.Length == src.Length == 16
    modifies dst
    ensures carry == CarryOf(old(src[0])) && dst[15] == ShiftByte(old(src[15]), 0)
    ensures forall k :: 0 <= k < 15 ==> dst[k] == ShiftByte(old(src[k]), CarryOf(old(src[k + 1])))
  {
    hide ShiftByte, CarryOf;
    ghost var s := src[..];
    carry := 0;
    for i := 16 downto 0
      invariant i < 16 ==> carry == CarryOf(s[i]) && dst[15] == ShiftByte(s[15], 0)
      invariant i == 16 ==> carry == 0
      invariant forall k :: i <= k < 15 ==> dst[k] == ShiftByte(s[k], CarryOf(s[k + 1]))
      invariant forall k :: 0 <= k < i ==> src[k] == s[k]
    {
      var b := src[i];
      dst[i] := ShiftByte(b, carry);
      carry := CarryOf(b);
    }
  }

  method Double(dst: array<bv8>, src: array<bv8>)
    requires dst.Length == src.Length == 16
    modifies dst
    ensures dst[..] == Doubled(old(src[..]))
  {
    hide Window, Folded, ShiftByte, CarryOf, FoldByte;
    ghost var s := src[..];
    var carry := ShiftAll(dst, src);
    dst[15] := FoldByte(dst[15], carry);
    FoldIsShift(s[15], s[0]);
    IsDoubled(dst[..], s);
  }

  lemma IsDoubled(d: Octets, s: Block)
    requires |d| == 16 && d[15] == Folded(s[15], s[0])
    requires forall k :: 0 <= k < 15 ==> d[k] == ShiftByte(s[k], CarryOf(s[k + 1]))
    ensures d == Doubled(s)
  {
    hide Window, Folded, ShiftByte, CarryOf;
    forall k | 0 <= k < 15
      ensures d[k] == Window(s[k], s[k + 1], 1)
    {
      ShiftIsWindow(s[k], s[k + 1]);
    }
  }

  /** L_$ and the table L_0, L_1, ... of a key whose L_* is `star`. */
  method KeyBlocks(star: Block) returns (dollar: Block, table: seq<Block>)
    ensures dollar == Doubled(star) && |table| == TABLE_SIZE
    ensures table[0] == Doubled(dollar) && forall i :: 0 < i < TABLE_SIZE ==> table[i] == Doubled(table[i - 1])
  {
    hide Doubled;
    var src := new bv8[16](i requires 0 <= i < 16 => star[i]);
    assert src[..] == star;
    var dst := new bv8[16];
    Double(dst, src);
    dollar := dst[..];
    Double(dst, dst);
    table := [dst[..]];
    while |table| < TABLE_SIZE
      invariant 1 <= |table| <= TABLE_SIZE && table[0] == Doubled(dollar)
      invariant forall i :: 0 < i < |table| ==> table[i] == Doubled(table[i - 1])
      invariant dst[..] == table[|table| - 1]
    {
      Double(dst, dst);
      table := table + [dst[..]];
    }
  }

  lemma {:induction false} TableIsL(c: BlockCipher, table: seq<Block>, i: nat)
    requires i < |table| && table[0] == Doubled(LDollar(c))
    requires forall k :: 0 < k < |table| ==> table[k] == Doubled(table[k - 1])
    ensures table[i] == L(c, i)
    decreases i
  {
    hide Doubled;
    if i > 0 {
      TableIsL(c, table, i - 1);
    }
  }

  // ---------------------------------------------------------------- the cipher

  lemma {:induction false} NtzBound(i: nat, k: nat)
    requires 0 < i < Pow2(k)
    ensures Ntz(i) < k
    decreases k
  {
    if i % 2 == 0 {
      NtzBound(i / 2, k - 1);
    }
  }

  function Pow2(k: nat): nat {
    if k == 0 then 1 else 2 * Pow2(k - 1)
  }

  lemma Pow2At32()
    ensures Pow2(32) == 0x1_0000_0000
  {
    assert Pow2(8) == 256;
    assert Pow2(16) == 256 * Pow2(8) by { Pow2Step(8); }
    assert Pow2(24) == 256 * Pow2(16) by { Pow2Step(16); }
    assert Pow2(32) == 256 * Pow2(24) by { Pow2Step(24); }
  }

  /** The table reaches every block of a text of fewer than 2^32 blocks. */
  lemma TableCovers(i: nat)
    requires 0 < i < 0x1_0000_0000
    ensures Ntz(i) < TABLE_SIZE
  {
    hide Pow2;
    Pow2At32();
    NtzBound(i, 32);
  }

  lemma OffsetStep(c: BlockCipher, o0: Block, i: nat)
    ensures Offset(c, o0, i + 1) == Xor(Offset(c, o0, i), L(c, Ntz(i + 1)))
  {
  }

  lemma Pow2Step(k: nat)
    ensures Pow2(k + 8) == 256 * Pow2(k)
  {
    assert Pow2(k + 2) == 4 * Pow2(k);
    assert Pow2(k + 4) == 4 * Pow2(k + 2);
    assert Pow2(k + 6) == 4 * Pow2(k + 4);
    assert Pow2(k + 8) == 4 * Pow2(k + 6);
  }

  class Cipher {
    const block: BlockCipher
    const lStar: Block
    const lDollar: Block
    const l: seq<Block>

    /** The precomputed blocks are the key's. */
    ghost predicate Valid() {
      && lStar == LStar(block) && lDollar == LDollar(block)
      && |l| == TABLE_SIZE && forall i :: 0 <= i < TABLE_SIZE ==> l[i] == L(block, i)
    }

    constructor (block: BlockCipher)
      ensures Valid() && this.block == block
    {
      hide Doubled, L;
      var star := block.enc(Zeros(16));
      var dollar, table := KeyBlocks(star);
      forall i | 0 <= i < TABLE_SIZE
        ensures table[i] == L(block, i)
      {
        TableIsL(block, table, i);
      }
      this.block, lStar, lDollar, l := block, star, dollar, table;
    }

    method Stretched(ktop: Block) returns (stretch: array<bv8>)
      ensures fresh(stretch) && stretch[..] == Stretch(ktop)
    {
      hide XorByte, Stretch;
      stretch := new bv8[24](_ => 0);
      Store(stretch, 0, ktop);
      assert forall k :: 0 <= k < 16 ==> stretch[k] == stretch[..][k] == ktop[k];
      AppendXor(stretch, ktop);
      IsStretch(stretch[..], ktop);
    }

    /** The last third of the stretch: each of the first bytes of `ktop` against the next. */
    method AppendXor(stretch: array<bv8>, ktop: Block)
      requires stretch.Length == 24
      modifies stretch
      ensures forall k :: 0 <= k < 16 ==> stretch[k] == old(stretch[k])
      ensures forall k :: 0 <= k < 8 ==> stretch[16 + k] == XorByte(ktop[k], ktop[k + 1])
    {
      hide XorByte;
      for i := 0 to 8
        invariant forall k :: 0 <= k < 16 ==> stretch[k] == old(stretch[k])
        invariant forall k :: 0 <= k < i ==> stretch[16 + k] == XorByte(ktop[k], ktop[k + 1])
      {
        stretch[16 + i] := XorByte(ktop[i], ktop[i + 1]);
      }
    }

    method InitialOffset(nonce: Octets) returns (offset: array<bv8>)
      requires |nonce| == NONCE_LEN
      ensures fresh(offset) && offset.Length == 16 && offset[..] == Offset0(block, nonce)
    {
      hide Slice, Stretch;
      var n := PaddedNonce(nonce);
      assert n[15] == nonce[11];
      BottomBound(nonce);
      var bottom := (n[15] & 0x3F) as nat;
      var stretch := Stretched(block.enc(n[..15] + [n[15] & 0xC0]));
      offset := Shifted(stretch[..], bottom);
    }

    method Shifted(stretch: Octets, bottom: nat) returns (offset: array<bv8>)
      requires |stretch| == 24 && bottom < 64
      ensures fresh(offset) && offset.Length == 16 && offset[..] == Slice(stretch, bottom)
    {
      hide Window;
      offset := new bv8[16](_ => 0);
      var byteOff, bitOff := bottom / 8, bottom % 8;
      for i := 0 to 16
        invariant forall k :: 0 <= k < i ==> offset[k] == Slice(stretch, bottom)[k]
      {
        if bitOff == 0 {
          offset[i] := Window(stretch[byteOff + i], 0, bitOff);
        } else {
          offset[i] := Window(stretch[byteOff + i], stretch[byteOff + i + 1], bitOff);
        }
      }
    }

    // -------------------------------------------------------------- sealing and opening

    /** One block between two applications of the offset. */
    method WhitenBlock(f: Block -> Block, offset: array<bv8>, x: Block) returns (y: Block)
      requires offset.Length == 16
      ensures y == Whiten(offset[..], f, x)
    {
      var tmp := new bv8[16](i requires 0 <= i < 16 => x[i]);
      assert tmp[..] == x;
      XorInto(tmp, offset[..]);
      ghost var o := offset[..];
      assert tmp[..] == Xor(x, o);
      var e := f(tmp[..]);
      Store(tmp, 0, e);
      assert tmp[..] == e;
      XorInto(tmp, offset[..]);
      assert tmp[..] == Xor(e, o);
      XorCancels(e, o);
      y := tmp[..];
    }

    method NextOffset(offset: array<bv8>, i: nat, ghost o0: Block)
      requires Valid() && offset.Length == 16 && i + 1 < 0x1_0000_0000
      requires offset[..] == Offset(block, o0, i)
      modifies offset
      ensures offset[..] == Offset(block, o0, i + 1)
    {
      hide L, Ntz, Offset, Xor;
      TableCovers(i + 1);
      OffsetStep(block, o0, i);
      AddBlock(offset, l[Ntz(i + 1)]);
    }

    method AddBlock(dst: array<bv8>, x: Block)
      requires dst.Length == 16
      modifies dst
      ensures dst[..] == Xor(old(dst[..]), x)
    {
      XorInto(dst, x);
      assert old(dst[..])[..16] == old(dst[..]);
    }

    method SealBlocks(p: Octets, offset: array<bv8>, checksum: array<bv8>, ghost o0: Block) returns (out: Octets)
      requires Valid() && |p| / 16 < 0x1_0000_0000
      requires offset != checksum && offset.Length == checksum.Length == 16
      requires offset[..] == o0 && checksum[..] == Zeros(16)
      modifies offset, checksum
      ensures var m := |p| / 16;
        && offset[..] == Offset(block, o0, m) && checksum[..] == Checksum(p, m)
        && out == Blocks(block, block.enc, o0, p, m)
    {
      hide Valid, L, Ntz, Whiten;
      out := [];
      for i := 0 to |p| / 16
        invariant offset[..] == Offset(block, o0, i) && checksum[..] == Checksum(p, i)
        invariant out == Blocks(block, block.enc, o0, p, i)
      {
        NextOffset(offset, i, o0);
        var x := BlockAt(p, i + 1);
        var y := WhitenBlock(block.enc, offset, x);
        out := out + y;
        AddBlock(checksum, x);
      }
    }

    method OpenBlocks(body: Octets, offset: array<bv8>, checksum: array<bv8>, ghost o0: Block) returns (out: Octets)
      requires Valid() && |body| / 16 < 0x1_0000_0000
      requires offset != checksum && offset.Length == checksum.Length == 16
      requires offset[..] == o0 && checksum[..] == Zeros(16)
      modifies offset, checksum
      ensures var m := |body| / 16;
        && offset[..] == Offset(block, o0, m) && out == Blocks(block, block.dec, o0, body, m)
        && checksum[..] == Checksum(out, m)
    {
      hide Valid, L, Ntz, Whiten;
      out := [];
      for i := 0 to |body| / 16
        invariant offset[..] == Offset(block, o0, i)
        invariant out == Blocks(block, block.dec, o0, body, i) && checksum[..] == Checksum(out, i)
      {
        NextOffset(offset, i, o0);
        var y := WhitenBlock(block.dec, offset, BlockAt(body, i + 1));
        ChecksumPrefix(out, out + y, i);
        assert BlockAt(out + y, i + 1) == y;
        out := out + y;
        AddBlock(checksum, y);
      }
    }

    /** The pad for a partial block, from the offset advanced by L_*. */
    method PartialPad(offset: array<bv8>, n: nat) returns (pad: Octets)
      requires Valid() && offset.Length == 16 && n < 16
      modifies offset
      ensures offset[..] == Xor(old(offset[..]), LStar(block)) && pad == block.enc(offset[..])[..n]
    {
      AddBlock(offset, lStar);
      pad := block.enc(offset[..])[..n];
    }

    /** Folds a partial block, its one bit and zeros into the checksum. */
    method FinishChecksum(checksum: array<bv8>, rest: Octets)
      requires checksum.Length == 16 && |rest| < 16
      modifies checksum
      ensures checksum[..] == Xor(old(checksum[..]), Padded(rest))
    {
      ghost var c := checksum[..];
      XorInto(checksum, rest);
      checksum[|rest|] := checksum[|rest|] ^ 0x80;
      forall k | |rest| < k < 16
        ensures checksum[k] == c[k] ^ 0
      {
        XorZero(c[k]);
      }
    }

    method MakeTag(checksum: array<bv8>, offset: array<bv8>) returns (tag: Block)
      requires Valid() && checksum != offset && checksum.Length == offset.Length == 16
      modifies checksum
      ensures tag == block.enc(Xor(Xor(old(checksum[..]), offset[..]), LDollar(block)))
    {
      XorBlock(checksum, checksum, offset);
      AddBlock(checksum, lDollar);
      tag := block.enc(checksum[..]);
    }

    method Seal(dst: Octets, nonce: Octets, p: Octets) returns (r: Result<Octets, OcbError>)
      requires Valid() && |p| / 16 < 0x1_0000_0000
      ensures r == if |nonce| != NONCE_LEN then Err(BadNonce) else Ok(dst + SealSpec(block, nonce, p))
    {
      hide Valid, Blocks, Checksum, Offset, Offset0, LStar, LDollar, Padded;
      if |nonce| != NONCE_LEN {
        return Err(BadNonce);
      }
      var offset := InitialOffset(nonce);
      ghost var o0 := Offset0(block, nonce);
      var checksum := new bv8[16](_ => 0);
      assert checksum[..] == Zeros(16);
      var out := SealBlocks(p, offset, checksum, o0);
      var rest := p[16 * (|p| / 16)..];
      if |rest| > 0 {
        var pad := PartialPad(offset, |rest|);
        out := out + Xor(rest, pad);
        FinishChecksum(checksum, rest);
      } else {
        NoPartial(block, o0, p);
      }
      assert out == Transform(block, block.enc, o0, p);
      var tag := MakeTag(checksum, offset);
      r := Ok(dst + (out + tag));
    }

    method Open(dst: Octets, nonce: Octets, ct: Octets) returns (r: Result<Octets, OcbError>)
      requires Valid() && |ct| / 16 <= 0x1_0000_0000
      ensures |nonce| != NONCE_LEN ==> r == Err(BadNonce)
      ensures |nonce| == NONCE_LEN ==>
        r == match OpenSpec(block, nonce, ct) case None => Err(ErrOpen) case Some(p) => Ok(dst + p)
    {
      hide Valid, Blocks, Checksum, Offset, Offset0, LStar, LDollar, Padded;
      if |nonce| != NONCE_LEN {
        return Err(BadNonce);
      }
      if |ct| < TAG_LEN {
        return Err(ErrOpen);
      }
      var body, tag := ct[..|ct| - TAG_LEN], ct[|ct| - TAG_LEN..];
      var offset := InitialOffset(nonce);
      ghost var o0, m := Offset0(block, nonce), |body| / 16;
      var checksum := new bv8[16](_ => 0);
      assert checksum[..] == Zeros(16);
      var out := OpenBlocks(body, offset, checksum, o0);
      ghost var head := out;
      var rest := body[16 * (|body| / 16)..];
      if |rest| > 0 {
        var pad := PartialPad(offset, |rest|);
        var tail := Xor(rest, pad);
        out := out + tail;
        FinishChecksum(checksum, tail);
        assert out[16 * m..] == tail;
      } else {
        NoPartial(block, o0, body);
      }
      assert out == Transform(block, block.dec, o0, body);
      ChecksumPrefix(head, out, m);
      var expected := MakeTag(checksum, offset);
      assert expected == Tag(block, o0, out);
      if expected != tag {
        return Err(ErrOpen);
      }
      r := Ok(dst + out);
    }
  }

  datatype OcbError = BadNonce | ErrOpen

  lemma XorZero(b: bv8)
    ensures b ^ 0 == b
  {
  }

  lemma {:induction false} ChecksumPrefix(p: Octets, q: Octets, m: nat)
    requires m <= |p| / 16 && m <= |q| / 16 && p[..16 * m] == q[..16 * m]
    ensures Checksum(p, m) == Checksum(q, m)
    decreases m
  {
    if m > 0 {
      assert p[..16 * (m - 1)] == p[..16 * m][..16 * (m - 1)] == q[..16 * (m - 1)];
      ChecksumPrefix(p, q, m - 1);
      assert BlockAt(p, m) == p[..16 * m][16 * m - 16..] == BlockAt(q, m);
    }
  }

  lemma NoPartial(c: BlockCipher, o0: Block, s: Octets)
    requires |s| % 16 == 0
    ensures Partial(c, o0, s) == []
  {
  }
}
