/**
 * OCB3 with 96-bit nonces, 128-bit tags and no associated data: sections 2, 4.2 and 4.3 of RFC 7253
 * as recursive definitions on byte strings (internal/ocb/ocb.go).
 */
module Ocb {
  import opened Basics

  const TAG_LEN := 16
  const NONCE_LEN := 12
  const TABLE_SIZE := 32

  type Octets = seq<bv8>
  type Block = b: seq<bv8> | |b| == 16 witness seq(16, _ => 0)

  /** Any keyed permutation of blocks stands for AES-128. */
  datatype BlockCipher = BlockCipher(enc: Block -> Block, dec: Block -> Block)

  ghost predicate Permutation(c: BlockCipher) {
    (forall x: Block :: c.dec(c.enc(x)) == x) && (forall x: Block :: c.enc(c.dec(x)) == x)
  }

  // ---------------------------------------------------------------- bytes and bits

  function Xor(a: Octets, b: Octets): (r: Octets)
    requires |a| == |b|
    ensures |r| == |a|
    ensures forall i :: 0 <= i < |a| ==> r[i] == a[i] ^ b[i]
  {
    seq(|a|, i requires 0 <= i < |a| => a[i] ^ b[i])
  }

  function Zeros(n: nat): (r: Octets)
    ensures |r| == n
    ensures forall i :: 0 <= i < n ==> r[i] == 0
  {
    seq(n, _ => 0)
  }

  lemma XorCancels(a: Octets, b: Octets)
    requires |a| == |b|
    ensures Xor(Xor(a, b), b) == a && Xor(a, Xor(a, b)) == b && Xor(a, b) == Xor(b, a)
  {
    forall i | 0 <= i < |a|
      ensures (a[i] ^ b[i]) ^ b[i] == a[i] && a[i] ^ (a[i] ^ b[i]) == b[i] && a[i] ^ b[i] == b[i] ^ a[i]
    {
      CancelByte(a[i], b[i]);
    }
  }

  lemma CancelByte(a: bv8, b: bv8)
    ensures (a ^ b) ^ b == a && a ^ (a ^ b) == b && a ^ b == b ^ a
  {
  }

  /** Eight consecutive bits of the two bytes `a b`, from the `k`-th on. */
  function Window(a: bv8, b: bv8, k: nat): bv8
    requires k < 8
  {
    match k
    case 0 => a
    case 1 => (a << 1) | (b >> 7)
    case 2 => (a << 2) | (b >> 6)
    case 3 => (a << 3) | (b >> 5)
    case 4 => (a << 4) | (b >> 4)
    case 5 => (a << 5) | (b >> 3)
    case 6 => (a << 6) | (b >> 2)
    case 7 => (a << 7) | (b >> 1)
  }

  // ---------------------------------------------------------------- the key-dependent blocks

  /** Shift left by one bit across the block and fold the lost bit back in. */
  function Doubled(s: Block): (r: Block)
    ensures forall i :: 0 <= i < 15 ==> r[i] == Window(s[i], s[i + 1], 1)
    ensures r[15] == Folded(s[15], s[0])
  {
    seq(16, i requires 0 <= i < 16 => if i < 15 then Window(s[i], s[i + 1], 1) else Folded(s[15], s[0]))
  }

  /** The last byte shifted, reduced by x^128 = x^7 + x^2 + x + 1 when the first byte's top bit is lost. */
  function Folded(last: bv8, first: bv8): bv8 {
    (last << 1) ^ ((first >> 7) * 0x87)
  }

  function LStar(c: BlockCipher): Block {
    c.enc(Zeros(16))
  }

  function LDollar(c: BlockCipher): Block {
    Doubled(LStar(c))
  }

  function L(c: BlockCipher, i: nat): Block {
    if i == 0 then Doubled(LDollar(c)) else Doubled(L(c, i - 1))
  }

  /** The number of trailing zero bits of `i`. */
  function Ntz(i: nat): nat
    requires i > 0
  {
    if i % 2 == 1 then 0 else 1 + Ntz(i / 2)
  }

  // ---------------------------------------------------------------- nonce-dependent offset (section 4.2)

  /** 7 bits of tag length (0 for 128), zeros, a one, and the nonce. */
  function PaddedNonce(nonce: Octets): Block
    requires |nonce| == NONCE_LEN
  {
    [0, 0, 0, 1] + nonce
  }

  function Bottom(nonce: Octets): nat
    requires |nonce| == NONCE_LEN
  {
    (nonce[11] & 0x3F) as nat
  }

  function Top(nonce: Octets): Block
    requires |nonce| == NONCE_LEN
  {
    var n := PaddedNonce(nonce);
    n[..15] + [n[15] & 0xC0]
  }

  function Stretch(ktop: Block): (r: Octets)
    ensures |r| == 24
  {
    ktop + Xor(ktop[..8], ktop[1..9])
  }

  /** The 128-bit slice of the stretch that starts at bit `bottom`. */
  function Slice(stretch: Octets, bottom: nat): Block
    requires |stretch| == 24 && bottom < 64
  {
    seq(16, i requires 0 <= i < 16 =>
      Window(stretch[bottom / 8 + i], if bottom % 8 == 0 then 0 else stretch[bottom / 8 + i + 1], bottom % 8))
  }

  function Offset0(c: BlockCipher, nonce: Octets): Block
    requires |nonce| == NONCE_LEN
  {
    BottomBound(nonce);
    Slice(Stretch(c.enc(Top(nonce))), Bottom(nonce))
  }

  lemma BottomBound(nonce: Octets)
    requires |nonce| == NONCE_LEN
    ensures Bottom(nonce) < 64
  {
    assert (nonce[11] & 0x3F) <= 0x3F;
  }

  function Offset(c: BlockCipher, o0: Block, i: nat): Block {
    if i == 0 then o0 else Xor(Offset(c, o0, i - 1), L(c, Ntz(i)))
  }

  // ---------------------------------------------------------------- both ways (sections 4.2 and 4.3)

  /** The `i`-th block of `s`, counting from 1. */
  function BlockAt(s: Octets, i: nat): Block
    requires 0 < i <= |s| / 16
  {
    s[16 * i - 16..16 * i]
  }

  function Whiten(o: Block, f: Block -> Block, x: Block): Block {
    Xor(o, f(Xor(x, o)))
  }

  /** The first `m` blocks of `s`, each put through `f` between offsets. */
  function Blocks(c: BlockCipher, f: Block -> Block, o0: Block, s: Octets, m: nat): (r: Octets)
    requires m <= |s| / 16
    ensures |r| == 16 * m
  {
    if m == 0 then [] else Blocks(c, f, o0, s, m - 1) + Whiten(Offset(c, o0, m), f, BlockAt(s, m))
  }

  function OffsetStar(c: BlockCipher, o0: Block, m: nat): Block {
    Xor(Offset(c, o0, m), LStar(c))
  }

  /** The final partial block is masked by an enciphered offset, both ways. */
  function Partial(c: BlockCipher, o0: Block, s: Octets): (r: Octets)
    ensures |r| == |s| % 16
  {
    var m := |s| / 16;
    var rest := s[16 * m..];
    Xor(rest, c.enc(OffsetStar(c, o0, m))[..|rest|])
  }

  function Transform(c: BlockCipher, f: Block -> Block, o0: Block, s: Octets): (r: Octets)
    ensures |r| == |s|
  {
    Blocks(c, f, o0, s, |s| / 16) + Partial(c, o0, s)
  }

  function Checksum(p: Octets, m: nat): Block
    requires m <= |p| / 16
  {
    if m == 0 then Zeros(16) else Xor(Checksum(p, m - 1), BlockAt(p, m))
  }

  /** A partial block is padded with a one bit and zeros. */
  function Padded(rest: Octets): Block
    requires |rest| < 16
  {
    rest + [0x80] + Zeros(15 - |rest|)
  }

  function Tag(c: BlockCipher, o0: Block, p: Octets): Block {
    var m := |p| / 16;
    var rest := p[16 * m..];
    if rest == [] then c.enc(Xor(Xor(Checksum(p, m), Offset(c, o0, m)), LDollar(c)))
    else c.enc(Xor(Xor(Xor(Checksum(p, m), Padded(rest)), OffsetStar(c, o0, m)), LDollar(c)))
  }

  function SealSpec(c: BlockCipher, nonce: Octets, p: Octets): (r: Octets)
    requires |nonce| == NONCE_LEN
    ensures |r| == |p| + TAG_LEN
  {
    var o0 := Offset0(c, nonce);
    Transform(c, c.enc, o0, p) + Tag(c, o0, p)
  }

  function OpenSpec(c: BlockCipher, nonce: Octets, ct: Octets): Option<Octets>
    requires |nonce| == NONCE_LEN
  {
    if |ct| < TAG_LEN then None
    else
      var o0 := Offset0(c, nonce);
      var p := Transform(c, c.dec, o0, ct[..|ct| - TAG_LEN]);
      if Tag(c, o0, p) == ct[|ct| - TAG_LEN..] then Some(p) else None
  }

  // ---------------------------------------------------------------- opening undoes sealing

  lemma WhitenInverts(o: Block, f: Block -> Block, g: Block -> Block, x: Block)
    requires forall y: Block :: g(f(y)) == y
    ensures Whiten(o, g, Whiten(o, f, x)) == x
  {
    var y := f(Xor(x, o));
    XorCancels(o, y);
    XorCancels(x, o);
    assert Xor(Xor(o, y), o) == y by { XorCancels(y, o); }
    assert Xor(o, Xor(x, o)) == x by { XorCancels(o, x); }
  }

  lemma {:induction false} BlocksInvert(
      c: BlockCipher, f: Block -> Block, g: Block -> Block, o0: Block, s: Octets, t: Octets, m: nat)
    requires forall y: Block :: g(f(y)) == y
    requires |t| == |s| && m <= |s| / 16
    requires t[..16 * m] == Blocks(c, f, o0, s, m)
    ensures Blocks(c, g, o0, t, m) == s[..16 * m]
    decreases m
  {
    hide Whiten, Offset;
    if m > 0 {
      var o := Offset(c, o0, m);
      assert t[..16 * (m - 1)] == Blocks(c, f, o0, s, m - 1) by {
        assert t[..16 * m][..16 * (m - 1)] == t[..16 * (m - 1)];
      }
      BlocksInvert(c, f, g, o0, s, t, m - 1);
      assert BlockAt(t, m) == t[..16 * m][16 * m - 16..];
      WhitenInverts(o, f, g, BlockAt(s, m));
      assert s[..16 * m] == s[..16 * (m - 1)] + BlockAt(s, m);
    }
  }

  lemma PartialInverts(c: BlockCipher, o0: Block, s: Octets, t: Octets)
    requires |t| == |s| && t[16 * (|s| / 16)..] == Partial(c, o0, s)
    ensures Partial(c, o0, t) == s[16 * (|s| / 16)..]
  {
    var m := |s| / 16;
    var rest := s[16 * m..];
    var pad := c.enc(OffsetStar(c, o0, m))[..|rest|];
    XorCancels(rest, pad);
  }

  /** Deciphering undoes enciphering on whole texts, and the other way round. */
  lemma TransformInverts(c: BlockCipher, f: Block -> Block, g: Block -> Block, o0: Block, s: Octets)
    requires forall y: Block :: g(f(y)) == y
    ensures Transform(c, g, o0, Transform(c, f, o0, s)) == s
  {
    hide Blocks, Partial;
    var m, t := |s| / 16, Transform(c, f, o0, s);
    assert t[..16 * m] == Blocks(c, f, o0, s, m) && t[16 * m..] == Partial(c, o0, s);
    BlocksInvert(c, f, g, o0, s, t, m);
    PartialInverts(c, o0, s, t);
    assert s[..16 * m] + s[16 * m..] == s;
  }

  /** For any block permutation, nonce and text, Open accepts `ct` as `p` exactly when Seal makes it of `p`. */
  lemma OpenIffSealed(c: BlockCipher, nonce: Octets, p: Octets, ct: Octets)
    requires Permutation(c) && |nonce| == NONCE_LEN
    ensures OpenSpec(c, nonce, ct) == Some(p) <==> SealSpec(c, nonce, p) == ct
  {
    hide Transform, Tag, Offset0;
    var o0 := Offset0(c, nonce);
    if SealSpec(c, nonce, p) == ct {
      TransformInverts(c, c.enc, c.dec, o0, p);
      assert ct[..|p|] == Transform(c, c.enc, o0, p) && ct[|p|..] == Tag(c, o0, p);
    }
    if OpenSpec(c, nonce, ct) == Some(p) {
      var body := ct[..|ct| - TAG_LEN];
      TransformInverts(c, c.dec, c.enc, o0, body);
      assert ct == body + ct[|ct| - TAG_LEN..];
    }
  }
}
