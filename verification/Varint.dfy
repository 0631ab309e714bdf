/** Base-128 varints (internal/wire/wire.go). */
module Varint {
  import opened Basics

  datatype WireError = Truncated | VarintOverflow | FieldZero | BadWireType | VersionOverflow

  /** The little-endian base-128 digits of `v`, every byte but the last carrying the high bit. */
  function Encode(v: nat): bytes {
    if v < 128 then [v] else [v % 128 + 128] + Encode(v / 128)
  }

  function Pow128(i: nat): (p: nat)
    ensures p > 0
  {
    if i == 0 then 1 else 128 * Pow128(i - 1)
  }

  /** The digit at position `i`, shifted into a 64-bit word: bits shifted past bit 63 are lost. */
  function Term(b: byte, i: nat): nat {
    b % 128 * Pow128(i) % TWO64
  }

  datatype Read = Read(value: nat, length: nat)

  /** Reads the digits from position `i` on; `value` is their contribution to the word. */
  function ReadFrom(b: bytes, i: nat): Result<Read, WireError>
    decreases |b|
  {
    if b == [] then Err(Truncated)
    else if i >= 10 then Err(VarintOverflow)
    else if b[0] < 128 then Ok(Read(Term(b[0], i), 1))
    else match ReadFrom(b[1..], i + 1)
      case Err(e) => Err(e)
      case Ok(r) => Ok(Read(Term(b[0], i) + r.value, r.length + 1))
  }

  function Decode(b: bytes): Result<Read, WireError> {
    ReadFrom(b, 0)
  }

  lemma Pow128At9()
    ensures Pow128(9) == TWO63
  {
    assert Pow128(3) == 2097152;
    assert Pow128(6) == 128 * 128 * 128 * Pow128(3);
    assert Pow128(9) == 128 * 128 * 128 * Pow128(6);
  }

  lemma {:induction false} Pow128Monotone(i: nat, j: nat)
    requires i <= j
    ensures Pow128(i) <= Pow128(j)
    decreases j
  {
    if i < j {
      Pow128Monotone(i, j - 1);
    }
  }

  lemma SmallTerm(b: byte, i: nat)
    requires i < 9
    ensures Term(b, i) == b % 128 * Pow128(i) <= Pow128(i + 1) - Pow128(i)
  {
    Pow128At9();
    Pow128Monotone(i + 1, 9);
    assert Pow128(i + 1) == 128 * Pow128(i);
    hide Pow128;
    Scaled(b % 128, Pow128(i));
  }

  lemma Scaled(d: nat, p: nat)
    requires d < 128 && 128 * p <= TWO63
    ensures d * p <= 127 * p && d * p % TWO64 == d * p
  {
    AtMost(d, p);
    NoWrap(d * p);
  }

  lemma AtMost(d: nat, p: nat)
    requires d < 128
    ensures 0 <= d * p <= 127 * p
  {
  }

  lemma NoWrap(x: nat)
    requires x < TWO64
    ensures x % TWO64 == x
  {
  }

  /** What is read always fits in 64 bits, and at most ten bytes, none past the input, are used. */
  lemma {:induction false} ReadFromBounds(b: bytes, i: nat)
    requires ReadFrom(b, i).Ok?
    ensures var r := ReadFrom(b, i).value;
      i < 10 && 0 < r.length <= |b| && r.length <= 10 - i && r.value <= TWO64 - Pow128(i)
    decreases |b|
  {
    Pow128At9();
    if i < 9 {
      SmallTerm(b[0], i);
      Pow128Monotone(i + 1, 9);
      if b[0] >= 128 {
        ReadFromBounds(b[1..], i + 1);
      }
    }
  }

  /** A complete varint is read the same whatever follows it. */
  lemma {:induction false} ReadFromAppend(a: bytes, b: bytes, i: nat)
    requires ReadFrom(a, i).Ok?
    ensures ReadFrom(a + b, i) == ReadFrom(a, i)
    decreases |a|
  {
    assert (a + b)[0] == a[0];
    if a[0] >= 128 {
      ReadFromAppend(a[1..], b, i + 1);
      assert (a + b)[1..] == a[1..] + b;
    }
  }

  lemma Distribute(q: nat, d: nat, p: nat)
    ensures (128 * q + d) * p == d * p + q * (128 * p)
  {
  }

  lemma AtLeast(v: nat, p: nat)
    requires v >= 128
    ensures v * p >= 128 * p
  {
  }

  /** Splitting off the lowest digit of a value that fits at position `i`. */
  lemma SplitDigit(v: nat, i: nat)
    requires i < 10 && v >= 128 && v * Pow128(i) < TWO64
    ensures i < 9
    ensures v * Pow128(i) == v % 128 * Pow128(i) + v / 128 * Pow128(i + 1)
    ensures v / 128 * Pow128(i + 1) < TWO64
  {
    Pow128At9();
    var p, q, d := Pow128(i), v / 128, v % 128;
    AtLeast(v, p);
    Distribute(q, d, p);
    assert v == 128 * q + d && Pow128(i + 1) == 128 * p;
    assert d * p >= 0;
  }

  lemma LastDigit(v: nat, i: nat)
    requires v < 128 && v * Pow128(i) < TWO64
    ensures Term(v, i) == v * Pow128(i)
  {
    hide Pow128;
    NoWrap(v * Pow128(i));
  }

  lemma FirstDigit(v: nat, i: nat)
    requires i < 9
    ensures Term(v % 128 + 128, i) == v % 128 * Pow128(i)
  {
    hide Pow128, Term;
    SmallTerm(v % 128 + 128, i);
  }

  lemma ReadOne(b: byte, i: nat)
    requires b < 128 && i < 10
    ensures ReadFrom([b], i) == Ok(Read(Term(b, i), 1))
  {
  }

  lemma ReadCons(b: byte, rest: bytes, i: nat)
    requires b >= 128 && i < 10 && ReadFrom(rest, i + 1).Ok?
    ensures var r := ReadFrom(rest, i + 1).value;
      ReadFrom([b] + rest, i) == Ok(Read(Term(b, i) + r.value, r.length + 1))
  {
    hide Term;
    assert ([b] + rest)[1..] == rest;
  }

  lemma {:induction false} ReadEncoded(v: nat, i: nat)
    requires i < 10 && v * Pow128(i) < TWO64
    ensures ReadFrom(Encode(v), i) == Ok(Read(v * Pow128(i), |Encode(v)|))
    decreases v
  {
    hide Pow128, Term, ReadFrom;
    if v >= 128 {
      SplitDigit(v, i);
      ReadEncoded(v / 128, i + 1);
      FirstDigit(v, i);
      ReadCons(v % 128 + 128, Encode(v / 128), i);
    } else {
      LastDigit(v, i);
      ReadOne(v, i);
    }
  }

  /** Varints over all of uint64 decode to what was encoded, using exactly the encoded bytes. */
  lemma RoundTrip(v: nat, rest: bytes)
    requires v < TWO64
    ensures Decode(Encode(v) + rest) == Ok(Read(v, |Encode(v)|))
    ensures 0 < |Encode(v)| <= 10
  {
    assert v * Pow128(0) == v;
    ReadEncoded(v, 0);
    ReadFromBounds(Encode(v), 0);
    ReadFromAppend(Encode(v), rest, 0);
  }

  method AppendVarint(b: bytes, value: nat) returns (r: bytes)
    ensures r == b + Encode(value)
  {
    r := b;
    var v := value;
    while v >= 0x80
      invariant r + Encode(v) == b + Encode(value)
    {
      r := r + [v % 128 + 128];
      v := v / 128;
    }
    r := r + [v];
  }

  /** The loop that reads a varint: accumulates the word, and stops at the first byte below 0x80. */
  method ReadVarint(b: bytes) returns (r: Result<Read, WireError>)
    ensures r == Decode(b)
  {
    var v: nat, i: nat, scale: nat := 0, 0, 1;
    while i < |b|
      invariant 0 <= i <= |b| && i <= 10
      invariant scale == Pow128(i)
      invariant match ReadFrom(b[i..], i)
        case Err(e) => Decode(b) == Err(e)
        case Ok(t) => Decode(b) == Ok(Read(v + t.value, i + t.length))
    {
      if i >= 10 {
        return Err(VarintOverflow);
      }
      assert b[i..][1..] == b[i + 1..];
      v := v + b[i] % 128 * scale % TWO64;
      if b[i] < 0x80 {
        return Ok(Read(v, i + 1));
      }
      i, scale := i + 1, 128 * scale;
    }
    r := Err(Truncated);
  }
}
