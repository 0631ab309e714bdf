/** The bytes of the wire format themselves: varint digits, field keys and message layouts (internal/wire/wire.go). */
module WireLayout {
  import opened Basics
  import opened Varint
  import opened Wire

  // ---------------------------------------------------------------- varints, digit by digit

  /** The first `n` bytes of `b` as base-128 digits, the first weighted 128^i. */
  function DigitSum(b: bytes, i: nat, n: nat): nat
    requires n <= |b|
    decreases n
  {
    if n == 0 then 0 else b[0] % 128 * Pow128(i) + DigitSum(b[1..], i + 1, n - 1)
  }

  lemma {:induction false} EncodedSum(v: nat, i: nat)
    ensures DigitSum(Encode(v), i, |Encode(v)|) == v * Pow128(i)
    decreases v
  {
    hide Pow128;
    if v >= 128 {
      EncodedSum(v / 128, i + 1);
      NextPower(i);
      assert Encode(v)[1..] == Encode(v / 128);
      Distribute(v / 128, v % 128, Pow128(i));
    } else {
      assert DigitSum(Encode(v)[1..], i + 1, 0) == 0;
    }
  }

  lemma NextPower(i: nat)
    ensures Pow128(i + 1) == 128 * Pow128(i)
  {
  }

  /** Every byte but the last has its high bit set, and the last digit is needed. */
  lemma {:induction false} EncodedMarks(v: nat)
    ensures var b := Encode(v);
      && b != [] && (forall i :: 0 <= i < |b| ==> (b[i] >= 128 <==> i < |b| - 1))
      && (v > 0 ==> b[|b| - 1] > 0)
    decreases v
  {
    if v >= 128 {
      EncodedMarks(v / 128);
    }
  }

  /** A number is encoded as its base-128 digits, least significant first. */
  lemma EncodedDigits(v: nat)
    ensures DigitSum(Encode(v), 0, |Encode(v)|) == v
  {
    EncodedSum(v, 0);
    assert Pow128(0) == 1;
  }

  lemma SumMultiples(a: int, b: int)
    requires a % TWO64 == 0 && b % TWO64 == 0
    ensures (a + b) % TWO64 == 0
  {
  }

  lemma Remainder(x: nat)
    ensures (x - x % TWO64) % TWO64 == 0
  {
  }

  /** Whatever is read, in however many bytes, is the digits' sum in 64 bits, up to the first byte below 128. */
  lemma {:induction false} ReadSum(b: bytes, i: nat)
    requires ReadFrom(b, i).Ok?
    ensures var r := ReadFrom(b, i).value;
      && r.length <= |b| && (DigitSum(b, i, r.length) - r.value) % TWO64 == 0
      && 0 < r.length && b[r.length - 1] < 128 && forall k :: 0 <= k < r.length - 1 ==> b[k] >= 128
    decreases |b|
  {
    hide Pow128;
    var x := b[0] % 128 * Pow128(i);
    Remainder(x);
    if b[0] >= 128 {
      ReadSum(b[1..], i + 1);
      var r := ReadFrom(b[1..], i + 1).value;
      SumMultiples(x - x % TWO64, DigitSum(b[1..], i + 1, r.length) - r.value);
    } else {
      assert DigitSum(b[1..], i + 1, 0) == 0;
    }
  }

  /** So a varint of any length and padding decodes to its digits' sum modulo 2^64. */
  lemma DecodedDigits(b: bytes)
    requires Decode(b).Ok?
    ensures var r := Decode(b).value;
      && 0 < r.length <= |b| && r.length <= 10 && r.value == DigitSum(b, 0, r.length) % TWO64
      && b[r.length - 1] < 128 && forall k :: 0 <= k < r.length - 1 ==> b[k] >= 128
  {
    ReadSum(b, 0);
    ReadFromBounds(b, 0);
    var r := Decode(b).value;
    SameRemainder(DigitSum(b, 0, r.length), r.value);
  }

  lemma SameRemainder(x: nat, v: nat)
    requires (x - v) % TWO64 == 0 && v < TWO64
    ensures x % TWO64 == v
  {
    var q := (x - v) / TWO64;
    assert x == q * TWO64 + v;
  }

  // ---------------------------------------------------------------- messages, byte by byte

  lemma SmallTag(num: nat, typ: nat)
    requires 8 * num + typ < 128
    ensures Tag(num, typ) == [8 * num + typ]
  {
  }

  /** An instruction's seven fields, each behind its key. */
  lemma InstructionBytes(i: Instruction)
    ensures MarshalInstruction(i)
         == [0x08] + Encode(i.protocolVersion) + ([0x10] + Encode(i.oldNum)) + ([0x18] + Encode(i.newNum))
          + ([0x20] + Encode(i.ackNum)) + ([0x28] + Encode(i.throwawayNum))
          + ([0x32] + Encode(|i.diff|) + i.diff) + ([0x3A] + Encode(|i.chaff|) + i.chaff)
  {
    hide Encode, Tag;
    SmallTag(1, 0);
    SmallTag(2, 0);
    SmallTag(3, 0);
    SmallTag(4, 0);
    SmallTag(5, 0);
    SmallTag(6, 2);
    SmallTag(7, 2);
  }

  function Delimited(key: byte, body: bytes): bytes {
    [key] + Encode(|body|) + body
  }

  /** Keystrokes: field 4 of a keystroke, in field 2 of an instruction, in field 1 of the message. */
  lemma KeysBytes(keys: bytes)
    ensures EventBytes(Keys(keys)) == Delimited(0x0A, Delimited(0x12, Delimited(0x22, keys)))
  {
    hide Encode, Tag;
    SmallTag(4, 2);
    SmallTag(2, 2);
    SmallTag(1, 2);
  }

  function TwosComplement(x: int64): uint64 {
    if x < 0 then x + 0x1_0000_0000_0000_0000 else x
  }

  /** A resize: width and height, sign-extended, are fields 5 and 6, in field 3 of an instruction. */
  lemma ResizeBytes(width: int64, height: int64)
    ensures EventBytes(Resize(width, height))
         == Delimited(0x0A, Delimited(0x1A,
              [0x28] + Encode(TwosComplement(width)) + ([0x30] + Encode(TwosComplement(height)))))
  {
    hide Encode, Tag;
    SmallTag(5, 0);
    SmallTag(6, 0);
    SmallTag(3, 2);
    SmallTag(1, 2);
  }

  // ---------------------------------------------------------------- other and malformed fields

  /** Fixed-width fields of eight and four bytes are passed over. */
  lemma FixedFieldsPassed(num: nat, typ: nat, b: bytes, rest: bytes)
    requires 0 < num < 0x1000_0000 && ((typ == 1 && |b| == 8) || (typ == 5 && |b| == 4))
    ensures var p := ParseFields(rest);
      ParseFields(Tag(num, typ) + (b + rest)) == Parsed([Field(num, typ, 0, [])] + p.fields, p.status)
  {
    hide Tag, ParseFields, Decode;
    var s := Tag(num, typ) + (b + rest);
    ParseTag(num, typ, b + rest);
    assert ParseField(s) == Ok((Field(num, typ, 0, []), |Tag(num, typ)| + |b|));
    ParseFieldsStep(s);
    assert s[|Tag(num, typ)| + |b|..] == rest;
  }

  /** A fixed-width field cut short is an error, and so are field number 0 and the other wire types. */
  lemma MalformedRejected(num: nat, typ: nat, rest: bytes)
    requires num < 0x1000_0000 && typ < 8
    ensures var p := ParseFields(Tag(num, typ) + rest);
      && (num == 0 ==> p == Parsed([], Bad(FieldZero)))
      && (num > 0 && typ in {3, 4, 6, 7} ==> p == Parsed([], Bad(BadWireType)))
      && (num > 0 && ((typ == 1 && |rest| < 8) || (typ == 5 && |rest| < 4)) ==> p == Parsed([], Bad(Truncated)))
  {
    hide Tag, ParseFields, Decode;
    var s := Tag(num, typ) + rest;
    if num > 0 {
      ParseTag(num, typ, rest);
    } else {
      TagZero(typ, rest);
    }
    ParseFieldsStep(s);
  }

  lemma TagZero(typ: nat, rest: bytes)
    requires typ < 8
    ensures Decode(Tag(0, typ) + rest) == Ok(Read(typ, |Tag(0, typ)|)) && |Tag(0, typ)| > 0
  {
    RoundTrip(typ, rest);
  }

  /** A protocol version of more than 32 bits is an error. */
  lemma VersionFits(v: nat)
    requires v < TWO64
    ensures UnmarshalInstruction(UintField(1, v))
         == if v < 0x1_0000_0000 then Ok(BLANK.(protocolVersion := v)) else Err(VersionOverflow)
  {
    hide ParseFields;
    ParseUintField(1, v);
    var f := Field(1, 0, v, []);
    var fields, next := ParseFields(UintField(1, v)).fields, VisitInstruction(BLANK, f);
    assert fields == [f] && fields[1..] == [];
    if next.Ok? {
      assert VisitAll(next.value, fields[1..]) == next;
    }
  }
}
