/**
 * Datagrams: a packet with its header becomes a message, and a message is sealed under a nonce made of
 * its direction and sequence number (internal/network/packet.go, internal/crypto/session.go).
 */
module Sessions {
  import opened Basics
  import opened Ocb

  datatype Error = ShortDatagram | AuthFailed | ShortPacket

  // ---------------------------------------------------------------- big-endian numbers

  function Put16(v: bv16): (r: Octets)
    ensures |r| == 2
  {
    [High(v), Low(v)]
  }

  function High(v: bv16): bv8 {
    (v >> 8) as bv8
  }

  function Low(v: bv16): bv8 {
    (v & 0xFF) as bv8
  }

  /** The high byte is the upper half of the number, the low byte the lower. */
  lemma Halves(v: bv16)
    ensures High(v) as bv16 == v >> 8 && Low(v) as bv16 == v & 0xFF
  {
  }

  lemma LowByte(v: bv64)
    ensures Byte64(v) as bv64 == v & 0xFF
  {
  }

  function Get16(s: Octets): bv16
    requires |s| == 2
  {
    (s[0] as bv16 << 8) | s[1] as bv16
  }

  function Byte64(v: bv64): bv8 {
    (v & 0xFF) as bv8
  }

  function Put64(v: bv64): (r: Octets)
    ensures |r| == 8
  {
    [Byte64(v >> 56), Byte64(v >> 48), Byte64(v >> 40), Byte64(v >> 32),
     Byte64(v >> 24), Byte64(v >> 16), Byte64(v >> 8), Byte64(v)]
  }

  function Get64(s: Octets): bv64
    requires |s| == 8
  {
    (s[0] as bv64 << 56) | (s[1] as bv64 << 48) | (s[2] as bv64 << 40) | (s[3] as bv64 << 32)
    | (s[4] as bv64 << 24) | (s[5] as bv64 << 16) | (s[6] as bv64 << 8) | s[7] as bv64
  }

  lemma Numbers16(v: bv16, a: bv8, b: bv8)
    ensures Get16(Put16(v)) == v && Put16(Get16([a, b])) == [a, b]
  {
  }

  lemma Put64Get64(v: bv64)
    ensures Get64(Put64(v)) == v
  {
  }

  lemma Get64Put64(s: Octets)
    requires |s| == 8
    ensures Put64(Get64(s)) == s
  {
  }

  // ---------------------------------------------------------------- messages and their sealing

  datatype Message = Message(nonceVal: bv64, text: Octets)

  function NonceBytes(v: bv64): (r: Octets)
    ensures |r| == NONCE_LEN
  {
    Zeros(4) + Put64(v)
  }

  function Encrypt(c: BlockCipher, m: Message): Octets {
    var n := NonceBytes(m.nonceVal);
    n[4..] + SealSpec(c, n, m.text)
  }

  function Decrypt(c: BlockCipher, b: Octets): Result<Message, Error> {
    if |b| < 8 + TAG_LEN then Err(ShortDatagram)
    else
      var v := Get64(b[..8]);
      match OpenSpec(c, NonceBytes(v), b[8..])
      case None => Err(AuthFailed)
      case Some(text) => Ok(Message(v, text))
  }

  /** A datagram opens to `m` exactly when it is the sealing of `m`: no other bytes are accepted as `m`. */
  lemma DecryptIffEncrypted(c: BlockCipher, b: Octets, m: Message)
    requires Permutation(c)
    ensures Decrypt(c, b) == Ok(m) <==> Encrypt(c, m) == b
  {
    hide Put64, Get64, OpenSpec, SealSpec;
    var sealed := SealSpec(c, NonceBytes(m.nonceVal), m.text);
    assert NonceBytes(m.nonceVal)[4..] == Put64(m.nonceVal);
    Put64Get64(m.nonceVal);
    if |b| >= 8 + TAG_LEN {
      Get64Put64(b[..8]);
      OpenIffSealed(c, NonceBytes(m.nonceVal), m.text, b[8..]);
      assert b == b[..8] + b[8..];
      if Encrypt(c, m) == b {
        assert b[..8] == Put64(m.nonceVal) && b[8..] == sealed;
      }
    }
  }

  // ---------------------------------------------------------------- packets

  const DIRECTION_MASK: bv64 := 0x8000_0000_0000_0000
  const SEQUENCE_MASK: bv64 := 0x7FFF_FFFF_FFFF_FFFF

  datatype Direction = ToServer | ToClient

  datatype Packet = Packet(seqNum: bv64, direction: Direction, timestamp: bv16, reply: bv16, payload: Octets)

  function NonceVal(direction: Direction, seqNum: bv64): bv64 {
    match direction
    case ToServer => SequencePart(seqNum)
    case ToClient => DIRECTION_MASK | SequencePart(seqNum)
  }

  function SequencePart(v: bv64): bv64 {
    v & SEQUENCE_MASK
  }

  function DirectionPart(v: bv64): Direction {
    if TopBit(v) then ToClient else ToServer
  }

  predicate TopBit(v: bv64) {
    v & DIRECTION_MASK != 0
  }

  /** A sequence number that leaves the direction bit alone. */
  predicate Fits(seqNum: bv64) {
    seqNum <= SEQUENCE_MASK
  }

  function ToMessage(p: Packet): Message {
    Message(NonceVal(p.direction, p.seqNum), Put16(p.timestamp) + Put16(p.reply) + p.payload)
  }

  function FromMessage(m: Message): Result<Packet, Error> {
    if |m.text| < 4 then Err(ShortPacket)
    else
      Ok(Packet(SequencePart(m.nonceVal), DirectionPart(m.nonceVal),
        Get16(m.text[0..2]), Get16(m.text[2..4]), m.text[4..]))
  }

  lemma TopBitApart(n: bv64)
    ensures SequencePart(DIRECTION_MASK | SequencePart(n)) == SequencePart(n)
    ensures TopBit(DIRECTION_MASK | SequencePart(n)) && !TopBit(SequencePart(n))
  {
  }

  lemma NonceValParts(d: Direction, n: bv64)
    ensures SequencePart(NonceVal(d, n)) == SequencePart(n) && DirectionPart(NonceVal(d, n)) == d
  {
    hide SequencePart, TopBit;
    TopBitApart(n);
    MaskedTwice(n);
  }

  lemma MaskedTwice(v: bv64)
    ensures SequencePart(SequencePart(v)) == SequencePart(v)
  {
  }

  lemma TopBitBack(v: bv64)
    ensures if TopBit(v) then DIRECTION_MASK | SequencePart(v) == v else SequencePart(v) == v
  {
  }

  lemma NonceValWhole(v: bv64)
    ensures NonceVal(DirectionPart(v), SequencePart(v)) == v
  {
    hide SequencePart, TopBit;
    MaskedTwice(v);
    TopBitBack(v);
  }

  lemma MaskKeeps(n: bv64)
    ensures SequencePart(n) == n <==> Fits(n)
    ensures Fits(SequencePart(n))
  {
  }

  /** Every packet decodes to itself but for the top bit of its number, which the direction overwrites. */
  lemma PacketRoundTrip(p: Packet)
    ensures FromMessage(ToMessage(p)) == Ok(p.(seqNum := SequencePart(p.seqNum)))
  {
    hide Put16, Get16, NonceVal, SequencePart, DirectionPart, Fits;
    var m := ToMessage(p);
    NonceValParts(p.direction, p.seqNum);
    Numbers16(p.timestamp, 0, 0);
    Numbers16(p.reply, 0, 0);
    assert m.text[0..2] == Put16(p.timestamp) && m.text[2..4] == Put16(p.reply) && m.text[4..] == p.payload;
  }

  /** A message decodes to `p` exactly when it is the encoding of `p` and the number of `p` fits in 63 bits. */
  lemma DecodesIffEncoded(m: Message, p: Packet)
    ensures FromMessage(m) == Ok(p) <==> ToMessage(p) == m && Fits(p.seqNum)
  {
    hide Put16, Get16, NonceVal, SequencePart, DirectionPart, Fits;
    MaskKeeps(p.seqNum);
    MaskKeeps(m.nonceVal);
    PacketRoundTrip(p);
    if FromMessage(m) == Ok(p) {
      NonceValWhole(m.nonceVal);
      Numbers16(0, m.text[0], m.text[1]);
      Numbers16(0, m.text[2], m.text[3]);
      assert m.text[0..2] == [m.text[0], m.text[1]] && m.text[2..4] == [m.text[2], m.text[3]];
      assert m.text == m.text[0..2] + m.text[2..4] + m.text[4..];
    }
  }

  /** A packet's four header bytes in order, each number high byte first, and the direction above its number. */
  lemma PacketBytes(p: Packet)
    ensures var m := ToMessage(p);
      && m.text == [High(p.timestamp), Low(p.timestamp), High(p.reply), Low(p.reply)] + p.payload
      && m.nonceVal == if p.direction == ToServer then SequencePart(p.seqNum)
                       else 0x8000_0000_0000_0000 | SequencePart(p.seqNum)
  {
    hide SequencePart, High, Low;
  }

  lemma SequenceIs(v: bv64)
    ensures SequencePart(v) == v & 0x7FFF_FFFF_FFFF_FFFF
  {
  }

  /** The eight bytes of a number, each the low byte of its own shift, the highest first. */
  lemma Put64Bytes(v: bv64)
    ensures var b := Put64(v);
      && b[0] == Byte64(v >> 56) && b[1] == Byte64(v >> 48) && b[2] == Byte64(v >> 40) && b[3] == Byte64(v >> 32)
      && b[4] == Byte64(v >> 24) && b[5] == Byte64(v >> 16) && b[6] == Byte64(v >> 8) && b[7] == Byte64(v)
  {
  }

  /** A nonce is four zeros and its value, which also opens the datagram. */
  lemma NonceOpensDatagram(c: BlockCipher, m: Message)
    ensures var head := Put64(m.nonceVal);
      && NonceBytes(m.nonceVal) == [0, 0, 0, 0] + head
      && Encrypt(c, m) == head + SealSpec(c, [0, 0, 0, 0] + head, m.text)
  {
    hide SealSpec, Put64;
    var head := Put64(m.nonceVal);
    assert NonceBytes(m.nonceVal) == [0, 0, 0, 0] + head;
    assert ([0, 0, 0, 0] + head)[4..] == head;
  }

  // ---------------------------------------------------------------- the two layers together

  function SealPacket(c: BlockCipher, p: Packet): Octets {
    Encrypt(c, ToMessage(p))
  }

  function OpenPacket(c: BlockCipher, b: Octets): Result<Packet, Error> {
    match Decrypt(c, b)
    case Err(e) => Err(e)
    case Ok(m) => FromMessage(m)
  }

  /** For any block permutation, a datagram is read as packet `p` exactly when it is the sealing of `p`. */
  lemma DatagramIffSealed(c: BlockCipher, b: Octets, p: Packet)
    requires Permutation(c)
    ensures OpenPacket(c, b) == Ok(p) <==> SealPacket(c, p) == b && Fits(p.seqNum)
  {
    hide Decrypt, Encrypt, FromMessage, ToMessage, Fits, Permutation;
    DecryptIffEncrypted(c, b, ToMessage(p));
    match Decrypt(c, b)
    case Err(_) =>
    case Ok(m) =>
      DecodesIffEncoded(m, p);
      DecryptIffEncrypted(c, b, m);
  }

  /** What a reader rejects: exactly the bytes that are no packet's sealing, and the reason names the layer. */
  lemma RejectedIffNoPacket(c: BlockCipher, b: Octets)
    requires Permutation(c)
    ensures OpenPacket(c, b).Err? <==> forall p: Packet :: Fits(p.seqNum) ==> SealPacket(c, p) != b
    ensures OpenPacket(c, b) == Err(ShortPacket) <==> exists m: Message :: Encrypt(c, m) == b && |m.text| < 4
  {
    hide Decrypt, Encrypt, FromMessage, ToMessage, Fits, Permutation, SealPacket, OpenPacket;
    forall p: Packet ensures OpenPacket(c, b) == Ok(p) <==> SealPacket(c, p) == b && Fits(p.seqNum) {
      DatagramIffSealed(c, b, p);
    }
    forall m: Message ensures Decrypt(c, b) == Ok(m) <==> Encrypt(c, m) == b {
      DecryptIffEncrypted(c, b, m);
    }
    ShortPacketIff(c, b);
  }

  lemma ShortPacketIff(c: BlockCipher, b: Octets)
    ensures OpenPacket(c, b) == Err(ShortPacket) <==> Decrypt(c, b).Ok? && |Decrypt(c, b).value.text| < 4
  {
    hide OpenSpec, NonceBytes, Get64;
  }

  /** No two packets numbered within 63 bits share a nonce unless direction and number both agree. */
  lemma NoncesNeverRepeat(d: Direction, n: bv64, e: Direction, k: bv64)
    requires Fits(n) && Fits(k)
    ensures NonceBytes(NonceVal(d, n)) == NonceBytes(NonceVal(e, k)) <==> d == e && n == k
  {
    hide Put64, Get64, NonceVal, SequencePart, DirectionPart, Fits;
    NonceValParts(d, n);
    NonceValParts(e, k);
    MaskKeeps(n);
    MaskKeeps(k);
    Put64Get64(NonceVal(d, n));
    Put64Get64(NonceVal(e, k));
    assert NonceBytes(NonceVal(d, n))[4..] == Put64(NonceVal(d, n));
    assert NonceBytes(NonceVal(e, k))[4..] == Put64(NonceVal(e, k));
  }
}
