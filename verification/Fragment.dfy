/** Fragments of compressed instructions, and how they are cut (internal/transport/fragment.go). */
module Fragments {
  import opened Basics

  const FRAG_HEADER_LEN := 10
  const MAX_UNCOMPRESSED := 4194304
  const FINAL_BIT := 0x8000

  type uint16 = x: int | 0 <= x < 0x1_0000

  datatype Fragment = Fragment(id: uint64, num: uint16, final: bool, contents: bytes)

  datatype FragmentError = ShortFragment | BadCompression | TooLarge

  // ---------------------------------------------------------------- headers

  /** `n` in `k` big-endian bytes; higher bytes are lost. */
  function BigEndian(n: nat, k: nat): (b: bytes)
    ensures |b| == k
  {
    if k == 0 then [] else BigEndian(n / 256, k - 1) + [n % 256]
  }

  function FromBigEndian(b: bytes): nat {
    if b == [] then 0 else 256 * FromBigEndian(b[..|b| - 1]) + b[|b| - 1]
  }

  function Pow256(k: nat): nat {
    if k == 0 then 1 else 256 * Pow256(k - 1)
  }

  lemma {:induction false} BigEndianRoundTrip(n: nat, k: nat)
    requires n < Pow256(k)
    ensures FromBigEndian(BigEndian(n, k)) == n
    decreases k
  {
    if k > 0 {
      BigEndianRoundTrip(n / 256, k - 1);
      assert BigEndian(n, k)[..k - 1] == BigEndian(n / 256, k - 1);
    }
  }

  lemma {:induction false} FromBigEndianBound(b: bytes)
    ensures FromBigEndian(b) < Pow256(|b|)
    decreases |b|
  {
    if b != [] {
      FromBigEndianBound(b[..|b| - 1]);
    }
  }

  lemma WordSizes()
    ensures Pow256(2) == 0x1_0000 && Pow256(8) == TWO64
  {
    assert Pow256(2) == 256 * Pow256(1);
    assert Pow256(4) == 256 * 256 * Pow256(2);
    assert Pow256(6) == 256 * 256 * Pow256(4);
    assert Pow256(8) == 256 * 256 * Pow256(6);
  }

  function Combined(f: Fragment): uint16 {
    if f.final && f.num < FINAL_BIT then f.num + FINAL_BIT else f.num
  }

  function MarshalFragment(f: Fragment): bytes {
    BigEndian(f.id, 8) + BigEndian(Combined(f), 2) + f.contents
  }

  function ParseFragment(b: bytes): Result<Fragment, FragmentError> {
    if |b| < FRAG_HEADER_LEN then Err(ShortFragment)
    else
      FromBigEndianBound(b[..8]);
      FromBigEndianBound(b[8..10]);
      WordSizes();
      var combined := FromBigEndian(b[8..10]);
      Ok(Fragment(FromBigEndian(b[..8]), combined % FINAL_BIT, combined >= FINAL_BIT, b[10..]))
  }

  lemma ParseMarshalled(f: Fragment)
    ensures ParseFragment(MarshalFragment(f))
         == Ok(Fragment(f.id, Combined(f) % FINAL_BIT, Combined(f) >= FINAL_BIT, f.contents))
  {
    var b := MarshalFragment(f);
    assert b[..8] == BigEndian(f.id, 8) && b[8..10] == BigEndian(Combined(f), 2) && b[10..] == f.contents;
    WordSizes();
    BigEndianRoundTrip(f.id, 8);
    BigEndianRoundTrip(Combined(f), 2);
  }

  /** A fragment survives the wire exactly when its number leaves the final bit free. */
  lemma FragmentRoundTrip(f: Fragment)
    ensures ParseFragment(MarshalFragment(f)) == Ok(f) <==> f.num < FINAL_BIT
  {
    ParseMarshalled(f);
  }

  function Worth(b: bytes, i: nat): nat
    requires i < |b|
  {
    b[i] * Pow256(|b| - 1 - i)
  }

  /** What the bytes from the `i`-th on are worth in their places. */
  function WorthFrom(b: bytes, i: nat): nat
    requires i <= |b|
    decreases |b| - i
  {
    if i == |b| then 0 else Worth(b, i) + WorthFrom(b, i + 1)
  }

  lemma {:induction false} WorthShifted(b: bytes, i: nat)
    requires b != [] && i < |b|
    ensures WorthFrom(b, i) == 256 * WorthFrom(b[..|b| - 1], i) + b[|b| - 1]
    decreases |b| - i
  {
    var a := b[..|b| - 1];
    if i == |b| - 1 {
      assert WorthFrom(b, i) == Worth(b, i) + WorthFrom(b, i + 1);
      assert WorthFrom(a, i) == 0;
    } else {
      WorthShifted(b, i + 1);
      var p := Pow256(|a| - 1 - i);
      assert Pow256(|b| - 1 - i) == 256 * p;
      assert b[i] * (256 * p) == 256 * (b[i] * p);
      assert Worth(b, i) == 256 * Worth(a, i);
    }
  }

  /** A big-endian number is the sum of its bytes, each times 256 to its distance from the end. */
  lemma {:induction false} FromBigEndianWorth(b: bytes)
    ensures FromBigEndian(b) == WorthFrom(b, 0)
    decreases |b|
  {
    if b != [] {
      FromBigEndianWorth(b[..|b| - 1]);
      WorthShifted(b, 0);
    }
  }

  /** The header byte by byte: eight worth the id in their places, then the final bit above the number's fifteen. */
  lemma HeaderWritten(f: Fragment)
    requires f.num < 32768
    ensures var b := MarshalFragment(f);
      && |b| == 10 + |f.contents| && b[10..] == f.contents && WorthFrom(b[..8], 0) == f.id
      && b[8] == f.num / 256 + (if f.final then 128 else 0) && b[9] == f.num % 256
  {
    hide BigEndian, FromBigEndian, WorthFrom;
    var b, id, tail := MarshalFragment(f), BigEndian(f.id, 8), BigEndian(Combined(f), 2);
    assert b[..8] == id && b[8] == tail[0] && b[9] == tail[1];
    WordSizes();
    BigEndianRoundTrip(f.id, 8);
    BigEndianRoundTrip(Combined(f), 2);
    FromBigEndianWorth(id);
    FromBigEndianWorth(tail);
    TwoBytes(tail);
  }

  /** A header is read back by the same places. */
  lemma HeaderRead(b: bytes)
    requires |b| >= 10
    ensures ParseFragment(b).Ok?
    ensures var f := ParseFragment(b).value;
      && f.id == WorthFrom(b[..8], 0) && f.contents == b[10..]
      && f.num == 256 * (b[8] as int % 128) + b[9] as int && (f.final <==> b[8] >= 128)
  {
    hide FromBigEndian;
    FromBigEndianWorth(b[..8]);
    FromBigEndianWorth(b[8..10]);
    TwoBytes(b[8..10]);
    FromBigEndianBound(b[..8]);
    WordSizes();
  }

  lemma TwoBytes(b: bytes)
    requires |b| == 2
    ensures WorthFrom(b, 0) == 256 * (b[0] as int) + b[1] as int
  {
    assert WorthFrom(b, 2) == 0;
    assert Pow256(1) == 256 && Pow256(0) == 1;
  }

  // ---------------------------------------------------------------- compression

  /** zlib: any compressor with its decompressor, which rejects what is not a stream. */
  datatype Zlib = Zlib(deflate: bytes -> bytes, inflate: bytes -> Option<bytes>)

  ghost predicate Lossless(z: Zlib) {
    forall b :: z.inflate(z.deflate(b)) == Some(b)
  }

  function Uncompress(z: Zlib, b: bytes): Result<bytes, FragmentError> {
    match z.inflate(b)
    case None => Err(BadCompression)
    case Some(out) => if |out| > MAX_UNCOMPRESSED then Err(TooLarge) else Ok(out)
  }

  /** What is decompressed is what the stream holds, if that is at most 4 MB. */
  lemma UncompressedIff(z: Zlib, b: bytes, out: bytes)
    ensures Uncompress(z, b) == Ok(out) <==> z.inflate(b) == Some(out) && |out| <= 4 * 1024 * 1024
  {
  }

  // ---------------------------------------------------------------- cutting

  /** `payload` cut into pieces of `chunk` bytes from number `num` on; the number is a uint16. */
  function Chunks(id: uint64, payload: bytes, chunk: nat, num: nat): seq<Fragment>
    requires chunk > 0
    decreases |payload|
  {
    if |payload| > chunk
    then [Fragment(id, num % 0x1_0000, false, payload[..chunk])] + Chunks(id, payload[chunk..], chunk, num + 1)
    else [Fragment(id, num % 0x1_0000, true, payload)]
  }

  function Joined(frags: seq<Fragment>): bytes {
    if frags == [] then [] else frags[0].contents + Joined(frags[1..])
  }

  lemma {:induction false} ChunksMarked(id: uint64, payload: bytes, chunk: nat, num: nat)
    requires chunk > 0
    ensures var c := Chunks(id, payload, chunk, num);
      && c != []
      && forall i :: 0 <= i < |c| ==>
           c[i].id == id && c[i].num == (num + i) % 0x1_0000 && c[i].final == (i == |c| - 1) && |c[i].contents| <= chunk
    decreases |payload|
  {
    var c := Chunks(id, payload, chunk, num);
    if |payload| > chunk {
      ChunksMarked(id, payload[chunk..], chunk, num + 1);
      var t := Chunks(id, payload[chunk..], chunk, num + 1);
      assert forall i :: 0 < i < |c| ==> c[i] == t[i - 1];
    }
  }

  lemma {:induction false} ChunksJoined(id: uint64, payload: bytes, chunk: nat, num: nat)
    requires chunk > 0
    ensures Joined(Chunks(id, payload, chunk, num)) == payload
    decreases |payload|
  {
    var c := Chunks(id, payload, chunk, num);
    if |payload| > chunk {
      ChunksJoined(id, payload[chunk..], chunk, num + 1);
      assert c[1..] == Chunks(id, payload[chunk..], chunk, num + 1);
      assert payload[..chunk] + payload[chunk..] == payload;
    } else {
      assert c[1..] == [];
    }
  }

  /** The pieces put back together are the payload, and each is marked with its id, place and finality. */
  lemma ChunksShape(id: uint64, payload: bytes, chunk: nat, num: nat)
    requires chunk > 0
    ensures var c := Chunks(id, payload, chunk, num);
      && c != [] && Joined(c) == payload
      && forall i :: 0 <= i < |c| ==>
           c[i].id == id && c[i].num == (num + i) % 0x1_0000 && c[i].final == (i == |c| - 1) && |c[i].contents| <= chunk
  {
    hide Chunks, Joined;
    ChunksMarked(id, payload, chunk, num);
    ChunksJoined(id, payload, chunk, num);
  }

  // ---------------------------------------------------------------- the fragmenter

  datatype FragmenterState = FragmenterState(nextID: uint64, lastPayload: bytes, lastMTU: int)

  const FRESH := FragmenterState(0, [], 0)

  /** A fresh id whenever the payload or the MTU changes. */
  function Assign(st: FragmenterState, payload: bytes, mtu: int): FragmenterState {
    if payload != st.lastPayload || mtu != st.lastMTU
    then FragmenterState(if st.nextID == TWO64 - 1 then 0 else st.nextID + 1, payload, mtu)
    else st
  }

  class Fragmenter {
    var nextID: uint64
    var lastPayload: bytes
    var lastMTU: int

    ghost function View(): FragmenterState
      reads this
    {
      FragmenterState(nextID, lastPayload, lastMTU)
    }

    constructor ()
      ensures View() == FRESH
    {
      nextID, lastPayload, lastMTU := 0, [], 0;
    }

    method MakeFragments(z: Zlib, instruction: bytes, mtu: int) returns (frags: seq<Fragment>)
      requires mtu > FRAG_HEADER_LEN
      modifies this
      ensures View() == Assign(old(View()), z.deflate(instruction), mtu)
      ensures frags == Chunks(nextID, z.deflate(instruction), mtu - FRAG_HEADER_LEN, 0)
    {
      var payload := z.deflate(instruction);
      if payload != lastPayload || mtu != lastMTU {
        nextID := if nextID == TWO64 - 1 then 0 else nextID + 1;
        lastPayload := payload;
        lastMTU := mtu;
      }
      frags := Cutting(nextID, payload, mtu - FRAG_HEADER_LEN);
    }
  }

  /** The loop of makeFragments. */
  method Cutting(id: uint64, whole: bytes, chunk: nat) returns (frags: seq<Fragment>)
    requires chunk > 0
    ensures frags == Chunks(id, whole, chunk, 0)
  {
    frags := [];
    var payload := whole;
    var num: uint16 := 0;
    ghost var steps := 0;
    while |payload| > chunk
      invariant num == steps % 0x1_0000
      invariant frags + Chunks(id, payload, chunk, steps) == Chunks(id, whole, chunk, 0)
      decreases |payload|
    {
      frags := frags + [Fragment(id, num, false, payload[..chunk])];
      payload := payload[chunk..];
      num := if num == 0xFFFF then 0 else num + 1;
      steps := steps + 1;
    }
    frags := frags + [Fragment(id, num, true, payload)];
  }

  // ---------------------------------------------------------------- ids over a session

  datatype Call = Call(payload: bytes, mtu: int)

  function AfterCalls(st: FragmenterState, calls: seq<Call>): FragmenterState
    decreases |calls|
  {
    if calls == [] then st else AfterCalls(Assign(st, calls[0].payload, calls[0].mtu), calls[1..])
  }

  /** Ids only grow, and one that has not grown still names the last payload and MTU. */
  lemma {:induction false} IdsGrow(st: FragmenterState, calls: seq<Call>)
    requires st.nextID + |calls| < TWO64
    ensures var r := AfterCalls(st, calls);
      && st.nextID <= r.nextID <= st.nextID + |calls|
      && (r.nextID == st.nextID ==> r == st)
    decreases |calls|
  {
    if calls != [] {
      IdsGrow(Assign(st, calls[0].payload, calls[0].mtu), calls[1..]);
    }
  }

  lemma {:induction false} AfterCallsSplit(st: FragmenterState, a: seq<Call>, b: seq<Call>)
    ensures AfterCalls(st, a + b) == AfterCalls(AfterCalls(st, a), b)
    decreases |a|
  {
    if a == [] {
      assert a + b == b;
    } else {
      assert (a + b)[0] == a[0] && (a + b)[1..] == a[1..] + b;
      AfterCallsSplit(Assign(st, a[0].payload, a[0].mtu), a[1..], b);
    }
  }

  /** The id the fragmenter gives its `i`-th call. */
  function IdOf(calls: seq<Call>, i: nat): uint64
    requires i < |calls|
  {
    AfterCalls(FRESH, calls[..i + 1]).nextID
  }

  lemma LastCall(calls: seq<Call>, i: nat)
    requires i < |calls|
    ensures var st := AfterCalls(FRESH, calls[..i + 1]);
      st.lastPayload == calls[i].payload && st.lastMTU == calls[i].mtu
  {
    assert calls[..i + 1] == calls[..i] + [calls[i]];
    AfterCallsSplit(FRESH, calls[..i], [calls[i]]);
    var st := AfterCalls(FRESH, calls[..i]);
    assert AfterCalls(st, [calls[i]]) == Assign(st, calls[i].payload, calls[i].mtu) by {
      assert [calls[i]][1..] == [];
    }
  }

  /** The first call is number 1, and a new number is taken exactly when payload or MTU changes. */
  lemma IdChangesIff(calls: seq<Call>, i: nat)
    requires i < |calls| < TWO64 && calls[0] != Call([], 0)
    ensures IdOf(calls, 0) == 1
    ensures i > 0 ==> IdOf(calls, i) == IdOf(calls, i - 1) + if calls[i] == calls[i - 1] then 0 else 1
  {
    assert calls[..1] == [calls[0]];
    assert AfterCalls(FRESH, [calls[0]]) == Assign(FRESH, calls[0].payload, calls[0].mtu) by {
      assert [calls[0]][1..] == [];
    }
    if i > 0 {
      var st := AfterCalls(FRESH, calls[..i]);
      assert calls[..i + 1] == calls[..i] + [calls[i]] && calls[..i - 1 + 1] == calls[..i];
      AfterCallsSplit(FRESH, calls[..i], [calls[i]]);
      assert AfterCalls(st, [calls[i]]) == Assign(st, calls[i].payload, calls[i].mtu) by {
        assert [calls[i]][1..] == [];
      }
      LastCall(calls, i - 1);
      IdsGrow(FRESH, calls[..i]);
    }
  }

  /** Over a session of fewer than 2^64 calls, an id names one payload cut at one MTU. */
  lemma IdNamesOnePayload(calls: seq<Call>, i: nat, j: nat)
    requires |calls| < TWO64 && i <= j < |calls|
    requires IdOf(calls, i) == IdOf(calls, j)
    ensures calls[i] == calls[j]
  {
    var st := AfterCalls(FRESH, calls[..i + 1]);
    assert calls[..j + 1] == calls[..i + 1] + calls[i + 1..j + 1];
    AfterCallsSplit(FRESH, calls[..i + 1], calls[i + 1..j + 1]);
    IdsGrow(FRESH, calls[..i + 1]);
    IdsGrow(st, calls[i + 1..j + 1]);
    LastCall(calls, i);
    LastCall(calls, j);
  }
}
