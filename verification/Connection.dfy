/**
 * Sequence numbers, timestamp echoes and the round-trip estimator of the datagram layer
 * (internal/network/connection.go, internal/network/packet.go).  Times are nanoseconds, estimates
 * are real milliseconds.
 */
module Connections {
  import opened Basics
  import opened Fragments
  import SM = SenderModel
  import SP = SenderPacing

  const SECOND := 1_000_000_000
  const TS_MISSING: uint16 := 0xFFFF
  const TWO16 := 0x1_0000

  function Millis(t: nat): nat {
    t / SM.MS
  }

  // ---------------------------------------------------------------- wrapped timestamps

  /** Adding one to the sentinel 0xFFFF wraps to zero. */
  function AvoidSentinel(ts: uint16): uint16 {
    if ts == TS_MISSING then 0 else ts
  }

  function Timestamp16(now: nat): uint16 {
    AvoidSentinel(Millis(now) % TWO16)
  }

  function TimestampDiff(newer: uint16, older: uint16): uint16 {
    (newer - older) % TWO16
  }

  /** The echo of a saved timestamp advanced by the time it was held. */
  function EchoOf(saved: uint16, hold: nat): uint16 {
    AvoidSentinel((saved + Millis(hold)) % TWO16)
  }

  /** The sentinel moves a timestamp by at most one, and an echo held under a second by at most one in all. */
  lemma EchoOffset(sent: nat, hold: nat) returns (d: int)
    requires hold < SECOND
    ensures 0 <= d <= 1 && EchoOf(Timestamp16(sent), hold) == (Millis(sent) + Millis(hold) + d) % TWO16
  {
    var m, h := Millis(sent), Millis(hold);
    assert h < 1000;
    if m % TWO16 == TS_MISSING {
      d := 1;
    } else if (m + h) % TWO16 == TS_MISSING {
      d := 1;
    } else {
      d := 0;
    }
  }

  lemma StampOffset(now: nat) returns (d: int)
    ensures 0 <= d <= 1 && Timestamp16(now) == (Millis(now) + d) % TWO16
  {
    d := if Millis(now) % TWO16 == TS_MISSING then 1 else 0;
  }

  lemma ModDiff(a: int, b: int)
    ensures (a % TWO16 - b % TWO16) % TWO16 == (a - b) % TWO16
  {
    var qa, qb := a / TWO16, b / TWO16;
    assert a == qa * TWO16 + a % TWO16 && b == qb * TWO16 + b % TWO16;
    assert a - b == (qa - qb) * TWO16 + (a % TWO16 - b % TWO16);
    ModShift(a % TWO16 - b % TWO16, qa - qb);
  }

  lemma ModShift(x: int, k: int)
    ensures (k * TWO16 + x) % TWO16 == x % TWO16
  {
    var q, r := x / TWO16, x % TWO16;
    assert k * TWO16 + x == (k + q) * TWO16 + r;
  }

  /**
   * If the peer echoes by the same rule with a hold under a second, the wrapped 16-bit sample is within
   * a millisecond of the time spent in the network whenever that is 1 to 65534 ms, and so within three
   * milliseconds of it on an unrounded clock.
   */
  lemma SampleIsNetworkTime(sent: nat, hold: nat, received: nat)
    requires hold < SECOND
    requires 1 <= Millis(received) - Millis(sent) - Millis(hold) <= 65534
    ensures var sample := TimestampDiff(Timestamp16(received), EchoOf(Timestamp16(sent), hold));
      && -1 <= sample - (Millis(received) - Millis(sent) - Millis(hold)) <= 1
      && -2 * SM.MS < sample * SM.MS - (received - sent - hold) < 3 * SM.MS
  {
    var d := EchoOffset(sent, hold);
    var e := StampOffset(received);
    var n := Millis(received) - Millis(sent) - Millis(hold);
    ModDiff(Millis(received) + e, Millis(sent) + Millis(hold) + d);
    assert 0 <= n + e - d < TWO16;
  }

  // ---------------------------------------------------------------- the estimator

  datatype Estimate = Estimate(hit: bool, srtt: real, rttvar: real)

  const UNMEASURED := Estimate(false, 1000.0, 500.0)

  function Abs(x: real): real {
    if x < 0.0 then -x else x
  }

  /** Section 2 of RFC 6298 with alpha = 1/8 and beta = 1/4. */
  function Measure(e: Estimate, r: real): Estimate {
    if !e.hit then Estimate(true, r, r / 2.0)
    else Estimate(true, 0.875 * e.srtt + 0.125 * r, 0.75 * e.rttvar + 0.25 * Abs(e.srtt - r))
  }

  function MeasureAll(e: Estimate, samples: seq<real>): Estimate {
    if samples == [] then e else Measure(MeasureAll(e, samples[..|samples| - 1]), samples[|samples| - 1])
  }

  ghost predicate Within(e: Estimate, bound: real) {
    e.hit && 0.0 <= e.srtt <= bound && 0.0 <= e.rttvar <= bound
  }

  /** After the first of any run of samples in [0, R], both estimates stay in [0, R]. */
  lemma {:induction false} EstimatesStayWithin(e: Estimate, samples: seq<real>, bound: real)
    requires samples != [] && (e.hit ==> Within(e, bound))
    requires forall i :: 0 <= i < |samples| ==> 0.0 <= samples[i] <= bound
    ensures Within(MeasureAll(e, samples), bound)
    decreases |samples|
  {
    var n := |samples| - 1;
    if n == 0 {
      assert samples[..0] == [];
    } else {
      EstimatesStayWithin(e, samples[..n], bound);
    }
  }

  function Pow78(k: nat): real {
    if k == 0 then 1.0 else 0.875 * Pow78(k - 1)
  }

  /** On a steady link the smoothed estimate closes on the true round trip by a factor 7/8 a sample. */
  lemma {:induction false} SteadyLinkConverges(e: Estimate, samples: seq<real>, r: real)
    requires e.hit && forall i :: 0 <= i < |samples| ==> samples[i] == r
    ensures var f := MeasureAll(e, samples); f.hit && f.srtt - r == Pow78(|samples|) * (e.srtt - r)
    decreases |samples|
  {
    if samples != [] {
      var n := |samples| - 1;
      SteadyLinkConverges(e, samples[..n], r);
      assert 0.875 * (Pow78(n) * (e.srtt - r)) == 0.875 * Pow78(n) * (e.srtt - r);
    }
  }

  function Ceil(x: real): int {
    if x.Floor as real == x then x.Floor else x.Floor + 1
  }

  function Clamp(x: int, lo: int, hi: int): (r: int)
    requires lo <= hi
    ensures lo <= r <= hi && (lo <= x <= hi ==> r == x)
  {
    if x < lo then lo else if x > hi then hi else x
  }

  function Timeout(e: Estimate): int {
    Clamp(Ceil(e.srtt + 4.0 * e.rttvar) * SM.MS, SM.MIN_RTO, SM.MAX_RTO)
  }

  /** sendInterval: half the smoothed round trip, rounded, within 20 to 250 ms. */
  function SendInterval(e: Estimate): int {
    Clamp((e.srtt / 2.0 + 0.5).Floor * SM.MS, SM.SEND_INTERVAL_MIN, SM.SEND_INTERVAL_MAX)
  }

  /**
   * Every estimate gives the sender a link it can rely on: both values are within their clamps, and the
   * timeout is never shorter than the smoothed round trip while that is at most a second.
   */
  lemma EstimateGivesLink(e: Estimate)
    requires e.srtt >= 0.0 && e.rttvar >= 0.0
    ensures SM.ValidLink(SM.Link(SendInterval(e), Timeout(e))) && SP.Coherent(SM.Link(SendInterval(e), Timeout(e)))
    ensures 20_000_000 <= SendInterval(e) <= 250_000_000 && 50_000_000 <= Timeout(e) <= 1_000_000_000
    ensures e.srtt <= 1000.0 ==> e.srtt * 1_000_000.0 <= Timeout(e) as real
  {
    var x := e.srtt + 4.0 * e.rttvar;
    var c := Ceil(x);
    assert c as real >= x >= e.srtt;
    if e.srtt <= 1000.0 {
      assert (c * SM.MS) as real == c as real * 1_000_000.0;
    }
  }

  /**
   * Within its clamps the timeout is the least whole number of milliseconds that covers srtt + 4 rttvar
   * (section 2 of RFC 6298).
   */
  lemma TimeoutIsLeast(e: Estimate, k: int)
    requires 50 <= k < 1000
    ensures Timeout(e) <= k * 1_000_000 <==> e.srtt + 4.0 * e.rttvar <= k as real
  {
    var x := e.srtt + 4.0 * e.rttvar;
    var c := Ceil(x);
    assert c <= k <==> x <= k as real;
    assert c * SM.MS <= k * SM.MS <==> c <= k;
  }

  /** Within its clamps the send interval is half the smoothed round trip, to the nearest millisecond. */
  lemma IntervalIsHalf(e: Estimate, k: int)
    requires 20 <= k < 250
    ensures SendInterval(e) <= k * 1_000_000 <==> e.srtt / 2.0 < k as real + 0.5
  {
    var h := (e.srtt / 2.0 + 0.5).Floor;
    assert h <= k <==> e.srtt / 2.0 + 0.5 < k as real + 1.0;
    assert h * SM.MS <= k * SM.MS <==> h <= k;
  }

  /** Before the first sample the link is taken to be slow: one second and a quarter of one. */
  lemma SlowUntilMeasured()
    ensures Timeout(UNMEASURED) == 1_000_000_000 && SendInterval(UNMEASURED) == 250_000_000
  {
  }

  /**
   * A sample moves the smoothed time an eighth of the way to itself, and the variation a quarter of the way to
   * its distance from the smoothed time as it was; the first sets both.
   */
  lemma SampleMoves(e: Estimate, r: real)
    ensures var f := Measure(e, r);
      && f.hit
      && (!e.hit ==> f.srtt == r && 2.0 * f.rttvar == r)
      && (e.hit ==> 8.0 * (f.srtt - e.srtt) == r - e.srtt)
      && (e.hit && r >= e.srtt ==> 4.0 * (f.rttvar - e.rttvar) == (r - e.srtt) - e.rttvar)
      && (e.hit && r <= e.srtt ==> 4.0 * (f.rttvar - e.rttvar) == (e.srtt - r) - e.rttvar)
  {
  }

  /** No time and no echo is ever mistaken for a missing one. */
  lemma NeverMissing(now: nat, saved: uint16, hold: nat)
    ensures Timestamp16(now) != 0xFFFF && EchoOf(saved, hold) != 0xFFFF
  {
  }

  // ---------------------------------------------------------------- the connection's link state

  datatype Header = Header(seqNum: nat, toClient: bool, timestamp: uint16, reply: uint16)

  class Connection {
    var nextSeq: nat
    var expectedReceiverSeq: nat
    var savedTimestamp: uint16
    var savedTimestampReceivedAt: nat
    var haveSavedTimestamp: bool
    var rttHit: bool
    var srtt: real
    var rttvar: real
    var lastHeard: nat
    var lastRoundtripSuccess: nat

    ghost function Estimated(): Estimate
      reads this
    {
      Estimate(rttHit, srtt, rttvar)
    }

    constructor ()
      ensures nextSeq == 0 && expectedReceiverSeq == 0 && !haveSavedTimestamp && Estimated() == UNMEASURED
    {
      nextSeq, expectedReceiverSeq := 0, 0;
      savedTimestamp, savedTimestampReceivedAt, haveSavedTimestamp := 0, 0, false;
      rttHit, srtt, rttvar := false, 1000.0, 500.0;
      lastHeard, lastRoundtripSuccess := 0, 0;
    }

    /** The header of the next datagram: a fresh number, and at most one echo of each timestamp heard. */
    method Send(now: nat) returns (h: Header)
      requires haveSavedTimestamp ==> savedTimestampReceivedAt <= now
      modifies this`nextSeq, this`haveSavedTimestamp
      ensures h.seqNum == old(nextSeq) && nextSeq == old(nextSeq) + 1 && !h.toClient
      ensures h.timestamp == Timestamp16(now)
      ensures if old(haveSavedTimestamp) && now - savedTimestampReceivedAt < SECOND
        then h.reply == EchoOf(savedTimestamp, now - savedTimestampReceivedAt) && !haveSavedTimestamp
        else h.reply == TS_MISSING && haveSavedTimestamp == old(haveSavedTimestamp)
    {
      var reply := TS_MISSING;
      if haveSavedTimestamp && now - savedTimestampReceivedAt < SECOND {
        reply := (savedTimestamp + Millis(now - savedTimestampReceivedAt)) % TWO16;
        if reply == TS_MISSING {
          reply := (reply + 1) % TWO16;
        }
        haveSavedTimestamp := false;
      }
      h := Header(nextSeq, false, Timestamp16(now), reply);
      nextSeq := nextSeq + 1;
    }

    /** A datagram is new when the server sent it with at least the number expected; only a new one is measured. */
    method Recv(h: Header, now: nat) returns (ok: bool)
      modifies this`expectedReceiverSeq, this`lastHeard, this`savedTimestamp, this`savedTimestampReceivedAt,
        this`haveSavedTimestamp, this`rttHit, this`srtt, this`rttvar
      ensures ok == (h.toClient && h.seqNum >= old(expectedReceiverSeq))
      ensures expectedReceiverSeq
        == if h.toClient then NextExpected(old(expectedReceiverSeq), h.seqNum) else old(expectedReceiverSeq)
      ensures !ok ==>
        && Estimated() == old(Estimated()) && lastHeard == old(lastHeard)
        && haveSavedTimestamp == old(haveSavedTimestamp) && savedTimestamp == old(savedTimestamp)
        && savedTimestampReceivedAt == old(savedTimestampReceivedAt)
      ensures ok ==>
        && lastHeard == now && haveSavedTimestamp
        && savedTimestamp == h.timestamp && savedTimestampReceivedAt == now
        && Estimated() == if h.reply == TS_MISSING then old(Estimated())
             else Measure(old(Estimated()), TimestampDiff(Timestamp16(now), h.reply) as real)
    {
      if !h.toClient || h.seqNum < expectedReceiverSeq {
        return false;
      }
      expectedReceiverSeq := h.seqNum + 1;
      lastHeard := now;
      savedTimestamp, savedTimestampReceivedAt, haveSavedTimestamp := h.timestamp, now, true;
      if h.reply != TS_MISSING {
        var r := TimestampDiff(Timestamp16(now), h.reply) as real;
        if !rttHit {
          srtt, rttvar, rttHit := r, r / 2.0, true;
        } else {
          rttvar := 0.75 * rttvar + 0.25 * Abs(srtt - r);
          srtt := 0.875 * srtt + 0.125 * r;
        }
      }
      ok := true;
    }

    method SetLastRoundtripSuccess(t: nat)
      modifies this`lastRoundtripSuccess
      ensures lastRoundtripSuccess == if t > old(lastRoundtripSuccess) then t else old(lastRoundtripSuccess)
    {
      if t > lastRoundtripSuccess {
        lastRoundtripSuccess := t;
      }
    }
  }

  // ---------------------------------------------------------------- replay protection

  function NextExpected(expected: nat, seqNum: nat): nat {
    if seqNum < expected then expected else seqNum + 1
  }

  function ExpectedAfter(seqs: seq<nat>): nat {
    if seqs == [] then 0 else NextExpected(ExpectedAfter(seqs[..|seqs| - 1]), seqs[|seqs| - 1])
  }

  /** The numbers a schedule of arrivals gets past Recv. */
  function AcceptedSeqs(seqs: seq<nat>): seq<nat> {
    if seqs == [] then []
    else
      var n := |seqs| - 1;
      var before := AcceptedSeqs(seqs[..n]);
      if seqs[n] >= ExpectedAfter(seqs[..n]) then before + [seqs[n]] else before
  }

  /** Accepted numbers strictly increase, so no datagram is accepted twice, however arrivals are replayed. */
  lemma {:induction false} AcceptedIncrease(seqs: seq<nat>)
    ensures forall i, j :: 0 <= i < j < |AcceptedSeqs(seqs)| ==> AcceptedSeqs(seqs)[i] < AcceptedSeqs(seqs)[j]
    ensures forall i :: 0 <= i < |AcceptedSeqs(seqs)| ==> AcceptedSeqs(seqs)[i] < ExpectedAfter(seqs)
    decreases |seqs|
  {
    if seqs != [] {
      AcceptedIncrease(seqs[..|seqs| - 1]);
    }
  }
}
