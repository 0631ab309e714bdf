/** When the sender acts: the guess at the peer's state, the schedule, and the wait. */
module SenderTimers {
  import opened Basics
  import opened Wire
  import opened UserStreams
  import opened SenderModel
  import opened SenderInvariant

  /**
   * With sorted send times the guess is all or nothing: the newest state while the oldest
   * unacknowledged one is recent, else the acknowledged front.
   */
  lemma AssumedFrontOrBack(q: Queue, now: int, timeout: int, trim: bool)
    requires QueueInv(q, now)
    ensures var r := Refresh(q, now, timeout, trim);
      && (|q.sent| > 1 && Recent(q.sent[1], now, timeout) ==> r.assumed == |q.sent| - 1)
      && (|q.sent| == 1 || !Recent(q.sent[1], now, timeout) ==> r.assumed == 0)
  {
    var k := ScanAssumed(q.sent, now, timeout, 1);
    if 0 < k < |q.sent| - 1 {
      assert false;
    }
  }

  /** A back that has timed out leaves only the front to diff from. */
  lemma StaleBack(q: Queue, now: int, timeout: int, trim: bool)
    requires QueueInv(q, now)
    requires |q.sent| == 1 || !Recent(q.Back(), now, timeout)
    ensures Refresh(q, now, timeout, trim).assumed == 0
  {
    AssumedFrontOrBack(q, now, timeout, trim);
    if |q.sent| > 1 {
      assert q.sent[1].sentAt <= q.Back().sentAt;
    }
  }

  /** Along a prefix chain, streams differ exactly when their lengths do. */
  lemma ChainLengths(q: Queue, i: nat)
    requires q.Shaped() && Chain(q) && i < |q.sent|
    ensures |q.Front().events| <= |q.sent[i].events| <= |q.Back().events| <= |q.current|
    ensures q.sent[i].events == q.current <==> |q.sent[i].events| == |q.current|
  {
    assert q.sent[i].events <= q.current;
    assert q.Back().events <= q.current;
    assert i == 0 || q.sent[0].events <= q.sent[i].events;
    assert i == |q.sent| - 1 || q.sent[i].events <= q.sent[|q.sent| - 1].events;
  }

  lemma Lengths(q: Queue)
    requires q.Shaped() && Chain(q)
    ensures |q.Front().events| <= |q.Assumed().events| <= |q.Back().events| <= |q.current|
    ensures q.Front().events == q.current <==> |q.Front().events| == |q.current|
    ensures q.Assumed().events == q.current <==> |q.Assumed().events| == |q.current|
    ensures q.Back().events == q.current <==> |q.Back().events| == |q.current|
  {
    hide Chain;
    ChainLengths(q, 0);
    ChainLengths(q, q.assumed);
    ChainLengths(q, |q.sent| - 1);
  }

  /** Whenever a send is due there is something to send: the "due but empty" branch of Tick is dead. */
  lemma DueMeansDiff(s: SenderState, now: int, link: Link, trim: bool)
    requires Inv(s, now)
    ensures var t := CalculateTimers(s, now, link, trim);
      SendDue(t, now) ==> DiffFrom(t.queue.current, t.queue.Assumed().events) != []
  {
    var t := CalculateTimers(s, now, link, trim);
    CalculateInv(s, now, link, trim);
    var q := t.queue;
    RefreshShape(s.queue, now, link.timeout, trim);
    hide Chain, Times, Numbers, Refresh, ScheduleAck, DiffFrom;
    Lengths(q);
    DiffEmptyIff(q.current, q.Assumed().events);
    if SendDue(t, now) && q.current == q.Assumed().events {
      assert q.current != q.Front().events;
      assert t.timers.nextSendTime == q.Back().sentAt + link.timeout + ACK_DELAY;
      StaleBack(s.queue, now, link.timeout, trim);
      assert false;
    }
  }

  /**
   * A send is scheduled exactly when the current input is ahead of the acknowledged front, and never
   * later than 8 ms from now or 1100 ms after the last transmission.
   */
  lemma ScheduledIffUnacknowledged(s: SenderState, now: int, link: Link, trim: bool)
    requires Inv(s, now) && ValidLink(link)
    ensures var t := CalculateTimers(s, now, link, trim);
      && (t.timers.haveSendTime <==> s.queue.current != s.queue.Front().events)
      && (t.timers.haveSendTime ==>
            t.timers.nextSendTime <= Max(now + 8 * MS, s.queue.Back().sentAt + 1100 * MS))
  {
    var t := CalculateTimers(s, now, link, trim);
    CalculateInv(s, now, link, trim);
    RefreshShape(s.queue, now, link.timeout, trim);
    AheadAlike(s.queue, now, link.timeout, trim);
    hide Chain, Times, Numbers, Refresh, ScheduleAck;
    Lengths(t.queue);
  }

  /** Trimming does not change whether the input is ahead of the front. */
  lemma AheadAlike(q: Queue, now: int, timeout: int, trim: bool)
    requires QueueInv(q, now)
    ensures var r := Refresh(q, now, timeout, trim);
      r.current == r.Front().events <==> q.current == q.Front().events
  {
    FrontIsPrefix(q);
  }

  lemma ScanSame(a: seq<Entry>, b: seq<Entry>, now: int, timeout: int, i: nat)
    requires |a| == |b| && 0 < i <= |a|
    requires forall j :: 0 <= j < |a| ==> a[j].sentAt == b[j].sentAt
    ensures ScanAssumed(a, now, timeout, i) == ScanAssumed(b, now, timeout, i)
    decreases |a| - i
  {
    if i < |a| && Recent(a[i], now, timeout) {
      ScanSame(a, b, now, timeout, i + 1);
    }
  }

  lemma RefreshTwice(q: Queue, now: int, timeout: int, trim: bool)
    requires q.Shaped()
    ensures var r := Refresh(q, now, timeout, trim); Refresh(r, now, timeout, trim) == r
  {
    var r := Refresh(q, now, timeout, trim);
    ScanSame(q.sent, r.sent, now, timeout, 1);
    if trim {
      assert r.sent[0].events == [];
      assert Trimmed(r.sent, []) == r.sent;
    }
  }

  /** Calculating the timers again at the same time changes nothing. */
  lemma TimersIdempotent(s: SenderState, now: int, link: Link, trim: bool)
    requires s.Shaped()
    ensures var t := CalculateTimers(s, now, link, trim); CalculateTimers(t, now, link, trim) == t
  {
    hide Refresh;
    RefreshTwice(s.queue, now, link.timeout, trim);
  }

  /**
   * WaitTime is zero exactly when a Tick at that same time attempts a transmission, whether or not
   * WaitTime itself was called first.
   */
  lemma WaitZeroIffTransmits(s: SenderState, now: int, link: Link, chaff: bytes, ok: bool, trim: bool)
    requires Inv(s, now)
    ensures WaitTime(s, now, link, trim) == 0 <==> !Tick(s, now, link, chaff, ok, trim).emission.Silent?
    ensures Tick(CalculateTimers(s, now, link, trim), now, link, chaff, ok, trim)
         == Tick(s, now, link, chaff, ok, trim)
  {
    hide QueueInv, CalculateTimers, DiffFrom, Transmit;
    InvShaped(s, now);
    DueMeansDiff(s, now, link, trim);
    TimersIdempotent(s, now, link, trim);
    var t := CalculateTimers(s, now, link, trim);
    if AckDue(t, now) || SendDue(t, now) {
      TransmitSpeaks(t, now, link, chaff, ok);
    }
  }

  lemma TransmitSpeaks(t: SenderState, now: int, link: Link, chaff: bytes, ok: bool)
    requires t.Shaped()
    requires AckDue(t, now) || DiffFrom(t.queue.current, t.queue.Assumed().events) != []
    ensures !Transmit(t, now, link, chaff, ok).emission.Silent?
  {
    hide DiffFrom, AddSent, Touch;
  }

  // ---------------------------------------------------------------- never silent for long

  /** The next ack is at most three seconds away. */
  predicate Heartbeat(s: SenderState, now: int) {
    s.timers.nextAckTime <= now + ACK_INTERVAL
  }

  lemma CalculateHeartbeat(s: SenderState, now: int, link: Link, trim: bool)
    requires Inv(s, now) && ValidLink(link) && Heartbeat(s, now)
    ensures Heartbeat(CalculateTimers(s, now, link, trim), now)
  {
    hide Chain, Times, Numbers, PerByte, Refresh, ScheduleSend;
    BackSentBy(s.queue, now);
    RefreshShape(s.queue, now, link.timeout, trim);
  }

  lemma TransmitHeartbeat(t: SenderState, now: int, link: Link, chaff: bytes, ok: bool)
    requires t.Shaped() && ValidLink(link) && Heartbeat(t, now)
    ensures Heartbeat(Transmit(t, now, link, chaff, ok).state, now)
  {
    hide DiffFrom, AddSent, Touch;
  }

  /** A tick, whatever it sends and however that goes, leaves the next ack at most three seconds away. */
  lemma TickHeartbeat(s: SenderState, now: int, link: Link, chaff: bytes, ok: bool, trim: bool)
    requires Inv(s, now) && ValidLink(link) && Heartbeat(s, now)
    ensures s.Shaped() && Heartbeat(Tick(s, now, link, chaff, ok, trim).state, now)
  {
    hide QueueInv, CalculateTimers, Transmit, Heartbeat, ValidLink;
    InvShaped(s, now);
    CalculateHeartbeat(s, now, link, trim);
    TransmitHeartbeat(CalculateTimers(s, now, link, trim), now, link, chaff, ok);
  }

  /**
   * How long the caller may sleep: 250 ms while either side shuts down, else 100 ms when the server is
   * owed an ack for data, else the three seconds between acks.
   */
  lemma WaitBounded(s: SenderState, now: int, link: Link, trim: bool)
    requires Inv(s, now) && ValidLink(link) && Heartbeat(s, now)
    ensures WaitTime(s, now, link, trim)
         <= if ShuttingDown(s) then SEND_INTERVAL_MAX else if s.pendingDataAck then ACK_DELAY else ACK_INTERVAL
  {
    hide Chain, Times, Numbers, PerByte, Refresh, ScheduleSend;
    BackSentBy(s.queue, now);
    RefreshShape(s.queue, now, link.timeout, trim);
  }
}
