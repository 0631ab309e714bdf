/** What the sender does when sends fail, and when the peer never answers a shutdown (internal/transport/sender.go). */
module SenderRetries {
  import opened Basics
  import opened Wire
  import opened UserStreams
  import opened SenderModel
  import opened SenderInvariant
  import opened SenderTimers

  // ---------------------------------------------------------------- backing off after a failure

  /**
   * Whether a failed attempt from `t`, the state calculateTimers left, moves the timer that made it due: an
   * empty ack does outside a shutdown; a state sent before does unless the ack is due too; a new state does not.
   */
  predicate BacksOff(t: SenderState, now: int)
    requires t.Shaped()
  {
    if DiffFrom(t.queue.current, t.queue.Assumed().events) == [] then !ShuttingDown(t)
    else DataNum(t) == t.queue.Back().num && (ShuttingDown(t) || !AckDue(t, now))
  }

  lemma WaitsIff(s: SenderState, now: int, link: Link, trim: bool)
    requires s.Shaped()
    ensures WaitTime(s, now, link, trim) > 0 <==>
      var u := CalculateTimers(s, now, link, trim); !AckDue(u, now) && !SendDue(u, now)
  {
    hide CalculateTimers;
  }

  /** States with the same queue and timers, equally far into a shutdown, are scheduled alike. */
  lemma UnmovedStaysDue(t: SenderState, r: SenderState, now: int, link: Link, trim: bool)
    requires t.Shaped() && r.Shaped() && t == CalculateTimers(t, now, link, trim)
    requires r.queue == t.queue && r.timers.(nextAckTime := t.timers.nextAckTime) == t.timers
    requires r.shutdown == t.shutdown && r.ackNum == t.ackNum && r.pendingDataAck == t.pendingDataAck
    ensures var u := CalculateTimers(r, now, link, trim);
      && (SendDue(u, now) <==> SendDue(t, now))
      && (ShuttingDown(t) || r.timers.nextAckTime == t.timers.nextAckTime ==> (AckDue(u, now) <==> AckDue(t, now)))
      && (!ShuttingDown(t) && r.timers.nextAckTime > now ==> !AckDue(u, now))
  {
    hide Refresh;
  }

  /** A queue whose back was touched just now has no send due. */
  lemma TouchedNotDue(r: SenderState, now: int, link: Link, trim: bool)
    requires r.Shaped() && ValidLink(link) && r.queue.Back().sentAt == now
    ensures var u := CalculateTimers(r, now, link, trim);
      && !SendDue(u, now)
      && (ShuttingDown(r) ==> !AckDue(u, now))
      && (!ShuttingDown(r) ==> (AckDue(u, now) <==> AckDue(r, now)))
  {
    RefreshShape(r.queue, now, link.timeout, trim);
    hide Refresh;
  }

  /** A failed attempt touches the back if it was sent before, and moves the ack if there was nothing to say. */
  lemma FailedLeaves(t: SenderState, now: int, link: Link, chaff: bytes)
    requires t.Shaped() && Transmit(t, now, link, chaff, false).emission.Failed?
    ensures var r := Transmit(t, now, link, chaff, false).state;
      && r.shutdown == t.shutdown && r.ackNum == t.ackNum && r.pendingDataAck == t.pendingDataAck
      && if DiffFrom(t.queue.current, t.queue.Assumed().events) == [] then
           AckDue(t, now) && r.queue == t.queue && r.timers == t.timers.(nextAckTime := now + link.interval)
         else
           r.queue == Prepare(t.queue, now, DataNum(t) == t.queue.Back().num) && r.timers == t.timers
  {
    hide DiffFrom, AddSent, Touch;
  }

  /**
   * After a failed attempt the sender waits before the next one exactly when the attempt backs off;
   * otherwise it is due again at once.
   */
  lemma FailureWaitsIffBacksOff(s: SenderState, now: int, link: Link, chaff: bytes, trim: bool)
    requires Inv(s, now) && ValidLink(link) && Tick(s, now, link, chaff, false, trim).emission.Failed?
    ensures WaitTime(Tick(s, now, link, chaff, false, trim).state, now, link, trim) > 0
       <==> BacksOff(CalculateTimers(s, now, link, trim), now)
  {
    hide QueueInv, CalculateTimers, DiffFrom, Transmit, WaitTime, Touch;
    InvShaped(s, now);
    var t, r := CalculateTimers(s, now, link, trim), Tick(s, now, link, chaff, false, trim).state;
    TimersIdempotent(s, now, link, trim);
    DueMeansDiff(s, now, link, trim);
    FailedLeaves(t, now, link, chaff);
    WaitsIff(r, now, link, trim);
    if DiffFrom(t.queue.current, t.queue.Assumed().events) != [] && DataNum(t) == t.queue.Back().num {
      assert r.queue.Back().sentAt == now by { TouchedBack(t.queue, now); }
      TouchedNotDue(r, now, link, trim);
    } else {
      UnmovedStaysDue(t, r, now, link, trim);
    }
  }

  lemma TouchedBack(q: Queue, now: int)
    requires q.Shaped()
    ensures Touch(q, now).Back().sentAt == now
  {
  }

  /** Backing off is not guaranteed: the first keystroke, sent in vain, is tried again with no wait at all. */
  lemma NewStateRetriesAtOnce(link: Link, chaff: bytes)
    requires ValidLink(link)
    ensures var first := Initial(0).(queue := Push(Initial(0).queue, KeyEvents([97])));
      var r := Tick(first, 0, link, chaff, false, true);
      r.emission.Failed? && WaitTime(r.state, 0, link, true) == 0
  {
    hide DiffFrom, WaitTime;
    var first := Initial(0).(queue := Push(Initial(0).queue, KeyEvents([97])));
    var t := CalculateTimers(first, 0, link, true);
    assert first.queue.current == [Keys([97])];
    assert t.queue.current == [Keys([97])] && t.queue.sent == [Entry(0, 0, [])];
    DiffEmptyIff(t.queue.current, []);
    assert Inv(first, 0);
    WaitNotNegative(Tick(first, 0, link, chaff, false, true).state, link);
    FailureWaitsIffBacksOff(first, 0, link, chaff, true);
  }

  lemma WaitNotNegative(s: SenderState, link: Link)
    requires s.Shaped()
    ensures WaitTime(s, 0, link, true) >= 0
  {
    hide CalculateTimers;
  }

  // ---------------------------------------------------------------- giving up on a shutdown

  /** Every attempt made while shutting down is counted, and 250 ms after the last send another is made. */
  lemma ShutdownAttempts(s: SenderState, clock: int, now: int, link: Link, chaff: bytes, ok: bool, trim: bool)
    requires Inv(s, clock) && s.shutdown && ValidLink(link)
    requires clock <= now && s.queue.Back().sentAt + SEND_INTERVAL_MAX <= now
    ensures var r := Tick(s, now, link, chaff, ok, trim);
      && !r.emission.Silent? && r.state.shutdown && r.state.queue.Back().sentAt <= now
      && r.state.shutdownTries == s.shutdownTries + 1
  {
    hide DiffFrom, Touch, AddSent, Refresh, Chain, Numbers, PerByte;
    var t := CalculateTimers(s, now, link, trim);
    RefreshShape(s.queue, now, link.timeout, trim);
    assert AckDue(t, now);
    ClockAdvances(s, clock, now);
    TickLeaves(s, now, link, chaff, ok, trim);
    BackSentBy(Tick(s, now, link, chaff, ok, trim).state.queue, now);
  }
}
