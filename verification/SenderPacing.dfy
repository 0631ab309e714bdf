/**
 * Exactly when a tick transmits, and how long the caller may sleep, in terms of the queue's send times
 * (internal/transport/sender.go).
 */
module SenderPacing {
  import opened Basics
  import opened Wire
  import opened UserStreams
  import opened SenderModel
  import opened SenderInvariant
  import opened SenderTimers

  // ---------------------------------------------------------------- when a tick transmits

  /** An ack is due: at its own time, or a send interval after the last transmission while shutting down. */
  predicate AckWanted(s: SenderState, now: int, link: Link)
    requires s.Shaped()
  {
    (if ShuttingDown(s) then s.queue.Back().sentAt + link.interval else s.timers.nextAckTime) <= now
  }

  /** The oldest unacknowledged state was sent so long ago that the peer is no longer assumed to hold any. */
  predicate GivenUp(q: Queue, now: int, link: Link)
    requires q.Shaped()
  {
    |q.sent| > 1 && q.sent[1].sentAt + link.timeout + 100 * MS <= now
  }

  /**
   * Data is due.  Input in no queued state goes 8 ms after it was first seen and a send interval after the
   * last transmission; a state sent but not acknowledged goes again once given up on, at that interval.
   */
  predicate DataWanted(s: SenderState, now: int, link: Link)
    requires s.Shaped()
  {
    var q := s.queue;
    if q.current != q.Back().events then
      s.timers.haveMindelay && s.timers.mindelayClock + 8 * MS <= now && q.Back().sentAt + link.interval <= now
    else q.current != q.Front().events && GivenUp(q, now, link) && q.Back().sentAt + link.interval <= now
  }

  /** Trimming does not change whether the input is ahead of the newest state sent. */
  lemma UnsentAlike(q: Queue, now: int, timeout: int, trim: bool)
    requires QueueInv(q, now)
    ensures var r := Refresh(q, now, timeout, trim);
      r.current == r.Back().events <==> q.current == q.Back().events
  {
    FrontIsPrefix(q);
    var known, a, b := q.Front().events, q.current, q.Back().events;
    assert b == q.sent[|q.sent| - 1].events;
    assert known <= a && known <= b;
    assert a == known + a[|known|..] && b == known + b[|known|..];
  }

  /** What calculateTimers leaves, without its own case analysis. */
  lemma Recalculated(s: SenderState, now: int, link: Link, trim: bool)
    requires Inv(s, now) && ValidLink(link)
    ensures var t := CalculateTimers(s, now, link, trim);
      && (AckDue(t, now) <==> AckWanted(s, now, link))
      && (SendDue(t, now) <==> DataWanted(s, now, link))
  {
    hide Chain, Times, Numbers, PerByte, Refresh, ScanAssumed;
    InvShaped(s, now);
    var q := s.queue;
    RefreshShape(q, now, link.timeout, trim);
    RefreshInv(q, now, link.timeout, trim);
    AheadAlike(q, now, link.timeout, trim);
    UnsentAlike(q, now, link.timeout, trim);
    AssumedFrontOrBack(q, now, link.timeout, trim);
    SentInOrder(q, now);
    BackSentBy(q, now);
    Lengths(Refresh(q, now, link.timeout, trim));
  }

  lemma SentInOrder(q: Queue, clock: int)
    requires QueueInv(q, clock)
    ensures |q.sent| > 1 ==> q.sent[1].sentAt <= q.Back().sentAt
    ensures |q.sent| == 1 ==> q.Front() == q.Back()
  {
  }

  /** A tick attempts a transmission exactly when an ack or data is due. */
  lemma TransmitsIff(s: SenderState, now: int, link: Link, chaff: bytes, ok: bool, trim: bool)
    requires Inv(s, now) && ValidLink(link)
    ensures s.Shaped()
    ensures !Tick(s, now, link, chaff, ok, trim).emission.Silent?
       <==> AckWanted(s, now, link) || DataWanted(s, now, link)
  {
    hide QueueInv, CalculateTimers, DiffFrom, Transmit, AckWanted, DataWanted, ValidLink;
    InvShaped(s, now);
    Recalculated(s, now, link, trim);
    DueMeansDiff(s, now, link, trim);
    var t := CalculateTimers(s, now, link, trim);
    if AckDue(t, now) || SendDue(t, now) {
      TransmitSpeaks(t, now, link, chaff, ok);
    }
  }

  // ---------------------------------------------------------------- how long to sleep

  /** Both values come from one estimate: the timeout is never far below the interval. */
  predicate Coherent(link: Link) {
    link.interval <= link.timeout + 100 * MS
  }

  /** When input not yet sent was first seen by the timers. */
  function FirstSeen(s: SenderState, now: int): int {
    if s.timers.haveMindelay then s.timers.mindelayClock else now
  }

  lemma WaitedAlike(s: SenderState, now: int, link: Link, trim: bool)
    requires Inv(s, now) && ValidLink(link)
    ensures s.Shaped()
    ensures var w := CalculateTimers(s, now, link, trim);
      && |w.queue.sent| == |s.queue.sent| && ShuttingDown(w) == ShuttingDown(s)
      && (forall i :: 0 <= i < |w.queue.sent| ==> w.queue.sent[i].sentAt == s.queue.sent[i].sentAt)
      && (w.queue.current == w.queue.Back().events <==> s.queue.current == s.queue.Back().events)
      && (w.queue.current == w.queue.Front().events <==> s.queue.current == s.queue.Front().events)
  {
    hide Chain, Times, Numbers, PerByte, Refresh, ScheduleSend, ScheduleAck;
    RefreshShape(s.queue, now, link.timeout, trim);
    AheadAlike(s.queue, now, link.timeout, trim);
    UnsentAlike(s.queue, now, link.timeout, trim);
  }

  /** Timers computed at `now` mark input not yet sent as seen. */
  lemma WaitedSeen(s: SenderState, now: int, link: Link, trim: bool)
    requires Inv(s, now) && ValidLink(link) && s.queue.current != s.queue.Back().events
    ensures var w := CalculateTimers(s, now, link, trim).timers;
      w.haveMindelay && w.mindelayClock == FirstSeen(s, now)
  {
    hide Chain, Times, Numbers, PerByte, Refresh, ScheduleAck;
    UnsentAlike(s.queue, now, link.timeout, trim);
  }

  /** Once the timers have been computed, later ticks find an ack due at the time then set. */
  lemma WaitedAck(s: SenderState, now: int, u: int, link: Link, trim: bool)
    requires Inv(s, now) && ValidLink(link) && now <= u
    ensures var w := CalculateTimers(s, now, link, trim);
      w.Shaped() && (AckWanted(w, u, link) <==> w.timers.nextAckTime <= u)
  {
    hide Chain, Times, Numbers, PerByte, Refresh, ScheduleSend;
  }

  /** The send time set at `now`, in terms of the queue. */
  lemma WaitedSend(s: SenderState, now: int, link: Link, trim: bool)
    requires Inv(s, now) && ValidLink(link)
    ensures var w, q := CalculateTimers(s, now, link, trim).timers, s.queue;
      if q.current != q.Back().events then
        w.haveSendTime && w.nextSendTime == Max(FirstSeen(s, now) + 8 * MS, q.Back().sentAt + link.interval)
      else if q.current == q.Front().events then !w.haveSendTime
      else
        w.haveSendTime
        && w.nextSendTime == q.Back().sentAt + if GivenUp(q, now, link) then link.interval else link.timeout + 100 * MS
  {
    hide Chain, Times, Numbers, PerByte, Refresh, ScanAssumed, ScheduleAck;
    var q := s.queue;
    RefreshShape(q, now, link.timeout, trim);
    RefreshInv(q, now, link.timeout, trim);
    AheadAlike(q, now, link.timeout, trim);
    UnsentAlike(q, now, link.timeout, trim);
    AssumedFrontOrBack(q, now, link.timeout, trim);
    SentInOrder(q, now);
    Lengths(Refresh(q, now, link.timeout, trim));
  }

  /** At `u` a state is given up on that was not when the wait was computed, and may go again. */
  predicate GivenUpMeanwhile(q: Queue, now: int, u: int, link: Link)
    requires q.Shaped()
  {
    && q.current == q.Back().events != q.Front().events
    && !GivenUp(q, now, link) && GivenUp(q, u, link) && q.Back().sentAt + link.interval <= u
  }

  lemma WaitedData(s: SenderState, now: int, u: int, link: Link, trim: bool)
    requires Inv(s, now) && ValidLink(link) && Coherent(link) && now <= u
    ensures var w := CalculateTimers(s, now, link, trim);
      var due := w.timers.haveSendTime && w.timers.nextSendTime <= u;
      && s.Shaped() && w.Shaped()
      && (DataWanted(w, u, link) <==> due || GivenUpMeanwhile(s.queue, now, u, link))
  {
    hide QueueInv, CalculateTimers;
    WaitedAlike(s, now, link, trim);
    WaitedSend(s, now, link, trim);
    if s.queue.current != s.queue.Back().events {
      WaitedSeen(s, now, link, trim);
    }
    assert |s.queue.sent| > 1 ==> s.queue.sent[1].sentAt <= s.queue.Back().sentAt by { SentInOrder(s.queue, now); }
    assert |s.queue.sent| == 1 ==> s.queue.Front() == s.queue.Back() by { SentInOrder(s.queue, now); }
  }

  /**
   * WaitTime is long enough and no longer than needed: a tick once it has passed transmits, and before that one
   * transmits exactly when it falls after a state has been given up on that was not when the wait was computed.
   */
  lemma WaitsUntilDue(s: SenderState, now: int, u: int, link: Link, chaff: bytes, ok: bool, trim: bool)
    requires Inv(s, now) && ValidLink(link) && Coherent(link) && now <= u
    ensures s.Shaped()
    ensures var w, wait := CalculateTimers(s, now, link, trim), WaitTime(s, now, link, trim);
      var silent := Tick(w, u, link, chaff, ok, trim).emission.Silent?;
      if u >= now + wait then !silent else silent <==> !GivenUpMeanwhile(s.queue, now, u, link)
  {
    hide QueueInv, CalculateTimers, Tick, AckWanted, DataWanted, GivenUpMeanwhile, ValidLink, Coherent;
    InvShaped(s, now);
    CalculateInv(s, now, link, trim);
    var w := CalculateTimers(s, now, link, trim);
    ClockAdvances(w, now, u);
    WaitedAck(s, now, u, link, trim);
    WaitedData(s, now, u, link, trim);
    TransmitsIff(w, u, link, chaff, ok, trim);
  }

  /** So a caller can oversleep: here a tick 50 ms before the wait is over would retransmit. */
  lemma OversleepsARetransmission(chaff: bytes, ok: bool)
    ensures var a, b := Keys([97]), Keys([98]);
      var q := Queue([a, b], [Entry(0, 0, []), Entry(0, 1, [a]), Entry(100 * MS, 2, [a, b])], 0);
      var s := SenderState(q, Timers(3100 * MS, 0, false, 0, false), false, 0, 0, false);
      var link, now := Link(20 * MS, 1000 * MS), 200 * MS;
      && Inv(s, now) && WaitTime(s, now, link, true) == 1000 * MS
      && !Tick(CalculateTimers(s, now, link, true), now + 950 * MS, link, chaff, ok, true).emission.Silent?
  {
    hide CalculateTimers, Tick;
    var a, b := Keys([97]), Keys([98]);
    var q := Queue([a, b], [Entry(0, 0, []), Entry(0, 1, [a]), Entry(100 * MS, 2, [a, b])], 0);
    var s := SenderState(q, Timers(3100 * MS, 0, false, 0, false), false, 0, 0, false);
    var link, now := Link(20 * MS, 1000 * MS), 200 * MS;
    assert Inv(s, now);
    WaitedSend(s, now, link, true);
    WaitedAckTime(s, now, link, true);
    WaitsUntilDue(s, now, now + 950 * MS, link, chaff, ok, true);
  }

  lemma WaitedAckTime(s: SenderState, now: int, link: Link, trim: bool)
    requires s.Shaped() && !ShuttingDown(s) && !s.pendingDataAck
    ensures CalculateTimers(s, now, link, trim).timers.nextAckTime == s.timers.nextAckTime
  {
    hide Refresh, ScheduleSend;
  }
}
