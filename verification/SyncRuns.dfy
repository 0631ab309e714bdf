/**
 * More facts of whole runs: a number once given keeps its meaning, the schedule is always sound, the
 * client is never silent for long, and it gives up on a shutdown nobody answers.
 */
module SyncRuns {
  import opened Basics
  import opened Wire
  import opened UserStreams
  import opened SenderModel
  import SI = SenderInvariant
  import ST = SenderTimers
  import SR = SenderRetries
  import opened SenderTrim
  import opened SyncSystem
  import opened SyncInvariant
  import opened SyncSafety

  // ---------------------------------------------------------------- a number names one state

  lemma RecordExtends(sys: System, t: SenderState, now: int, r: Outcome, ok: bool)
    requires Ready(sys, t, now) && r.state.Shaped() && SI.Attempted(t, r, now, ok)
    ensures Extends(sys.history, Record(sys, now, r).history)
  {
    hide SI.Inv, SI.Unexhausted, SI.Refers, SI.Sends, SI.Kept, Recorded, HistoryOk;
    if r.emission.Sent? {
      MintExtends(sys, t, now, r.emission.inst);
    }
  }

  lemma NextExtends(sys: System, step: Step)
    requires Inv(sys) && Enabled(sys, step) && SI.Unexhausted(sys.sender)
    ensures Extends(sys.history, Next(sys, step, false).history)
  {
    hide Inv, Ready, Record, Receive, Extends, CalculateTimers, Tick, SI.Inv, SI.Unexhausted, SI.Attempted;
    assert Extends(sys.history, sys.history) by { ExtendsItself(sys.history); }
    if step.TickAt? {
      var now, link := step.now, step.link;
      InvSender(sys, now);
      BeforeTransmit(sys, now, link);
      SI.TickLeaves(sys.sender, now, link, step.chaff, step.ok, false);
      RecordExtends(sys, CalculateTimers(sys.sender, now, link, false), now,
        Tick(sys.sender, now, link, step.chaff, step.ok, false), step.ok);
    }
  }

  lemma ExtendsItself(h: Streams)
    ensures Extends(h, h)
  {
  }

  lemma {:induction false} RunExtends(sys: System, steps: seq<Step>, used: nat)
    requires Inv(sys) && Legal(sys, steps, false)
    requires !sys.sender.shutdown ==> sys.sender.queue.Back().num <= used
    requires used + |steps| < SHUTDOWN_NUM
    ensures Extends(sys.history, Run(sys, steps, false).history)
    decreases |steps|
  {
    hide Inv, Next;
    InvSender(sys, sys.clock);
    if steps != [] {
      NextKeepsInv(sys, steps[0]);
      NextNumbers(sys, steps[0]);
      NextExtends(sys, steps[0]);
      RunExtends(Next(sys, steps[0], false), steps[1..], used + 1);
    }
  }

  /** However a run goes on, no number below the shutdown number ever comes to stand for another state. */
  lemma NumbersKeepTheirMeaning(t0: int, steps: seq<Step>, more: seq<Step>)
    requires Reachable(t0, steps + more)
    ensures Reachable(t0, steps)
    ensures Extends(Run(Start(t0), steps, true).history, Run(Start(t0), steps + more, true).history)
  {
    hide Run, Legal, Mirrors, Extends;
    RunSplits(Start(t0), steps, more, true);
    var whole, k := ReachableMirrors(t0, steps);
    var end, n := ReachableMirrors(t0, steps + more);
    TrimmingUnobservable(t0, steps + more);
    RunSplits(Start(t0), steps, more, false);
    MirrorHistory(Run(Start(t0), steps, true), whole, k);
    MirrorHistory(Run(Start(t0), steps + more, true), end, n);
    RunExtends(whole, more, |steps|);
  }

  lemma MirrorHistory(sys: System, whole: System, k: nat)
    requires Mirrors(sys, whole, k)
    ensures Inv(whole) && sys.history == whole.history
  {
  }

  // ---------------------------------------------------------------- the schedule

  /** The sender of every reachable state satisfies the invariant its timers rely on. */
  lemma MirrorSender(sys: System, whole: System, k: nat)
    requires Mirrors(sys, whole, k)
    ensures SI.Inv(sys.sender, sys.clock)
  {
    hide Recorded, HistoryOk, NetOk, HeldOk, FrontHeld, Paced, Forward, SI.QueueInv, Cuttable;
    InvSender(whole, whole.clock);
    CutQueueInv(whole.sender.queue, k, whole.clock);
    CuttableShaped(whole.sender.queue, k);
  }

  /** What the front stands for is all of the input exactly when the cut streams agree. */
  lemma MirrorAhead(sys: System, whole: System, k: nat)
    requires Mirrors(sys, whole, k) && sys.sender.queue.Shaped() && sys.sender.queue.Front().num < SHUTDOWN_NUM
    ensures var q := sys.sender.queue;
      q.Front().num in sys.history && (q.current != q.Front().events <==> sys.pushed != sys.history[q.Front().num])
  {
    hide HistoryOk, NetOk, HeldOk, FrontHeld, Paced, Forward, Cuttable, SI.Inv, Drop;
    CuttableShaped(whole.sender.queue, k);
    CutCompares(whole.sender.queue, k);
  }

  /** What calculateTimers leaves, in terms of the whole input and of what the peer has acknowledged. */
  ghost predicate SoundSchedule(sys: System, now: int, link: Link)
    requires sys.Shaped()
  {
    var s, t := sys.sender, CalculateTimers(sys.sender, now, link, true);
    var front := s.queue.Front().num;
    && (t.queue.assumed == 0 || t.queue.assumed == |t.queue.sent| - 1)
    && (SendDue(t, now) ==> DiffFrom(t.queue.current, t.queue.Assumed().events) != [])
    && (front < SHUTDOWN_NUM ==> front in sys.history && (t.timers.haveSendTime <==> sys.pushed != sys.history[front]))
    && (t.timers.haveSendTime ==> t.timers.nextSendTime <= Max(now + 8 * MS, s.queue.Back().sentAt + 1100 * MS))
  }

  /**
   * In every reachable state, at any later time: the peer is assumed to hold the front or the back; a send
   * that is due has something to say; a send is scheduled exactly when the acknowledged state is not all the
   * input, and within its bound; and the wait is zero exactly when a tick would transmit.
   */
  lemma ScheduleAlwaysSound(t0: int, steps: seq<Step>, now: int, link: Link, chaff: bytes, ok: bool)
    requires Reachable(t0, steps) && ValidLink(link) && Run(Start(t0), steps, true).clock <= now
    ensures SoundSchedule(Run(Start(t0), steps, true), now, link)
    ensures var s := Run(Start(t0), steps, true).sender;
      WaitTime(s, now, link, true) == 0 <==> !Tick(s, now, link, chaff, ok, true).emission.Silent?
  {
    hide Run, Reachable, Mirrors, SI.Inv, CalculateTimers, WaitTime, Tick, DiffFrom, ValidLink;
    var whole, k := ReachableMirrors(t0, steps);
    var sys := Run(Start(t0), steps, true);
    MirrorSender(sys, whole, k);
    SI.ClockAdvances(sys.sender, sys.clock, now);
    if sys.sender.queue.Front().num < SHUTDOWN_NUM {
      MirrorAhead(sys, whole, k);
    }
    AssumedEnds(sys.sender, now, link);
    ST.DueMeansDiff(sys.sender, now, link, true);
    ST.ScheduledIffUnacknowledged(sys.sender, now, link, true);
    ST.WaitZeroIffTransmits(sys.sender, now, link, chaff, ok, true);
  }

  lemma AssumedEnds(s: SenderState, now: int, link: Link)
    requires SI.Inv(s, now)
    ensures var q := CalculateTimers(s, now, link, true).queue; q.assumed == 0 || q.assumed == |q.sent| - 1
  {
    hide SI.QueueInv, Refresh, ScheduleSend, ScheduleAck, Recent;
    SI.InvShaped(s, now);
    ST.AssumedFrontOrBack(s.queue, now, link.timeout, true);
    SI.RefreshShape(s.queue, now, link.timeout, true);
  }

  // ---------------------------------------------------------------- never silent for long

  lemma NextHeartbeat(sys: System, step: Step)
    requires Inv(sys) && Enabled(sys, step) && SI.Unexhausted(sys.sender) && ST.Heartbeat(sys.sender, sys.clock)
    ensures var r := Next(sys, step, false); ST.Heartbeat(r.sender, r.clock)
  {
    hide Inv, Receive, CalculateTimers, Tick, ProcessAck, SI.Inv, SI.Unexhausted, ValidLink;
    if step.TickAt? {
      InvSender(sys, step.now);
      ST.TickHeartbeat(sys.sender, step.now, step.link, step.chaff, step.ok, false);
    } else if step.WaitAt? {
      InvSender(sys, step.now);
      ST.CalculateHeartbeat(sys.sender, step.now, step.link, false);
    }
  }

  lemma {:induction false} RunHeartbeat(sys: System, steps: seq<Step>, used: nat)
    requires Inv(sys) && Legal(sys, steps, false) && ST.Heartbeat(sys.sender, sys.clock)
    requires !sys.sender.shutdown ==> sys.sender.queue.Back().num <= used
    requires used + |steps| < SHUTDOWN_NUM
    ensures var r := Run(sys, steps, false); ST.Heartbeat(r.sender, r.clock)
    decreases |steps|
  {
    hide Inv, Next, ST.Heartbeat;
    InvSender(sys, sys.clock);
    if steps != [] {
      NextKeepsInv(sys, steps[0]);
      NextNumbers(sys, steps[0]);
      NextHeartbeat(sys, steps[0]);
      RunHeartbeat(Next(sys, steps[0], false), steps[1..], used + 1);
    }
  }

  /**
   * In every reachable state, at any later time, the client is told to sleep no longer than three seconds,
   * 100 ms when it owes an ack for data, and 250 ms while either side shuts down.
   */
  lemma NeverSilentForLong(t0: int, steps: seq<Step>, now: int, link: Link)
    requires Reachable(t0, steps) && ValidLink(link) && Run(Start(t0), steps, true).clock <= now
    ensures var s := Run(Start(t0), steps, true).sender;
      WaitTime(s, now, link, true)
        <= if ShuttingDown(s) then 250 * MS else if s.pendingDataAck then 100 * MS else 3000 * MS
  {
    hide Run, Legal, Mirrors, SI.Inv, WaitTime, ValidLink;
    var whole, k := ReachableMirrors(t0, steps);
    var sys := Run(Start(t0), steps, true);
    TrimmingUnobservable(t0, steps);
    StartInv(t0);
    RunHeartbeat(Start(t0), steps, 0);
    MirrorSender(sys, whole, k);
    MirrorClock(sys, whole, k);
    SI.ClockAdvances(sys.sender, sys.clock, now);
    ST.WaitBounded(sys.sender, now, link, true);
  }

  /** What cutting leaves alone. */
  lemma MirrorClock(sys: System, whole: System, k: nat)
    requires Mirrors(sys, whole, k)
    ensures sys.clock == whole.clock && sys.sender.timers == whole.sender.timers
    ensures sys.sender.shutdown == whole.sender.shutdown && sys.sender.shutdownTries == whole.sender.shutdownTries
  {
  }

  // ---------------------------------------------------------------- giving up on a shutdown

  /** Ticks come at least 250 ms apart, the first as long after `last`; other steps come as they may. */
  predicate TicksApart(last: int, steps: seq<Step>)
    decreases |steps|
  {
    if steps == [] then true
    else if steps[0].TickAt? then
      last + SEND_INTERVAL_MAX <= steps[0].now && TicksApart(steps[0].now, steps[1..])
    else TicksApart(last, steps[1..])
  }

  function Ticks(steps: seq<Step>): nat {
    if steps == [] then 0 else (if steps[0].TickAt? then 1 else 0) + Ticks(steps[1..])
  }

  ghost predicate LastSentBy(sys: System, last: int) {
    sys.Shaped() && sys.sender.shutdown && sys.sender.queue.Back().sentAt <= last
  }

  lemma WaitKeepsTries(s: SenderState, now: int, link: Link)
    requires s.Shaped()
    ensures CalculateTimers(s, now, link, false).shutdownTries == s.shutdownTries
  {
    hide Refresh;
  }

  /** While shutting down only ticks count as tries, and only they send. */
  lemma NextInShutdown(sys: System, step: Step, last: int)
    requires Inv(sys) && Enabled(sys, step) && LastSentBy(sys, last)
    requires step.TickAt? ==> last + SEND_INTERVAL_MAX <= step.now
    ensures var r := Next(sys, step, false);
      && LastSentBy(r, if step.TickAt? then step.now else last)
      && r.sender.shutdownTries == sys.sender.shutdownTries + if step.TickAt? then 1 else 0
  {
    hide Inv, Receive, CalculateTimers, Tick, ProcessAck, SI.Inv, ValidLink;
    InvSender(sys, sys.clock);
    match step
    case TickAt(now, link, chaff, ok) =>
      SR.ShutdownAttempts(sys.sender, sys.clock, now, link, chaff, ok, false);
      RecordSender(sys, now, Tick(sys.sender, now, link, chaff, ok, false));
    case WaitAt(now, link) =>
      TimersShape(sys.sender, now, link);
      WaitKeepsTries(sys.sender, now, link);
    case Hear(ack, data, newest) =>
      AckKeepsBack(sys, ack);
    case _ =>
  }

  lemma AckKeepsBack(sys: System, ack: uint64)
    requires Inv(sys)
    ensures ProcessAck(sys.sender.queue, ack).Back() == sys.sender.queue.Back()
  {
    hide Recorded, HistoryOk, NetOk, HeldOk, FrontHeld, Paced, Forward, ProcessAck;
    SI.ProcessAckInv(sys.sender.queue, ack, sys.clock);
  }

  lemma {:induction false} RunInShutdown(sys: System, steps: seq<Step>, last: int)
    requires Inv(sys) && Legal(sys, steps, false) && LastSentBy(sys, last) && TicksApart(last, steps)
    ensures var r := Run(sys, steps, false);
      r.sender.shutdown && r.sender.shutdownTries == sys.sender.shutdownTries + Ticks(steps)
    decreases |steps|
  {
    hide Inv, Next, Enabled;
    if steps != [] {
      NextKeepsInv(sys, steps[0]);
      NextInShutdown(sys, steps[0], last);
      RunInShutdown(Next(sys, steps[0], false), steps[1..], if steps[0].TickAt? then steps[0].now else last);
    }
  }

  lemma SentByNow(sys: System)
    requires Inv(sys) && sys.sender.shutdown
    ensures LastSentBy(sys, sys.clock)
  {
    hide Recorded, HistoryOk, NetOk, HeldOk, FrontHeld, Paced, Forward;
    SI.BackSentBy(sys.sender.queue, sys.clock);
  }

  /**
   * A client shutting down gives up: 16 ticks a quarter of a second apart time it out, whichever of their
   * sends fail and whatever input, deliveries, acknowledgments and waits come between them.
   */
  lemma ShutdownGivesUp(t0: int, steps: seq<Step>, more: seq<Step>)
    requires Reachable(t0, steps + more)
    requires var sys := Run(Start(t0), steps, true); sys.sender.shutdown && TicksApart(sys.clock, more)
    ensures var sys, end := Run(Start(t0), steps, true), Run(Start(t0), steps + more, true);
      && end.sender.shutdown && end.sender.shutdownTries == sys.sender.shutdownTries + Ticks(more)
      && (Ticks(more) >= 16 ==> TimedOut(end.sender))
  {
    hide Run, Legal, Mirrors, TicksApart;
    RunSplits(Start(t0), steps, more, true);
    var whole, k := ReachableMirrors(t0, steps);
    var end, n := ReachableMirrors(t0, steps + more);
    TrimmingUnobservable(t0, steps + more);
    RunSplits(Start(t0), steps, more, false);
    MirrorClock(Run(Start(t0), steps, true), whole, k);
    MirrorClock(Run(Start(t0), steps + more, true), end, n);
    MirrorHistory(Run(Start(t0), steps, true), whole, k);
    SentByNow(whole);
    RunInShutdown(whole, more, whole.clock);
  }
}
