/** Pacing over whole runs: when ticks transmit, what they carry, and how often a quiet client acknowledges. */
module SyncPacing {
  import opened Basics
  import opened Wire
  import opened UserStreams
  import opened SenderModel
  import SI = SenderInvariant
  import ST = SenderTimers
  import opened SenderPacing
  import SN = SenderNumbers
  import opened SenderTrim
  import opened SyncSystem
  import opened SyncInvariant
  import opened SyncSafety
  import opened SyncRuns

  lemma ReachableSender(t0: int, steps: seq<Step>, now: int)
    requires Reachable(t0, steps) && Run(Start(t0), steps, true).clock <= now
    ensures var s := Run(Start(t0), steps, true).sender;
      SI.Inv(s, now) && (!s.shutdown ==> s.queue.Back().num <= |steps|)
  {
    hide Run, Legal, Mirrors, SI.Inv;
    var whole, k := ReachableMirrors(t0, steps);
    var sys := Run(Start(t0), steps, true);
    MirrorSender(sys, whole, k);
    MirrorBack(sys, whole, k);
    SI.ClockAdvances(sys.sender, sys.clock, now);
  }

  lemma MirrorBack(sys: System, whole: System, k: nat)
    requires Mirrors(sys, whole, k)
    ensures sys.Shaped() && whole.Shaped()
    ensures sys.sender.queue.Back().num == whole.sender.queue.Back().num
    ensures sys.sender.shutdown == whole.sender.shutdown
  {
    hide SI.Inv, Recorded, HistoryOk, NetOk, HeldOk, FrontHeld, Paced, Forward;
  }

  // ---------------------------------------------------------------- when ticks transmit

  /**
   * In every reachable state a tick at any later time attempts a transmission exactly when an ack or data is
   * due by the queue's own send times, and what it attempts carries the fields the protocol asks for.
   */
  lemma TransmitsExactlyWhenDue(t0: int, steps: seq<Step>, now: int, link: Link, chaff: bytes, ok: bool)
    requires Reachable(t0, steps) && ValidLink(link) && Run(Start(t0), steps, true).clock <= now
    ensures var s := Run(Start(t0), steps, true).sender;
      var e := Tick(s, now, link, chaff, ok, true).emission;
      && (!e.Silent? <==> AckWanted(s, now, link) || DataWanted(s, now, link))
      && (!e.Silent? ==> (ok <==> e.Sent?) && SN.Carries(s, e.inst, now, link, chaff))
  {
    hide Run, Reachable, Tick, AckWanted, DataWanted, SN.Carries, SI.Inv;
    var s := Run(Start(t0), steps, true).sender;
    ReachableSender(t0, steps, now);
    TransmitsIff(s, now, link, chaff, ok, true);
    SN.InstructionCarries(s, now, link, chaff, ok, true);
  }

  /** In every reachable state a tick once WaitTime has passed transmits, and before that only as stated here. */
  lemma WaitsExactlyUntilDue(t0: int, steps: seq<Step>, now: int, u: int, link: Link, chaff: bytes, ok: bool)
    requires Reachable(t0, steps) && ValidLink(link) && Coherent(link)
    requires Run(Start(t0), steps, true).clock <= now <= u
    ensures var s := Run(Start(t0), steps, true).sender;
      var w, wait := CalculateTimers(s, now, link, true), WaitTime(s, now, link, true);
      var silent := Tick(w, u, link, chaff, ok, true).emission.Silent?;
      if u >= now + wait then !silent else silent <==> !GivenUpMeanwhile(s.queue, now, u, link)
  {
    hide Run, Reachable, Tick, CalculateTimers, WaitTime, GivenUpMeanwhile, SI.Inv;
    ReachableSender(t0, steps, now);
    WaitsUntilDue(Run(Start(t0), steps, true).sender, now, u, link, chaff, ok, true);
  }

  /** The input as the network has it under `num`. */
  ghost predicate SentAs(sys: System, num: uint64, pushed: Stream) {
    && (exists inst :: inst in sys.net && inst.newNum == num && inst.diff != [])
    && (num < SHUTDOWN_NUM ==> num in sys.history && sys.history[num] == pushed)
  }

  /** Timers computed at `p`, then a tick at `now`, over the link as it is at each. */
  function WaitThenTick(sys: System, p: int, before: Link, now: int, link: Link, chaff: bytes, ok: bool): (r: System)
    requires sys.Shaped()
    ensures r.Shaped()
  {
    Next(Next(sys, WaitAt(p, before), true), TickAt(now, link, chaff, ok), true)
  }

  lemma TickRecorded(w: System, now: int, link: Link, chaff: bytes, ok: bool)
    requires w.Shaped()
    ensures var r := Next(w, TickAt(now, link, chaff, ok), true);
      var e := Tick(w.sender, now, link, chaff, ok, true).emission;
      && r.pushed == w.pushed
      && (!e.Sent? ==> r.net == w.net && r.txTimes == w.txTimes)
      && (e.Sent? ==>
            && r.net == w.net + {e.inst} && r.txTimes == w.txTimes + [now]
            && (e.inst.newNum < SHUTDOWN_NUM ==> r.history == w.history[e.inst.newNum := w.pushed]))
  {
    hide Tick;
  }

  lemma TimersKeepBack(s: SenderState, now: int, link: Link)
    requires s.Shaped()
    ensures var t := CalculateTimers(s, now, link, true);
      && t.shutdown == s.shutdown
      && t.queue.Back().num == s.queue.Back().num && t.queue.Back().sentAt == s.queue.Back().sentAt
  {
    hide ScheduleSend, ScheduleAck;
    SI.RefreshShape(s.queue, now, link.timeout, true);
  }

  lemma UnsentWanted(s: SenderState, p: int, before: Link, now: int, link: Link)
    requires SI.Inv(s, p) && ValidLink(before) && p <= now && s.queue.current != s.queue.Back().events
    ensures var w := CalculateTimers(s, p, before, true);
      && w.Shaped() && w.queue.current != w.queue.Back().events
      && (DataWanted(w, now, link) <==>
            FirstSeen(s, p) + 8 * MS <= now && s.queue.Back().sentAt + link.interval <= now)
  {
    hide SI.QueueInv, CalculateTimers, ValidLink;
    WaitedAlike(s, p, before, true);
    WaitedSeen(s, p, before, true);
    TimersKeepBack(s, p, before);
  }

  lemma UnsentNumber(s: SenderState, p: int, before: Link, inst: Instruction)
    requires SI.Inv(s, p) && s.queue.current != s.queue.Back().events
    requires ValidLink(before)
    ensures var w := CalculateTimers(s, p, before, true);
      w.Shaped() && (SN.Numbered(w, inst) ==>
        inst.newNum == if s.shutdown then SHUTDOWN_NUM else NextNum(s.queue.Back().num))
  {
    hide SI.QueueInv, CalculateTimers, ValidLink;
    WaitedAlike(s, p, before, true);
    TimersKeepBack(s, p, before);
  }

  /** What a tick at `now` makes of input not yet sent, once the timers have seen it at `p`. */
  lemma UnsentTick(s: SenderState, p: int, before: Link, now: int, link: Link, chaff: bytes, ok: bool)
    requires SI.Inv(s, p) && ValidLink(before) && ValidLink(link) && p <= now
    requires s.queue.current != s.queue.Back().events
    ensures var w := CalculateTimers(s, p, before, true);
      && s.Shaped() && w.Shaped()
      && var e := Tick(w, now, link, chaff, ok, true).emission;
         && (!e.Silent? <==>
               || AckWanted(w, now, link)
               || (FirstSeen(s, p) + 8 * MS <= now && s.queue.Back().sentAt + link.interval <= now))
         && (!e.Silent? ==>
               && (ok <==> e.Sent?) && e.inst.diff != []
               && e.inst.newNum == if s.shutdown then SHUTDOWN_NUM else NextNum(s.queue.Back().num))
  {
    hide SI.Inv, Tick, CalculateTimers, AckWanted, DataWanted, ValidLink, SN.Numbered, SN.Reference;
    SI.InvShaped(s, p);
    SI.CalculateInv(s, p, before, true);
    var w := CalculateTimers(s, p, before, true);
    SI.ClockAdvances(w, p, now);
    UnsentWanted(s, p, before, now, link);
    TransmitsIff(w, now, link, chaff, ok, true);
    SN.InstructionCarries(w, now, link, chaff, ok, true);
    SN.UnsentIsSent(w, now, link, chaff, ok, true);
    var e := Tick(w, now, link, chaff, ok, true).emission;
    if !e.Silent? {
      UnsentNumber(s, p, before, e.inst);
    }
  }

  lemma UnsentRecorded(sys: System, p: int, before: Link, now: int, link: Link, chaff: bytes, ok: bool)
    requires sys.Shaped() && SI.Inv(sys.sender, p) && ValidLink(before) && ValidLink(link) && p <= now
    requires sys.sender.queue.current != sys.sender.queue.Back().events
    requires !sys.sender.shutdown ==> sys.sender.queue.Back().num < SHUTDOWN_NUM - 1
    ensures var s, r := sys.sender, WaitThenTick(sys, p, before, now, link, chaff, ok);
      var dataDue := FirstSeen(s, p) + 8 * MS <= now && s.queue.Back().sentAt + link.interval <= now;
      var ackDue := AckWanted(CalculateTimers(s, p, before, true), now, link);
      if ok && (dataDue || ackDue) then
        && r.txTimes == sys.txTimes + [now]
        && SentAs(r, if s.shutdown then SHUTDOWN_NUM else NextNum(s.queue.Back().num), sys.pushed)
      else r.net == sys.net && r.txTimes == sys.txTimes
  {
    hide Tick, CalculateTimers, AckWanted, SI.Inv, ValidLink, Record, SentAs, FirstSeen;
    var w := Next(sys, WaitAt(p, before), true);
    var e := Tick(w.sender, now, link, chaff, ok, true).emission;
    UnsentTick(sys.sender, p, before, now, link, chaff, ok);
    TickRecorded(w, now, link, chaff, ok);
    if e.Sent? {
      SentIsSentAs(Next(w, TickAt(now, link, chaff, ok), true), e.inst, w.history, sys.pushed);
    }
  }

  lemma SentIsSentAs(r: System, inst: Instruction, history: Streams, pushed: Stream)
    requires inst in r.net && inst.diff != []
    requires inst.newNum < SHUTDOWN_NUM ==> r.history == history[inst.newNum := pushed]
    ensures SentAs(r, inst.newNum, pushed)
  {
  }

  /**
   * Input in no queued state, seen by the timers at `p`: a tick from 8 ms after it was first seen and a send
   * interval after the last transmission on, or when an ack is due, transmits all of it under the next number;
   * an earlier tick transmits nothing.
   */
  lemma UnsentInputGoesOut(
      t0: int, steps: seq<Step>, p: int, before: Link, now: int, link: Link, chaff: bytes, ok: bool)
    requires Reachable(t0, steps) && |steps| + 2 < SHUTDOWN_NUM && ValidLink(before) && ValidLink(link)
    requires Run(Start(t0), steps, true).clock <= p <= now
    requires var q := Run(Start(t0), steps, true).sender.queue; q.current != q.Back().events
    ensures var sys := Run(Start(t0), steps, true);
      var s, r := sys.sender, WaitThenTick(sys, p, before, now, link, chaff, ok);
      var dataDue := FirstSeen(s, p) + 8 * MS <= now && s.queue.Back().sentAt + link.interval <= now;
      var ackDue := AckWanted(CalculateTimers(s, p, before, true), now, link);
      if ok && (dataDue || ackDue) then
        && r.txTimes == sys.txTimes + [now]
        && SentAs(r, if s.shutdown then SHUTDOWN_NUM else NextNum(s.queue.Back().num), sys.pushed)
      else r.net == sys.net && r.txTimes == sys.txTimes
  {
    hide *;
    ReachableSender(t0, steps, p);
    UnsentRecorded(Run(Start(t0), steps, true), p, before, now, link, chaff, ok);
  }

  // ---------------------------------------------------------------- the 8 ms start at the first unsent input

  /** The clock of input seen belongs to input not yet sent, and started no earlier than the last transmission. */
  ghost predicate SeenSince(sys: System)
    requires sys.Shaped()
  {
    sys.sender.timers.haveMindelay ==>
      && sys.sender.queue.current != sys.sender.queue.Back().events
      && sys.sender.timers.mindelayClock <= sys.clock
      && (sys.txTimes != [] ==> sys.txTimes[|sys.txTimes| - 1] <= sys.sender.timers.mindelayClock)
  }

  lemma CalculateSeen(s: SenderState, now: int, link: Link)
    requires s.Shaped()
    ensures var t := CalculateTimers(s, now, link, false);
      && t.queue.current == s.queue.current && t.queue.Back() == s.queue.Back()
      && (if s.queue.current != s.queue.Back().events
          then t.timers.haveMindelay && t.timers.mindelayClock == FirstSeen(s, now)
          else t.timers.haveMindelay == s.timers.haveMindelay && t.timers.mindelayClock == s.timers.mindelayClock)
  {
  }

  lemma TransmitSeen(t: SenderState, now: int, link: Link, chaff: bytes, ok: bool)
    requires t.Shaped()
    requires t.timers.haveMindelay ==> t.queue.current != t.queue.Back().events
    requires SendDue(t, now) ==> DiffFrom(t.queue.current, t.queue.Assumed().events) != []
    ensures var r := Transmit(t, now, link, chaff, ok);
      && (r.emission.Sent? ==> !r.state.timers.haveMindelay)
      && (!r.emission.Sent? ==>
            && r.state.timers.haveMindelay == t.timers.haveMindelay
            && r.state.timers.mindelayClock == t.timers.mindelayClock
            && r.state.queue.current == t.queue.current && r.state.queue.Back().events == t.queue.Back().events)
  {
    hide DiffFrom, AddSent, MakeInstruction;
  }

  lemma TickSeen(sys: System, now: int, link: Link, chaff: bytes, ok: bool)
    requires Inv(sys) && SeenSince(sys) && sys.clock <= now && ValidLink(link)
    ensures SeenSince(Record(sys, now, Tick(sys.sender, now, link, chaff, ok, false)))
  {
    hide SI.QueueInv, CalculateTimers, Transmit, Recorded, HistoryOk, NetOk, HeldOk, FrontHeld, Forward, DiffFrom;
    InvSender(sys, now);
    var t := CalculateTimers(sys.sender, now, link, false);
    CalculateSeen(sys.sender, now, link);
    ST.DueMeansDiff(sys.sender, now, link, false);
    if AckDue(t, now) || SendDue(t, now) {
      TransmitSeen(t, now, link, chaff, ok);
    }
  }

  lemma NextSeen(sys: System, step: Step)
    requires Inv(sys) && SeenSince(sys) && Enabled(sys, step) && SI.Unexhausted(sys.sender)
    ensures SeenSince(Next(sys, step, false))
  {
    hide Tick, CalculateTimers, ProcessAck, Receive, Record, SI.Chain, SI.Times, SI.Numbers, PerByte,
      Recorded, HistoryOk, NetOk, HeldOk, FrontHeld, Forward;
    match step
    case TickAt(now, link, chaff, ok) => TickSeen(sys, now, link, chaff, ok);
    case WaitAt(now, link) => CalculateSeen(sys.sender, now, link);
    case Hear(ack, data, newest) => SI.ProcessAckInv(sys.sender.queue, ack, sys.clock);
    case PushKeys(keys) => BackIsPrefix(sys.sender.queue, sys.clock);
    case PushResize(w, h) => BackIsPrefix(sys.sender.queue, sys.clock);
    case _ =>
  }

  lemma BackIsPrefix(q: Queue, clock: int)
    requires SI.QueueInv(q, clock)
    ensures q.Back().events <= q.current
  {
    assert q.sent[|q.sent| - 1].events <= q.current;
  }

  lemma {:induction false} RunSeen(sys: System, steps: seq<Step>, used: nat)
    requires Inv(sys) && Legal(sys, steps, false) && SeenSince(sys)
    requires !sys.sender.shutdown ==> sys.sender.queue.Back().num <= used
    requires used + |steps| < SHUTDOWN_NUM
    ensures SeenSince(Run(sys, steps, false))
    decreases |steps|
  {
    hide Inv, Next, SeenSince;
    InvSender(sys, sys.clock);
    if steps != [] {
      NextKeepsInv(sys, steps[0]);
      NextNumbers(sys, steps[0]);
      NextSeen(sys, steps[0]);
      RunSeen(Next(sys, steps[0], false), steps[1..], used + 1);
    }
  }

  lemma MirrorSeen(sys: System, whole: System, k: nat)
    requires Mirrors(sys, whole, k) && whole.Shaped() && SeenSince(whole)
    ensures sys.Shaped() && SeenSince(sys)
  {
    hide SI.Inv, Recorded, HistoryOk, NetOk, HeldOk, FrontHeld, Paced, Forward, Cuttable;
    CuttableShaped(whole.sender.queue, k);
    CutCompares(whole.sender.queue, k);
  }

  /** In every reachable state the 8 ms run from input not yet sent, first seen after the last transmission. */
  lemma DelayStartsAtUnsentInput(t0: int, steps: seq<Step>)
    requires Reachable(t0, steps)
    ensures SeenSince(Run(Start(t0), steps, true))
  {
    hide Run, Legal, Mirrors, SeenSince;
    var whole, k := ReachableMirrors(t0, steps);
    TrimmingUnobservable(t0, steps);
    StartInv(t0);
    StartSeen(t0);
    RunSeen(Start(t0), steps, 0);
    MirrorShaped(whole, k, Run(Start(t0), steps, true));
    MirrorSeen(Run(Start(t0), steps, true), whole, k);
  }

  lemma StartSeen(t0: int)
    ensures SeenSince(Start(t0))
  {
  }

  lemma MirrorShaped(whole: System, k: nat, sys: System)
    requires Mirrors(sys, whole, k)
    ensures whole.Shaped()
  {
  }

  // ---------------------------------------------------------------- data is acknowledged promptly

  /** After the server's data is heard the client sleeps at most 100 ms, or 250 ms once a side shuts down. */
  lemma DataAckedPromptly(t0: int, steps: seq<Step>, ack: uint64, newest: Option<uint64>, now: int, link: Link)
    requires Reachable(t0, steps + [Hear(ack, true, newest)]) && ValidLink(link)
    requires Run(Start(t0), steps + [Hear(ack, true, newest)], true).clock <= now
    ensures var s := Run(Start(t0), steps + [Hear(ack, true, newest)], true).sender;
      WaitTime(s, now, link, true) <= if ShuttingDown(s) then 250 * MS else 100 * MS
  {
    hide Run, Reachable, WaitTime, ValidLink;
    var hear := Hear(ack, true, newest);
    NeverSilentForLong(t0, steps + [hear], now, link);
    RunSplits(Start(t0), steps, [hear], true);
    HeardOwes(Run(Start(t0), steps, true), ack, newest);
  }

  lemma HeardOwes(sys: System, ack: uint64, newest: Option<uint64>)
    requires sys.Shaped()
    ensures Run(sys, [Hear(ack, true, newest)], true).sender.pendingDataAck
  {
    RunOne(sys, Hear(ack, true, newest));
    HearOwes(sys, ack, newest);
  }

  lemma RunOne(sys: System, a: Step)
    requires sys.Shaped()
    ensures Run(sys, [a], true) == Next(sys, a, true)
  {
    hide Next;
    assert [a][1..] == [];
    assert Run(sys, [a], true) == Run(Next(sys, a, true), [], true);
  }

  lemma HearOwes(sys: System, ack: uint64, newest: Option<uint64>)
    requires sys.Shaped()
    ensures Next(sys, Hear(ack, true, newest), true).sender.pendingDataAck
  {
    hide ProcessAck;
  }

  // ---------------------------------------------------------------- a quiet client

  /** Nothing heard that owes an ack, and no shutdown on either side. */
  predicate QuietStep(step: Step) {
    match step
    case Hear(_, data, newest) => !data && newest != Some(SHUTDOWN_NUM)
    case Quit => false
    case _ => true
  }

  predicate Quiet(steps: seq<Step>) {
    forall i :: 0 <= i < |steps| ==> QuietStep(steps[i])
  }

  predicate EmptyAck(e: Emission) {
    e.Sent? && e.inst.diff == []
  }

  /** When the run sends empty acks. */
  function EmptyAcks(sys: System, steps: seq<Step>, trim: bool): seq<int>
    requires sys.Shaped()
    decreases |steps|
  {
    if steps == [] then []
    else
      var a := steps[0];
      (if a.TickAt? && EmptyAck(Tick(sys.sender, a.now, a.link, a.chaff, a.ok, trim).emission) then [a.now] else [])
      + EmptyAcks(Next(sys, a, trim), steps[1..], trim)
  }

  /** Each at least three seconds after the one before, the first not before `floor`. */
  predicate SpacedFrom(floor: int, times: seq<int>)
    decreases |times|
  {
    times == [] || (times[0] >= floor && SpacedFrom(times[0] + 3000 * MS, times[1..]))
  }

  predicate AckSpaced(times: seq<int>) {
    times == [] || SpacedFrom(times[0] + 3000 * MS, times[1..])
  }

  lemma SpacedLater(floor: int, later: int, times: seq<int>)
    requires SpacedFrom(later, times) && floor <= later
    ensures SpacedFrom(floor, times) && AckSpaced(times)
  {
  }

  /** No ack is owed for data and the next is due no earlier than `floor`. */
  ghost predicate Rested(sys: System, floor: int) {
    && !sys.sender.pendingDataAck && !ShuttingDown(sys.sender)
    && floor <= sys.sender.timers.nextAckTime && floor <= sys.clock + 3000 * MS
  }

  lemma RestedCalculates(s: SenderState, now: int, link: Link)
    requires s.Shaped() && !ShuttingDown(s)
    ensures var t := CalculateTimers(s, now, link, false);
      && t.pendingDataAck == s.pendingDataAck && !ShuttingDown(t)
      && (!s.pendingDataAck ==> t.timers.nextAckTime == s.timers.nextAckTime)
  {
    hide Refresh, ScheduleSend;
  }

  lemma QuietTransmit(t: SenderState, now: int, link: Link, chaff: bytes, ok: bool)
    requires t.Shaped() && !ShuttingDown(t) && ValidLink(link)
    ensures var r := Transmit(t, now, link, chaff, ok);
      && !ShuttingDown(r.state)
      && (r.emission.Sent? ==> !r.state.pendingDataAck && r.state.timers.nextAckTime == now + 3000 * MS)
      && (EmptyAck(r.emission) ==> AckDue(t, now))
      && (!r.emission.Sent? ==>
            && r.state.pendingDataAck == t.pendingDataAck
            && (r.state.timers.nextAckTime == t.timers.nextAckTime
                  || (AckDue(t, now) && r.state.timers.nextAckTime >= now)))
  {
    hide DiffFrom, AddSent, Touch;
    TransmitDiff(t, now, link, chaff, ok);
  }

  lemma TransmitDiff(t: SenderState, now: int, link: Link, chaff: bytes, ok: bool)
    requires t.Shaped()
    ensures var e := Transmit(t, now, link, chaff, ok).emission;
      !e.Silent? && e.inst.diff == [] ==> AckDue(t, now)
  {
    hide DiffFrom, AddSent, Touch;
  }

  lemma TickQuiet(sys: System, now: int, link: Link, chaff: bytes, ok: bool, floor: int)
    requires sys.Shaped() && !ShuttingDown(sys.sender) && sys.clock <= now && ValidLink(link)
    ensures var e, r := Tick(sys.sender, now, link, chaff, ok, false).emission,
                        Next(sys, TickAt(now, link, chaff, ok), false);
      && !ShuttingDown(r.sender)
      && (e.Sent? ==> Rested(r, now + 3000 * MS))
      && (Rested(sys, floor) && EmptyAck(e) ==> floor <= now)
      && (Rested(sys, floor) && !e.Sent? ==> Rested(r, floor))
      && r.clock == now
  {
    hide CalculateTimers, Transmit, EmptyAck;
    RestedCalculates(sys.sender, now, link);
    var t := CalculateTimers(sys.sender, now, link, false);
    if AckDue(t, now) || SendDue(t, now) {
      QuietTransmit(t, now, link, chaff, ok);
    } else {
      NotEmptyAck(Silent);
    }
  }

  lemma OtherQuiet(sys: System, step: Step, floor: int)
    requires sys.Shaped() && !ShuttingDown(sys.sender) && QuietStep(step) && !step.TickAt? && Enabled(sys, step)
    ensures var r := Next(sys, step, false); !ShuttingDown(r.sender) && (Rested(sys, floor) ==> Rested(r, floor))
  {
    hide CalculateTimers, ProcessAck, Receive;
    if step.WaitAt? {
      RestedCalculates(sys.sender, step.now, step.link);
    }
  }

  lemma {:induction false} RunRested(sys: System, steps: seq<Step>, floor: int)
    requires sys.Shaped() && Legal(sys, steps, false) && Quiet(steps) && Rested(sys, floor)
    ensures SpacedFrom(floor, EmptyAcks(sys, steps, false))
    decreases |steps|
  {
    hide Next, Tick, Rested, EmptyAck, QuietStep, ValidLink, Inv;
    if steps != [] {
      var a, next := steps[0], Next(sys, steps[0], false);
      assert !ShuttingDown(sys.sender) && floor <= sys.clock + 3000 * MS by { RestedMeans(sys, floor); }
      if a.TickAt? && Tick(sys.sender, a.now, a.link, a.chaff, a.ok, false).emission.Sent? {
        TickQuiet(sys, a.now, a.link, a.chaff, a.ok, floor);
        RunRested(next, steps[1..], a.now + 3000 * MS);
        var later := EmptyAcks(next, steps[1..], false);
        SpacedLater(floor, a.now + 3000 * MS, later);
        assert [a.now] + later == EmptyAcks(sys, steps, false) || later == EmptyAcks(sys, steps, false);
        assert ([a.now] + later)[1..] == later;
      } else {
        if a.TickAt? {
          TickQuiet(sys, a.now, a.link, a.chaff, a.ok, floor);
          NotEmptyAck(Tick(sys.sender, a.now, a.link, a.chaff, a.ok, false).emission);
        } else {
          OtherQuiet(sys, a, floor);
        }
        RunRested(next, steps[1..], floor);
        assert EmptyAcks(sys, steps, false) == EmptyAcks(next, steps[1..], false);
      }
    }
  }

  lemma RestedMeans(sys: System, floor: int)
    requires Rested(sys, floor)
    ensures !ShuttingDown(sys.sender) && floor <= sys.clock + 3000 * MS
  {
  }

  lemma NotEmptyAck(e: Emission)
    requires !e.Sent?
    ensures !EmptyAck(e)
  {
  }

  lemma {:induction false} RunQuiet(sys: System, steps: seq<Step>)
    requires sys.Shaped() && Legal(sys, steps, false) && Quiet(steps) && !ShuttingDown(sys.sender)
    ensures AckSpaced(EmptyAcks(sys, steps, false))
    decreases |steps|
  {
    hide Next, Tick, Rested, EmptyAck, QuietStep, ValidLink;
    if steps != [] {
      var a, next := steps[0], Next(sys, steps[0], false);
      if a.TickAt? && Tick(sys.sender, a.now, a.link, a.chaff, a.ok, false).emission.Sent? {
        TickQuiet(sys, a.now, a.link, a.chaff, a.ok, 0);
        RunRested(next, steps[1..], a.now + 3000 * MS);
        var later := EmptyAcks(next, steps[1..], false);
        SpacedLater(a.now, a.now + 3000 * MS, later);
        assert [a.now] + later == EmptyAcks(sys, steps, false) || later == EmptyAcks(sys, steps, false);
        assert ([a.now] + later)[1..] == later;
      } else {
        if a.TickAt? {
          TickQuiet(sys, a.now, a.link, a.chaff, a.ok, 0);
          NotEmptyAck(Tick(sys.sender, a.now, a.link, a.chaff, a.ok, false).emission);
        } else {
          OtherQuiet(sys, a, 0);
        }
        RunQuiet(next, steps[1..]);
        assert EmptyAcks(sys, steps, false) == EmptyAcks(next, steps[1..], false);
      }
    }
  }

  lemma SameEmission(sys: System, whole: System, k: nat, a: Step)
    requires Mirrors(sys, whole, k) && a.TickAt?
    ensures sys.Shaped() && whole.Shaped()
    ensures Tick(sys.sender, a.now, a.link, a.chaff, a.ok, true).emission
         == Tick(whole.sender, a.now, a.link, a.chaff, a.ok, false).emission
  {
    hide Tick, Recorded, HistoryOk, NetOk, HeldOk, FrontHeld, Paced, Forward, SI.Inv, Cuttable;
    CuttableShaped(whole.sender.queue, k);
    TickSimulates(whole.sender, k, a.now, a.link, a.chaff, a.ok);
  }

  lemma MirrorsShaped(sys: System, whole: System, k: nat)
    requires Mirrors(sys, whole, k)
    ensures sys.Shaped() && whole.Shaped() && Inv(whole)
  {
  }

  lemma {:induction false} MirrorAcks(sys: System, whole: System, k: nat, steps: seq<Step>, used: nat)
    requires Mirrors(sys, whole, k) && sys.Shaped() && whole.Shaped()
    requires !whole.sender.shutdown ==> whole.sender.queue.Back().num <= used
    requires used + |steps| < SHUTDOWN_NUM
    requires Legal(sys, steps, true)
    ensures Legal(whole, steps, false) && EmptyAcks(sys, steps, true) == EmptyAcks(whole, steps, false)
    decreases |steps|
  {
    hide Mirrors, Next, Enabled, Tick, EmptyAck, Inv;
    if steps != [] {
      var a := steps[0];
      MirrorsShaped(sys, whole, k);
      var m := MirrorNext(sys, whole, k, a);
      NextNumbers(whole, a);
      if a.TickAt? {
        SameEmission(sys, whole, k, a);
      }
      MirrorsShaped(Next(sys, a, true), Next(whole, a, false), m);
      MirrorAcks(Next(sys, a, true), Next(whole, a, false), m, steps[1..], used + 1);
    }
  }

  lemma MirrorQuiet(sys: System, whole: System, k: nat)
    requires Mirrors(sys, whole, k)
    ensures sys.Shaped() && whole.Shaped() && ShuttingDown(sys.sender) == ShuttingDown(whole.sender)
  {
    hide SI.Inv, Recorded, HistoryOk, NetOk, HeldOk, FrontHeld, Paced, Forward;
  }

  /**
   * From every reachable state, while no server data is heard and neither side shuts down, successive empty
   * acks are at least three seconds apart, whatever input, deliveries, acknowledgments and failed sends there are.
   */
  lemma QuietAcksSpaced(t0: int, steps: seq<Step>, more: seq<Step>)
    requires Reachable(t0, steps + more) && Quiet(more)
    requires !ShuttingDown(Run(Start(t0), steps, true).sender)
    ensures AckSpaced(EmptyAcks(Run(Start(t0), steps, true), more, true))
  {
    hide Run, Legal, Mirrors, EmptyAcks, AckSpaced, Quiet;
    RunSplits(Start(t0), steps, more, true);
    var whole, k := ReachableMirrors(t0, steps);
    var sys := Run(Start(t0), steps, true);
    MirrorQuiet(sys, whole, k);
    MirrorAcks(sys, whole, k, more, |steps|);
    RunQuiet(whole, more);
  }

  lemma {:induction false} SpacedSpan(floor: int, times: seq<int>)
    requires SpacedFrom(floor, times) && times != []
    ensures times[|times| - 1] >= floor + (|times| - 1) * 3000 * MS
    decreases |times|
  {
    if |times| > 1 {
      SpacedSpan(times[0] + 3000 * MS, times[1..]);
    }
  }

  /** So a quiet stretch of `length` nanoseconds holds at most length / 3 s + 1 of them. */
  lemma QuietAckRate(t0: int, steps: seq<Step>, more: seq<Step>, length: nat)
    requires Reachable(t0, steps + more) && Quiet(more)
    requires !ShuttingDown(Run(Start(t0), steps, true).sender)
    requires var times := EmptyAcks(Run(Start(t0), steps, true), more, true);
      times != [] ==> times[|times| - 1] - times[0] <= length
    ensures |EmptyAcks(Run(Start(t0), steps, true), more, true)| <= length / (3000 * MS) + 1
  {
    hide Run, Reachable, EmptyAcks, Quiet, ShuttingDown;
    QuietAcksSpaced(t0, steps, more);
    var times := EmptyAcks(Run(Start(t0), steps, true), more, true);
    if |times| > 1 {
      SpacedSpan(times[0] + 3000 * MS, times[1..]);
    }
  }
}
