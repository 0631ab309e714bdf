/** From every reachable state the two ends can be brought into step within 1.1 seconds. */
module SyncRecovery {
  import opened Basics
  import opened Wire
  import opened UserStreams
  import opened SenderModel
  import SI = SenderInvariant
  import ST = SenderTimers
  import opened SenderTrim
  import opened SyncSystem
  import opened SyncInvariant
  import opened SyncSafety

  const RECOVERY := 1100 * MS

  /** Input the peer has not acknowledged, before any shutdown. */
  ghost predicate Behind(sys: System) {
    Inv(sys) && !sys.sender.shutdown && sys.sender.queue.current != sys.sender.queue.Front().events
  }

  /** Once the wait has been computed at the present, a send is due 1.1 s later, diffed from the front. */
  lemma SendComesDue(s: SenderState, clock: int, link: Link)
    requires SI.Inv(s, clock) && ValidLink(link)
    requires s.queue.current != s.queue.Front().events
    ensures var w := CalculateTimers(s, clock, link, false);
      var t := CalculateTimers(w, clock + RECOVERY, link, false);
      SendDue(t, clock + RECOVERY) && t.queue.assumed == 0
  {
    hide SI.Chain, SI.Times, SI.Numbers, PerByte, ScanAssumed, ScheduleAck;
    var now, w := clock + RECOVERY, CalculateTimers(s, clock, link, false);
    SI.CalculateInv(s, clock, link, false);
    SI.ClockAdvances(w, clock, now);
    SI.BackSentBy(w.queue, clock);
    ST.StaleBack(w.queue, now, link.timeout, false);
  }

  /** What the retransmission looks like once it is on the wire. */
  ghost predicate Resent(sys: System, inst: Instruction) {
    && Inv(sys) && !sys.sender.shutdown
    && inst in sys.net
    && inst.oldNum == sys.sender.queue.Front().num
    && inst.newNum == sys.sender.queue.Back().num
    && sys.sender.queue.Back().events == sys.pushed
    && inst.newNum in sys.history && sys.history[inst.newNum] == sys.pushed
  }

  function Waited(sys: System, link: Link): (r: System)
    requires sys.Shaped()
    ensures r.Shaped()
  {
    Next(sys, WaitAt(sys.clock, link), false)
  }

  lemma ResendFromFront(s: SenderState, now: int, link: Link, chaff: bytes)
    requires SI.Inv(s, now) && SI.Unexhausted(s) && !s.shutdown
    requires var t := CalculateTimers(s, now, link, false); SendDue(t, now) && t.queue.assumed == 0
    ensures var r := Tick(s, now, link, chaff, true, false);
      && r.emission.Sent? && !r.state.shutdown
      && r.emission.inst.oldNum == r.state.queue.Front().num
      && r.emission.inst.newNum == r.state.queue.Back().num < SHUTDOWN_NUM
      && r.state.queue.Back().events == s.queue.current == r.state.queue.current
  {
    hide SI.Chain, SI.Times, SI.Numbers, PerByte, CalculateTimers, Transmit, SI.Retains, DiffFrom;
    var t := CalculateTimers(s, now, link, false);
    SI.TickLeaves(s, now, link, chaff, true, false);
    TimersShape(s, now, link);
    ST.DueMeansDiff(s, now, link, false);
    ST.TransmitSpeaks(t, now, link, chaff, true);
  }

  lemma RecoverTick(w: System, link: Link, chaff: bytes) returns (inst: Instruction)
    requires Behind(w) && SI.Unexhausted(w.sender) && ValidLink(link)
    ensures var v := Next(Waited(w, link), TickAt(w.clock + RECOVERY, link, chaff, true), false);
      Resent(v, inst) && v.pushed == w.pushed
  {
    hide Inv, SI.Inv, CalculateTimers, Tick;
    var step, now := WaitAt(w.clock, link), w.clock + RECOVERY;
    InvSender(w, w.clock);
    NextKeepsInv(w, step);
    var w1 := Waited(w, link);
    TimersShape(w.sender, w.clock, link);
    SendComesDue(w.sender, w.clock, link);
    InvSender(w1, now);
    ResendFromFront(w1.sender, now, link, chaff);
    NextKeepsInv(w1, TickAt(now, link, chaff, true));
    InvCurrent(w1);
    inst := Tick(w1.sender, now, link, chaff, true, false).emission.inst;
  }

  lemma InvCurrent(sys: System)
    requires Inv(sys)
    ensures sys.sender.queue.current == sys.pushed
  {
  }

  /** The retransmission can always be applied, and leaves the peer's newest state equal to the input. */
  lemma RecoverDeliver(v: System, inst: Instruction)
    requires Resent(v, inst)
    ensures var u := Next(v, Deliver(inst), false);
      && inst.newNum in u.held && u.held[inst.newNum] == u.pushed
      && Enabled(u, PeerAcks(inst.newNum))
  {
    hide SI.Chain, SI.Times, SI.Numbers, PerByte, Recorded, Paced, Forward, DiffEvents;
    DeliverKeepsInv(v, inst);
  }

  lemma AckedBack(q: Queue, clock: int)
    requires SI.QueueInv(q, clock) && q.Back().num < SHUTDOWN_NUM
    ensures ProcessAck(q, q.Back().num).Front() == q.Back()
  {
    var k, n := FindNum(q.sent, q.Back().num), |q.sent| - 1;
    if k < n {
      assert false;
    }
  }

  /** Both ends agree: the acknowledged front is the whole input, and the peer holds it under that number. */
  ghost predicate InStep(sys: System) {
    && sys.Shaped()
    && sys.sender.queue.current == sys.sender.queue.Front().events
    && sys.sender.queue.Front().num in sys.held
    && sys.held[sys.sender.queue.Front().num] == sys.pushed
  }

  lemma RecoverAck(v: System, inst: Instruction)
    requires Resent(v, inst)
    ensures var u := Next(Next(v, Deliver(inst), false), PeerAcks(inst.newNum), false);
      Enabled(u, Hear(inst.newNum, false, None)) && InStep(Next(u, Hear(inst.newNum, false, None), false))
  {
    hide SI.Chain, SI.Times, SI.Numbers, PerByte, Recorded, HistoryOk, NetOk, HeldOk, FrontHeld, Paced, Forward,
      DiffEvents, Receive, ProcessAck;
    RecoverDeliver(v, inst);
    AckedBack(v.sender.queue, v.clock);
    SI.ProcessAckInv(v.sender.queue, inst.newNum, v.clock);
  }

  /** The schedule: look at the timers, wait 1.1 s, send, have it delivered and acknowledged. */
  function Schedule(sys: System, link: Link, chaff: bytes, inst: Instruction): seq<Step> {
    Five(WaitAt(sys.clock, link), TickAt(sys.clock + RECOVERY, link, chaff, true),
         Deliver(inst), PeerAcks(inst.newNum), Hear(inst.newNum, false, None))
  }

  function Five(a: Step, b: Step, c: Step, d: Step, e: Step): seq<Step> {
    [a] + ([b] + ([c] + ([d] + ([e] + []))))
  }

  lemma RunFive(sys: System, a: Step, b: Step, c: Step, d: Step, e: Step)
    requires sys.Shaped()
    ensures var s1 := Next(sys, a, false);
      var s2 := Next(s1, b, false);
      var s3 := Next(s2, c, false);
      var s4 := Next(s3, d, false);
      && Run(sys, Five(a, b, c, d, e), false) == Next(s4, e, false)
      && (Legal(sys, Five(a, b, c, d, e), false) <==>
            Enabled(sys, a) && Enabled(s1, b) && Enabled(s2, c) && Enabled(s3, d) && Enabled(s4, e))
  {
    hide Next, Enabled, Legal, Run;
    var s1 := Next(sys, a, false);
    var s2 := Next(s1, b, false);
    var s3 := Next(s2, c, false);
    var s4 := Next(s3, d, false);
    RunCons(sys, a, [b] + ([c] + ([d] + ([e] + []))));
    RunCons(s1, b, [c] + ([d] + ([e] + [])));
    RunCons(s2, c, [d] + ([e] + []));
    RunCons(s3, d, [e] + []);
    RunCons(s4, e, []);
    RunNothing(Next(s4, e, false));
  }

  lemma RunCons(sys: System, a: Step, rest: seq<Step>)
    requires sys.Shaped()
    ensures Run(sys, [a] + rest, false) == Run(Next(sys, a, false), rest, false)
    ensures Legal(sys, [a] + rest, false) <==> Enabled(sys, a) && Legal(Next(sys, a, false), rest, false)
  {
    hide Next, Enabled;
    assert ([a] + rest)[1..] == rest;
  }

  lemma RunNothing(sys: System)
    requires sys.Shaped()
    ensures Run(sys, [], false) == sys && Legal(sys, [], false)
  {
  }

  lemma InStepCut(sys: System, whole: System, k: nat)
    requires Mirrors(sys, whole, k) && InStep(whole)
    ensures InStep(sys)
  {
  }

  lemma BehindCut(sys: System, whole: System, k: nat)
    requires Mirrors(sys, whole, k)
    requires !sys.sender.shutdown && sys.sender.queue.current != sys.sender.queue.Front().events
    ensures Behind(whole)
  {
    hide SI.Inv, Recorded, HistoryOk, NetOk, HeldOk, FrontHeld, Paced, Forward, SI.Chain;
    CutCompares(whole.sender.queue, k);
  }

  /** The schedule succeeds from any untrimmed state that is behind. */
  lemma ScheduleWorks(w: System, link: Link, chaff: bytes) returns (inst: Instruction)
    requires Behind(w) && SI.Unexhausted(w.sender) && ValidLink(link)
    ensures var more := Schedule(w, link, chaff, inst);
      && Legal(w, more, false)
      && var end := Run(w, more, false);
         InStep(end) && end.pushed == w.pushed && end.clock == w.clock + RECOVERY
  {
    hide Inv, Resent, InStep, CalculateTimers, Tick, ProcessAck, Receive;
    BehindShaped(w);
    inst := RecoverTick(w, link, chaff);
    var step, now := WaitAt(w.clock, link), w.clock + RECOVERY;
    var v := Next(Waited(w, link), TickAt(now, link, chaff, true), false);
    ResentInNet(v, inst);
    RecoverDeliver(v, inst);
    RecoverAck(v, inst);
    RunFive(w, step, TickAt(now, link, chaff, true),
            Deliver(inst), PeerAcks(inst.newNum), Hear(inst.newNum, false, None));
  }

  lemma BehindShaped(w: System)
    requires Behind(w)
    ensures w.Shaped()
  {
  }

  lemma ResentInNet(v: System, inst: Instruction)
    requires Resent(v, inst)
    ensures inst in v.net
  {
  }

  /**
   * Before shutdown, whatever has been lost, repeated or reordered, one send 1.1 s from now that is
   * delivered and acknowledged brings both ends into step on all the input so far.
   */
  lemma CanAlwaysRecover(t0: int, steps: seq<Step>, link: Link, chaff: bytes) returns (more: seq<Step>)
    requires Reachable(t0, steps) && |steps| + 5 < SHUTDOWN_NUM && ValidLink(link)
    requires var sys := Run(Start(t0), steps, true);
      !sys.sender.shutdown && sys.sender.queue.current != sys.sender.queue.Front().events
    ensures |more| == 5 && Reachable(t0, steps + more)
    ensures var sys, end := Run(Start(t0), steps, true), Run(Start(t0), steps + more, true);
      InStep(end) && end.pushed == sys.pushed && end.clock == sys.clock + RECOVERY
  {
    hide Run, Legal, Inv, InStep, Cuttable, Cut;
    var sys := Run(Start(t0), steps, true);
    var whole, k := ReachableMirrors(t0, steps);
    BehindCut(sys, whole, k);
    BehindShaped(whole);
    var inst := ScheduleWorks(whole, link, chaff);
    more := Schedule(whole, link, chaff, inst);
    var end, n := MirrorRun(sys, whole, k, more, |steps|);
    InStepCut(Run(sys, more, true), end, n);
    RunSplits(Start(t0), steps, more, true);
  }
}
