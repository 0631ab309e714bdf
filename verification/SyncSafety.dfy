/**
 * Safety of whole runs: for every sequence of input, ticks, deliveries and acknowledgments, the peer
 * mirrors the client.
 */
module SyncSafety {
  import opened Basics
  import opened Wire
  import opened UserStreams
  import opened SenderModel
  import SI = SenderInvariant
  import opened SenderTrim
  import opened SyncSystem
  import opened SyncInvariant

  function CutSystem(sys: System, k: nat): (r: System)
    ensures sys.Shaped() ==> r.Shaped()
  {
    sys.(sender := CutState(sys.sender, k))
  }

  /** `sys` is the untrimmed system `whole` with the first `k`, acknowledged, events cut away. */
  ghost predicate Mirrors(sys: System, whole: System, k: nat) {
    Inv(whole) && Cuttable(whole.sender.queue, k) && sys == CutSystem(whole, k)
  }

  // ---------------------------------------------------------------- trimming makes no difference

  lemma MirrorPush(whole: System, k: nat, events: seq<UserEvent>)
    requires Mirrors(CutSystem(whole, k), whole, k)
    ensures PushEvents(CutSystem(whole, k), events) == CutSystem(PushEvents(whole, events), k)
    ensures Cuttable(PushEvents(whole, events).sender.queue, k)
  {
    PushSimulates(whole.sender.queue, k, events);
  }

  lemma MirrorTick(whole: System, k: nat, now: int, link: Link, chaff: bytes, ok: bool)
    requires Cuttable(whole.sender.queue, k)
    ensures var n := |whole.sender.queue.Front().events|;
      Record(CutSystem(whole, k), now, Tick(CutState(whole.sender, k), now, link, chaff, ok, true))
        == CutSystem(Record(whole, now, Tick(whole.sender, now, link, chaff, ok, false)), n)
  {
    hide Cuttable, Tick, Cut;
    CuttableShaped(whole.sender.queue, k);
    TickSimulates(whole.sender, k, now, link, chaff, ok);
  }

  lemma CuttableShaped(q: Queue, k: nat)
    requires Cuttable(q, k)
    ensures q.Shaped()
  {
  }

  /** A tick leaves the front's stream alone, so as much of it can be cut afterwards. */
  lemma TickCuttable(whole: System, now: int, link: Link, chaff: bytes, ok: bool)
    requires Inv(whole) && whole.clock <= now && SI.Unexhausted(whole.sender)
    ensures Cuttable(Tick(whole.sender, now, link, chaff, ok, false).state.queue, |whole.sender.queue.Front().events|)
  {
    hide SI.Times, SI.Numbers, SI.Chain, PerByte, Tick, CalculateTimers, SI.Refers, SI.Retains,
      Recorded, HistoryOk, NetOk, HeldOk, FrontHeld, Paced, Forward;
    InvSender(whole, now);
    SI.TickLeaves(whole.sender, now, link, chaff, ok, false);
    TimersShape(whole.sender, now, link);
    var t, r := CalculateTimers(whole.sender, now, link, false), Tick(whole.sender, now, link, chaff, ok, false);
    if !r.emission.Sent? {
      assert r.state.queue.sent[0].events == t.queue.sent[0].events;
    }
  }

  lemma MirrorHear(whole: System, k: nat, ack: uint64, data: bool, newest: Option<uint64>)
    requires Inv(whole) && Cuttable(whole.sender.queue, k)
    ensures HearPeer(CutSystem(whole, k), ack, data, newest) == CutSystem(HearPeer(whole, ack, data, newest), k)
    ensures Cuttable(HearPeer(whole, ack, data, newest).sender.queue, k)
  {
    hide Recorded, HistoryOk, NetOk, HeldOk, FrontHeld, Paced, Forward, Cuttable, CutEntries, Drop, ProcessAck;
    InvSender(whole, whole.clock);
    AckCuttable(whole.sender.queue, k, ack, whole.clock);
    AckSimulates(whole.sender.queue, k, ack);
  }

  lemma AckCuttable(q: Queue, k: nat, ack: uint64, clock: int)
    requires SI.QueueInv(q, clock) && Cuttable(q, k)
    ensures Cuttable(ProcessAck(q, ack), k)
  {
    SI.ProcessAckInv(q, ack, clock);
    SI.FrontIsPrefix(q);
    var i := FindNum(q.sent, ack);
    if i < |q.sent| {
      assert ProcessAck(q, ack).Front() == q.sent[i];
    }
  }

  /** Every step of the trimming system is the same step of the untrimmed one, cut. */
  lemma MirrorNext(sys: System, whole: System, k: nat, step: Step) returns (n: nat)
    requires Mirrors(sys, whole, k) && SI.Unexhausted(whole.sender)
    requires Enabled(sys, step) || Enabled(whole, step)
    ensures Enabled(sys, step) && Enabled(whole, step)
    ensures Mirrors(Next(sys, step, true), Next(whole, step, false), n)
  {
    hide Inv, Cuttable, PushEvents, Record, HearPeer, Receive, Cut;
    n := k;
    InvSender(whole, whole.clock);
    NextKeepsInv(whole, step);
    match step
    case PushKeys(keys) => MirrorPush(whole, k, KeyEvents(keys));
    case PushResize(w, h) => MirrorPush(whole, k, [Resize(w, h)]);
    case TickAt(now, link, chaff, ok) =>
      n := |whole.sender.queue.Front().events|;
      MirrorTick(whole, k, now, link, chaff, ok);
      TickCuttable(whole, now, link, chaff, ok);
      RecordSender(whole, now, Tick(whole.sender, now, link, chaff, ok, false));
    case WaitAt(now, link) =>
      n := |whole.sender.queue.Front().events|;
      CutCalculate(whole.sender, k, now, link);
    case Deliver(inst) =>
    case PeerAcks(num) =>
    case Hear(ack, data, newest) => MirrorHear(whole, k, ack, data, newest);
    case Quit =>
  }

  lemma RecordSender(sys: System, now: int, r: Outcome)
    ensures Record(sys, now, r).sender == r.state
  {
  }

  /** The run of the untrimmed system beside a run of the program, and how much the program has cut. */
  lemma {:induction false} MirrorRun(sys: System, whole: System, k: nat, steps: seq<Step>, used: nat)
    returns (end: System, n: nat)
    requires Mirrors(sys, whole, k)
    requires !whole.sender.shutdown ==> whole.sender.queue.Back().num <= used
    requires used + |steps| < SHUTDOWN_NUM
    requires Legal(sys, steps, true) || Legal(whole, steps, false)
    ensures Legal(sys, steps, true) && Legal(whole, steps, false) && end == Run(whole, steps, false)
    ensures Mirrors(Run(sys, steps, true), end, n)
    ensures !end.sender.shutdown ==> end.sender.queue.Back().num <= used + |steps|
    decreases |steps|
  {
    hide Inv, Cuttable, Next, Cut;
    InvSender(whole, whole.clock);
    if steps == [] {
      end, n := whole, k;
    } else {
      var m := MirrorNext(sys, whole, k, steps[0]);
      NextNumbers(whole, steps[0]);
      end, n := MirrorRun(Next(sys, steps[0], true), Next(whole, steps[0], false), m, steps[1..], used + 1);
    }
  }

  lemma MirrorStart(t0: int)
    ensures Mirrors(Start(t0), Start(t0), 0)
  {
    StartInv(t0);
    assert CutEntries(Start(t0).sender.queue.sent, 0) == Start(t0).sender.queue.sent;
  }

  /** Every state a run of fewer than 2^64 - 1 steps can reach. */
  ghost predicate Reachable(t0: int, steps: seq<Step>) {
    |steps| < SHUTDOWN_NUM && Legal(Start(t0), steps, true)
  }

  lemma ReachableMirrors(t0: int, steps: seq<Step>) returns (whole: System, k: nat)
    requires Reachable(t0, steps)
    ensures Mirrors(Run(Start(t0), steps, true), whole, k) && whole == Run(Start(t0), steps, false)
    ensures !whole.sender.shutdown ==> whole.sender.queue.Back().num <= |steps|
  {
    hide Mirrors;
    MirrorStart(t0);
    whole, k := MirrorRun(Start(t0), Start(t0), 0, steps, 0);
  }

  // ---------------------------------------------------------------- theorems

  /**
   * A sender that never trims takes the same run to the same end, but for the acknowledged prefix of
   * its streams: same instructions, same peer, same timers.
   */
  lemma TrimmingUnobservable(t0: int, steps: seq<Step>)
    requires Reachable(t0, steps)
    ensures Legal(Start(t0), steps, false)
    ensures var trimmed, whole := Run(Start(t0), steps, true), Run(Start(t0), steps, false);
      && trimmed.net == whole.net && trimmed.held == whole.held && trimmed.txTimes == whole.txTimes
      && trimmed.sender.timers == whole.sender.timers
      && (exists k: nat :: trimmed.sender == CutState(whole.sender, k) && k <= |whole.sender.queue.Front().events|)
  {
    MirrorStart(t0);
    var whole, k := MirrorRun(Start(t0), Start(t0), 0, steps, 0);
  }

  /**
   * The peer never sees input lost, repeated or reordered: each number it holds stands for exactly what
   * the client had when it sent that number, and everything it holds is a prefix of the input.
   */
  lemma PeerMirrorsClient(t0: int, steps: seq<Step>)
    requires Reachable(t0, steps)
    ensures var sys := Run(Start(t0), steps, true);
      forall n :: n in sys.held ==>
        && sys.held[n] <= sys.pushed
        && (n < SHUTDOWN_NUM ==> n in sys.history && sys.held[n] == sys.history[n])
  {
    hide SI.Inv, Recorded, HistoryOk, NetOk, FrontHeld, Paced, Forward, Cuttable;
    var whole, k := ReachableMirrors(t0, steps);
  }

  /**
   * The acknowledged front is never thrown away by the peer, and every instruction on the network
   * refers to a number no older than the one it throws away.
   */
  lemma FrontNeverLost(t0: int, steps: seq<Step>)
    requires Reachable(t0, steps)
    ensures var sys := Run(Start(t0), steps, true);
      && sys.sender.queue.Front().num in sys.held
      && forall m :: m in sys.net ==> m.throwawayNum <= m.oldNum && m.throwawayNum <= sys.sender.queue.Front().num
  {
    hide SI.Inv, Recorded, HistoryOk, HeldOk, Paced, Forward, Cuttable, Run;
    var whole, k := ReachableMirrors(t0, steps);
    InvSender(whole, whole.clock);
  }

  /** What a reachable queue looks like: bounded, sorted, and cut from the streams its numbers stand for. */
  ghost predicate QueueShape(sys: System, k: nat)
    requires sys.Shaped()
  {
    var q := sys.sender.queue;
    && SI.QueueInv(q, sys.clock)
    && k <= |sys.pushed| && q.current == sys.pushed[k..]
    && (!sys.sender.shutdown ==> q.Back().num < SHUTDOWN_NUM)
    && forall i :: 0 <= i < |q.sent| && q.sent[i].num < SHUTDOWN_NUM ==>
         && q.sent[i].num in sys.history && k <= |sys.history[q.sent[i].num]|
         && q.sent[i].events == sys.history[q.sent[i].num][k..]
  }

  lemma CutChain(q: Queue, k: nat)
    requires Cuttable(q, k)
    ensures SI.Chain(Cut(q, k))
  {
    var r := Cut(q, k);
    forall i, j | 0 <= i < j < |r.sent|
      ensures r.sent[i].events <= r.sent[j].events
    {
      CutPrefix(q, k, i, j);
    }
    forall i | 0 <= i < |r.sent|
      ensures r.sent[i].events <= r.current
    {
      CutShape(q, k, i);
      assert q.sent[i].events <= q.current;
    }
  }

  lemma CutPrefix(q: Queue, k: nat, i: nat, j: nat)
    requires Cuttable(q, k) && i < j < |q.sent|
    ensures Cut(q, k).sent[i].events <= Cut(q, k).sent[j].events
  {
    assert q.sent[i].events <= q.sent[j].events;
    hide SI.Chain, Drop;
    CutShape(q, k, i);
    CutShape(q, k, j);
  }

  lemma CutQueueInv(q: Queue, k: nat, clock: int)
    requires SI.QueueInv(q, clock) && Cuttable(q, k)
    ensures SI.QueueInv(Cut(q, k), clock)
  {
    hide SI.Chain, Drop;
    CutChain(q, k);
    CutShape(q, k, 0);
  }

  lemma CutRecorded(q: Queue, k: nat, history: Streams, i: nat)
    requires Cuttable(q, k) && Recorded(q.sent, history) && i < |q.sent| && q.sent[i].num < SHUTDOWN_NUM
    ensures var n := Cut(q, k).sent[i].num;
      n in history && k <= |history[n]| && Cut(q, k).sent[i].events == history[n][k..]
  {
    CutShape(q, k, i);
  }

  /**
   * In every reachable state the queue holds at most 32 states whose streams form a prefix chain ending
   * in the current input, with sorted send times and increasing numbers, each the stream its number
   * stands for less the same acknowledged prefix.
   */
  lemma QueueAlwaysShaped(t0: int, steps: seq<Step>) returns (k: nat)
    requires Reachable(t0, steps)
    ensures QueueShape(Run(Start(t0), steps, true), k)
  {
    hide Run, SI.Chain, SI.Times, SI.Numbers, PerByte, Recorded, HistoryOk, NetOk, HeldOk, FrontHeld, Paced, Forward,
      Cuttable;
    var whole;
    whole, k := ReachableMirrors(t0, steps);
    InvSender(whole, whole.clock);
    var q := whole.sender.queue;
    CutQueueInv(q, k, whole.clock);
    CuttableShape(q, k);
    forall i | 0 <= i < |q.sent| && q.sent[i].num < SHUTDOWN_NUM
      ensures var n := Cut(q, k).sent[i].num;
        n in whole.history && k <= |whole.history[n]| && Cut(q, k).sent[i].events == whole.history[n][k..]
    {
      CutRecorded(q, k, whole.history, i);
    }
  }

  lemma CuttableShape(q: Queue, k: nat)
    requires Cuttable(q, k)
    ensures k <= |q.current| && Cut(q, k).current == q.current[k..]
  {
    CutShape(q, k, 0);
  }

  /** Successive transmissions are at least 20 ms apart, and reported round trips never go back. */
  lemma TransmissionsSpaced(t0: int, steps: seq<Step>)
    requires Reachable(t0, steps)
    ensures var sys := Run(Start(t0), steps, true);
      && (forall i :: 0 < i < |sys.txTimes| ==> sys.txTimes[i] - sys.txTimes[i - 1] >= 20 * MS)
      && (forall i :: 0 < i < |sys.roundtrips| ==> sys.roundtrips[i - 1] <= sys.roundtrips[i])
  {
    hide SI.Inv, Recorded, HistoryOk, NetOk, HeldOk, FrontHeld, Cuttable;
    var whole, k := ReachableMirrors(t0, steps);
  }

  lemma {:induction false} SpacedApart(times: seq<int>, i: nat, j: nat)
    requires Spaced(times) && i <= j < |times|
    ensures times[j] - times[i] >= (j - i) * SEND_INTERVAL_MIN
    decreases j
  {
    if i < j {
      SpacedApart(times, i, j - 1);
    }
  }

  /** Any stretch of `length` nanoseconds holds at most length / 20 ms + 1 transmissions. */
  lemma TransmissionRate(t0: int, steps: seq<Step>, i: nat, j: nat, length: nat)
    requires Reachable(t0, steps)
    requires i <= j < |Run(Start(t0), steps, true).txTimes|
    requires Run(Start(t0), steps, true).txTimes[j] - Run(Start(t0), steps, true).txTimes[i] <= length
    ensures j - i + 1 <= length / (20 * MS) + 1
  {
    hide Run, Reachable;
    TransmissionsSpaced(t0, steps);
    SpacedApart(Run(Start(t0), steps, true).txTimes, i, j);
  }
}
