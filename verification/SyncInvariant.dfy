/** What every step of the composed system keeps while streams are left whole. */
module SyncInvariant {
  import opened Basics
  import opened Wire
  import opened UserStreams
  import opened SenderModel
  import SI = SenderInvariant
  import opened SyncSystem

  type Stream = seq<UserEvent>

  /** Every number still queued stands for the stream queued under it. */
  ghost predicate Recorded(sent: seq<Entry>, history: Streams) {
    forall i :: 0 <= i < |sent| && sent[i].num < SHUTDOWN_NUM ==>
      sent[i].num in history && history[sent[i].num] == sent[i].events
  }

  /** Numbers stand for prefixes of the input, and none is newer than `newest`. */
  ghost predicate HistoryOk(history: Streams, pushed: Stream, newest: uint64) {
    forall n :: n in history ==> n < SHUTDOWN_NUM && history[n] <= pushed && n <= newest
  }

  /** An instruction turns the stream its old number stands for into the one its new number does. */
  ghost predicate Faithful(history: Streams, pushed: Stream, inst: Instruction) {
    && inst.throwawayNum <= inst.oldNum
    && (inst.oldNum == SHUTDOWN_NUM ==> inst.newNum == SHUTDOWN_NUM)
    && (inst.newNum < SHUTDOWN_NUM ==> inst.newNum in history)
    && (inst.oldNum < SHUTDOWN_NUM ==>
          && inst.oldNum in history
          && DiffEvents(inst.diff).Some?
          && var target := history[inst.oldNum] + DiffEvents(inst.diff).value;
             target <= pushed && (inst.newNum < SHUTDOWN_NUM ==> target == history[inst.newNum]))
  }

  ghost predicate NetOk(net: set<Instruction>, history: Streams, pushed: Stream, front: uint64, newest: uint64) {
    forall m :: m in net ==> Faithful(history, pushed, m) && m.throwawayNum <= front && m.newNum <= newest
  }

  /** The peer's streams are what their numbers stand for, and all are prefixes of the input. */
  ghost predicate HeldOk(held: Streams, history: Streams, pushed: Stream, newest: uint64) {
    forall n :: n in held ==>
      n <= newest && held[n] <= pushed && (n < SHUTDOWN_NUM ==> n in history && held[n] == history[n])
  }

  /** The peer holds the acknowledged front, and every acknowledgment still able to move it. */
  ghost predicate FrontHeld(held: Streams, acks: set<uint64>, front: uint64) {
    front in held && forall a :: a in acks && a >= front ==> a in held
  }

  ghost predicate Spaced(times: seq<int>) {
    forall i :: 0 < i < |times| ==> times[i] - times[i - 1] >= SEND_INTERVAL_MIN
  }

  /** Nothing is due within 20 ms of the last transmission. */
  ghost predicate Paced(times: seq<int>, clock: int, backSentAt: int, nextAckTime: int) {
    && Spaced(times)
    && (times != [] ==>
          var last := times[|times| - 1];
          last <= clock && last <= backSentAt && last + SEND_INTERVAL_MIN <= nextAckTime)
  }

  ghost predicate Forward(times: seq<int>, bound: int) {
    && (forall i :: 0 < i < |times| ==> times[i - 1] <= times[i])
    && (times != [] ==> times[|times| - 1] <= bound)
  }

  /** Before shutdown the back of the queue carries the newest number. */
  function Newest(s: SenderState): uint64
    requires s.Shaped()
  {
    if s.shutdown then SHUTDOWN_NUM else s.queue.Back().num
  }

  ghost predicate Inv(sys: System) {
    var q := sys.sender.queue;
    && SI.Inv(sys.sender, sys.clock)
    && q.current == sys.pushed && |sys.pushed| < TWO63
    && Recorded(q.sent, sys.history)
    && HistoryOk(sys.history, sys.pushed, Newest(sys.sender))
    && NetOk(sys.net, sys.history, sys.pushed, q.Front().num, Newest(sys.sender))
    && HeldOk(sys.held, sys.history, sys.pushed, Newest(sys.sender))
    && FrontHeld(sys.held, sys.acks, q.Front().num)
    && Paced(sys.txTimes, sys.clock, q.Back().sentAt, sys.sender.timers.nextAckTime)
    && Forward(sys.roundtrips, q.Front().sentAt)
  }

  lemma StartInv(t0: int)
    ensures Inv(Start(t0))
  {
  }

  // ---------------------------------------------------------------- how the parts grow

  ghost predicate Extends(a: Streams, b: Streams) {
    forall n :: n in a ==> n in b && b[n] == a[n]
  }

  lemma FaithfulGrows(h: Streams, p: Stream, h2: Streams, p2: Stream, m: Instruction)
    requires Faithful(h, p, m) && Extends(h, h2) && p <= p2
    ensures Faithful(h2, p2, m)
  {
    hide DiffEvents;
  }

  lemma NetGrows(net: set<Instruction>, h: Streams, p: Stream, f: uint64, w: uint64,
                 h2: Streams, p2: Stream, f2: uint64, w2: uint64)
    requires NetOk(net, h, p, f, w) && Extends(h, h2) && p <= p2 && f <= f2 && w <= w2
    ensures NetOk(net, h2, p2, f2, w2)
  {
    hide Faithful;
    forall m | m in net
      ensures Faithful(h2, p2, m)
    {
      FaithfulGrows(h, p, h2, p2, m);
    }
  }

  lemma HeldGrows(held: Streams, h: Streams, p: Stream, w: uint64, h2: Streams, p2: Stream, w2: uint64)
    requires HeldOk(held, h, p, w) && Extends(h, h2) && p <= p2 && w <= w2
    ensures HeldOk(held, h2, p2, w2)
  {
  }

  // ---------------------------------------------------------------- input and the peer

  lemma PushKeepsInv(sys: System, events: Stream)
    requires Inv(sys) && PerByte(events) && |sys.pushed| + |events| < TWO63
    ensures Inv(PushEvents(sys, events))
  {
    hide SI.Chain, SI.Times, SI.Numbers, PerByte, Recorded, NetOk, HeldOk, FrontHeld, Paced, Forward;
    SI.PushInv(sys.sender.queue, events, sys.clock);
    var p, f, w := sys.pushed + events, sys.sender.queue.Front().num, Newest(sys.sender);
    assert sys.pushed <= p;
    NetGrows(sys.net, sys.history, sys.pushed, f, w, sys.history, p, f, w);
    HeldGrows(sys.held, sys.history, sys.pushed, w, sys.history, p, w);
  }

  /** What the peer adds is what the number stands for, and it never drops the front. */
  lemma ReceiveKeeps(
      held: Streams, acks: set<uint64>, front: uint64, h: Streams, p: Stream, w: uint64, inst: Instruction)
    requires HeldOk(held, h, p, w) && FrontHeld(held, acks, front)
    requires Faithful(h, p, inst) && inst.throwawayNum <= front && inst.newNum <= w
    ensures HeldOk(Receive(held, inst), h, p, w) && FrontHeld(Receive(held, inst), acks, front)
  {
    hide DiffEvents;
  }

  lemma DeliverKeepsInv(sys: System, inst: Instruction)
    requires Inv(sys) && inst in sys.net
    ensures Inv(sys.(held := Receive(sys.held, inst)))
  {
    hide SI.Chain, SI.Times, SI.Numbers, PerByte, Recorded, Faithful, HistoryOk, HeldOk, FrontHeld, Paced, Forward,
      Receive;
    ReceiveKeeps(sys.held, sys.acks, sys.sender.queue.Front().num, sys.history, sys.pushed, Newest(sys.sender), inst);
  }

  lemma PeerAcksKeepsInv(sys: System, num: uint64)
    requires Inv(sys) && num in sys.held
    ensures Inv(sys.(acks := sys.acks + {num}))
  {
    hide SI.Inv, Recorded, NetOk, HistoryOk, HeldOk, Paced, Forward;
  }

  // ---------------------------------------------------------------- hearing the peer

  lemma RetainsRecorded(q: Queue, r: Queue, history: Streams)
    requires SI.Retains(q, r, None) && Recorded(q.sent, history)
    ensures Recorded(r.sent, history)
  {
    forall i | 0 <= i < |r.sent| && r.sent[i].num < SHUTDOWN_NUM
      ensures r.sent[i].num in history && history[r.sent[i].num] == r.sent[i].events
    {
      var j :| 0 <= j < |q.sent| && q.sent[j].num == r.sent[i].num && q.sent[j].events == r.sent[i].events;
    }
  }

  lemma FrontMoves(held: Streams, acks: set<uint64>, front: uint64, next: uint64)
    requires FrontHeld(held, acks, front) && front <= next
    requires next == front || next in acks
    ensures FrontHeld(held, acks, next)
  {
  }

  lemma ForwardSnoc(times: seq<int>, bound: int, t: int)
    requires Forward(times, bound) && bound <= t
    ensures Forward(times + [t], t)
  {
  }

  lemma HearKeepsInv(sys: System, ack: uint64, data: bool, newest: Option<uint64>)
    requires Inv(sys) && ack in sys.acks
    ensures Inv(HearPeer(sys, ack, data, newest))
  {
    hide SI.Chain, SI.Times, SI.Numbers, PerByte, SI.Retains, Recorded, HistoryOk, NetOk, HeldOk, FrontHeld, Paced,
      Forward, ProcessAck;
    var q, r := sys.sender.queue, ProcessAck(sys.sender.queue, ack);
    SI.ProcessAckInv(q, ack, sys.clock);
    RetainsRecorded(q, r, sys.history);
    var w := Newest(sys.sender);
    NetGrows(sys.net, sys.history, sys.pushed, q.Front().num, w, sys.history, sys.pushed, r.Front().num, w);
    FrontMoves(sys.held, sys.acks, q.Front().num, r.Front().num);
    ForwardSnoc(sys.roundtrips, q.Front().sentAt, r.Front().sentAt);
  }

  // ---------------------------------------------------------------- time and transmission

  /** Whatever calculateTimers schedules is at least 20 ms after the last transmission. */
  lemma TimersPaced(s: SenderState, times: seq<int>, clock: int, now: int, link: Link, trim: bool)
    requires s.Shaped() && ValidLink(link) && clock <= now
    requires Paced(times, clock, s.queue.Back().sentAt, s.timers.nextAckTime)
    ensures var t := CalculateTimers(s, now, link, trim);
      && Paced(times, now, t.queue.Back().sentAt, t.timers.nextAckTime)
      && (times != [] && (AckDue(t, now) || SendDue(t, now)) ==> times[|times| - 1] + SEND_INTERVAL_MIN <= now)
  {
    hide Spaced, Refresh;
    SI.RefreshShape(s.queue, now, link.timeout, trim);
  }

  lemma WaitKeepsInv(sys: System, now: int, link: Link)
    requires Inv(sys) && sys.clock <= now && ValidLink(link)
    ensures Inv(sys.(sender := CalculateTimers(sys.sender, now, link, false), clock := now))
  {
    hide SI.Chain, SI.Times, SI.Numbers, PerByte, Recorded, HistoryOk, NetOk, HeldOk, FrontHeld, Paced, Forward,
      ScheduleSend, ScheduleAck;
    SI.ClockAdvances(sys.sender, sys.clock, now);
    SI.CalculateInv(sys.sender, now, link, false);
    TimersPaced(sys.sender, sys.txTimes, sys.clock, now, link, false);
  }

  /** The untrimmed sender's state once calculateTimers has run, with its place in the system. */
  ghost predicate Ready(sys: System, t: SenderState, now: int) {
    && SI.Inv(t, now) && SI.Unexhausted(t)
    && t.queue.current == sys.pushed && |sys.pushed| < TWO63
    && Recorded(t.queue.sent, sys.history)
    && HistoryOk(sys.history, sys.pushed, Newest(t))
  }

  function Minted(history: Streams, num: uint64, pushed: Stream): Streams {
    if num < SHUTDOWN_NUM then history[num := pushed] else history
  }

  /** A new number never renames an old state. */
  lemma MintExtends(sys: System, t: SenderState, now: int, inst: Instruction)
    requires Ready(sys, t, now) && SI.Refers(t, inst)
    ensures Extends(sys.history, Minted(sys.history, inst.newNum, sys.pushed))
    ensures !t.shutdown ==> t.queue.Back().num <= inst.newNum < SHUTDOWN_NUM
    ensures t.shutdown ==> inst.newNum == SHUTDOWN_NUM
  {
    hide SI.Chain, SI.Times, SI.Numbers, PerByte, DiffFrom;
    assert t.queue.sent[|t.queue.sent| - 1] == t.queue.Back();
  }

  /** The reference an instruction is made from: its number stands for a prefix of the input. */
  lemma ReferenceKnown(sys: System, t: SenderState, now: int)
    requires Ready(sys, t, now)
    ensures var e := t.queue.Assumed();
      && e.events <= sys.pushed && e.num <= t.queue.Back().num && PerByte(sys.pushed)
      && (e.num < SHUTDOWN_NUM ==> e.num in sys.history && sys.history[e.num] == e.events)
  {
    LastIsNewest(t.queue, t.queue.assumed);
  }

  lemma SentFaithful(sys: System, t: SenderState, now: int, inst: Instruction)
    requires Ready(sys, t, now) && SI.Refers(t, inst)
    ensures Faithful(Minted(sys.history, inst.newNum, sys.pushed), sys.pushed, inst)
  {
    hide DiffFrom, DiffEvents, SI.Chain, SI.Times, SI.Numbers, PerByte, Recorded, HistoryOk;
    MintExtends(sys, t, now, inst);
    ReferenceKnown(sys, t, now);
    var e := t.queue.Assumed();
    DiffCarriesSuffix(sys.pushed, e.events);
    assert e.events + sys.pushed[|e.events|..] == sys.pushed;
  }

  lemma LastIsNewest(q: Queue, i: nat)
    requires q.Shaped() && SI.Numbers(q) && i < |q.sent|
    ensures q.sent[i].num <= q.Back().num
  {
    assert i == |q.sent| - 1 || q.sent[i].num <= q.sent[|q.sent| - 1].num;
  }

  lemma SentRecorded(sys: System, t: SenderState, now: int, inst: Instruction, r: Queue, again: bool)
    requires Ready(sys, t, now) && SI.Refers(t, inst) && r.Shaped()
    requires SI.Sends(t.queue, r, now, inst.newNum, again)
    ensures Recorded(r.sent, Minted(sys.history, inst.newNum, sys.pushed))
  {
    hide SI.Inv, SI.Refers;
    MintExtends(sys, t, now, inst);
    var h := Minted(sys.history, inst.newNum, sys.pushed);
    forall i | 0 <= i < |r.sent| && r.sent[i].num < SHUTDOWN_NUM
      ensures r.sent[i].num in h && h[r.sent[i].num] == r.sent[i].events
    {
      if SI.FromQueue(r.sent[i], t.queue.sent) {
        var sent := t.queue.sent;
        var j :| 0 <= j < |sent| && sent[j].num == r.sent[i].num && sent[j].events == r.sent[i].events;
      }
    }
  }

  lemma SentHistory(sys: System, t: SenderState, now: int, inst: Instruction, r: SenderState)
    requires Ready(sys, t, now) && SI.Refers(t, inst) && r.Shaped()
    requires r.shutdown == t.shutdown && r.queue.Back().num == inst.newNum
    ensures HistoryOk(Minted(sys.history, inst.newNum, sys.pushed), sys.pushed, Newest(r))
  {
    hide SI.Inv, SI.Refers;
    MintExtends(sys, t, now, inst);
  }

  lemma NetAdds(net: set<Instruction>, h: Streams, p: Stream, f: uint64, w: uint64, inst: Instruction)
    requires NetOk(net, h, p, f, w) && Faithful(h, p, inst) && inst.throwawayNum <= f && inst.newNum <= w
    ensures NetOk(net + {inst}, h, p, f, w)
  {
    hide Faithful;
  }

  lemma ForwardBound(times: seq<int>, a: int, b: int)
    requires Forward(times, a) && a <= b
    ensures Forward(times, b)
  {
  }

  lemma PacedSnoc(times: seq<int>, now: int)
    requires Spaced(times)
    requires times != [] ==> times[|times| - 1] + SEND_INTERVAL_MIN <= now
    ensures Paced(times + [now], now, now, now + ACK_INTERVAL)
  {
  }

  lemma SentKeepsInv(sys: System, t: SenderState, now: int, r: Outcome)
    requires Inv(sys) && Ready(sys, t, now)
    requires t.queue.sent == sys.sender.queue.sent && t.shutdown == sys.sender.shutdown
    requires r.state.Shaped() && r.emission.Sent? && SI.Attempted(t, r, now, true)
    requires sys.txTimes != [] ==> sys.txTimes[|sys.txTimes| - 1] + SEND_INTERVAL_MIN <= now
    ensures Inv(Record(sys, now, r))
  {
    hide SI.Chain, SI.Times, SI.Numbers, PerByte, SI.Refers, SI.Retains, SI.Unexhausted, Recorded, HistoryOk, NetOk,
      HeldOk, FrontHeld, Spaced, Forward, Faithful, Extends;
    var inst, q, f := r.emission.inst, r.state.queue, t.queue.Front().num;
    var h := Minted(sys.history, inst.newNum, sys.pushed);
    MintExtends(sys, t, now, inst);
    SentFaithful(sys, t, now, inst);
    SentRecorded(sys, t, now, inst, q, inst.newNum == t.queue.Back().num && inst.diff != []);
    SentHistory(sys, t, now, inst, r.state);
    assert inst.throwawayNum == f by { ThrowsFront(t, inst); }
    var w, w2 := Newest(sys.sender), Newest(r.state);
    NetGrows(sys.net, sys.history, sys.pushed, f, w, h, sys.pushed, f, w2);
    NetAdds(sys.net, h, sys.pushed, f, w2, inst);
    HeldGrows(sys.held, sys.history, sys.pushed, w, h, sys.pushed, w2);
    PacedSnoc(sys.txTimes, now);
    ForwardBound(sys.roundtrips, t.queue.Front().sentAt, q.Front().sentAt);
  }

  lemma ThrowsFront(t: SenderState, inst: Instruction)
    requires t.Shaped() && SI.Refers(t, inst)
    ensures inst.throwawayNum == t.queue.Front().num
  {
  }

  lemma KeptRecorded(q: Queue, r: Queue, h: Streams)
    requires q.Shaped() && r.Shaped() && SI.Kept(q, r) && Recorded(q.sent, h)
    ensures Recorded(r.sent, h)
  {
  }

  lemma UnsentKeepsInv(sys: System, t: SenderState, now: int, r: Outcome, ok: bool)
    requires Inv(sys) && Ready(sys, t, now)
    requires t.queue.sent == sys.sender.queue.sent && t.shutdown == sys.sender.shutdown
    requires r.state.Shaped() && !r.emission.Sent? && SI.Attempted(t, r, now, ok)
    requires Paced(sys.txTimes, now, t.queue.Back().sentAt, r.state.timers.nextAckTime)
    ensures Inv(Record(sys, now, r))
  {
    hide SI.Chain, SI.Times, SI.Numbers, PerByte, SI.Refers, SI.Unexhausted, Recorded, HistoryOk, NetOk, HeldOk,
      FrontHeld, Spaced, Forward;
    var q := r.state.queue;
    assert q.sent[0].num == t.queue.sent[0].num && q.sent[0].sentAt >= t.queue.sent[0].sentAt;
    assert q.Back().num == t.queue.Back().num && q.Back().sentAt >= t.queue.Back().sentAt;
    KeptRecorded(t.queue, q, sys.history);
    ForwardBound(sys.roundtrips, t.queue.Front().sentAt, q.Front().sentAt);
  }

  /** A transmission that is not completed leaves the ack timer where it was, or moves it to the future. */
  lemma UnsentTimer(t: SenderState, now: int, link: Link, chaff: bytes, ok: bool)
    requires t.Shaped()
    ensures var r := Transmit(t, now, link, chaff, ok);
      !r.emission.Sent? ==>
        r.state.timers.nextAckTime == t.timers.nextAckTime || r.state.timers.nextAckTime == now + link.interval
  {
    hide DiffFrom, AddSent, Touch;
  }

  lemma PacedLater(times: seq<int>, now: int, back: int, a: int, interval: int)
    requires Paced(times, now, back, a) && interval >= SEND_INTERVAL_MIN
    ensures Paced(times, now, back, now + interval)
  {
    hide Spaced;
  }

  lemma BeforeTransmit(sys: System, now: int, link: Link)
    requires Inv(sys) && SI.Unexhausted(sys.sender) && sys.clock <= now && ValidLink(link)
    ensures var t := CalculateTimers(sys.sender, now, link, false);
      && Ready(sys, t, now)
      && t.queue.sent == sys.sender.queue.sent && t.shutdown == sys.sender.shutdown
      && Paced(sys.txTimes, now, t.queue.Back().sentAt, t.timers.nextAckTime)
      && (sys.txTimes != [] && (AckDue(t, now) || SendDue(t, now)) ==>
            sys.txTimes[|sys.txTimes| - 1] + SEND_INTERVAL_MIN <= now)
  {
    hide SI.Chain, SI.Times, SI.Numbers, PerByte, Recorded, HistoryOk, NetOk, HeldOk, FrontHeld, Paced, Forward,
      ScheduleSend, ScheduleAck;
    SI.ClockAdvances(sys.sender, sys.clock, now);
    SI.CalculateInv(sys.sender, now, link, false);
    TimersPaced(sys.sender, sys.txTimes, sys.clock, now, link, false);
  }

  lemma TickKeepsInv(sys: System, now: int, link: Link, chaff: bytes, ok: bool)
    requires Inv(sys) && SI.Unexhausted(sys.sender) && sys.clock <= now && ValidLink(link)
    ensures Inv(Record(sys, now, Tick(sys.sender, now, link, chaff, ok, false)))
  {
    hide Inv, Ready, SI.Inv, SI.Attempted, SI.Unexhausted, CalculateTimers, Transmit, Paced;
    InvSender(sys, now);
    var t, r := CalculateTimers(sys.sender, now, link, false), Tick(sys.sender, now, link, chaff, ok, false);
    SI.TickLeaves(sys.sender, now, link, chaff, ok, false);
    BeforeTransmit(sys, now, link);
    if r.emission.Sent? {
      SentOnlyIfOk(t, r, now, ok);
      SentKeepsInv(sys, t, now, r);
    } else {
      UnsentTimer(t, now, link, chaff, ok);
      PacedLater(sys.txTimes, now, t.queue.Back().sentAt, t.timers.nextAckTime, link.interval);
      UnsentKeepsInv(sys, t, now, r, ok);
    }
  }

  lemma InvSender(sys: System, now: int)
    requires Inv(sys) && sys.clock <= now
    ensures sys.Shaped() && SI.Inv(sys.sender, now)
  {
    SI.ClockAdvances(sys.sender, sys.clock, now);
  }

  lemma SentOnlyIfOk(t: SenderState, r: Outcome, now: int, ok: bool)
    requires t.Shaped() && r.state.Shaped() && SI.Attempted(t, r, now, ok) && r.emission.Sent?
    ensures ok
  {
  }

  // ---------------------------------------------------------------- one step

  lemma QuitKeepsInv(sys: System)
    requires Inv(sys)
    ensures Inv(sys.(sender := sys.sender.(shutdown := true)))
  {
    hide SI.Chain, SI.Times, SI.Numbers, PerByte, Recorded, NetOk, HeldOk, FrontHeld, Paced, Forward;
    var f, w := sys.sender.queue.Front().num, Newest(sys.sender);
    NetGrows(sys.net, sys.history, sys.pushed, f, w, sys.history, sys.pushed, f, SHUTDOWN_NUM);
    HeldGrows(sys.held, sys.history, sys.pushed, w, sys.history, sys.pushed, SHUTDOWN_NUM);
  }

  lemma NextKeepsInv(sys: System, step: Step)
    requires Inv(sys) && Enabled(sys, step) && SI.Unexhausted(sys.sender)
    ensures Inv(Next(sys, step, false))
  {
    hide Inv, Record, HearPeer, PushEvents, Receive;
    match step
    case PushKeys(keys) => PushKeepsInv(sys, KeyEvents(keys));
    case PushResize(w, h) => PushKeepsInv(sys, [Resize(w, h)]);
    case TickAt(now, link, chaff, ok) => TickKeepsInv(sys, now, link, chaff, ok);
    case WaitAt(now, link) => WaitKeepsInv(sys, now, link);
    case Deliver(inst) => DeliverKeepsInv(sys, inst);
    case PeerAcks(num) => PeerAcksKeepsInv(sys, num);
    case Hear(ack, data, newest) => HearKeepsInv(sys, ack, data, newest);
    case Quit => QuitKeepsInv(sys);
  }

  /** A step uses up at most one number. */
  lemma NextNumbers(sys: System, step: Step)
    requires Inv(sys) && Enabled(sys, step) && SI.Unexhausted(sys.sender)
    ensures var r := Next(sys, step, false);
      !r.sender.shutdown ==> !sys.sender.shutdown && r.sender.queue.Back().num <= sys.sender.queue.Back().num + 1
  {
    hide Recorded, NetOk, HeldOk, FrontHeld, Paced, Forward, HistoryOk, Receive, CalculateTimers, Tick,
      SI.Chain, SI.Times, SI.Numbers, PerByte, ProcessAck;
    match step
    case TickAt(now, link, chaff, ok) =>
      InvSender(sys, now);
      SI.TickLeaves(sys.sender, now, link, chaff, ok, false);
      SenderNumbers(sys.sender, now, link, chaff, ok);
    case WaitAt(now, link) =>
      TimersShape(sys.sender, now, link);
    case Hear(ack, data, newest) =>
      SI.ProcessAckInv(sys.sender.queue, ack, sys.clock);
    case _ =>
  }

  lemma TimersShape(s: SenderState, now: int, link: Link)
    requires s.Shaped()
    ensures var t := CalculateTimers(s, now, link, false);
      t.queue.sent == s.queue.sent && t.queue.current == s.queue.current && t.shutdown == s.shutdown
  {
  }

  lemma SenderNumbers(s: SenderState, now: int, link: Link, chaff: bytes, ok: bool)
    requires SI.Inv(s, now) && SI.Unexhausted(s)
    ensures var r := Tick(s, now, link, chaff, ok, false).state;
      r.shutdown == s.shutdown && (!s.shutdown ==> r.queue.Back().num <= s.queue.Back().num + 1)
  {
    hide SI.Chain, SI.Times, SI.Numbers, PerByte, CalculateTimers, Tick, DiffFrom, SI.Retains;
    SI.TickLeaves(s, now, link, chaff, ok, false);
    TimersShape(s, now, link);
  }
}
