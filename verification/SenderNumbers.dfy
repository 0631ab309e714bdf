/** Which numbers an instruction carries, and which states the queue keeps (internal/transport/sender.go). */
module SenderNumbers {
  import opened Basics
  import opened Wire
  import opened UserStreams
  import opened SenderModel
  import opened SenderInvariant
  import opened SenderTimers
  import opened SenderPacing

  // ---------------------------------------------------------------- what the queue keeps

  /** A full queue forgets one state from its middle: the front, the 16 after it and the newest 15 survive. */
  lemma FullQueueForgetsOne(q: Queue, now: int, num: uint64)
    requires q.Shaped() && |q.sent| <= 32
    ensures var r, added := AddSent(q, now, num), Entry(now, num, q.current);
      && r.current == q.current
      && (|q.sent| < 32 ==> r.sent == q.sent + [added] && r.Assumed() == q.Assumed())
      && (|q.sent| == 32 ==>
            && r.sent == q.sent[..17] + q.sent[18..] + [added]
            && r.Assumed() == q.sent[if q.assumed == 17 then 16 else q.assumed])
  {
    if |q.sent| == 32 {
      var longer := q.sent + [Entry(now, num, q.current)];
      assert longer[..17] == q.sent[..17] && longer[18..] == q.sent[18..] + [Entry(now, num, q.current)];
    }
  }

  /** The states numbered `num` or later. */
  function AtLeast(sent: seq<Entry>, num: uint64): seq<Entry> {
    if sent == [] then []
    else (if sent[0].num >= num then [sent[0]] else []) + AtLeast(sent[1..], num)
  }

  predicate Ordered(sent: seq<Entry>) {
    forall i, j :: 0 <= i < j < |sent| ==> sent[i].num <= sent[j].num
  }

  lemma {:induction false} AllAtLeast(sent: seq<Entry>, num: uint64)
    requires forall i :: 0 <= i < |sent| ==> sent[i].num >= num
    ensures AtLeast(sent, num) == sent
    decreases |sent|
  {
    if sent != [] {
      AllAtLeast(sent[1..], num);
    }
  }

  lemma {:induction false} SuffixAtLeast(sent: seq<Entry>, num: uint64)
    requires Ordered(sent) && FindNum(sent, num) < |sent|
    ensures sent[FindNum(sent, num)..] == AtLeast(sent, num)
    decreases |sent|
  {
    var k := FindNum(sent, num);
    if sent[0].num == num {
      assert sent[0..] == sent;
      AllAtLeast(sent, num);
    } else {
      var rest := sent[1..];
      assert sent[0].num <= sent[k].num;
      assert forall i :: 0 <= i < |rest| ==> rest[i] == sent[i + 1];
      assert k == FindNum(rest, num) + 1;
      hide FindNum;
      SuffixAtLeast(rest, num);
      assert sent[k..] == rest[k - 1..];
      assert AtLeast(sent, num) == [] + AtLeast(rest, num);
    }
  }

  /** An acknowledged number in the queue leaves exactly the states from it on; an unknown one leaves all. */
  lemma AckKeepsFromNumber(q: Queue, num: uint64, clock: int)
    requires QueueInv(q, clock)
    ensures ProcessAck(q, num).current == q.current
    ensures ProcessAck(q, num).sent
         == if exists i :: 0 <= i < |q.sent| && q.sent[i].num == num then AtLeast(q.sent, num) else q.sent
  {
    hide Chain, Times, PerByte;
    var k := FindNum(q.sent, num);
    assert Ordered(q.sent);
    if k < |q.sent| {
      SuffixAtLeast(q.sent, num);
    }
  }

  // ---------------------------------------------------------------- what an instruction carries

  /** The number of the state the peer is assumed to hold. */
  function Reference(q: Queue, now: int, link: Link): uint64
    requires q.Shaped()
  {
    if |q.sent| == 1 || GivenUp(q, now, link) then q.Front().num else q.Back().num
  }

  /** Data already sent goes again under its number; anything else takes the next one, or the shutdown number. */
  predicate Numbered(s: SenderState, inst: Instruction)
    requires s.Shaped()
  {
    inst.newNum ==
      if s.shutdown then SHUTDOWN_NUM
      else if inst.diff != [] && s.queue.current == s.queue.Back().events then s.queue.Back().num
      else NextNum(s.queue.Back().num)
  }

  predicate Carries(s: SenderState, inst: Instruction, now: int, link: Link, chaff: bytes)
    requires s.Shaped()
  {
    && inst.protocolVersion == 2 && inst.chaff == chaff && inst.ackNum == s.ackNum
    && inst.oldNum == Reference(s.queue, now, link) && inst.throwawayNum == s.queue.Front().num
    && Numbered(s, inst)
  }

  lemma AssumedNumber(s: SenderState, now: int, link: Link, trim: bool)
    requires Inv(s, now)
    ensures s.Shaped()
    ensures CalculateTimers(s, now, link, trim).queue.Assumed().num == Reference(s.queue, now, link)
  {
    hide Chain, Times, Numbers, PerByte, Refresh, ScheduleSend, ScheduleAck;
    RefreshShape(s.queue, now, link.timeout, trim);
    AssumedFrontOrBack(s.queue, now, link.timeout, trim);
  }

  lemma TransmitNumbers(t: SenderState, now: int, link: Link, chaff: bytes, ok: bool)
    requires t.Shaped()
    ensures var e := Transmit(t, now, link, chaff, ok).emission;
      !e.Silent? ==>
        && (ok <==> e.Sent?)
        && e.inst.protocolVersion == 2 && e.inst.chaff == chaff && e.inst.ackNum == t.ackNum
        && e.inst.oldNum == t.queue.Assumed().num && e.inst.throwawayNum == t.queue.Front().num
        && Numbered(t, e.inst)
        && e.inst.diff == DiffFrom(t.queue.current, t.queue.Assumed().events)
  {
    hide DiffFrom, AddSent;
  }

  lemma NumberedAlike(s: SenderState, now: int, link: Link, trim: bool, inst: Instruction)
    requires Inv(s, now) && ValidLink(link)
    ensures s.Shaped()
    ensures Numbered(CalculateTimers(s, now, link, trim), inst) <==> Numbered(s, inst)
  {
    hide Chain, Times, Numbers, PerByte, Refresh, ScheduleSend, ScheduleAck;
    RefreshShape(s.queue, now, link.timeout, trim);
    UnsentAlike(s.queue, now, link.timeout, trim);
  }

  lemma TimersKeepFront(s: SenderState, now: int, link: Link, trim: bool)
    requires s.Shaped()
    ensures var t := CalculateTimers(s, now, link, trim);
      t.queue.Front().num == s.queue.Front().num && t.ackNum == s.ackNum
  {
    hide ScheduleSend, ScheduleAck;
    RefreshShape(s.queue, now, link.timeout, trim);
  }

  /** Every instruction attempted, field by field, from the state before the tick. */
  lemma InstructionCarries(s: SenderState, now: int, link: Link, chaff: bytes, ok: bool, trim: bool)
    requires Inv(s, now) && ValidLink(link)
    ensures s.Shaped()
    ensures var e := Tick(s, now, link, chaff, ok, trim).emission;
      !e.Silent? ==> (ok <==> e.Sent?) && Carries(s, e.inst, now, link, chaff)
  {
    hide QueueInv, CalculateTimers, Transmit, Numbered, Reference, ValidLink;
    InvShaped(s, now);
    var t, e := CalculateTimers(s, now, link, trim), Tick(s, now, link, chaff, ok, trim).emission;
    if !e.Silent? {
      TransmitNumbers(t, now, link, chaff, ok);
      AssumedNumber(s, now, link, trim);
      TimersKeepFront(s, now, link, trim);
      NumberedAlike(s, now, link, trim, e.inst);
    }
  }

  /** Input in no queued state always makes a diff, so a tick that transmits sends all of it under the next number. */
  lemma UnsentIsSent(s: SenderState, now: int, link: Link, chaff: bytes, ok: bool, trim: bool)
    requires Inv(s, now) && ValidLink(link) && s.queue.current != s.queue.Back().events
    ensures var e := Tick(s, now, link, chaff, ok, trim).emission; !e.Silent? ==> e.inst.diff != []
  {
    hide Chain, Times, Numbers, CalculateTimers, Transmit, DiffFrom;
    var t := CalculateTimers(s, now, link, trim);
    CalculateInv(s, now, link, trim);
    TimersUnsent(s, now, link, trim);
    Lengths(t.queue);
    DiffEmptyIff(t.queue.current, t.queue.Assumed().events);
    TransmitNumbers(t, now, link, chaff, ok);
  }

  lemma TimersUnsent(s: SenderState, now: int, link: Link, trim: bool)
    requires Inv(s, now)
    ensures s.Shaped()
    ensures var t := CalculateTimers(s, now, link, trim);
      t.queue.current == t.queue.Back().events <==> s.queue.current == s.queue.Back().events
  {
    hide Chain, Times, Numbers, PerByte, Refresh, ScheduleSend, ScheduleAck;
    UnsentAlike(s.queue, now, link.timeout, trim);
  }

  // ---------------------------------------------------------------- what a transmission settles

  /** Success settles everything owed: no data ack, no input seen, and three seconds to the next ack. */
  lemma SuccessSettles(s: SenderState, now: int, link: Link, chaff: bytes, ok: bool, trim: bool)
    requires s.Shaped() && Tick(s, now, link, chaff, ok, trim).emission.Sent?
    ensures var r := Tick(s, now, link, chaff, ok, trim).state;
      !r.pendingDataAck && !r.timers.haveMindelay && r.timers.nextAckTime == now + 3000 * MS
  {
    hide CalculateTimers, DiffFrom, AddSent, MakeInstruction;
  }

  /** The first tick speaks, whatever the user has typed by then: the server learns where the client is. */
  lemma FirstTickTransmits(t0: int, events: seq<UserEvent>, now: int, link: Link, chaff: bytes, ok: bool, trim: bool)
    requires t0 <= now && ValidLink(link) && PerByte(events)
    ensures var s := Initial(t0).(queue := Push(Initial(t0).queue, events));
      !Tick(s, now, link, chaff, ok, trim).emission.Silent?
  {
    hide Tick, DataWanted;
    var s := Initial(t0).(queue := Push(Initial(t0).queue, events));
    assert Inv(s, now);
    TransmitsIff(s, now, link, chaff, ok, trim);
  }
}
