/** What every step of the sender keeps, with or without trimming. */
module SenderInvariant {
  import opened Basics
  import opened Wire
  import opened UserStreams
  import opened SenderModel

  /** The retained streams form a prefix chain that ends in the current state. */
  ghost predicate Chain(q: Queue) {
    && (forall i, j :: 0 <= i < j < |q.sent| ==> q.sent[i].events <= q.sent[j].events)
    && (forall i :: 0 <= i < |q.sent| ==> q.sent[i].events <= q.current)
  }

  ghost predicate Times(q: Queue, clock: int) {
    && (forall i, j :: 0 <= i < j < |q.sent| ==> q.sent[i].sentAt <= q.sent[j].sentAt)
    && (forall i :: 0 <= i < |q.sent| ==> q.sent[i].sentAt <= clock)
  }

  /** Numbers strictly increase; only the shutdown number repeats. */
  ghost predicate Numbers(q: Queue) {
    forall i, j :: 0 <= i < j < |q.sent| ==>
      q.sent[i].num < q.sent[j].num || q.sent[i].num == q.sent[j].num == SHUTDOWN_NUM
  }

  ghost predicate QueueInv(q: Queue, clock: int) {
    q.Shaped() && |q.sent| <= MAX_QUEUE && Chain(q) && Times(q, clock) && Numbers(q) && PerByte(q.current)
  }

  ghost predicate Inv(s: SenderState, clock: int) {
    && QueueInv(s.queue, clock)
    && (s.timers.haveMindelay ==> s.timers.mindelayClock <= clock)
    && (!s.shutdown ==> s.queue.Back().num < SHUTDOWN_NUM)
  }

  /** There is a number left for the next state. */
  predicate Unexhausted(s: SenderState)
    requires s.Shaped()
  {
    s.shutdown || s.queue.Back().num < SHUTDOWN_NUM - 1
  }

  lemma BackSentBy(q: Queue, clock: int)
    requires QueueInv(q, clock)
    ensures q.Back().sentAt <= clock
  {
  }

  lemma InvShaped(s: SenderState, clock: int)
    requires Inv(s, clock)
    ensures s.Shaped()
  {
  }

  lemma ClockAdvances(s: SenderState, clock: int, now: int)
    requires Inv(s, clock) && clock <= now
    ensures Inv(s, now)
  {
  }

  // ---------------------------------------------------------------- timers

  lemma DropChain(a: seq<UserEvent>, b: seq<UserEvent>, known: seq<UserEvent>)
    requires known <= a <= b
    ensures Subtracted(a, known) <= Subtracted(b, known)
  {
  }

  lemma FrontIsPrefix(q: Queue)
    requires q.Shaped() && Chain(q)
    ensures q.Front().events <= q.current
    ensures forall i :: 0 <= i < |q.sent| ==> q.Front().events <= q.sent[i].events
  {
  }

  lemma RationalizeChain(q: Queue)
    requires q.Shaped() && Chain(q)
    ensures Chain(Rationalize(q))
  {
    FrontIsPrefix(q);
    var known, r := q.sent[0].events, Rationalize(q);
    forall i, j | 0 <= i < j < |r.sent|
      ensures r.sent[i].events <= r.sent[j].events
    {
      DropChain(q.sent[i].events, q.sent[j].events, known);
    }
    forall i | 0 <= i < |r.sent|
      ensures r.sent[i].events <= r.current
    {
      DropChain(q.sent[i].events, q.current, known);
    }
  }

  /** calculateTimers touches no number and no send time. */
  lemma RefreshShape(q: Queue, now: int, timeout: int, trim: bool)
    requires q.Shaped()
    ensures var r := Refresh(q, now, timeout, trim);
      && |r.sent| == |q.sent|
      && forall i :: 0 <= i < |q.sent| ==> r.sent[i].num == q.sent[i].num && r.sent[i].sentAt == q.sent[i].sentAt
  {
  }

  lemma SameStreams(q: Queue, r: Queue)
    requires Chain(q) && r.sent == q.sent && r.current == q.current
    ensures Chain(r)
  {
  }

  lemma SameNumbers(q: Queue, r: Queue)
    requires Numbers(q) && |r.sent| == |q.sent|
    requires forall i :: 0 <= i < |q.sent| ==> r.sent[i].num == q.sent[i].num
    ensures Numbers(r)
  {
  }

  lemma RefreshInv(q: Queue, now: int, timeout: int, trim: bool)
    requires QueueInv(q, now)
    ensures QueueInv(Refresh(q, now, timeout, trim), now)
  {
    hide Chain, Numbers;
    var a := q.(assumed := ScanAssumed(q.sent, now, timeout, 1));
    SameStreams(q, a);
    if trim {
      RationalizeChain(a);
    }
    SameNumbers(q, Refresh(q, now, timeout, trim));
  }

  lemma CalculateInv(s: SenderState, now: int, link: Link, trim: bool)
    requires Inv(s, now)
    ensures Inv(CalculateTimers(s, now, link, trim), now)
  {
    hide Chain, Times, Numbers, PerByte, Refresh;
    RefreshShape(s.queue, now, link.timeout, trim);
    RefreshInv(s.queue, now, link.timeout, trim);
  }

  // ---------------------------------------------------------------- sending

  function Appended(q: Queue, now: int, num: uint64): Queue {
    q.(sent := q.sent + [Entry(now, num, q.current)])
  }

  lemma AppendChain(q: Queue, now: int, num: uint64)
    requires Chain(q)
    ensures Chain(Appended(q, now, num))
  {
  }

  lemma AppendTimes(q: Queue, now: int, num: uint64)
    requires Times(q, now)
    ensures Times(Appended(q, now, num), now)
  {
  }

  lemma AppendNumbers(q: Queue, now: int, num: uint64)
    requires q.Shaped() && Numbers(q)
    requires q.Back().num < num || q.Back().num == num == SHUTDOWN_NUM
    ensures Numbers(Appended(q, now, num))
  {
    forall i | 0 <= i < |q.sent|
      ensures q.sent[i].num < num || q.sent[i].num == num == SHUTDOWN_NUM
    {
      assert i == |q.sent| - 1 || q.sent[i].num <= q.Back().num;
    }
  }

  ghost predicate Erased(q: Queue, r: Queue, cut: nat) {
    && cut < |q.sent| && r.current == q.current && |r.sent| == |q.sent| - 1
    && (forall i :: 0 <= i < |r.sent| ==> r.sent[i] == q.sent[if i < cut then i else i + 1])
  }

  lemma EraseChain(q: Queue, r: Queue, cut: nat)
    requires Chain(q) && Erased(q, r, cut)
    ensures Chain(r)
  {
  }

  lemma EraseTimes(q: Queue, r: Queue, clock: int, cut: nat)
    requires Times(q, clock) && Erased(q, r, cut)
    ensures Times(r, clock)
  {
  }

  lemma EraseNumbers(q: Queue, r: Queue, cut: nat)
    requires Numbers(q) && Erased(q, r, cut)
    ensures Numbers(r)
  {
  }

  lemma AddSentInv(q: Queue, now: int, num: uint64)
    requires QueueInv(q, now)
    requires q.Back().num < num || q.Back().num == num == SHUTDOWN_NUM
    ensures var r := AddSent(q, now, num);
      QueueInv(r, now) && r.current == q.current && r.Front() == q.Front() && r.Back() == Entry(now, num, q.current)
  {
    hide Chain, Times, Numbers, PerByte;
    AppendChain(q, now, num);
    AppendTimes(q, now, num);
    AppendNumbers(q, now, num);
    var longer := Appended(q, now, num);
    if |longer.sent| > MAX_QUEUE {
      var cut, r := |longer.sent| - 16, AddSent(q, now, num);
      assert Erased(longer, r, cut);
      EraseChain(longer, r, cut);
      EraseTimes(longer, r, now, cut);
      EraseNumbers(longer, r, cut);
    }
  }

  lemma TouchInv(q: Queue, now: int)
    requires QueueInv(q, now)
    ensures QueueInv(Touch(q, now), now)
  {
  }

  lemma FrontLeast(q: Queue, clock: int)
    requires QueueInv(q, clock)
    ensures forall i :: 0 <= i < |q.sent| ==> q.Front().num <= q.sent[i].num && q.Front().sentAt <= q.sent[i].sentAt
  {
    forall i | 0 <= i < |q.sent|
      ensures q.Front().num <= q.sent[i].num && q.Front().sentAt <= q.sent[i].sentAt
    {
      assert i == 0 || q.sent[0].num <= q.sent[i].num;
    }
  }

  ghost predicate FromQueue(x: Entry, sent: seq<Entry>) {
    exists j :: 0 <= j < |sent| && sent[j].num == x.num && sent[j].events == x.events
  }

  /** The states retained in `r` come from `q`, save at most a new one numbered `num`. */
  ghost predicate Retains(q: Queue, r: Queue, fresh_: Option<Entry>) {
    forall i :: 0 <= i < |r.sent| ==> FromQueue(r.sent[i], q.sent) || fresh_ == Some(r.sent[i])
  }

  lemma RetainsItself(q: Queue, r: Queue)
    requires |r.sent| == |q.sent|
    requires forall i :: 0 <= i < |q.sent| ==> r.sent[i].num == q.sent[i].num && r.sent[i].events == q.sent[i].events
    ensures Retains(q, r, None)
  {
  }

  lemma AddSentRetains(q: Queue, now: int, num: uint64)
    requires q.Shaped()
    ensures Retains(q, AddSent(q, now, num), Some(Entry(now, num, q.current)))
  {
    var r, longer := AddSent(q, now, num), q.sent + [Entry(now, num, q.current)];
    forall i | 0 <= i < |r.sent|
      ensures FromQueue(r.sent[i], q.sent) || r.sent[i] == Entry(now, num, q.current)
    {
      var j := if |longer| > MAX_QUEUE && i >= |longer| - 16 then i + 1 else i;
      assert r.sent[i] == longer[j];
      assert j < |q.sent| ==> longer[j] == q.sent[j];
    }
  }

  /** How the queue `r` follows from `q` when nothing got out at `now`. */
  ghost predicate Kept(q: Queue, r: Queue)
    requires q.Shaped() && r.Shaped()
  {
    && r.current == q.current
    && |r.sent| == |q.sent|
    && (forall i :: 0 <= i < |q.sent| ==>
          && r.sent[i].num == q.sent[i].num && r.sent[i].events == q.sent[i].events
          && r.sent[i].sentAt >= q.sent[i].sentAt)
  }

  /** How the queue `r` follows from `q` when the current state was sent under `num` at `now`. */
  ghost predicate Sends(q: Queue, r: Queue, now: int, num: uint64, again: bool)
    requires q.Shaped() && r.Shaped()
  {
    && r.current == q.current
    && r.Front().num == q.Front().num && r.Front().events == q.Front().events && r.Front().sentAt >= q.Front().sentAt
    && r.Back().sentAt == now && r.Back().num == num
    && r.Back().events == (if again then q.Back().events else q.current)
    && Retains(q, r, if again then None else Some(Entry(now, num, q.current)))
  }

  lemma TouchKeeps(q: Queue, now: int)
    requires QueueInv(q, now)
    ensures Touch(q, now).assumed == q.assumed
    ensures Kept(q, Touch(q, now)) && Sends(q, Touch(q, now), now, q.Back().num, true)
  {
    RetainsItself(q, Touch(q, now));
  }

  /** An emitted instruction refers to the queue it was made from, and never throws its reference away. */
  ghost predicate Refers(s: SenderState, inst: Instruction)
    requires s.Shaped()
  {
    && inst.oldNum == s.queue.Assumed().num
    && inst.throwawayNum == s.queue.Front().num <= inst.oldNum
    && inst.ackNum == s.ackNum
    && inst.diff == DiffFrom(s.queue.current, s.queue.Assumed().events)
    && inst.newNum == (if inst.diff == [] then EmptyAckNum(s) else DataNum(s))
  }

  /** What an attempt to transmit at `now` leaves behind. */
  ghost predicate Attempted(s: SenderState, r: Outcome, now: int, ok: bool)
    requires s.Shaped() && r.state.Shaped()
  {
    && Inv(r.state, now)
    && r.state.shutdown == s.shutdown && r.state.ackNum == s.ackNum
    && match r.emission
       case Silent => Kept(s.queue, r.state.queue)
       case Failed(inst) => !ok && Refers(s, inst) && Kept(s.queue, r.state.queue)
       case Sent(inst) =>
         && ok && Refers(s, inst)
         && Sends(s.queue, r.state.queue, now, inst.newNum, inst.newNum == s.queue.Back().num && inst.diff != [])
         && r.state.timers.nextAckTime == now + ACK_INTERVAL
  }

  lemma AssumedIrrelevant(q: Queue, r: Queue, now: int, fresh_: Option<Entry>)
    requires q.Shaped() && QueueInv(r, now) && Retains(q, r, fresh_)
    ensures var u := r.(assumed := |r.sent| - 1); QueueInv(u, now) && Retains(q, u, fresh_)
  {
  }

  lemma SendEmptyAckLeaves(s: SenderState, now: int, link: Link, chaff: bytes, ok: bool)
    requires Inv(s, now) && Unexhausted(s)
    requires DiffFrom(s.queue.current, s.queue.Assumed().events) == []
    ensures Attempted(s, SendEmptyAck(s, now, link, chaff, ok), now, ok)
    ensures !SendEmptyAck(s, now, link, chaff, ok).emission.Silent?
  {
    hide DiffFrom, Chain, Times, Numbers, PerByte, AddSent, Retains;
    FrontLeast(s.queue, now);
    AddSentInv(s.queue, now, EmptyAckNum(s));
    AddSentRetains(s.queue, now, EmptyAckNum(s));
  }

  lemma SendToReceiverLeaves(s: SenderState, now: int, diff: bytes, chaff: bytes, ok: bool)
    requires Inv(s, now) && Unexhausted(s)
    requires diff == DiffFrom(s.queue.current, s.queue.Assumed().events) != []
    ensures Attempted(s, SendToReceiver(s, now, diff, chaff, ok), now, ok)
    ensures !SendToReceiver(s, now, diff, chaff, ok).emission.Silent?
  {
    hide DiffFrom, Chain, Times, Numbers, PerByte, AddSent, Retains, Touch;
    FrontLeast(s.queue, now);
    var num := DataNum(s);
    if num == s.queue.Back().num {
      TouchInv(s.queue, now);
      TouchKeeps(s.queue, now);
      AssumedIrrelevant(s.queue, Touch(s.queue, now), now, None);
    } else {
      AddSentInv(s.queue, now, num);
      AddSentRetains(s.queue, now, num);
      AssumedIrrelevant(s.queue, AddSent(s.queue, now, num), now, Some(Entry(now, num, s.queue.current)));
    }
  }

  lemma TransmitLeaves(s: SenderState, now: int, link: Link, chaff: bytes, ok: bool)
    requires Inv(s, now) && Unexhausted(s)
    ensures Attempted(s, Transmit(s, now, link, chaff, ok), now, ok)
  {
    hide DiffFrom, Chain, Times, Numbers, PerByte, SendToReceiver, SendEmptyAck, Refers;
    var diff := DiffFrom(s.queue.current, s.queue.Assumed().events);
    if diff != [] {
      SendToReceiverLeaves(s, now, diff, chaff, ok);
    } else if AckDue(s, now) {
      SendEmptyAckLeaves(s, now, link, chaff, ok);
    }
  }

  lemma CalculateUnexhausted(s: SenderState, now: int, link: Link, trim: bool)
    requires Inv(s, now) && Unexhausted(s)
    ensures s.Shaped() && Unexhausted(CalculateTimers(s, now, link, trim))
  {
    hide Chain, Times, Numbers, PerByte, Refresh, ScheduleSend, ScheduleAck;
    RefreshShape(s.queue, now, link.timeout, trim);
  }

  /** One tick keeps the invariant; what it emits refers to the queue calculateTimers left. */
  lemma TickLeaves(s: SenderState, now: int, link: Link, chaff: bytes, ok: bool, trim: bool)
    requires Inv(s, now) && Unexhausted(s)
    ensures Inv(CalculateTimers(s, now, link, trim), now)
    ensures Attempted(CalculateTimers(s, now, link, trim), Tick(s, now, link, chaff, ok, trim), now, ok)
  {
    hide QueueInv, CalculateTimers, Transmit, Refers, Sends;
    InvShaped(s, now);
    var t := CalculateTimers(s, now, link, trim);
    CalculateInv(s, now, link, trim);
    CalculateUnexhausted(s, now, link, trim);
    if AckDue(t, now) || SendDue(t, now) {
      TransmitLeaves(t, now, link, chaff, ok);
    }
  }

  // ---------------------------------------------------------------- acknowledgments and input

  lemma SuffixKeeps(q: Queue, r: Queue, clock: int, k: nat)
    requires k < |q.sent|
    requires Chain(q) && Times(q, clock) && Numbers(q)
    requires r.current == q.current && r.sent == q.sent[k..]
    ensures Chain(r) && Times(r, clock) && Numbers(r)
  {
    assert forall i :: 0 <= i < |q.sent| - k ==> r.sent[i] == q.sent[k + i];
  }

  lemma AckRetains(q: Queue, num: uint64)
    requires q.Shaped()
    ensures Retains(q, ProcessAck(q, num), None)
  {
    var k, r := FindNum(q.sent, num), ProcessAck(q, num);
    forall i | 0 <= i < |r.sent|
      ensures FromQueue(r.sent[i], q.sent)
    {
      assert r.sent[i] == q.sent[if k < |q.sent| then k + i else i];
    }
  }

  /** An acknowledgment moves the front on, never back, and forgets only older states. */
  lemma ProcessAckInv(q: Queue, num: uint64, clock: int)
    requires QueueInv(q, clock)
    ensures var r := ProcessAck(q, num);
      && QueueInv(r, clock) && r.current == q.current && r.Back() == q.Back()
      && r.Front().num >= q.Front().num && r.Front().sentAt >= q.Front().sentAt
      && (r == q || r.Front().num == num)
      && Retains(q, r, None)
  {
    hide Chain, Times, Numbers, PerByte, Retains;
    FrontLeast(q, clock);
    AckRetains(q, num);
    var k := FindNum(q.sent, num);
    if k < |q.sent| {
      SuffixKeeps(q, ProcessAck(q, num), clock, k);
      assert q.Front().num <= q.sent[k].num;
    }
  }

  lemma PushInv(q: Queue, events: seq<UserEvent>, clock: int)
    requires QueueInv(q, clock) && PerByte(events)
    ensures QueueInv(Push(q, events), clock)
  {
  }
}
