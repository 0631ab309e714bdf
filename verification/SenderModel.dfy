/**
 * The outgoing half of state synchronization as a transition system on values
 * (internal/transport/sender.go).  Class Sender carries out these steps in place; everything proved
 * about runs is proved here.
 *
 * Times are nanoseconds.  `trim` says whether calculateTimers cuts the known-received prefix, as the
 * program does, or leaves the streams whole.
 */
module SenderModel {
  import opened Basics
  import opened Wire
  import opened UserStreams

  const MS: int := 1_000_000
  const SEND_INTERVAL_MIN := 20 * MS
  const SEND_INTERVAL_MAX := 250 * MS
  const ACK_INTERVAL := 3000 * MS
  const ACK_DELAY := 100 * MS
  const SEND_MINDELAY := 8 * MS
  const MIN_RTO := 50 * MS
  const MAX_RTO := 1000 * MS
  const SHUTDOWN_RETRIES := 16
  const PROTOCOL_VERSION: uint32 := 2
  const SHUTDOWN_NUM: uint64 := 0xFFFF_FFFF_FFFF_FFFF
  const MAX_QUEUE := 32

  /** What the connection answers during one step: the paced send interval and the RTO. */
  datatype Link = Link(interval: int, timeout: int)

  predicate ValidLink(link: Link) {
    && SEND_INTERVAL_MIN <= link.interval <= SEND_INTERVAL_MAX
    && MIN_RTO <= link.timeout <= MAX_RTO
  }

  datatype Entry = Entry(sentAt: int, num: uint64, events: seq<UserEvent>)

  /** The current state, the states sent and not yet forgotten, and which one the peer is guessed to hold. */
  datatype Queue = Queue(current: seq<UserEvent>, sent: seq<Entry>, assumed: nat)
  {
    predicate Shaped() {
      0 < |sent| && assumed < |sent|
    }

    function Front(): Entry
      requires Shaped()
    {
      sent[0]
    }

    function Back(): Entry
      requires Shaped()
    {
      sent[|sent| - 1]
    }

    function Assumed(): Entry
      requires Shaped()
    {
      sent[assumed]
    }
  }

  datatype Timers = Timers(
    nextAckTime: int, nextSendTime: int, haveSendTime: bool, mindelayClock: int, haveMindelay: bool)

  datatype SenderState = SenderState(
    queue: Queue, timers: Timers, shutdown: bool, shutdownTries: nat, ackNum: uint64, pendingDataAck: bool)
  {
    predicate Shaped() {
      queue.Shaped()
    }
  }

  function Initial(t0: int): (s: SenderState)
    ensures s.Shaped()
  {
    SenderState(Queue([], [Entry(t0, 0, [])], 0), Timers(t0, 0, false, 0, false), false, 0, 0, false)
  }

  /** uint64 addition of one. */
  function NextNum(n: uint64): uint64 {
    if n == SHUTDOWN_NUM then 0 else n + 1
  }

  // ---------------------------------------------------------------- calculateTimers

  predicate Recent(e: Entry, now: int, timeout: int) {
    now - e.sentAt < timeout + ACK_DELAY
  }

  /** The scan of updateAssumedReceiverState from index `i`, the states before it all recent. */
  function ScanAssumed(sent: seq<Entry>, now: int, timeout: int, i: nat): (k: nat)
    requires 0 < i <= |sent|
    ensures i - 1 <= k < |sent|
    ensures forall j :: i <= j <= k ==> Recent(sent[j], now, timeout)
    ensures k + 1 < |sent| ==> !Recent(sent[k + 1], now, timeout)
    decreases |sent| - i
  {
    if i == |sent| || !Recent(sent[i], now, timeout) then i - 1
    else ScanAssumed(sent, now, timeout, i + 1)
  }

  function Trimmed(sent: seq<Entry>, known: seq<UserEvent>): (r: seq<Entry>)
    ensures |r| == |sent|
  {
    seq(|sent|, i requires 0 <= i < |sent| => sent[i].(events := Subtracted(sent[i].events, known)))
  }

  function Rationalize(q: Queue): (r: Queue)
    requires q.Shaped()
    ensures r.Shaped()
  {
    var known := q.sent[0].events;
    Queue(Subtracted(q.current, known), Trimmed(q.sent, known), q.assumed)
  }

  function Refresh(q: Queue, now: int, timeout: int, trim: bool): (r: Queue)
    requires q.Shaped()
    ensures r.Shaped()
  {
    var a := q.(assumed := ScanAssumed(q.sent, now, timeout, 1));
    if trim then Rationalize(a) else a
  }

  function Max(a: int, b: int): int {
    if a < b then b else a
  }

  /** Chooses the next send time from the three ways the current state can be ahead. */
  function ScheduleSend(q: Queue, t: Timers, now: int, link: Link): Timers
    requires q.Shaped()
  {
    if q.current != q.Back().events then
      var clock := if t.haveMindelay then t.mindelayClock else now;
      Timers(t.nextAckTime, Max(clock + SEND_MINDELAY, q.Back().sentAt + link.interval), true, clock, true)
    else if q.current != q.Assumed().events then
      t.(nextSendTime := q.Back().sentAt + link.interval, haveSendTime := true)
    else if q.current != q.Front().events then
      t.(nextSendTime := q.Back().sentAt + link.timeout + ACK_DELAY, haveSendTime := true)
    else
      t.(haveSendTime := false)
  }

  /** Either side has begun to shut down. */
  predicate ShuttingDown(s: SenderState) {
    s.shutdown || s.ackNum == SHUTDOWN_NUM
  }

  /** A data ack is owed promptly; a shutdown on either side is paced by the send interval. */
  function ScheduleAck(s: SenderState, now: int, link: Link): int
    requires s.Shaped()
  {
    if ShuttingDown(s) then s.queue.Back().sentAt + link.interval
    else if s.pendingDataAck && s.timers.nextAckTime > now + ACK_DELAY then now + ACK_DELAY
    else s.timers.nextAckTime
  }

  function CalculateTimers(s: SenderState, now: int, link: Link, trim: bool): (r: SenderState)
    requires s.Shaped()
    ensures r.Shaped()
  {
    var q := Refresh(s.queue, now, link.timeout, trim);
    var t := s.(queue := q);
    t.(timers := ScheduleSend(q, s.timers, now, link).(nextAckTime := ScheduleAck(t, now, link)))
  }

  // ---------------------------------------------------------------- Tick

  predicate SendDue(s: SenderState, now: int) {
    s.timers.haveSendTime && s.timers.nextSendTime <= now
  }

  predicate AckDue(s: SenderState, now: int) {
    s.timers.nextAckTime <= now
  }

  /** What one step put on the wire.  A failed instruction never reaches the peer whole. */
  datatype Emission = Silent | Sent(inst: Instruction) | Failed(inst: Instruction)

  datatype Outcome = Outcome(state: SenderState, emission: Emission)

  function MakeInstruction(s: SenderState, diff: bytes, newNum: uint64, chaff: bytes): Instruction
    requires s.Shaped()
  {
    Instruction(PROTOCOL_VERSION, s.queue.Assumed().num, newNum, s.ackNum, s.queue.Front().num, diff, chaff)
  }

  /** The bookkeeping of sendInFragments: it counts shutdown attempts, and success settles the data ack. */
  function SendInFragments(s: SenderState, newNum: uint64, ok: bool): (r: SenderState)
    ensures r.queue == s.queue
  {
    s.(shutdownTries := if newNum == SHUTDOWN_NUM then s.shutdownTries + 1 else s.shutdownTries,
       pendingDataAck := !ok && s.pendingDataAck)
  }

  function AddSent(q: Queue, now: int, num: uint64): (r: Queue)
    requires q.Shaped()
    ensures r.Shaped()
  {
    var longer := q.sent + [Entry(now, num, q.current)];
    if |longer| > MAX_QUEUE then
      var cut := |longer| - 16;
      Queue(q.current, longer[..cut] + longer[cut + 1..],
            if q.assumed >= cut && q.assumed > 0 then q.assumed - 1 else q.assumed)
    else q.(sent := longer)
  }

  function EmptyAckNum(s: SenderState): uint64
    requires s.Shaped()
  {
    if s.shutdown then SHUTDOWN_NUM else NextNum(s.queue.Back().num)
  }

  function SendEmptyAck(s: SenderState, now: int, link: Link, chaff: bytes, ok: bool): (r: Outcome)
    requires s.Shaped()
    ensures r.state.Shaped()
  {
    var newNum := EmptyAckNum(s);
    var inst := MakeInstruction(s, [], newNum, chaff);
    var t := SendInFragments(s, newNum, ok);
    if !ok then Outcome(t.(timers := t.timers.(nextAckTime := now + link.interval)), Failed(inst))
    else
      Outcome(t.(queue := AddSent(t.queue, now, newNum),
                 timers := t.timers.(nextAckTime := now + ACK_INTERVAL, haveSendTime := false)),
              Sent(inst))
  }

  function DataNum(s: SenderState): uint64
    requires s.Shaped()
  {
    if s.shutdown then SHUTDOWN_NUM
    else if s.queue.current == s.queue.Back().events then s.queue.Back().num
    else NextNum(s.queue.Back().num)
  }

  function Touch(q: Queue, now: int): (r: Queue)
    requires q.Shaped()
    ensures r.Shaped()
  {
    q.(sent := q.sent[|q.sent| - 1 := q.Back().(sentAt := now)])
  }

  /** A state already accounted for has its time bumped before it is sent again. */
  function Prepare(q: Queue, now: int, again: bool): (r: Queue)
    requires q.Shaped()
    ensures r.Shaped()
  {
    if again then Touch(q, now) else q
  }

  /** A new state is queued once it is out; either way the peer is now assumed to hold the back. */
  function Commit(q: Queue, now: int, num: uint64, again: bool): (r: Queue)
    requires q.Shaped()
    ensures r.Shaped()
  {
    var t := if again then q else AddSent(q, now, num);
    t.(assumed := |t.sent| - 1)
  }

  function SendToReceiver(s: SenderState, now: int, diff: bytes, chaff: bytes, ok: bool): (r: Outcome)
    requires s.Shaped()
    ensures r.state.Shaped()
  {
    var newNum := DataNum(s);
    var again := newNum == s.queue.Back().num;
    var t := s.(queue := Prepare(s.queue, now, again));
    var inst := MakeInstruction(t, diff, newNum, chaff);
    var u := SendInFragments(t, newNum, ok);
    if !ok then Outcome(u, Failed(inst))
    else
      Outcome(u.(queue := Commit(u.queue, now, newNum, again),
                 timers := u.timers.(nextAckTime := now + ACK_INTERVAL, haveSendTime := false)),
              Sent(inst))
  }

  function ForgetMindelay(s: SenderState): (r: SenderState)
    ensures s.Shaped() ==> r.Shaped()
  {
    s.(timers := s.timers.(haveMindelay := false))
  }

  function ForgetSend(s: SenderState): (r: SenderState)
    ensures s.Shaped() ==> r.Shaped()
  {
    s.(timers := s.timers.(haveSendTime := false, haveMindelay := false))
  }

  /** Tick after calculateTimers, when something is due. */
  function Transmit(s: SenderState, now: int, link: Link, chaff: bytes, ok: bool): (r: Outcome)
    requires s.Shaped()
    ensures r.state.Shaped()
  {
    var diff := DiffFrom(s.queue.current, s.queue.Assumed().events);
    if diff != [] then
      var r := SendToReceiver(s, now, diff, chaff, ok);
      if r.emission.Failed? then r else r.(state := ForgetMindelay(r.state))
    else if AckDue(s, now) then
      var r := SendEmptyAck(s, now, link, chaff, ok);
      if r.emission.Failed? then r
      else
        var t := ForgetMindelay(r.state);
        r.(state := if SendDue(t, now) then ForgetSend(t) else t)
    else
      Outcome(if SendDue(s, now) then ForgetSend(s) else s, Silent)
  }

  function Tick(s: SenderState, now: int, link: Link, chaff: bytes, ok: bool, trim: bool): (r: Outcome)
    requires s.Shaped()
    ensures r.state.Shaped()
  {
    var t := CalculateTimers(s, now, link, trim);
    if !AckDue(t, now) && !SendDue(t, now) then Outcome(t, Silent)
    else Transmit(t, now, link, chaff, ok)
  }

  // ---------------------------------------------------------------- the other steps

  function WaitTime(s: SenderState, now: int, link: Link, trim: bool): int
    requires s.Shaped()
  {
    var t := CalculateTimers(s, now, link, trim).timers;
    var next := if t.haveSendTime && t.nextSendTime < t.nextAckTime then t.nextSendTime else t.nextAckTime;
    if next > now then next - now else 0
  }

  /** The index of the first state numbered `num`, or the queue's length. */
  function FindNum(sent: seq<Entry>, num: uint64): (k: nat)
    ensures k <= |sent|
    ensures k < |sent| ==> sent[k].num == num
    ensures forall j :: 0 <= j < k ==> sent[j].num != num
  {
    if sent == [] || sent[0].num == num then 0 else
      var k := FindNum(sent[1..], num) + 1;
      assert forall j :: 0 < j < k ==> sent[j] == sent[1..][j - 1];
      k
  }

  function ProcessAck(q: Queue, num: uint64): (r: Queue)
    requires q.Shaped()
    ensures r.Shaped()
  {
    var k := FindNum(q.sent, num);
    if k < |q.sent| then Queue(q.current, q.sent[k..], 0) else q
  }

  function Push(q: Queue, events: seq<UserEvent>): (r: Queue)
    ensures q.Shaped() ==> r.Shaped()
  {
    q.(current := q.current + events)
  }

  /** The shutdown was tried often enough to give up on its acknowledgment. */
  predicate TimedOut(s: SenderState) {
    s.shutdown && s.shutdownTries >= SHUTDOWN_RETRIES
  }

  function SetAckNum(s: SenderState, n: uint64): (r: SenderState)
    ensures r.queue == s.queue && r.timers == s.timers
  {
    if n > s.ackNum then s.(ackNum := n) else s
  }
}
