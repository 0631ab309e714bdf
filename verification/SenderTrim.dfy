/** The sender that trims its streams behaves as one that never does. */
module SenderTrim {
  import opened Basics
  import opened Wire
  import opened UserStreams
  import opened SenderModel
  import opened SenderInvariant

  function CutEntries(sent: seq<Entry>, k: nat): (r: seq<Entry>)
    ensures |r| == |sent|
    ensures forall i :: 0 <= i < |sent| ==> r[i] == sent[i].(events := Drop(sent[i].events, k))
  {
    seq(|sent|, i requires 0 <= i < |sent| => sent[i].(events := Drop(sent[i].events, k)))
  }

  /** The queue with the first `k` events of every stream cut away. */
  function Cut(q: Queue, k: nat): (r: Queue)
    ensures q.Shaped() ==> r.Shaped()
  {
    Queue(Drop(q.current, k), CutEntries(q.sent, k), q.assumed)
  }

  function CutState(s: SenderState, k: nat): (r: SenderState)
    ensures s.Shaped() ==> r.Shaped()
  {
    s.(queue := Cut(s.queue, k))
  }

  /** At most the acknowledged front has been cut. */
  ghost predicate Cuttable(q: Queue, k: nat) {
    q.Shaped() && Chain(q) && k <= |q.Front().events|
  }

  lemma CutShape(q: Queue, k: nat, i: nat)
    requires Cuttable(q, k) && i < |q.sent|
    ensures k <= |q.sent[i].events| <= |q.current|
    ensures Cut(q, k).sent[i].events == q.sent[i].events[k..] && Cut(q, k).current == q.current[k..]
    ensures q.sent[i].events == q.Front().events[..k] + Cut(q, k).sent[i].events
    ensures q.current == q.Front().events[..k] + Cut(q, k).current
  {
    assert q.sent[i].events <= q.current;
    assert i == 0 || q.sent[0].events <= q.sent[i].events;
  }

  /** Cutting changes no comparison of a retained stream with the current one, and no diff. */
  lemma CutCompare(q: Queue, k: nat, i: nat)
    requires Cuttable(q, k) && i < |q.sent|
    ensures q.current == q.sent[i].events <==> Cut(q, k).current == Cut(q, k).sent[i].events
    ensures DiffFrom(Cut(q, k).current, Cut(q, k).sent[i].events) == DiffFrom(q.current, q.sent[i].events)
  {
    CutShape(q, k, i);
    hide *;
    var p, c, e := q.Front().events[..k], Cut(q, k).current, Cut(q, k).sent[i].events;
    DiffIgnoresPrefix(p, c, e);
    if p + c == p + e {
      assert (p + c)[|p|..] == c && (p + e)[|p|..] == e;
    }
  }

  lemma CutCompares(q: Queue, k: nat)
    requires Cuttable(q, k)
    ensures q.current == q.Front().events <==> Cut(q, k).current == Cut(q, k).Front().events
    ensures q.current == q.Back().events <==> Cut(q, k).current == Cut(q, k).Back().events
    ensures q.current == q.Assumed().events <==> Cut(q, k).current == Cut(q, k).Assumed().events
    ensures DiffFrom(Cut(q, k).current, Cut(q, k).Assumed().events) == DiffFrom(q.current, q.Assumed().events)
  {
    hide Chain, DiffFrom, Drop;
    CutCompare(q, k, 0);
    CutCompare(q, k, |q.sent| - 1);
    CutCompare(q, k, q.assumed);
  }

  lemma ScanCut(sent: seq<Entry>, k: nat, now: int, timeout: int, i: nat)
    requires 0 < i <= |sent|
    ensures ScanAssumed(CutEntries(sent, k), now, timeout, i) == ScanAssumed(sent, now, timeout, i)
    decreases |sent| - i
  {
    if i < |sent| && Recent(sent[i], now, timeout) {
      ScanCut(sent, k, now, timeout, i + 1);
    }
  }

  /** Trimming a cut queue is cutting the whole front off the uncut one. */
  lemma CutRationalize(q: Queue, k: nat)
    requires Cuttable(q, k)
    ensures Rationalize(Cut(q, k)) == Cut(q, |q.Front().events|)
  {
    var n := |q.Front().events|;
    var known := Cut(q, k).sent[0].events;
    forall i | 0 <= i < |q.sent|
      ensures Trimmed(Cut(q, k).sent, known)[i] == Cut(q, n).sent[i]
    {
      CutShape(q, k, i);
      CutShape(q, n, i);
    }
    CutShape(q, k, 0);
    CutShape(q, n, 0);
    assert Trimmed(Cut(q, k).sent, known) == Cut(q, n).sent;
  }

  lemma CutRefresh(q: Queue, k: nat, now: int, timeout: int)
    requires Cuttable(q, k)
    ensures Refresh(Cut(q, k), now, timeout, true) == Cut(Refresh(q, now, timeout, false), |q.Front().events|)
    ensures Cuttable(Refresh(q, now, timeout, false), |q.Front().events|)
  {
    ScanCut(q.sent, k, now, timeout, 1);
    CutRationalize(q.(assumed := ScanAssumed(q.sent, now, timeout, 1)), k);
  }

  /** Cutting touches neither the shape of a queue nor the number and time of its back. */
  lemma CuttableQueue(q: Queue, k: nat)
    requires Cuttable(q, k)
    ensures q.Shaped() && Cut(q, k).Shaped()
    ensures Cut(q, k).Back().num == q.Back().num && Cut(q, k).Back().sentAt == q.Back().sentAt
  {
    hide Chain, Drop;
  }

  lemma CutSchedule(s: SenderState, k: nat, t: Timers, now: int, link: Link)
    requires Cuttable(s.queue, k)
    ensures ScheduleSend(Cut(s.queue, k), t, now, link) == ScheduleSend(s.queue, t, now, link)
    ensures ScheduleAck(CutState(s, k), now, link) == ScheduleAck(s, now, link)
  {
    hide Cuttable, Cut, DiffFrom;
    CuttableQueue(s.queue, k);
    CutCompares(s.queue, k);
  }

  lemma CutCalculate(s: SenderState, k: nat, now: int, link: Link)
    requires Cuttable(s.queue, k)
    ensures var n := |s.queue.Front().events|;
      && CalculateTimers(CutState(s, k), now, link, true) == CutState(CalculateTimers(s, now, link, false), n)
      && Cuttable(CalculateTimers(s, now, link, false).queue, n)
  {
    hide Chain, Refresh, Drop, CutEntries, ScheduleSend, ScheduleAck;
    CutRefresh(s.queue, k, now, link.timeout);
    CutSchedule(s.(queue := Refresh(s.queue, now, link.timeout, false)), |s.queue.Front().events|, s.timers, now, link);
  }

  lemma CutAddSent(q: Queue, k: nat, now: int, num: uint64)
    requires q.Shaped()
    ensures AddSent(Cut(q, k), now, num) == Cut(AddSent(q, now, num), k)
  {
    hide Drop;
    var a, b := AddSent(Cut(q, k), now, num), Cut(AddSent(q, now, num), k);
    assert a.sent == b.sent;
  }

  lemma CutTouch(q: Queue, k: nat, now: int)
    requires q.Shaped()
    ensures Touch(Cut(q, k), now) == Cut(Touch(q, now), k)
  {
    hide Drop;
    assert Touch(Cut(q, k), now).sent == Cut(Touch(q, now), k).sent;
  }

  lemma CutSendEmptyAck(s: SenderState, k: nat, now: int, link: Link, chaff: bytes, ok: bool)
    requires s.Shaped()
    ensures var r := SendEmptyAck(s, now, link, chaff, ok);
      SendEmptyAck(CutState(s, k), now, link, chaff, ok) == Outcome(CutState(r.state, k), r.emission)
  {
    hide Drop, AddSent;
    CutAddSent(s.queue, k, now, EmptyAckNum(s));
  }

  lemma CutNum(s: SenderState, k: nat)
    requires Cuttable(s.queue, k)
    ensures DataNum(CutState(s, k)) == DataNum(s)
  {
    hide Cuttable, Cut, DiffFrom;
    CuttableQueue(s.queue, k);
    CutCompares(s.queue, k);
  }

  lemma CutPrepare(q: Queue, k: nat, now: int, again: bool)
    requires q.Shaped()
    ensures Prepare(Cut(q, k), now, again) == Cut(Prepare(q, now, again), k)
  {
    hide Touch, Cut;
    CutTouch(q, k, now);
  }

  lemma CutCommit(q: Queue, k: nat, now: int, num: uint64, again: bool)
    requires q.Shaped()
    ensures Commit(Cut(q, k), now, num, again) == Cut(Commit(q, now, num, again), k)
  {
    hide AddSent, Drop;
    CutAddSent(q, k, now, num);
  }

  lemma CutInstruction(s: SenderState, k: nat, diff: bytes, num: uint64, chaff: bytes)
    requires s.Shaped()
    ensures MakeInstruction(CutState(s, k), diff, num, chaff) == MakeInstruction(s, diff, num, chaff)
  {
  }

  lemma CutCounts(s: SenderState, k: nat, num: uint64, ok: bool)
    ensures SendInFragments(CutState(s, k), num, ok) == CutState(SendInFragments(s, num, ok), k)
  {
  }

  lemma CutSendToReceiver(s: SenderState, k: nat, now: int, diff: bytes, chaff: bytes, ok: bool)
    requires Cuttable(s.queue, k)
    ensures var r := SendToReceiver(s, now, diff, chaff, ok);
      SendToReceiver(CutState(s, k), now, diff, chaff, ok) == Outcome(CutState(r.state, k), r.emission)
  {
    hide Drop, AddSent, Touch, Cut, DataNum, Prepare, Commit, MakeInstruction, SendInFragments;
    CuttableQueue(s.queue, k);
    var num := DataNum(s);
    var again := num == s.queue.Back().num;
    CutNum(s, k);
    CutPrepare(s.queue, k, now, again);
    var q := Prepare(s.queue, now, again);
    CutInstruction(s.(queue := q), k, diff, num, chaff);
    CutCounts(s.(queue := q), k, num, ok);
    CutCommit(q, k, now, num, again);
  }

  lemma CutTransmit(s: SenderState, k: nat, now: int, link: Link, chaff: bytes, ok: bool)
    requires Cuttable(s.queue, k)
    ensures var r := Transmit(s, now, link, chaff, ok);
      Transmit(CutState(s, k), now, link, chaff, ok) == Outcome(CutState(r.state, k), r.emission)
  {
    hide Drop, Chain, SendEmptyAck, SendToReceiver, DiffFrom, CutEntries;
    CutCompares(s.queue, k);
    CutSendEmptyAck(s, k, now, link, chaff, ok);
    CutSendToReceiver(s, k, now, DiffFrom(s.queue.current, s.queue.Assumed().events), chaff, ok);
  }

  /** A trimming tick on a cut state emits what the untrimmed tick emits, and leaves its state cut. */
  lemma TickSimulates(s: SenderState, k: nat, now: int, link: Link, chaff: bytes, ok: bool)
    requires Cuttable(s.queue, k)
    ensures var r := Tick(s, now, link, chaff, ok, false);
      Tick(CutState(s, k), now, link, chaff, ok, true)
        == Outcome(CutState(r.state, |s.queue.Front().events|), r.emission)
  {
    hide Chain, CalculateTimers, Transmit, Drop, CutEntries;
    CutCalculate(s, k, now, link);
    CutTransmit(CalculateTimers(s, now, link, false), |s.queue.Front().events|, now, link, chaff, ok);
  }

  lemma {:induction false} FindCut(sent: seq<Entry>, k: nat, num: uint64)
    ensures FindNum(CutEntries(sent, k), num) == FindNum(sent, num)
    decreases |sent|
  {
    if sent != [] && sent[0].num != num {
      FindCut(sent[1..], k, num);
      assert CutEntries(sent, k)[1..] == CutEntries(sent[1..], k);
    }
  }

  lemma AckSimulates(q: Queue, k: nat, num: uint64)
    requires q.Shaped()
    ensures ProcessAck(Cut(q, k), num) == Cut(ProcessAck(q, num), k)
  {
    hide Drop;
    FindCut(q.sent, k, num);
    var i := FindNum(q.sent, num);
    if i < |q.sent| {
      assert CutEntries(q.sent, k)[i..] == CutEntries(q.sent[i..], k);
    }
  }

  lemma PushSimulates(q: Queue, k: nat, events: seq<UserEvent>)
    requires Cuttable(q, k)
    ensures Push(Cut(q, k), events) == Cut(Push(q, events), k)
  {
    CutShape(q, k, 0);
  }
}
