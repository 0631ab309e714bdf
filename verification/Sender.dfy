/** The sender as an object: queued streams are shared objects, trimmed in place (internal/transport/sender.go). */
module Senders {
  import opened Basics
  import opened Wire
  import opened UserStreams
  import opened Fragments
  import M = SenderModel

  datatype TimestampedState = TimestampedState(sentAt: int, num: uint64, state: UserStream)

  /** What the outside does to one transmission: chaff, MTU, zlib, each Send's success, and the burst budget. */
  datatype Air = Air(chaff: bytes, mtu: int, zlib: Zlib, sends: nat -> bool, burst: nat)

  /** The datagrams of an instruction, in order. */
  function Datagrams(frags: seq<Fragment>): (d: seq<bytes>)
    ensures |d| == |frags|
  {
    seq(|frags|, i requires 0 <= i < |frags| => MarshalFragment(frags[i]))
  }

  /**
   * The fragments are sent in order until one fails, which leaves the instruction unable to arrive whole, or
   * the burst budget is spent.
   */
  ghost predicate SentUntil(frags: seq<Fragment>, air: Air, ok: bool, sent: seq<bytes>) {
    && sent <= Datagrams(frags) && |sent| <= air.burst
    && (forall k :: 0 <= k < |sent| ==> air.sends(k))
    && (ok ==> |sent| == |frags| || |sent| == air.burst)
    && (!ok ==> |sent| < |frags| && |sent| < air.burst && !air.sends(|sent|))
  }

  ghost predicate Delivers(id: uint64, inst: Instruction, air: Air, ok: bool, sent: seq<bytes>)
    requires air.mtu > FRAG_HEADER_LEN
  {
    SentUntil(Chunks(id, air.zlib.deflate(MarshalInstruction(inst)), air.mtu - FRAG_HEADER_LEN, 0), air, ok, sent)
  }

  class Sender {
    var currentState: UserStream
    var sentStates: seq<TimestampedState>
    var assumedReceiverStateIdx: nat
    const fragmenter: Fragmenter
    var nextAckTime: int
    var nextSendTime: int
    var haveSendTime: bool
    var shutdownInProgress: bool
    var shutdownTries: nat
    var ackNum: uint64
    var pendingDataAck: bool
    var mindelayClock: int
    var haveMindelay: bool

    ghost var queue: M.Queue  // the value of the current and queued streams

    ghost function Streams(): set<object>
      reads this`currentState, this`sentStates
    {
      {currentState} + set i | 0 <= i < |sentStates| :: sentStates[i].state
    }

    /** No two retained states share a stream, and `queue` is what the streams hold. */
    ghost predicate Valid()
      reads this`currentState, this`sentStates, this`assumedReceiverStateIdx, this`queue, Streams()
      ensures Valid() ==> queue.Shaped()
    {
      && queue.Shaped() && |sentStates| == |queue.sent| && assumedReceiverStateIdx == queue.assumed
      && currentState.events == queue.current
      && (forall i :: 0 <= i < |sentStates| ==>
            && sentStates[i].state != currentState
            && M.Entry(sentStates[i].sentAt, sentStates[i].num, sentStates[i].state.events) == queue.sent[i])
      && (forall i, j :: 0 <= i < j < |sentStates| ==> sentStates[i].state != sentStates[j].state)
      && fragmenter !in Streams()
    }

    ghost function Timers(): M.Timers
      reads this
    {
      M.Timers(nextAckTime, nextSendTime, haveSendTime, mindelayClock, haveMindelay)
    }

    /** The sender's abstract state. */
    ghost function View(): M.SenderState
      reads this
    {
      M.SenderState(queue, Timers(), shutdownInProgress, shutdownTries, ackNum, pendingDataAck)
    }

    constructor (now: int)
      ensures Valid() && View() == M.Initial(now)
      ensures fresh(Streams()) && fresh(fragmenter) && fragmenter.View() == FRESH
    {
      var initial := new UserStream();
      currentState := new UserStream();
      sentStates := [TimestampedState(now, 0, initial)];
      assumedReceiverStateIdx := 0;
      fragmenter := new Fragmenter();
      nextAckTime, nextSendTime, haveSendTime := now, 0, false;
      shutdownInProgress, shutdownTries := false, 0;
      ackNum, pendingDataAck := 0, false;
      mindelayClock, haveMindelay := 0, false;
      queue := M.Initial(now).queue;
    }

    /** Input reaches the current state through State(). */
    method PushKeys(keys: bytes)
      requires Valid()
      modifies this`queue, currentState
      ensures Valid() && queue == M.Push(old(queue), KeyEvents(keys))
    {
      currentState.PushKeys(keys);
      queue := M.Push(queue, KeyEvents(keys));
    }

    method PushResize(width: int64, height: int64)
      requires Valid()
      modifies this`queue, currentState
      ensures Valid() && queue == M.Push(old(queue), [Resize(width, height)])
    {
      currentState.PushResize(width, height);
      queue := M.Push(queue, [Resize(width, height)]);
    }

    // -------------------------------------------------------------- timers

    method UpdateAssumedReceiverState(now: int, timeout: int)
      requires Valid()
      modifies this`assumedReceiverStateIdx, this`queue
      ensures Valid() && queue == old(queue).(assumed := M.ScanAssumed(old(queue).sent, now, timeout, 1))
    {
      assumedReceiverStateIdx := 0;
      var i := 1;
      while i < |sentStates|
        modifies this`assumedReceiverStateIdx
        invariant 1 <= i <= |sentStates| && assumedReceiverStateIdx == i - 1
        invariant M.ScanAssumed(queue.sent, now, timeout, 1) == M.ScanAssumed(queue.sent, now, timeout, i)
      {
        assert sentStates[i].sentAt == queue.sent[i].sentAt;
        if now - sentStates[i].sentAt < timeout + M.ACK_DELAY {
          assumedReceiverStateIdx := i;
        } else {
          break;
        }
        i := i + 1;
      }
      queue := queue.(assumed := assumedReceiverStateIdx);
    }

    /** The front is cut last: it is the very prefix the others are cut by. */
    method RationalizeStates()
      requires Valid()
      modifies this`queue, Streams()
      ensures Valid() && queue == M.Rationalize(old(queue))
    {
      var known := sentStates[0].state;
      ghost var k := known.events;
      currentState.Subtract(known);
      var i := |sentStates|;
      while i > 0
        invariant 0 <= i <= |sentStates| && queue == old(queue)
        invariant currentState.events == Subtracted(queue.current, k)
        invariant forall j :: 0 <= j < i ==> sentStates[j].state.events == queue.sent[j].events
        invariant forall j :: i <= j < |sentStates| ==>
          sentStates[j].state.events == Subtracted(queue.sent[j].events, k)
      {
        i := i - 1;
        sentStates[i].state.Subtract(known);
      }
      queue := M.Rationalize(queue);
    }

    method SameAs(i: nat) returns (same: bool)
      requires Valid() && i < |sentStates|
      ensures same == (queue.current == queue.sent[i].events)
    {
      same := currentState.Equal(sentStates[i].state);
    }

    /** The four ways the current state can stand to the back, the guess and the front of the queue. */
    method SetSendTime(
        sameAsBack: bool, sameAsAssumed: bool, sameAsFront: bool, backSentAt: int, now: int, link: M.Link)
      modifies this`mindelayClock, this`haveMindelay, this`nextSendTime, this`haveSendTime
      ensures var t := old(Timers());
        Timers() ==
          if !sameAsBack then
            var clock := if t.haveMindelay then t.mindelayClock else now;
            M.Timers(t.nextAckTime, M.Max(clock + M.SEND_MINDELAY, backSentAt + link.interval), true, clock, true)
          else if !sameAsAssumed then t.(nextSendTime := backSentAt + link.interval, haveSendTime := true)
          else if !sameAsFront then t.(nextSendTime := backSentAt + link.timeout + M.ACK_DELAY, haveSendTime := true)
          else t.(haveSendTime := false)
    {
      if !sameAsBack {
        if !haveMindelay {
          mindelayClock := now;
          haveMindelay := true;
        }
        var target := mindelayClock + M.SEND_MINDELAY;
        var wait := backSentAt + link.interval;
        if wait > target {
          target := wait;
        }
        nextSendTime := target;
        haveSendTime := true;
      } else if !sameAsAssumed {
        nextSendTime := backSentAt + link.interval;
        haveSendTime := true;
      } else if !sameAsFront {
        nextSendTime := backSentAt + (link.timeout + M.ACK_DELAY);
        haveSendTime := true;
      } else {
        haveSendTime := false;
      }
    }

    method ScheduleSend(now: int, link: M.Link)
      requires Valid()
      modifies this`mindelayClock, this`haveMindelay, this`nextSendTime, this`haveSendTime
      ensures Valid() && Timers() == M.ScheduleSend(queue, old(Timers()), now, link)
    {
      var sameAsBack := SameAs(|sentStates| - 1);
      var sameAsAssumed := SameAs(assumedReceiverStateIdx);
      var sameAsFront := SameAs(0);
      SetSendTime(sameAsBack, sameAsAssumed, sameAsFront, sentStates[|sentStates| - 1].sentAt, now, link);
    }

    method SetAckTime(backSentAt: int, now: int, link: M.Link)
      modifies this`nextAckTime
      ensures nextAckTime ==
        if shutdownInProgress || ackNum == M.SHUTDOWN_NUM then backSentAt + link.interval
        else if pendingDataAck && old(nextAckTime) > now + M.ACK_DELAY then now + M.ACK_DELAY
        else old(nextAckTime)
    {
      if pendingDataAck && nextAckTime > now + M.ACK_DELAY {
        nextAckTime := now + M.ACK_DELAY;
      }
      if shutdownInProgress || ackNum == M.SHUTDOWN_NUM {
        nextAckTime := backSentAt + link.interval;
      }
    }

    method Refresh(now: int, timeout: int)
      requires Valid()
      modifies this`assumedReceiverStateIdx, this`queue, Streams()
      ensures Valid() && queue == M.Refresh(old(queue), now, timeout, true)
    {
      hide M.ScanAssumed, M.Rationalize;
      UpdateAssumedReceiverState(now, timeout);
      RationalizeStates();
    }

    /** Only the ack time is left once the send time is set, so its two assignments go together. */
    method CalculateTimers(now: int, link: M.Link)
      requires Valid()
      modifies this`assumedReceiverStateIdx, this`queue, this`nextAckTime, this`mindelayClock, this`haveMindelay,
        this`nextSendTime, this`haveSendTime, Streams()
      ensures Valid() && View() == M.CalculateTimers(old(View()), now, link, true)
    {
      hide M.Refresh, M.ScheduleSend;
      Refresh(now, link.timeout);
      ScheduleSend(now, link);
      SetAckTime(sentStates[|sentStates| - 1].sentAt, now, link);
    }

    method WaitTime(now: int, link: M.Link) returns (wait: int)
      requires Valid()
      modifies this`assumedReceiverStateIdx, this`queue, this`nextAckTime, this`mindelayClock, this`haveMindelay,
        this`nextSendTime, this`haveSendTime, Streams()
      ensures Valid() && View() == M.CalculateTimers(old(View()), now, link, true)
      ensures wait == M.WaitTime(old(View()), now, link, true)
    {
      hide M.CalculateTimers;
      CalculateTimers(now, link);
      var next := nextAckTime;
      if haveSendTime && nextSendTime < next {
        next := nextSendTime;
      }
      wait := if next > now then next - now else 0;
    }

    // -------------------------------------------------------------- sending

    method Append(now: int, num: uint64)
      requires Valid()
      modifies this`sentStates, this`queue
      ensures Valid() && fresh(Streams() - old(Streams()))
      ensures queue == old(queue).(sent := old(queue).sent + [M.Entry(now, num, old(queue).current)])
    {
      var state := currentState.Clone();
      sentStates := sentStates + [TimestampedState(now, num, state)];
      queue := queue.(sent := queue.sent + [M.Entry(now, num, queue.current)]);
    }

    method Erase(idx: nat)
      requires Valid() && idx < |sentStates|
      requires assumedReceiverStateIdx < |sentStates| - 1
      modifies this`sentStates, this`assumedReceiverStateIdx, this`queue
      ensures Valid() && Streams() <= old(Streams())
      ensures queue == M.Queue(old(queue).current, old(queue).sent[..idx] + old(queue).sent[idx + 1..],
        if old(queue).assumed >= idx && old(queue).assumed > 0 then old(queue).assumed - 1 else old(queue).assumed)
    {
      sentStates := sentStates[..idx] + sentStates[idx + 1..];
      if assumedReceiverStateIdx >= idx && assumedReceiverStateIdx > 0 {
        assumedReceiverStateIdx := assumedReceiverStateIdx - 1;
      }
      queue := M.Queue(queue.current, queue.sent[..idx] + queue.sent[idx + 1..], assumedReceiverStateIdx);
      assert forall i :: 0 <= i < |sentStates| ==>
        var k := if i < idx then i else i + 1;
        sentStates[i] == old(sentStates)[k] && queue.sent[i] == old(queue).sent[k];
    }

    method AddSentState(now: int, num: uint64)
      requires Valid()
      modifies this`sentStates, this`assumedReceiverStateIdx, this`queue
      ensures Valid() && fresh(Streams() - old(Streams()))
      ensures queue == M.AddSent(old(queue), now, num)
    {
      Append(now, num);
      if |sentStates| > M.MAX_QUEUE {
        Erase(|sentStates| - 16);
      }
    }

    method Compose(diff: bytes, newNum: uint64, chaff: bytes) returns (inst: Instruction)
      requires Valid()
      ensures inst == M.MakeInstruction(View(), diff, newNum, chaff)
    {
      inst := Instruction(M.PROTOCOL_VERSION, sentStates[assumedReceiverStateIdx].num, newNum, ackNum,
                          sentStates[0].num, diff, chaff);
    }

    /** Sends the fragments in order until one fails or the burst budget runs out. */
    method SendInFragments(diff: bytes, newNum: uint64, air: Air)
      returns (ok: bool, inst: Instruction, sent: seq<bytes>)
      requires Valid() && air.mtu > FRAG_HEADER_LEN
      modifies this`shutdownTries, this`pendingDataAck, fragmenter
      ensures Valid() && inst == M.MakeInstruction(old(View()), diff, newNum, air.chaff)
      ensures View() == M.SendInFragments(old(View()), newNum, ok)
      ensures Delivers(fragmenter.nextID, inst, air, ok, sent)
    {
      hide Chunks, SentUntil, MarshalInstruction, M.MakeInstruction;
      inst := Compose(diff, newNum, air.chaff);
      if newNum == M.SHUTDOWN_NUM {
        shutdownTries := shutdownTries + 1;
      }
      var frags := fragmenter.MakeFragments(air.zlib, MarshalInstruction(inst), air.mtu);
      ok, sent := SendAll(frags, air);
      if ok {
        pendingDataAck := false;
      }
    }

    method EmptyAckNum() returns (num: uint64)
      requires Valid()
      ensures Valid() && num == M.EmptyAckNum(View())
    {
      num := M.NextNum(sentStates[|sentStates| - 1].num);
      if shutdownInProgress {
        num := M.SHUTDOWN_NUM;
      }
    }

    method Settle(now: int)
      modifies this`nextAckTime, this`haveSendTime
      ensures Timers() == old(Timers()).(nextAckTime := now + M.ACK_INTERVAL, haveSendTime := false)
    {
      nextAckTime := now + M.ACK_INTERVAL;
      haveSendTime := false;
    }

    method SendEmptyAck(now: int, link: M.Link, air: Air)
      returns (ok: bool, inst: Instruction, sent: seq<bytes>)
      requires Valid() && air.mtu > FRAG_HEADER_LEN
      modifies this`sentStates, this`assumedReceiverStateIdx, this`queue, this`nextAckTime, this`haveSendTime,
        this`shutdownTries, this`pendingDataAck, fragmenter
      ensures Valid() && fresh(Streams() - old(Streams()))
      ensures M.Outcome(View(), if ok then M.Sent(inst) else M.Failed(inst))
           == M.SendEmptyAck(old(View()), now, link, air.chaff, ok)
      ensures Delivers(fragmenter.nextID, inst, air, ok, sent)
    {
      hide Delivers, M.AddSent, M.MakeInstruction, M.EmptyAckNum;
      var newNum := EmptyAckNum();
      ok, inst, sent := SendInFragments([], newNum, air);
      if !ok {
        nextAckTime := now + link.interval;
        return;
      }
      AddSentState(now, newNum);
      Settle(now);
    }

    method TouchBack(now: int)
      requires Valid()
      modifies this`sentStates, this`queue
      ensures Valid() && Streams() == old(Streams()) && queue == M.Touch(old(queue), now)
    {
      var n := |sentStates| - 1;
      sentStates := sentStates[n := sentStates[n].(sentAt := now)];
      queue := M.Touch(queue, now);
      assert Streams() == old(Streams()) by {
        assert forall i :: 0 <= i < |sentStates| ==> sentStates[i].state == old(sentStates)[i].state;
      }
    }

    method DataNum() returns (num: uint64, again: bool)
      requires Valid()
      ensures Valid() && num == M.DataNum(View()) && again == (num == queue.Back().num)
    {
      var back := sentStates[|sentStates| - 1];
      var same := currentState.Equal(back.state);
      num := if same then back.num else M.NextNum(back.num);
      if shutdownInProgress {
        num := M.SHUTDOWN_NUM;
      }
      again := num == back.num;
    }

    /** Retransmitting a known state bumps its time before the attempt. */
    method Prepare(now: int, again: bool)
      requires Valid()
      modifies this`sentStates, this`queue
      ensures Valid() && Streams() == old(Streams())
      ensures queue == M.Prepare(old(queue), now, again)
    {
      hide M.Touch;
      if again {
        TouchBack(now);
      }
    }

    method Commit(now: int, num: uint64, again: bool)
      requires Valid()
      modifies this`sentStates, this`assumedReceiverStateIdx, this`queue
      ensures Valid() && fresh(Streams() - old(Streams()))
      ensures queue == M.Commit(old(queue), now, num, again)
    {
      hide M.AddSent;
      if !again {
        AddSentState(now, num);
      }
      assumedReceiverStateIdx := |sentStates| - 1;
      queue := queue.(assumed := assumedReceiverStateIdx);
    }

    method SendToReceiver(now: int, diff: bytes, air: Air)
      returns (ok: bool, inst: Instruction, sent: seq<bytes>)
      requires Valid() && air.mtu > FRAG_HEADER_LEN
      modifies this`sentStates, this`assumedReceiverStateIdx, this`queue, this`nextAckTime, this`haveSendTime,
        this`shutdownTries, this`pendingDataAck, fragmenter
      ensures Valid() && fresh(Streams() - old(Streams()))
      ensures M.Outcome(View(), if ok then M.Sent(inst) else M.Failed(inst))
           == M.SendToReceiver(old(View()), now, diff, air.chaff, ok)
      ensures Delivers(fragmenter.nextID, inst, air, ok, sent)
    {
      hide Delivers, M.MakeInstruction, M.Prepare, M.Commit, M.DataNum;
      var newNum, again := DataNum();
      Prepare(now, again);
      ok, inst, sent := SendInFragments(diff, newNum, air);
      if !ok {
        return;
      }
      Commit(now, newNum, again);
      Settle(now);
    }

    /** Tick once calculateTimers has run and something is due. */
    method Transmit(now: int, link: M.Link, air: Air)
      returns (err: bool, emission: M.Emission, sent: seq<bytes>)
      requires Valid() && air.mtu > FRAG_HEADER_LEN
      modifies this`sentStates, this`assumedReceiverStateIdx, this`queue, this`nextAckTime, this`haveSendTime,
        this`haveMindelay, this`shutdownTries, this`pendingDataAck, fragmenter
      ensures Valid() && fresh(Streams() - old(Streams()))
      ensures M.Outcome(View(), emission) == M.Transmit(old(View()), now, link, air.chaff, !err)
      ensures err == emission.Failed?
      ensures if emission.Silent? then sent == [] else Delivers(fragmenter.nextID, emission.inst, air, !err, sent)
    {
      hide Delivers, M.SendEmptyAck, M.SendToReceiver, DiffFrom;
      var diff := currentState.Diff(sentStates[assumedReceiverStateIdx].state);
      assert diff == DiffFrom(queue.current, queue.Assumed().events);
      if diff == [] {
        err, emission, sent := AnswerOnly(now, link, air);
        return;
      }
      var ok, inst;
      ok, inst, sent := SendToReceiver(now, diff, air);
      if !ok {
        return true, M.Failed(inst), sent;
      }
      haveMindelay := false;
      err, emission := false, M.Sent(inst);
    }

    /** The branch of Tick with nothing to say: an empty ack if one is due. */
    method AnswerOnly(now: int, link: M.Link, air: Air)
      returns (err: bool, emission: M.Emission, sent: seq<bytes>)
      requires Valid() && air.mtu > FRAG_HEADER_LEN
      requires DiffFrom(queue.current, queue.Assumed().events) == []
      modifies this`sentStates, this`assumedReceiverStateIdx, this`queue, this`nextAckTime, this`haveSendTime,
        this`haveMindelay, this`shutdownTries, this`pendingDataAck, fragmenter
      ensures Valid() && fresh(Streams() - old(Streams()))
      ensures M.Outcome(View(), emission) == M.Transmit(old(View()), now, link, air.chaff, !err)
      ensures err == emission.Failed?
      ensures if emission.Silent? then sent == [] else Delivers(fragmenter.nextID, emission.inst, air, !err, sent)
    {
      hide Delivers, M.SendEmptyAck, M.SendToReceiver, DiffFrom;
      err, emission, sent := false, M.Silent, [];
      if nextAckTime <= now {
        var ok, inst;
        ok, inst, sent := SendEmptyAck(now, link, air);
        if !ok {
          return true, M.Failed(inst), sent;
        }
        emission := M.Sent(inst);
        haveMindelay := false;
      }
      if haveSendTime && nextSendTime <= now {
        haveSendTime := false;
        haveMindelay := false;
      }
    }

    method Tick(now: int, link: M.Link, air: Air)
      returns (err: bool, emission: M.Emission, sent: seq<bytes>)
      requires Valid() && air.mtu > FRAG_HEADER_LEN
      modifies this, Streams(), fragmenter
      ensures Valid() && fresh(Streams() - old(Streams()))
      ensures M.Outcome(View(), emission) == M.Tick(old(View()), now, link, air.chaff, !err, true)
      ensures err == emission.Failed?
      ensures if emission.Silent? then sent == [] else Delivers(fragmenter.nextID, emission.inst, air, !err, sent)
    {
      hide Delivers, M.CalculateTimers, M.Transmit;
      CalculateTimers(now, link);
      if now < nextAckTime && (!haveSendTime || now < nextSendTime) {
        return false, M.Silent, [];
      }
      err, emission, sent := Transmit(now, link, air);
    }

    // -------------------------------------------------------------- hearing the peer, and shutdown

    method ProcessAcknowledgmentThrough(num: uint64)
      requires Valid()
      modifies this`sentStates, this`assumedReceiverStateIdx, this`queue
      ensures Valid() && Streams() <= old(Streams()) && queue == M.ProcessAck(old(queue), num)
    {
      var i := 0;
      while i < |sentStates| && sentStates[i].num != num
        invariant 0 <= i <= |sentStates|
        invariant forall j :: 0 <= j < i ==> sentStates[j].num != num
      {
        i := i + 1;
      }
      assert i == M.FindNum(queue.sent, num) by {
        FoundAt(queue.sent, num, i);
      }
      if i < |sentStates| {
        sentStates := sentStates[i..];
        assumedReceiverStateIdx := 0;
        queue := M.Queue(queue.current, queue.sent[i..], 0);
      }
    }

    /** The time reported to the connection as the last confirmed round trip. */
    method NoteRoundtripSuccess() returns (t: int)
      requires Valid()
      ensures t == queue.Front().sentAt
    {
      t := sentStates[0].sentAt;
    }

    method SetAckNum(n: uint64)
      modifies this`ackNum
      ensures ackNum == if n > old(ackNum) then n else old(ackNum)
    {
      if n > ackNum {
        ackNum := n;
      }
    }

    method SetDataAck()
      modifies this`pendingDataAck
      ensures pendingDataAck
    {
      pendingDataAck := true;
    }

    method StartShutdown()
      modifies this`shutdownInProgress
      ensures shutdownInProgress
    {
      if !shutdownInProgress {
        shutdownInProgress := true;
      }
    }

    method ShutdownAcknowledged() returns (r: bool)
      requires Valid()
      ensures r == (shutdownInProgress && queue.Front().num == M.SHUTDOWN_NUM)
    {
      r := shutdownInProgress && sentStates[0].num == M.SHUTDOWN_NUM;
    }

    method ShutdownAckTimedOut() returns (r: bool)
      ensures r == M.TimedOut(View())
    {
      r := shutdownInProgress && shutdownTries >= M.SHUTDOWN_RETRIES;
    }
  }

  lemma FoundAt(sent: seq<M.Entry>, num: uint64, i: nat)
    requires i <= |sent| && (forall j :: 0 <= j < i ==> sent[j].num != num)
    requires i < |sent| ==> sent[i].num == num
    ensures i == M.FindNum(sent, num)
  {
  }

  method SendAll(frags: seq<Fragment>, air: Air) returns (ok: bool, sent: seq<bytes>)
    ensures SentUntil(frags, air, ok, sent)
  {
    sent := [];
    for k := 0 to |frags|
      invariant |sent| == k <= air.burst && sent <= Datagrams(frags)
      invariant forall i :: 0 <= i < k ==> air.sends(i)
    {
      if k == air.burst {
        return true, sent;
      }
      if !air.sends(k) {
        return false, sent;
      }
      sent := sent + [MarshalFragment(frags[k])];
    }
    ok := true;
  }
}
