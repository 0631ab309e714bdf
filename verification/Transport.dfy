/** Transport: a session's receiving side, over the sender it acknowledges to (internal/transport/transport.go). */
module Transports {
  import opened Basics
  import opened Wire
  import opened Fragments
  import opened Assemblies
  import opened Senders
  import R = Receiver
  import M = SenderModel
  import SyncSystem

  /** What one instruction does to the sender is a step of the composed system: the peer is heard. */
  lemma AcknowledgingIsHearing(sys: SyncSystem.System, latest: uint64, inst: Instruction, applyOk: bool, trim: bool)
    requires sys.Shaped()
    ensures var data := R.Acceptable(latest, inst) && inst.diff != [];
      var newest := if R.Accepted(latest, inst, applyOk) then Some(inst.newNum) else None;
      var s := R.Acknowledge(sys.sender, latest, inst, applyOk);
      && s.Shaped()
      && SyncSystem.Next(sys, SyncSystem.Hear(inst.ackNum, data, newest), trim)
         == sys.(sender := s, roundtrips := sys.roundtrips + [s.queue.Front().sentAt])
  {
    hide M.ProcessAck;
  }

  class Transport {
    const sender: Sender
    const assembly: Assembly
    var latestNum: uint64
    var remoteShutdown: bool
    var applied: seq<bytes>  // the diffs handed to Apply and taken by it

    ghost predicate Valid()
      reads this, sender, sender.Streams()
    {
      sender.Valid()
    }

    /** The receiving side's abstract state; the acknowledgment lives in the sender. */
    ghost function Screen(): R.ReceiverState
      reads this, sender
    {
      R.ReceiverState(latestNum, sender.ackNum, remoteShutdown, applied)
    }

    constructor (now: int)
      ensures Valid() && Screen() == R.BLANK_SCREEN
      ensures sender.View() == M.Initial(now) && assembly.View() == EMPTY
    {
      sender := new Sender(now);
      assembly := new Assembly();
      latestNum, remoteShutdown, applied := 0, false, [];
    }

    /** What one datagram says, once its fragment is filed. */
    method Listen(z: Zlib, payload: bytes) returns (heard: R.Heard)
      modifies assembly
      ensures R.Inbound(assembly.View(), heard) == R.Hear(z, old(assembly.View()), payload)
    {
      hide Add, UnmarshalInstruction, Uncompress;
      var frag := ParseFragment(payload);
      if frag.Err? {
        return R.Rejected(R.BadFragment(frag.error));
      }
      var whole := assembly.Ingest(z, frag.value);
      if whole.Err? {
        return R.Rejected(R.BadFragment(whole.error));
      }
      if whole.value.None? {
        return R.Nothing;
      }
      var inst := UnmarshalInstruction(whole.value.value);
      if inst.Err? {
        return R.Rejected(R.BadInstruction(inst.error));
      }
      if inst.value.protocolVersion != M.PROTOCOL_VERSION {
        return R.Rejected(R.VersionMismatch);
      }
      heard := R.Instructed(inst.value);
    }

    /** Renders an acceptable instruction and owes its ack; a terminal that balks leaves the state behind. */
    method Show(inst: Instruction, applyOk: bool) returns (err: bool)
      modifies this`latestNum, this`applied, sender`pendingDataAck, sender`ackNum
      ensures err == (inst.diff != [] && !applyOk)
      ensures sender.pendingDataAck == (old(sender.pendingDataAck) || inst.diff != [])
      ensures if err then latestNum == old(latestNum) && applied == old(applied) && sender.ackNum == old(sender.ackNum)
        else
          && latestNum == inst.newNum && applied == R.Applied(old(applied), inst)
          && sender.ackNum == if inst.newNum > old(sender.ackNum) then inst.newNum else old(sender.ackNum)
    {
      if |inst.diff| > 0 {
        sender.SetDataAck();
        if !applyOk {
          return true;
        }
        applied := applied + [inst.diff];
      }
      latestNum := inst.newNum;
      sender.SetAckNum(inst.newNum);
      err := false;
    }

    /**
     * Recv once an instruction is complete; `applyOk` is whether the terminal took the diff, and
     * `roundtrip` the time reported to the connection.
     */
    method Act(inst: Instruction, applyOk: bool) returns (err: bool, roundtrip: int)
      requires Valid()
      modifies this, sender
      ensures Valid()
      ensures Screen() == R.Receive(old(Screen()), inst, applyOk)
      ensures sender.View() == R.Acknowledge(old(sender.View()), old(latestNum), inst, applyOk)
      ensures err == (R.Acceptable(old(latestNum), inst) && inst.diff != [] && !applyOk)
      ensures roundtrip == sender.queue.Front().sentAt
    {
      hide M.ProcessAck;
      sender.ProcessAcknowledgmentThrough(inst.ackNum);
      roundtrip := sender.NoteRoundtripSuccess();
      if inst.newNum == M.SHUTDOWN_NUM {
        remoteShutdown := true;
      }
      if inst.newNum <= latestNum || inst.oldNum != latestNum {
        return false, roundtrip;
      }
      err := Show(inst, applyOk);
    }

    method Recv(z: Zlib, payload: bytes, applyOk: bool)
      returns (heard: R.Heard, applyErr: bool, roundtrip: Option<int>)
      requires Valid()
      modifies this, sender, assembly
      ensures Valid()
      ensures R.Inbound(assembly.View(), heard) == R.Hear(z, old(assembly.View()), payload)
      ensures heard.Instructed? ==>
        && Screen() == R.Receive(old(Screen()), heard.inst, applyOk)
        && sender.View() == R.Acknowledge(old(sender.View()), old(latestNum), heard.inst, applyOk)
        && applyErr == (R.Acceptable(old(latestNum), heard.inst) && heard.inst.diff != [] && !applyOk)
        && roundtrip == Some(sender.queue.Front().sentAt)
      ensures !heard.Instructed? ==>
        Screen() == old(Screen()) && sender.View() == old(sender.View()) && !applyErr && roundtrip == None
    {
      hide R.Hear, R.Receive, R.Acknowledge;
      applyErr, roundtrip := false, None;
      heard := Listen(z, payload);
      if heard.Instructed? {
        var t;
        applyErr, t := Act(heard.inst, applyOk);
        roundtrip := Some(t);
      }
    }
  }
}
