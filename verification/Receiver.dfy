/** Which server instructions reach the screen (internal/transport/transport.go). */
module Receiver {
  import opened Basics
  import opened Wire
  import opened Fragments
  import opened Assemblies
  import SM = SenderModel

  const SHUTDOWN_NUM := SM.SHUTDOWN_NUM

  datatype ReceiverState = ReceiverState(latestNum: uint64, ackNum: uint64, remoteShutdown: bool, applied: seq<bytes>)

  const BLANK_SCREEN := ReceiverState(0, 0, false, [])

  // ---------------------------------------------------------------- from datagram to instruction

  datatype RecvError = BadFragment(e: FragmentError) | BadInstruction(w: Varint.WireError) | VersionMismatch

  datatype Heard = Nothing | Rejected(err: RecvError) | Instructed(inst: Instruction)

  function ReadPayload(z: Zlib, payload: bytes): Heard {
    match Uncompress(z, payload)
    case Err(e) => Rejected(BadFragment(e))
    case Ok(b) =>
      match UnmarshalInstruction(b)
      case Err(e) => Rejected(BadInstruction(e))
      case Ok(inst) =>
        if inst.protocolVersion != SM.PROTOCOL_VERSION then Rejected(VersionMismatch) else Instructed(inst)
  }

  datatype Inbound = Inbound(assembly: AssemblyState, heard: Heard)

  function Hear(z: Zlib, st: AssemblyState, datagram: bytes): Inbound {
    match ParseFragment(datagram)
    case Err(e) => Inbound(st, Rejected(BadFragment(e)))
    case Ok(f) =>
      var r := Add(st, f);
      Inbound(r.state, if r.payload.None? then Nothing else ReadPayload(z, r.payload.value))
  }

  // ---------------------------------------------------------------- the acceptance rule

  /** Newer than the screen, and diffed from exactly what the screen shows. */
  predicate Acceptable(latest: uint64, inst: Instruction) {
    inst.newNum > latest && inst.oldNum == latest
  }

  /** Rendered when the terminal takes the diff; an empty diff renders nothing and cannot fail. */
  predicate Accepted(latest: uint64, inst: Instruction, applyOk: bool) {
    Acceptable(latest, inst) && (inst.diff == [] || applyOk)
  }

  function Applied(diffs: seq<bytes>, inst: Instruction): seq<bytes> {
    if inst.diff == [] then diffs else diffs + [inst.diff]
  }

  function Receive(st: ReceiverState, inst: Instruction, applyOk: bool): ReceiverState {
    var noted := st.(remoteShutdown := st.remoteShutdown || inst.newNum == SHUTDOWN_NUM);
    if Accepted(st.latestNum, inst, applyOk) then
      noted.(latestNum := inst.newNum,
             ackNum := if inst.newNum > st.ackNum then inst.newNum else st.ackNum,
             applied := Applied(st.applied, inst))
    else noted
  }

  /** What an instruction does to the sender: its ack is processed, and ours follows what was rendered. */
  function Acknowledge(s: SM.SenderState, latest: uint64, inst: Instruction, applyOk: bool): SM.SenderState
    requires s.Shaped()
  {
    var t := s.(queue := SM.ProcessAck(s.queue, inst.ackNum),
                pendingDataAck := s.pendingDataAck || (Acceptable(latest, inst) && inst.diff != []));
    if Accepted(latest, inst, applyOk) then SM.SetAckNum(t, inst.newNum) else t
  }

  // ---------------------------------------------------------------- schedules of instructions

  /** The state after a schedule whose renderings all succeed. */
  function Deliver(insts: seq<Instruction>): ReceiverState {
    if insts == [] then BLANK_SCREEN
    else Receive(Deliver(insts[..|insts| - 1]), insts[|insts| - 1], true)
  }

  /** The instructions of a schedule that were rendered, in order. */
  function Rendered(insts: seq<Instruction>): seq<Instruction> {
    if insts == [] then []
    else
      var n := |insts| - 1;
      var before := Rendered(insts[..n]);
      if Accepted(Deliver(insts[..n]).latestNum, insts[n], true) then before + [insts[n]] else before
  }

  function Diffs(insts: seq<Instruction>): seq<bytes> {
    if insts == [] then [] else Applied(Diffs(insts[..|insts| - 1]), insts[|insts| - 1])
  }

  /** Each instruction starts from the state the one before it ended in, the first from state 0. */
  ghost predicate Linked(chain: seq<Instruction>, last: uint64) {
    && (forall i :: 0 < i < |chain| ==> chain[i].oldNum == chain[i - 1].newNum)
    && (chain != [] ==> chain[0].oldNum == 0)
    && (forall i :: 0 <= i < |chain| ==> chain[i].oldNum < chain[i].newNum)
    && last == (if chain == [] then 0 else chain[|chain| - 1].newNum)
  }

  /**
   * Whatever is lost, repeated or reordered, the diffs painted are one chain from state 0 to the state
   * acknowledged, and nothing else is ever painted.
   */
  lemma {:induction false} RenderedIsChain(insts: seq<Instruction>)
    ensures var st, chain := Deliver(insts), Rendered(insts);
      && Linked(chain, st.latestNum)
      && st.ackNum == st.latestNum
      && st.applied == Diffs(chain)
    decreases |insts|
  {
    if insts != [] {
      var n := |insts| - 1;
      var before, inst := Rendered(insts[..n]), insts[n];
      RenderedIsChain(insts[..n]);
      assert (before + [inst])[..|before|] == before;
    }
  }

  /** The server's shutdown is noted exactly when any instruction heard announced it, rendered or not. */
  lemma {:induction false} ShutdownNotedIff(insts: seq<Instruction>)
    ensures Deliver(insts).remoteShutdown <==> exists i :: 0 <= i < |insts| && insts[i].newNum == SHUTDOWN_NUM
    decreases |insts|
  {
    if insts != [] {
      var n := |insts| - 1;
      var before := insts[..n];
      ShutdownNotedIff(before);
      assert forall i :: 0 <= i < n ==> before[i] == insts[i];
    }
  }

  /** The instructions of `chain`, each diffed from the state before it, lead on from state `from`. */
  predicate LeadsOn(from: uint64, chain: seq<Instruction>)
    decreases |chain|
  {
    chain == []
    || (chain[0].oldNum == from && chain[0].newNum > from && LeadsOn(chain[0].newNum, chain[1..]))
  }

  function EndOf(from: uint64, chain: seq<Instruction>): uint64 {
    if chain == [] then from else chain[|chain| - 1].newNum
  }

  /**
   * The client never gets stuck: after any schedule whatever, instructions diffed from the state it
   * acknowledges are all rendered, and it acknowledges the last.
   */
  lemma {:induction false} CatchesUp(insts: seq<Instruction>, chain: seq<Instruction>)
    requires LeadsOn(Deliver(insts).latestNum, chain)
    ensures Rendered(insts + chain) == Rendered(insts) + chain
    ensures Deliver(insts + chain).latestNum == EndOf(Deliver(insts).latestNum, chain)
    decreases |chain|
  {
    hide Rendered, Deliver;
    if chain == [] {
      assert insts + chain == insts && Rendered(insts) + chain == Rendered(insts);
    } else {
      var next := insts + [chain[0]];
      RenderNext(insts, chain[0]);
      CatchesUp(next, chain[1..]);
      assert next + chain[1..] == insts + chain;
      assert Rendered(insts) + [chain[0]] + chain[1..] == Rendered(insts) + chain;
    }
  }

  lemma RenderNext(insts: seq<Instruction>, inst: Instruction)
    requires inst.oldNum == Deliver(insts).latestNum < inst.newNum
    ensures Rendered(insts + [inst]) == Rendered(insts) + [inst]
    ensures Deliver(insts + [inst]).latestNum == inst.newNum
  {
    assert (insts + [inst])[..|insts|] == insts;
  }

  /** Along a chain no stretch of server states is painted twice. */
  lemma {:induction false} PaintedOnce(chain: seq<Instruction>, last: uint64, i: nat, j: nat)
    requires Linked(chain, last) && i < j < |chain|
    ensures chain[i].newNum <= chain[j].oldNum
    decreases j
  {
    if i < j - 1 {
      PaintedOnce(chain, last, i, j - 1);
    }
  }

  /** Once a schedule has shown the shutdown state, nothing that follows paints or acknowledges any more. */
  lemma {:induction false} ShutdownLatches(insts: seq<Instruction>, more: seq<Instruction>)
    requires Deliver(insts).latestNum == SHUTDOWN_NUM
    ensures Rendered(insts + more) == Rendered(insts)
    ensures var st, end := Deliver(insts), Deliver(insts + more);
      end.latestNum == SHUTDOWN_NUM && end.ackNum == st.ackNum && end.applied == st.applied
    decreases |more|
  {
    if more == [] {
      assert insts + more == insts;
    } else {
      var n := |more| - 1;
      ShutdownLatches(insts, more[..n]);
      assert (insts + more)[..|insts + more| - 1] == insts + more[..n];
    }
  }

  // ---------------------------------------------------------------- the screen

  /** A terminal: how bytes change it, and which screen each server state number stands for. */
  datatype Terminal<!T> = Terminal(paint: (T, bytes) -> T, screens: uint64 -> T)

  function Paint<T>(term: Terminal<T>, screen: T, diff: bytes): T {
    if diff == [] then screen else term.paint(screen, diff)
  }

  /** A correct diff turns its old state's screen into its new state's; the shutdown state has no fixed screen. */
  ghost predicate Correct<T>(term: Terminal<T>, inst: Instruction) {
    inst.newNum < SHUTDOWN_NUM ==> Paint(term, term.screens(inst.oldNum), inst.diff) == term.screens(inst.newNum)
  }

  function ScreenAfter<T>(term: Terminal<T>, diffs: seq<bytes>): T {
    if diffs == [] then term.screens(0)
    else term.paint(ScreenAfter(term, diffs[..|diffs| - 1]), diffs[|diffs| - 1])
  }

  lemma PaintLast<T>(term: Terminal<T>, diffs: seq<bytes>, inst: Instruction)
    ensures ScreenAfter(term, Applied(diffs, inst)) == Paint(term, ScreenAfter(term, diffs), inst.diff)
  {
    if inst.diff != [] {
      assert (diffs + [inst.diff])[..|diffs|] == diffs;
    }
  }

  /** The screen a correct schedule must leave: the latest state's, or the shutdown diff painted over its reference. */
  ghost predicate Shows<T>(term: Terminal<T>, st: ReceiverState, chain: seq<Instruction>) {
    var screen := ScreenAfter(term, st.applied);
    if st.latestNum < SHUTDOWN_NUM then screen == term.screens(st.latestNum)
    else chain != [] && screen == Paint(term, term.screens(chain[|chain| - 1].oldNum), chain[|chain| - 1].diff)
  }

  /**
   * For every schedule of correct instructions the terminal shows exactly the server state that is
   * acknowledged, the shutdown state included.
   */
  lemma {:induction false} ScreenIsServerState<T>(term: Terminal<T>, insts: seq<Instruction>)
    requires forall i :: 0 <= i < |insts| ==> Correct(term, insts[i])
    ensures Shows(term, Deliver(insts), Rendered(insts))
    decreases |insts|
  {
    if insts != [] {
      var n := |insts| - 1;
      var st := Deliver(insts[..n]);
      ScreenIsServerState(term, insts[..n]);
      RenderedIsChain(insts[..n]);
      if Accepted(st.latestNum, insts[n], true) {
        PaintLast(term, st.applied, insts[n]);
      }
    }
  }
}
