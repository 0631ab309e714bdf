/**
 * The client's sender composed with a network that loses, repeats and reorders, and with a peer that
 * follows the State Synchronization Protocol's receiving rules (internal/transport/sender.go,
 * internal/transport/transport.go).
 *
 * The network is the set of instructions ever sent whole: nothing is removed, so any of them may
 * arrive late, again, or never.
 */
module SyncSystem {
  import opened Basics
  import opened Wire
  import opened UserStreams
  import opened SenderModel

  type Streams = map<uint64, seq<UserEvent>>

  datatype System = System(
    sender: SenderState,
    clock: int,
    pushed: seq<UserEvent>,   // everything the user ever entered
    history: Streams,         // what each number stood for when it was sent
    net: set<Instruction>,    // every instruction sent whole
    held: Streams,            // the states the peer holds
    acks: set<uint64>,        // every acknowledgment the peer put on the wire
    txTimes: seq<int>,        // when instructions were sent
    roundtrips: seq<int>)     // round-trip times reported to the connection
  {
    predicate Shaped() {
      sender.Shaped()
    }
  }

  datatype Step =
    | PushKeys(keys: bytes)
    | PushResize(width: int64, height: int64)
    | TickAt(now: int, link: Link, chaff: bytes, ok: bool)
    | WaitAt(now: int, link: Link)
    | Deliver(inst: Instruction)
    | PeerAcks(num: uint64)
    | Hear(ack: uint64, data: bool, newest: Option<uint64>)
    | Quit

  function Start(t0: int): (sys: System)
    ensures sys.Shaped()
  {
    System(Initial(t0), t0, [], map[0 := []], {}, map[0 := []], {}, [], [])
  }

  /** Input streams are Go slices, and the clock never runs backwards; peers acknowledge their newest state. */
  predicate Enabled(sys: System, step: Step) {
    match step
    case PushKeys(keys) => |sys.pushed| + |keys| < TWO63
    case PushResize(_, _) => |sys.pushed| + 1 < TWO63
    case TickAt(now, link, _, _) => sys.clock <= now && ValidLink(link)
    case WaitAt(now, link) => sys.clock <= now && ValidLink(link)
    case Deliver(inst) => inst in sys.net
    case PeerAcks(num) => num in sys.held && forall n :: n in sys.held ==> n <= num
    case Hear(ack, _, _) => ack in sys.acks
    case Quit => true
  }

  /**
   * The peer applies a diff only to a state it holds and only for a number it does not know, and then
   * forgets what the sender has thrown away.
   */
  function Receive(held: Streams, inst: Instruction): Streams {
    if inst.oldNum !in held || inst.newNum in held || DiffEvents(inst.diff).None? then held
    else
      (map n | n in held && n >= inst.throwawayNum :: held[n])
        [inst.newNum := held[inst.oldNum] + DiffEvents(inst.diff).value]
  }

  function PushEvents(sys: System, events: seq<UserEvent>): (r: System)
    requires sys.Shaped()
    ensures r.Shaped()
  {
    sys.(sender := sys.sender.(queue := Push(sys.sender.queue, events)), pushed := sys.pushed + events)
  }

  /** Records an instruction that left whole: the number it mints stands for all the input so far. */
  function Record(sys: System, now: int, r: Outcome): System {
    match r.emission
    case Sent(inst) =>
      System(r.state, now, sys.pushed,
             if inst.newNum < SHUTDOWN_NUM then sys.history[inst.newNum := sys.pushed] else sys.history,
             sys.net + {inst}, sys.held, sys.acks, sys.txTimes + [now], sys.roundtrips)
    case _ => sys.(sender := r.state, clock := now)
  }

  function HearPeer(sys: System, ack: uint64, data: bool, newest: Option<uint64>): (r: System)
    requires sys.Shaped()
    ensures r.Shaped()
  {
    var q := ProcessAck(sys.sender.queue, ack);
    var s := sys.sender.(queue := q, pendingDataAck := data || sys.sender.pendingDataAck);
    var t := if newest.Some? then SetAckNum(s, newest.value) else s;
    sys.(sender := t, roundtrips := sys.roundtrips + [q.Front().sentAt])
  }

  function Next(sys: System, step: Step, trim: bool): (r: System)
    requires sys.Shaped()
    ensures r.Shaped()
  {
    match step
    case PushKeys(keys) => PushEvents(sys, KeyEvents(keys))
    case PushResize(w, h) => PushEvents(sys, [Resize(w, h)])
    case TickAt(now, link, chaff, ok) => Record(sys, now, Tick(sys.sender, now, link, chaff, ok, trim))
    case WaitAt(now, link) => sys.(sender := CalculateTimers(sys.sender, now, link, trim), clock := now)
    case Deliver(inst) => sys.(held := Receive(sys.held, inst))
    case PeerAcks(num) => sys.(acks := sys.acks + {num})
    case Hear(ack, data, newest) => HearPeer(sys, ack, data, newest)
    case Quit => sys.(sender := sys.sender.(shutdown := true))
  }

  function Run(sys: System, steps: seq<Step>, trim: bool): (r: System)
    requires sys.Shaped()
    ensures r.Shaped()
    decreases |steps|
  {
    if steps == [] then sys else Run(Next(sys, steps[0], trim), steps[1..], trim)
  }

  predicate Legal(sys: System, steps: seq<Step>, trim: bool)
    requires sys.Shaped()
    decreases |steps|
  {
    steps == [] || (Enabled(sys, steps[0]) && Legal(Next(sys, steps[0], trim), steps[1..], trim))
  }

  /** A run may be taken in two parts. */
  lemma {:induction false} RunSplits(sys: System, a: seq<Step>, b: seq<Step>, trim: bool)
    requires sys.Shaped()
    ensures Run(sys, a + b, trim) == Run(Run(sys, a, trim), b, trim)
    ensures Legal(sys, a + b, trim) <==> Legal(sys, a, trim) && Legal(Run(sys, a, trim), b, trim)
    decreases |a|
  {
    hide Next, Enabled;
    if a == [] {
      assert a + b == b;
    } else {
      assert (a + b)[1..] == a[1..] + b && (a + b)[0] == a[0];
      RunSplits(Next(sys, a[0], trim), a[1..], b, trim);
    }
  }
}
