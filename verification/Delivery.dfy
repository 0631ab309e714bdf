/** From datagrams to the screen: fragments of server instructions in any order, lost and repeated at will. */
module Delivery {
  import opened Basics
  import opened Wire
  import opened Fragments
  import opened Assemblies
  import opened Reassembly
  import opened Receiver

  /** What the server sent under a fragment id. */
  datatype Told = Told(inst: Instruction, mtu: int)

  type ServerBook = map<uint64, Told>

  ghost function AsBook(z: Zlib, told: ServerBook): Book {
    map id | id in told :: Call(z.deflate(MarshalInstruction(told[id].inst)), told[id].mtu)
  }

  ghost predicate ServerOk(z: Zlib, told: ServerBook) {
    Lossless(z) && BookOk(AsBook(z, told)) && forall id :: id in told ==> Sized(told[id].inst)
  }

  /** A datagram the server really sent. */
  ghost predicate Genuine(z: Zlib, told: ServerBook, datagram: bytes)
    requires ServerOk(z, told)
  {
    exists f :: FromBook(AsBook(z, told), f) && datagram == MarshalFragment(f)
  }

  ghost predicate ToldBy(told: ServerBook, inst: Instruction) {
    exists id :: id in told && told[id].inst == inst
  }

  datatype EndState = EndState(assembly: AssemblyState, screen: ReceiverState)

  function RecvOne(z: Zlib, st: EndState, datagram: bytes): EndState {
    var h := Hear(z, st.assembly, datagram);
    EndState(h.assembly, if h.heard.Instructed? then Receive(st.screen, h.heard.inst, true) else st.screen)
  }

  function RecvAll(z: Zlib, datagrams: seq<bytes>): EndState {
    if datagrams == [] then EndState(EMPTY, BLANK_SCREEN)
    else RecvOne(z, RecvAll(z, datagrams[..|datagrams| - 1]), datagrams[|datagrams| - 1])
  }

  /** The instructions a schedule of datagrams yields, in order. */
  function HeardFrom(z: Zlib, datagrams: seq<bytes>): seq<Instruction> {
    if datagrams == [] then []
    else
      var n := |datagrams| - 1;
      var h := Hear(z, RecvAll(z, datagrams[..n]).assembly, datagrams[n]).heard;
      HeardFrom(z, datagrams[..n]) + if h.Instructed? then [h.inst] else []
  }

  /** What the client shows is what the instructions it heard make of a blank screen, for any datagrams at all. */
  lemma {:induction false} ScreenIsHeard(z: Zlib, datagrams: seq<bytes>)
    ensures RecvAll(z, datagrams).screen == Deliver(HeardFrom(z, datagrams))
    decreases |datagrams|
  {
    hide Hear, Receive;
    if datagrams != [] {
      var n := |datagrams| - 1;
      ScreenIsHeard(z, datagrams[..n]);
      var before, now := HeardFrom(z, datagrams[..n]), HeardFrom(z, datagrams);
      assert now == before || (|now| == |before| + 1 && now[..|before|] == before);
    }
  }

  /** The server's shutdown is noted exactly when an instruction heard among the datagrams announced it. */
  lemma ShutdownHeardIff(z: Zlib, datagrams: seq<bytes>)
    ensures RecvAll(z, datagrams).screen.remoteShutdown
       <==> exists i :: 0 <= i < |HeardFrom(z, datagrams)| && HeardFrom(z, datagrams)[i].newNum == SHUTDOWN_NUM
  {
    hide RecvAll, HeardFrom, Deliver;
    ScreenIsHeard(z, datagrams);
    ShutdownNotedIff(HeardFrom(z, datagrams));
  }

  /** A compressed instruction is read back, unless it is over 4 MB or of another protocol version. */
  lemma ReadGenuine(z: Zlib, inst: Instruction)
    requires Lossless(z) && Sized(inst)
    ensures ReadPayload(z, z.deflate(MarshalInstruction(inst)))
         == if |MarshalInstruction(inst)| > 4194304 then Rejected(BadFragment(TooLarge))
            else if inst.protocolVersion != 2 then Rejected(VersionMismatch)
            else Instructed(inst)
  {
    hide UnmarshalInstruction, MarshalInstruction;
    InstructionRoundTrip(inst);
  }

  /** A genuine datagram keeps the assembly faithful and yields nothing the server did not say. */
  lemma HearGenuine(z: Zlib, told: ServerBook, st: AssemblyState, datagram: bytes)
    requires ServerOk(z, told) && Genuine(z, told, datagram) && AssemblyOk(st, AsBook(z, told))
    ensures var h := Hear(z, st, datagram);
      && AssemblyOk(h.assembly, AsBook(z, told))
      && (h.heard.Instructed? ==> ToldBy(told, h.heard.inst))
  {
    hide AssemblyOk, Add, Fits, Chunks, ReadPayload, ParseFragment, MarshalFragment, Sized;
    var book := AsBook(z, told);
    var f :| FromBook(book, f) && datagram == MarshalFragment(f);
    GenuineNumber(book, f);
    FragmentRoundTrip(f);
    AddOk(st, book, f);
    ReadGenuine(z, told[f.id].inst);
  }

  lemma GenuineNumber(book: Book, f: Fragment)
    requires BookOk(book) && FromBook(book, f)
    ensures f.num < FINAL_BIT
  {
    hide Chunks;
    PiecesAreMessage(book, f.id);
  }

  lemma {:induction false} HeardIsTold(z: Zlib, told: ServerBook, datagrams: seq<bytes>)
    requires ServerOk(z, told)
    requires forall i :: 0 <= i < |datagrams| ==> Genuine(z, told, datagrams[i])
    ensures AssemblyOk(RecvAll(z, datagrams).assembly, AsBook(z, told))
    ensures forall i :: 0 <= i < |HeardFrom(z, datagrams)| ==> ToldBy(told, HeardFrom(z, datagrams)[i])
    decreases |datagrams|
  {
    hide ServerOk, AssemblyOk, Genuine, Hear, ToldBy, Receive, AsBook;
    if datagrams == [] {
      StartOk(z, told);
    } else {
      var n := |datagrams| - 1;
      HeardIsTold(z, told, datagrams[..n]);
      HearGenuine(z, told, RecvAll(z, datagrams[..n]).assembly, datagrams[n]);
      var before, now := HeardFrom(z, datagrams[..n]), HeardFrom(z, datagrams);
      assert now == before || (|now| == |before| + 1 && now[..|before|] == before);
    }
  }

  lemma StartOk(z: Zlib, told: ServerBook)
    requires ServerOk(z, told)
    ensures AssemblyOk(EMPTY, AsBook(z, told))
  {
    EmptyOk(AsBook(z, told));
  }

  // ---------------------------------------------------------------- what arrives is heard

  function Marshalled(fs: seq<Fragment>): (d: seq<bytes>)
    ensures |d| == |fs|
  {
    seq(|fs|, i requires 0 <= i < |fs| => MarshalFragment(fs[i]))
  }

  lemma HearFragment(z: Zlib, st: AssemblyState, f: Fragment)
    requires f.num < FINAL_BIT
    ensures var r := Add(st, f);
      Hear(z, st, MarshalFragment(f))
        == Inbound(r.state, if r.payload.None? then Nothing else ReadPayload(z, r.payload.value))
  {
    hide Add, ReadPayload, ParseFragment, MarshalFragment;
    FragmentRoundTrip(f);
  }

  lemma RecvNext(z: Zlib, before: seq<bytes>, d: bytes)
    ensures var st := RecvAll(z, before);
      var h := Hear(z, st.assembly, d);
      && RecvAll(z, before + [d]) == RecvOne(z, st, d)
      && HeardFrom(z, before + [d]) == HeardFrom(z, before) + if h.heard.Instructed? then [h.heard.inst] else []
  {
    hide Hear, RecvOne;
    assert (before + [d])[..|before|] == before;
  }

  /** Pieces of one message, short of covering it, change only the assembly. */
  lemma {:induction false} PiecesUnheard(
      z: Zlib, before: seq<bytes>, id: uint64, pieces: seq<Fragment>, fs: seq<Fragment>)
    requires Message(id, pieces) && forall i :: 0 <= i < |fs| ==> fs[i] in pieces
    requires var st := RecvAll(z, before).assembly;
      st.arrived == Count(st.frags) && (!st.haveID || st.currentID != id)
    requires !Covers(fs, pieces)
    ensures RecvAll(z, before + Marshalled(fs)).assembly == AddAll(RecvAll(z, before).assembly, fs)
    ensures HeardFrom(z, before + Marshalled(fs)) == HeardFrom(z, before)
    decreases |fs|
  {
    hide Add, Count, ReadPayload, MarshalFragment, RecvAll, HeardFrom, Hear, Holds;
    var st := RecvAll(z, before).assembly;
    if fs == [] {
      assert before + Marshalled(fs) == before;
      AddNone(st);
    } else {
      var n := |fs| - 1;
      CoversMore(fs, n, pieces);
      PiecesUnheard(z, before, id, pieces, fs[..n]);
      HoldsUntilCovered(st, id, pieces, fs);
      HearFragment(z, AddAll(st, fs[..n]), fs[n]);
      RecvNext(z, before + Marshalled(fs[..n]), MarshalFragment(fs[n]));
      assert before + Marshalled(fs) == before + Marshalled(fs[..n]) + [MarshalFragment(fs[n])];
    }
  }

  /**
   * Complete: after any genuine datagrams, once the pieces of an instruction have all arrived, in any order and
   * with any repetition, it is heard at the last missing one, if it is of this protocol and at most 4 MB.
   */
  lemma CoveredIsHeard(
      z: Zlib, told: ServerBook, before: seq<bytes>, id: uint64, fs: seq<Fragment>, last: Fragment)
    requires ServerOk(z, told) && id in told && forall i :: 0 <= i < |before| ==> Genuine(z, told, before[i])
    requires told[id].inst.protocolVersion == 2 && |MarshalInstruction(told[id].inst)| <= 4194304
    requires var st := RecvAll(z, before).assembly; !st.haveID || st.currentID != id
    requires var pieces := Pieces(AsBook(z, told), id);
      && (forall i :: 0 <= i < |fs| ==> fs[i] in pieces) && last in pieces
      && !Covers(fs, pieces) && Covers(fs + [last], pieces)
    ensures HeardFrom(z, before + Marshalled(fs + [last])) == HeardFrom(z, before) + [told[id].inst]
  {
    hide Add, AddAll, Count, ReadPayload, MarshalFragment, RecvAll, HeardFrom, Hear, Chunks, Covers, Genuine,
      MarshalInstruction, Joined, Sized, Fits, Message, Partial;
    var pieces, st := Pieces(AsBook(z, told), id), RecvAll(z, before).assembly;
    PiecesAreMessage(AsBook(z, told), id);
    HeardIsTold(z, told, before);
    PiecesUnheard(z, before, id, pieces, fs);
    assert (fs + [last])[..|fs|] == fs;
    assert forall i :: 0 <= i < |fs + [last]| ==> (fs + [last])[i] in pieces;
    CompletesWhenCovered(st, id, pieces, fs + [last]);
    PieceNumber(id, pieces, last);
    HearFragment(z, AddAll(st, fs), last);
    ReadGenuine(z, told[id].inst);
    RecvNext(z, before + Marshalled(fs), MarshalFragment(last));
    assert before + Marshalled(fs + [last]) == before + Marshalled(fs) + [MarshalFragment(last)];
  }

  lemma PieceNumber(id: uint64, pieces: seq<Fragment>, f: Fragment)
    requires Message(id, pieces) && f in pieces
    ensures f.num < FINAL_BIT
  {
  }

  /**
   * End to end: for every schedule of datagrams the server really sent, in any order, with any lost,
   * repeated or interleaved, the terminal shows the server state the client acknowledges.
   */
  lemma ScreenFollowsServer<T>(z: Zlib, told: ServerBook, term: Terminal<T>, datagrams: seq<bytes>)
    requires ServerOk(z, told)
    requires forall id :: id in told ==> Correct(term, told[id].inst)
    requires forall i :: 0 <= i < |datagrams| ==> Genuine(z, told, datagrams[i])
    ensures var st, chain := RecvAll(z, datagrams).screen, Rendered(HeardFrom(z, datagrams));
      && Shows(term, st, chain)
      && Linked(chain, st.latestNum) && st.ackNum == st.latestNum && st.applied == Diffs(chain)
  {
    hide ServerOk, Genuine, AssemblyOk, RecvAll, HeardFrom, Correct, Shows, Linked;
    HeardIsTold(z, told, datagrams);
    ScreenIsHeard(z, datagrams);
    var insts := HeardFrom(z, datagrams);
    forall i | 0 <= i < |insts|
      ensures Correct(term, insts[i])
    {
      assert ToldBy(told, insts[i]);
    }
    ScreenIsServerState(term, insts);
    RenderedIsChain(insts);
  }
}
