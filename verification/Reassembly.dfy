/** Reassembly is sound and complete for every schedule of fragments that were really sent. */
module Reassembly {
  import opened Basics
  import opened Fragments
  import opened Assemblies

  /** What each fragment id stands for: one payload, cut at one MTU. */
  type Book = map<uint64, Call>

  /** The cut needs room for the header, and numbers that leave the final bit free. */
  ghost predicate Fits(id: uint64, call: Call) {
    call.mtu > FRAG_HEADER_LEN && |Chunks(id, call.payload, call.mtu - FRAG_HEADER_LEN, 0)| <= FINAL_BIT
  }

  ghost predicate BookOk(book: Book) {
    forall id :: id in book ==> Fits(id, book[id])
  }

  ghost function Pieces(book: Book, id: uint64): seq<Fragment>
    requires BookOk(book) && id in book
  {
    Chunks(id, book[id].payload, book[id].mtu - FRAG_HEADER_LEN, 0)
  }

  ghost predicate FromBook(book: Book, f: Fragment)
    requires BookOk(book)
  {
    f.id in book && f in Pieces(book, f.id)
  }

  /** Pieces of one message in order: numbered by place, the last one final. */
  ghost predicate Message(id: uint64, pieces: seq<Fragment>) {
    && 0 < |pieces| <= FINAL_BIT
    && forall i :: 0 <= i < |pieces| ==>
         pieces[i].id == id && pieces[i].num == i && pieces[i].final == (i == |pieces| - 1)
  }

  lemma PiecesAreMessage(book: Book, id: uint64)
    requires BookOk(book) && id in book
    ensures Message(id, Pieces(book, id)) && Joined(Pieces(book, id)) == book[id].payload
  {
    assert Fits(id, book[id]);
    hide Chunks;
    ChunksShape(id, book[id].payload, book[id].mtu - FRAG_HEADER_LEN, 0);
  }

  // ---------------------------------------------------------------- partial messages

  /** The slots hold pieces in their places; the total is pinned exactly when the last one is in. */
  ghost predicate Partial(st: AssemblyState, pieces: seq<Fragment>) {
    && |st.frags| <= |pieces|
    && (forall i :: 0 <= i < |st.frags| && st.frags[i].Some? ==> st.frags[i].value == pieces[i])
    && (if st.total == -1 then |st.frags| < |pieces| else st.total == |st.frags| == |pieces|)
  }

  lemma PlaceKeeps(st: AssemblyState, id: uint64, pieces: seq<Fragment>, n: nat)
    requires Message(id, pieces) && n < |pieces|
    requires st.haveID && st.currentID == id ==> Partial(st, pieces)
    ensures var r := Pin(Place(st, pieces[n]), pieces[n]);
      && r.haveID && r.currentID == id && Partial(r, pieces)
      && n < |r.frags| && r.frags[n].Some?
      && (forall i :: 0 <= i < |pieces| && i != n ==>
            (Filled(r, i) <==> st.haveID && st.currentID == id && Filled(st, i)))
  {
    hide Count;
  }

  predicate Filled(st: AssemblyState, i: nat) {
    i < |st.frags| && st.frags[i].Some?
  }

  lemma {:induction false} ContentsJoined(frags: Slots, pieces: seq<Fragment>)
    requires |frags| == |pieces|
    requires forall i :: 0 <= i < |frags| ==> frags[i] == Some(pieces[i])
    ensures Contents(frags) == Joined(pieces)
    decreases |frags|
  {
    if frags != [] {
      ContentsJoined(frags[1..], pieces[1..]);
    }
  }

  /** A whole message has every piece, and its payload is theirs joined. */
  lemma WholeMessage(st: AssemblyState, pieces: seq<Fragment>)
    requires Partial(st, pieces) && st.arrived == Count(st.frags) && |pieces| > 0
    ensures Whole(st) <==> forall i :: 0 <= i < |pieces| ==> Filled(st, i)
    ensures Whole(st) ==> Contents(st.frags) == Joined(pieces)
  {
    hide Count, Contents, Joined;
    if st.total == -1 {
      assert !Filled(st, |pieces| - 1);
    } else {
      WholeIff(st);
      if forall i :: 0 <= i < |pieces| ==> Filled(st, i) {
        forall i | 0 <= i < |st.frags|
          ensures st.frags[i] == Some(pieces[i])
        {
          assert Filled(st, i);
        }
        ContentsJoined(st.frags, pieces);
      }
    }
  }

  // ---------------------------------------------------------------- schedules

  ghost predicate AssemblyOk(st: AssemblyState, book: Book)
    requires BookOk(book)
  {
    && st.arrived == Count(st.frags)
    && (st.haveID ==> st.currentID in book && Partial(st, Pieces(book, st.currentID)))
  }

  lemma PinnedCounts(st: AssemblyState, f: Fragment)
    requires st.arrived == Count(st.frags)
    ensures var t := Pin(Place(st, f), f); t.arrived == Count(t.frags)
  {
    hide Count;
    ArrivedCounts(st, f);
  }

  lemma EmptyOk(book: Book)
    requires BookOk(book)
    ensures AssemblyOk(EMPTY, book)
  {
  }

  /** One fragment of the book keeps the assembly faithful, and what it completes is its own payload. */
  lemma AddOk(st: AssemblyState, book: Book, f: Fragment)
    requires BookOk(book) && AssemblyOk(st, book) && FromBook(book, f)
    ensures var r := Add(st, f);
      && AssemblyOk(r.state, book)
      && (r.payload.Some? ==> r.payload.value == book[f.id].payload)
  {
    hide Count, Place, Pin, Partial, Pieces, Chunks, Contents, Fits;
    var pieces := Pieces(book, f.id);
    PiecesAreMessage(book, f.id);
    var n :| 0 <= n < |pieces| && pieces[n] == f;
    PlaceKeeps(st, f.id, pieces, n);
    PinnedCounts(st, f);
    WholeMessage(Pin(Place(st, f), f), pieces);
  }

  function AddAll(st: AssemblyState, fs: seq<Fragment>): AssemblyState
    decreases |fs|
  {
    if fs == [] then st else Add(AddAll(st, fs[..|fs| - 1]), fs[|fs| - 1]).state
  }

  /** What the last fragment of a schedule completes. */
  function LastOutput(st: AssemblyState, fs: seq<Fragment>): Option<bytes>
    requires fs != []
  {
    Add(AddAll(st, fs[..|fs| - 1]), fs[|fs| - 1]).payload
  }

  lemma {:induction false} AddAllOk(st: AssemblyState, book: Book, fs: seq<Fragment>)
    requires BookOk(book) && AssemblyOk(st, book)
    requires forall i :: 0 <= i < |fs| ==> FromBook(book, fs[i])
    ensures AssemblyOk(AddAll(st, fs), book)
    decreases |fs|
  {
    hide AssemblyOk, FromBook, Add, Fits, Chunks;
    if fs != [] {
      AddAllOk(st, book, fs[..|fs| - 1]);
      AddOk(AddAll(st, fs[..|fs| - 1]), book, fs[|fs| - 1]);
    }
  }

  /**
   * Sound: however the fragments of any number of messages are lost, repeated, reordered and
   * interleaved, whatever comes out is the payload of the message its last fragment belongs to.
   */
  lemma OnlySentPayloads(book: Book, fs: seq<Fragment>)
    requires BookOk(book) && fs != []
    requires forall i :: 0 <= i < |fs| ==> FromBook(book, fs[i])
    ensures LastOutput(EMPTY, fs).Some? ==>
      fs[|fs| - 1].id in book && LastOutput(EMPTY, fs).value == book[fs[|fs| - 1].id].payload
  {
    hide AssemblyOk, Pieces, Add, AddAll, Fits, Chunks;
    var n := |fs| - 1;
    EmptyOk(book);
    AddAllOk(EMPTY, book, fs[..n]);
    assert FromBook(book, fs[n]);
    AddOk(AddAll(EMPTY, fs[..n]), book, fs[n]);
  }

  // ---------------------------------------------------------------- completeness

  ghost predicate Covers(fs: seq<Fragment>, pieces: seq<Fragment>) {
    forall i :: 0 <= i < |pieces| ==> pieces[i] in fs
  }

  /** The slots hold exactly the pieces that have arrived. */
  ghost predicate Holds(st: AssemblyState, id: uint64, pieces: seq<Fragment>, fs: seq<Fragment>) {
    && st.haveID && st.currentID == id && Partial(st, pieces) && st.arrived == Count(st.frags)
    && forall i :: 0 <= i < |pieces| ==> (Filled(st, i) <==> pieces[i] in fs)
  }

  lemma AddHolds(st: AssemblyState, id: uint64, pieces: seq<Fragment>, before: seq<Fragment>, n: nat)
    requires Message(id, pieces) && n < |pieces|
    requires st.arrived == Count(st.frags)
    requires if before == [] then !st.haveID || st.currentID != id else Holds(st, id, pieces, before)
    ensures var r, fs := Add(st, pieces[n]), before + [pieces[n]];
      && (!Covers(fs, pieces) ==> r.payload == None && Holds(r.state, id, pieces, fs))
      && (Covers(fs, pieces) ==>
            r.payload == Some(Joined(pieces)) && !r.state.haveID && r.state.arrived == Count(r.state.frags))
  {
    hide Count, Place, Pin, Partial, Contents, Joined;
    var t := Pin(Place(st, pieces[n]), pieces[n]);
    PlaceKeeps(st, id, pieces, n);
    PinnedCounts(st, pieces[n]);
    WholeMessage(t, pieces);
    var fs := before + [pieces[n]];
    forall i | 0 <= i < |pieces|
      ensures Filled(t, i) <==> pieces[i] in fs
    {
      assert pieces[i] == pieces[n] <==> i == n;
    }
  }

  lemma AddNone(st: AssemblyState)
    ensures AddAll(st, []) == st
  {
  }

  lemma HoldsCounts(st: AssemblyState, id: uint64, pieces: seq<Fragment>, fs: seq<Fragment>)
    requires Holds(st, id, pieces, fs)
    ensures st.arrived == Count(st.frags)
  {
  }

  lemma AddLast(st: AssemblyState, fs: seq<Fragment>)
    requires fs != []
    ensures AddAll(st, fs) == Add(AddAll(st, fs[..|fs| - 1]), fs[|fs| - 1]).state
  {
  }

  lemma CoversMore(fs: seq<Fragment>, n: nat, pieces: seq<Fragment>)
    requires n <= |fs|
    ensures Covers(fs[..n], pieces) ==> Covers(fs, pieces)
  {
  }

  lemma {:induction false} HoldsUntilCovered(st: AssemblyState, id: uint64, pieces: seq<Fragment>, fs: seq<Fragment>)
    requires Message(id, pieces) && fs != []
    requires forall i :: 0 <= i < |fs| ==> fs[i] in pieces
    requires st.arrived == Count(st.frags) && (!st.haveID || st.currentID != id)
    requires !Covers(fs, pieces)
    ensures LastOutput(st, fs) == None && Holds(AddAll(st, fs), id, pieces, fs)
    decreases |fs|
  {
    hide Add, AddAll, Message, Holds, Covers, Count;
    var n := |fs| - 1;
    assert fs == fs[..n] + [fs[n]];
    assert fs[n] in pieces;
    var k :| 0 <= k < |pieces| && pieces[k] == fs[n];
    AddLast(st, fs);
    if n == 0 {
      AddNone(st);
    } else {
      CoversMore(fs, n, pieces);
      assert forall i :: 0 <= i < n ==> fs[..n][i] == fs[i];
      HoldsUntilCovered(st, id, pieces, fs[..n]);
      HoldsCounts(AddAll(st, fs[..n]), id, pieces, fs[..n]);
    }
    AddHolds(AddAll(st, fs[..n]), id, pieces, fs[..n], k);
  }

  /**
   * Complete: fragments of one message in any order and with any repetition yield nothing until the
   * last missing one arrives, and the payload exactly then; after it the same message may start afresh.
   */
  lemma CompletesWhenCovered(st: AssemblyState, id: uint64, pieces: seq<Fragment>, fs: seq<Fragment>)
    requires Message(id, pieces) && fs != []
    requires forall i :: 0 <= i < |fs| ==> fs[i] in pieces
    requires st.arrived == Count(st.frags) && (!st.haveID || st.currentID != id)
    requires !Covers(fs[..|fs| - 1], pieces)
    ensures LastOutput(st, fs) == if Covers(fs, pieces) then Some(Joined(pieces)) else None
    ensures Covers(fs, pieces) ==> var r := AddAll(st, fs); !r.haveID && r.arrived == Count(r.frags)
  {
    hide Add, AddAll, Partial, Count, Joined, Covers, Holds, Message;
    var n := |fs| - 1;
    assert fs == fs[..n] + [fs[n]];
    var k :| 0 <= k < |pieces| && pieces[k] == fs[n];
    AddNone(st);
    if n > 0 {
      assert forall i :: 0 <= i < n ==> fs[..n][i] == fs[i];
      HoldsUntilCovered(st, id, pieces, fs[..n]);
      HoldsCounts(AddAll(st, fs[..n]), id, pieces, fs[..n]);
    }
    AddHolds(AddAll(st, fs[..n]), id, pieces, fs[..n], k);
    AddLast(st, fs);
  }

  // ---------------------------------------------------------------- a sending that broke off

  /** If the assembly is on message `id`, it holds only pieces before the break and no total. */
  ghost predicate BeforeBreak(st: AssemblyState, id: uint64, pieces: seq<Fragment>, n: nat)
    requires n <= |pieces|
  {
    st.haveID && st.currentID == id ==>
      st.total == -1 && forall i :: 0 <= i < |st.frags| && st.frags[i].Some? ==> i < n && st.frags[i].value == pieces[i]
  }

  lemma AddBeforeBreak(st: AssemblyState, id: uint64, pieces: seq<Fragment>, n: nat, f: Fragment)
    requires Message(id, pieces) && n < |pieces| && BeforeBreak(st, id, pieces, n)
    requires f.id == id ==> f in pieces[..n]
    ensures BeforeBreak(Add(st, f).state, id, pieces, n)
    ensures f.id == id ==> Add(st, f).payload == None
  {
    hide Count, Contents;
    if f.id == id {
      var k :| 0 <= k < n && pieces[..n][k] == f;
      assert f == pieces[k] && !f.final && f.num == k;
      assert Pin(Place(st, f), f) == Place(st, f);
    }
  }

  /**
   * An instruction whose sending broke off never arrives whole: among any other fragments, of any other ids,
   * genuine or not, no schedule of the pieces before the break completes it, however often they are sent again.
   */
  lemma {:induction false} BrokenOffNeverCompletes(
      st: AssemblyState, id: uint64, pieces: seq<Fragment>, n: nat, fs: seq<Fragment>)
    requires Message(id, pieces) && n < |pieces| && BeforeBreak(st, id, pieces, n)
    requires forall i :: 0 <= i < |fs| && fs[i].id == id ==> fs[i] in pieces[..n]
    ensures BeforeBreak(AddAll(st, fs), id, pieces, n)
    ensures fs != [] && fs[|fs| - 1].id == id ==> LastOutput(st, fs) == None
    decreases |fs|
  {
    hide Add, Message, BeforeBreak;
    if fs != [] {
      var m := |fs| - 1;
      BrokenOffNeverCompletes(st, id, pieces, n, fs[..m]);
      AddBeforeBreak(AddAll(st, fs[..m]), id, pieces, n, fs[m]);
    }
  }

  // ---------------------------------------------------------------- how long a message may be

  /** A fragment as the receiver reads it back from its datagram. */
  function OnWire(f: Fragment): Fragment {
    ParseMarshalled(f);
    ParseFragment(MarshalFragment(f)).value
  }

  function Received(pieces: seq<Fragment>): (r: seq<Fragment>)
    ensures |r| == |pieces|
  {
    seq(|pieces|, i requires 0 <= i < |pieces| => OnWire(pieces[i]))
  }

  lemma ReadBack(f: Fragment)
    ensures OnWire(f) == Fragment(f.id, Combined(f) % FINAL_BIT, Combined(f) >= FINAL_BIT, f.contents)
  {
    hide ParseFragment, MarshalFragment;
    ParseMarshalled(f);
  }

  predicate Small(f: Fragment, chunk: nat) {
    f.num < FINAL_BIT && |f.contents| <= chunk
  }

  /** Slots below the final bit, each holding at most `chunk` bytes. */
  ghost predicate SmallSlots(frags: Slots, chunk: nat) {
    && |frags| <= FINAL_BIT
    && forall i :: 0 <= i < |frags| && frags[i].Some? ==> |frags[i].value.contents| <= chunk
  }

  lemma {:induction false} ContentsBound(frags: Slots, chunk: nat)
    requires forall i :: 0 <= i < |frags| ==> frags[i].Some? && |frags[i].value.contents| <= chunk
    ensures |Contents(frags)| <= |frags| * chunk
    decreases |frags|
  {
    if frags != [] {
      ContentsBound(frags[1..], chunk);
      assert |frags| * chunk == (|frags| - 1) * chunk + chunk;
    }
  }

  lemma AddSmall(st: AssemblyState, f: Fragment, chunk: nat)
    requires SmallSlots(st.frags, chunk) && Small(f, chunk)
    ensures SmallSlots(Add(st, f).state.frags, chunk)
    ensures Add(st, f).payload.Some? ==> |Add(st, f).payload.value| <= FINAL_BIT * chunk
  {
    hide Count, Contents;
    var t := Pin(Place(st, f), f);
    assert SmallSlots(Place(st, f).frags, chunk);
    if Whole(t) {
      ContentsBound(t.frags, chunk);
      Scale(|t.frags|, FINAL_BIT, chunk);
    }
  }

  lemma Scale(a: nat, b: nat, c: nat)
    requires a <= b
    ensures a * c <= b * c
  {
  }

  lemma {:induction false} AddAllSmall(st: AssemblyState, fs: seq<Fragment>, chunk: nat)
    requires SmallSlots(st.frags, chunk) && forall i :: 0 <= i < |fs| ==> Small(fs[i], chunk)
    ensures SmallSlots(AddAll(st, fs).frags, chunk)
    ensures fs != [] && LastOutput(st, fs).Some? ==> |LastOutput(st, fs).value| <= FINAL_BIT * chunk
    decreases |fs|
  {
    hide Add, SmallSlots, Small;
    if fs != [] {
      AddAllSmall(st, fs[..|fs| - 1], chunk);
      AddSmall(AddAll(st, fs[..|fs| - 1]), fs[|fs| - 1], chunk);
    }
  }

  /** All pieces but the last are full. */
  lemma {:induction false} PiecesFull(id: uint64, payload: bytes, chunk: nat, num: nat)
    requires chunk > 0
    ensures var c := Chunks(id, payload, chunk, num); |c| > 1 ==> |payload| > (|c| - 1) * chunk
    decreases |payload|
  {
    if |payload| > chunk {
      PiecesFull(id, payload[chunk..], chunk, num + 1);
      var n := |Chunks(id, payload[chunk..], chunk, num + 1)|;
      assert n * chunk == (n - 1) * chunk + chunk;
    }
  }

  /** A schedule of `pieces`: any of them, in any order and number. */
  ghost predicate ScheduleOf(fs: seq<Fragment>, pieces: seq<Fragment>) {
    fs != [] && forall i :: 0 <= i < |fs| ==> fs[i] in pieces
  }

  ghost predicate Reassembles(id: uint64, payload: bytes, chunk: nat)
    requires chunk > 0
  {
    exists fs :: ScheduleOf(fs, Received(Chunks(id, payload, chunk, 0))) && LastOutput(EMPTY, fs) == Some(payload)
  }

  lemma TooLongFails(id: uint64, payload: bytes, chunk: nat, fs: seq<Fragment>)
    requires chunk > 0 && |Chunks(id, payload, chunk, 0)| > FINAL_BIT
    requires ScheduleOf(fs, Received(Chunks(id, payload, chunk, 0)))
    ensures LastOutput(EMPTY, fs) != Some(payload)
  {
    hide Chunks, LastOutput, OnWire;
    var c := Chunks(id, payload, chunk, 0);
    PiecesFull(id, payload, chunk, 0);
    ChunksMarked(id, payload, chunk, 0);
    forall i | 0 <= i < |fs|
      ensures Small(fs[i], chunk)
    {
      var k :| 0 <= k < |c| && Received(c)[k] == fs[i];
      ReadBack(c[k]);
    }
    AddAllSmall(EMPTY, fs, chunk);
    Scale(FINAL_BIT, |c| - 1, chunk);
  }

  lemma ReceivedWhole(id: uint64, payload: bytes, chunk: nat)
    requires chunk > 0 && |Chunks(id, payload, chunk, 0)| <= FINAL_BIT
    ensures var c := Chunks(id, payload, chunk, 0); Message(id, c) && Received(c) == c
  {
    hide Chunks, OnWire;
    var c := Chunks(id, payload, chunk, 0);
    ChunksMarked(id, payload, chunk, 0);
    forall i | 0 <= i < |c|
      ensures Received(c)[i] == c[i]
    {
      ReadBack(c[i]);
    }
  }

  lemma InOrderSucceeds(id: uint64, payload: bytes, chunk: nat)
    requires chunk > 0 && |Chunks(id, payload, chunk, 0)| <= FINAL_BIT
    ensures Reassembles(id, payload, chunk)
  {
    hide Chunks, LastOutput, Joined, OnWire;
    var c := Chunks(id, payload, chunk, 0);
    var n := |c| - 1;
    ChunksShape(id, payload, chunk, 0);
    ReceivedWhole(id, payload, chunk);
    assert forall x :: x in c[..n] ==> x != c[n];
    assert !Covers(c[..n], c);
    assert Covers(c, c);
    CompletesWhenCovered(EMPTY, id, c, c);
    assert ScheduleOf(c, Received(c));
  }

  /** A message can be reassembled from its datagrams exactly when it has at most 32768 pieces. */
  lemma ReassemblesIffFits(id: uint64, payload: bytes, chunk: nat)
    requires chunk > 0
    ensures Reassembles(id, payload, chunk) <==> |Chunks(id, payload, chunk, 0)| <= FINAL_BIT
  {
    hide Chunks, LastOutput;
    if |Chunks(id, payload, chunk, 0)| <= FINAL_BIT {
      InOrderSucceeds(id, payload, chunk);
    } else {
      forall fs | ScheduleOf(fs, Received(Chunks(id, payload, chunk, 0)))
        ensures LastOutput(EMPTY, fs) != Some(payload)
      {
        TooLongFails(id, payload, chunk, fs);
      }
    }
  }

  /** In a longer message piece 32768 reads back as the first and final one, and alone is taken for the whole. */
  lemma TooLongMisread(id: uint64, payload: bytes, chunk: nat)
    requires chunk > 0 && |Chunks(id, payload, chunk, 0)| > FINAL_BIT
    ensures var f := Chunks(id, payload, chunk, 0)[FINAL_BIT];
      && OnWire(f) == Fragment(id, 0, true, f.contents)
      && LastOutput(EMPTY, [OnWire(f)]) == Some(f.contents)
  {
    hide Chunks, OnWire;
    var f := Chunks(id, payload, chunk, 0)[FINAL_BIT];
    ChunksMarked(id, payload, chunk, 0);
    ReadBack(f);
    LoneFinal(OnWire(f));
  }

  lemma LoneFinal(f: Fragment)
    requires f.num == 0 && f.final
    ensures LastOutput(EMPTY, [f]) == Some(f.contents)
  {
    AddNone(EMPTY);
    assert [f][..0] == [];
    var slots: Slots := [Some(f)];
    assert Pin(Place(EMPTY, f), f) == AssemblyState(f.id, true, slots, 1, 1);
    assert slots[1..] == [];
    assert Contents(slots) == f.contents;
  }

  // ---------------------------------------------------------------- a whole session

  /** The fragments of the `i`-th instruction of a session. */
  ghost function SentPieces(calls: seq<Call>, i: nat): seq<Fragment>
    requires i < |calls| && calls[i].mtu > FRAG_HEADER_LEN
  {
    Chunks(IdOf(calls, i), calls[i].payload, calls[i].mtu - FRAG_HEADER_LEN, 0)
  }

  ghost predicate SessionOk(calls: seq<Call>) {
    |calls| < TWO64 && forall i :: 0 <= i < |calls| ==> Fits(IdOf(calls, i), calls[i])
  }

  ghost function SessionBook(calls: seq<Call>, n: nat): Book
    requires n <= |calls|
  {
    if n == 0 then map[] else SessionBook(calls, n - 1)[IdOf(calls, n - 1) := calls[n - 1]]
  }

  lemma {:induction false} SessionBookNames(calls: seq<Call>, n: nat)
    requires |calls| < TWO64 && n <= |calls|
    ensures forall i :: 0 <= i < n ==>
      IdOf(calls, i) in SessionBook(calls, n) && SessionBook(calls, n)[IdOf(calls, i)] == calls[i]
    ensures forall id :: id in SessionBook(calls, n) ==> exists i :: 0 <= i < n && id == IdOf(calls, i)
    decreases n
  {
    hide IdOf;
    if n > 0 {
      SessionBookNames(calls, n - 1);
      forall i | 0 <= i < n - 1 && IdOf(calls, i) == IdOf(calls, n - 1)
        ensures calls[i] == calls[n - 1]
      {
        IdNamesOnePayload(calls, i, n - 1);
      }
    }
  }

  /**
   * For a whole session of the fragmenter, ids reused for retransmissions included: from any
   * schedule of the fragments it made, the assembly yields only payloads that were sent.
   */
  lemma SessionSound(calls: seq<Call>, fs: seq<Fragment>, source: seq<nat>)
    requires SessionOk(calls) && fs != [] && |source| == |fs|
    requires forall k :: 0 <= k < |fs| ==> source[k] < |calls|
    requires forall k :: 0 <= k < |fs| ==>
      Fits(IdOf(calls, source[k]), calls[source[k]]) && fs[k] in SentPieces(calls, source[k])
    ensures LastOutput(EMPTY, fs).Some? ==> LastOutput(EMPTY, fs).value == calls[source[|fs| - 1]].payload
  {
    hide IdOf, LastOutput, Chunks;
    var book := SessionBook(calls, |calls|);
    SessionBookNames(calls, |calls|);
    assert BookOk(book);
    forall k | 0 <= k < |fs|
      ensures FromBook(book, fs[k]) && fs[k].id == IdOf(calls, source[k])
    {
      var c := calls[source[k]];
      ChunksMarked(IdOf(calls, source[k]), c.payload, c.mtu - FRAG_HEADER_LEN, 0);
    }
    OnlySentPayloads(book, fs);
    assert fs[|fs| - 1].id == IdOf(calls, source[|fs| - 1]);
  }
}
