/** Reassembly of fragments under loss, repetition, reordering and interleaving (internal/transport/fragment.go). */
module Assemblies {
  import opened Basics
  import opened Fragments

  type Slots = seq<Option<Fragment>>

  datatype AssemblyState = AssemblyState(currentID: uint64, haveID: bool, frags: Slots, arrived: nat, total: int)

  const EMPTY := AssemblyState(0, false, [], 0, 0)

  // ---------------------------------------------------------------- one fragment

  function Nones(k: nat): (s: Slots)
    ensures |s| == k
    ensures forall i :: 0 <= i < k ==> s[i] == None
  {
    seq(k, _ => None)
  }

  /** Slots lengthened so that index `n` exists. */
  function Extended(frags: Slots, n: nat): (r: Slots)
    ensures |r| > n && |r| >= |frags|
    ensures forall i :: 0 <= i < |r| ==> r[i] == (if i < |frags| then frags[i] else None)
  {
    if n < |frags| then frags else frags + Nones(n + 1 - |frags|)
  }

  function Count(frags: Slots): nat {
    if frags == [] then 0
    else Count(frags[..|frags| - 1]) + (if frags[|frags| - 1].Some? then 1 else 0)
  }

  /** A new id abandons the old partial; a duplicate is ignored; anything else fills its slot. */
  function Place(st: AssemblyState, f: Fragment): AssemblyState {
    if !st.haveID || st.currentID != f.id then
      AssemblyState(f.id, true, Nones(f.num) + [Some(f)], 1, -1)
    else if f.num < |st.frags| && st.frags[f.num].Some? then st
    else st.(frags := Extended(st.frags, f.num)[f.num := Some(f)], arrived := st.arrived + 1)
  }

  /** The final fragment pins the total; slots beyond it are dropped and the rest recounted. */
  function Pin(st: AssemblyState, f: Fragment): AssemblyState {
    if !f.final then st
    else if |st.frags| > f.num + 1 then
      st.(total := f.num + 1, frags := st.frags[..f.num + 1], arrived := Count(st.frags[..f.num + 1]))
    else st.(total := f.num + 1)
  }

  predicate Whole(st: AssemblyState) {
    st.total != -1 && st.arrived == st.total && forall i :: 0 <= i < |st.frags| ==> st.frags[i].Some?
  }

  function Contents(frags: Slots): bytes
    requires forall i :: 0 <= i < |frags| ==> frags[i].Some?
  {
    if frags == [] then [] else frags[0].value.contents + Contents(frags[1..])
  }

  datatype Added = Added(state: AssemblyState, payload: Option<bytes>)

  function Add(st: AssemblyState, f: Fragment): Added {
    var t := Pin(Place(st, f), f);
    if Whole(t) then Added(t.(haveID := false), Some(Contents(t.frags))) else Added(t, None)
  }

  // ---------------------------------------------------------------- the object

  class Assembly {
    var currentID: uint64
    var haveID: bool
    var frags: Slots
    var arrived: nat
    var total: int

    ghost function View(): AssemblyState
      reads this
    {
      AssemblyState(currentID, haveID, frags, arrived, total)
    }

    constructor ()
      ensures View() == EMPTY
    {
      currentID, haveID, frags, arrived, total := 0, false, [], 0, 0;
    }

    /** Files the fragment under its id, its number and the total. */
    method File(f: Fragment)
      requires f.num < FINAL_BIT
      modifies this
      ensures View() == Pin(Place(old(View()), f), f)
    {
      hide Count;
      if !haveID || currentID != f.id {
        currentID := f.id;
        haveID := true;
        frags := Nones(f.num + 1)[f.num := Some(f)];
        assert frags == Nones(f.num) + [Some(f)];
        arrived := 1;
        total := -1;
      } else if f.num < |frags| && frags[f.num].Some? {
        // duplicate
      } else {
        var slots := Lengthen(frags, f.num);
        frags := slots[f.num := Some(f)];
        arrived := arrived + 1;
      }
      if f.final {
        total := f.num + 1;
        if |frags| > total {
          frags := frags[..total];
          arrived := Recount(frags);
        }
      }
    }

    /** `add` of a parsed fragment: nothing yet, an assembled instruction, or a payload zlib rejects. */
    method Ingest(z: Zlib, f: Fragment) returns (r: Result<Option<bytes>, FragmentError>)
      requires f.num < FINAL_BIT
      modifies this
      ensures View() == Add(old(View()), f).state
      ensures match Add(old(View()), f).payload
        case None => r == Ok(None)
        case Some(p) => r == match Uncompress(z, p) case Ok(b) => Ok(Some(b)) case Err(e) => Err(e)
    {
      hide Place, Pin, Count, Contents, Uncompress;
      File(f);
      if total == -1 || arrived != total {
        return Ok(None);
      }
      var buf := Gather(frags);
      if buf.None? {
        return Ok(None);
      }
      haveID := false;
      match Uncompress(z, buf.value)
      case Ok(b) => r := Ok(Some(b));
      case Err(e) => r := Err(e);
    }
  }

  method Lengthen(frags: Slots, n: nat) returns (r: Slots)
    ensures r == Extended(frags, n)
  {
    r := frags;
    while n >= |r|
      invariant |frags| <= |r| && (|r| == |frags| || |r| <= n + 1)
      invariant forall i :: 0 <= i < |r| ==> r[i] == (if i < |frags| then frags[i] else None)
    {
      r := r + [None];
    }
    assert r == Extended(frags, n);
  }

  method Recount(frags: Slots) returns (n: nat)
    ensures n == Count(frags)
  {
    n := 0;
    for i := 0 to |frags|
      invariant n == Count(frags[..i])
    {
      assert frags[..i + 1][..i] == frags[..i];
      if frags[i].Some? {
        n := n + 1;
      }
    }
    assert frags[..|frags|] == frags;
  }

  /** The contents of the slots in order, unless one is still empty. */
  method Gather(frags: Slots) returns (buf: Option<bytes>)
    ensures buf.Some? <==> forall i :: 0 <= i < |frags| ==> frags[i].Some?
    ensures buf.Some? ==> buf.value == Contents(frags)
  {
    var b: bytes := [];
    for i := 0 to |frags|
      invariant forall j :: 0 <= j < i ==> frags[j].Some?
      invariant b == Contents(frags[..i])
    {
      if frags[i].None? {
        return None;
      }
      ContentsSnoc(frags[..i], frags[i].value);
      assert frags[..i] + [frags[i]] == frags[..i + 1];
      b := b + frags[i].value.contents;
    }
    assert frags[..|frags|] == frags;
    buf := Some(b);
  }

  lemma {:induction false} ContentsSnoc(frags: Slots, f: Fragment)
    requires forall i :: 0 <= i < |frags| ==> frags[i].Some?
    ensures Contents(frags + [Some(f)]) == Contents(frags) + f.contents
    decreases |frags|
  {
    var longer := frags + [Some(f)];
    if frags == [] {
      assert longer[1..] == [];
    } else {
      assert longer[1..] == frags[1..] + [Some(f)];
      ContentsSnoc(frags[1..], f);
    }
  }

  // ---------------------------------------------------------------- counting

  lemma {:induction false} CountConcat(a: Slots, b: Slots)
    ensures Count(a + b) == Count(a) + Count(b)
    decreases |b|
  {
    if b == [] {
      assert a + b == a;
    } else {
      var n := |b| - 1;
      assert (a + b)[..|a + b| - 1] == a + b[..n];
      CountConcat(a, b[..n]);
    }
  }

  lemma {:induction false} CountNones(k: nat)
    ensures Count(Nones(k)) == 0
    decreases k
  {
    if k > 0 {
      assert Nones(k)[..k - 1] == Nones(k - 1);
      CountNones(k - 1);
    }
  }

  lemma {:induction false} CountBounds(frags: Slots)
    ensures Count(frags) <= |frags|
    ensures Count(frags) == |frags| <==> forall i :: 0 <= i < |frags| ==> frags[i].Some?
    decreases |frags|
  {
    if frags != [] {
      CountBounds(frags[..|frags| - 1]);
    }
  }

  lemma CountFill(frags: Slots, n: nat, f: Fragment)
    requires n < |frags| && frags[n].None?
    ensures Count(frags[n := Some(f)]) == Count(frags) + 1
  {
    var a, b := frags[..n], frags[n + 1..];
    assert frags == a + ([None] + b);
    assert frags[n := Some(f)] == a + ([Some(f)] + b);
    CountConcat(a, [None] + b);
    CountConcat(a, [Some(f)] + b);
    CountConcat([None], b);
    CountConcat([Some(f)], b);
    CountOne(None);
    CountOne(Some(f));
  }

  lemma CountOne(x: Option<Fragment>)
    ensures Count([x]) == if x.Some? then 1 else 0
  {
    assert [x][..0] == [];
  }

  lemma CountExtended(frags: Slots, n: nat)
    ensures Count(Extended(frags, n)) == Count(frags)
  {
    if n >= |frags| {
      CountConcat(frags, Nones(n + 1 - |frags|));
      CountNones(n + 1 - |frags|);
    }
  }

  /** Whatever arrives, garbage included, `arrived` is the number of filled slots. */
  lemma ArrivedCounts(st: AssemblyState, f: Fragment)
    requires st.arrived == Count(st.frags)
    ensures var r := Add(st, f).state; r.arrived == Count(r.frags)
  {
    hide Count;
    if !st.haveID || st.currentID != f.id {
      CountConcat(Nones(f.num), [Some(f)]);
      CountNones(f.num);
      CountOne(Some(f));
    } else if !(f.num < |st.frags| && st.frags[f.num].Some?) {
      CountExtended(st.frags, f.num);
      CountFill(Extended(st.frags, f.num), f.num, f);
    }
  }

  /** A final fragment fixes the total; slots beyond it are dropped and those below it are kept as they were. */
  lemma FinalDropsBeyond(st: AssemblyState, f: Fragment)
    requires f.final
    ensures var r, same := Add(st, f).state, st.haveID && st.currentID == f.id;
      && r.total == |r.frags| == f.num + 1 && r.frags[f.num].Some?
      && forall i :: 0 <= i < f.num ==> r.frags[i] == if same && i < |st.frags| then st.frags[i] else None
  {
    hide Count, Contents;
  }

  /** So an instruction completes exactly when the slots below the pinned total are all there are, and filled. */
  lemma WholeIff(st: AssemblyState)
    requires st.arrived == Count(st.frags) && st.total != -1
    ensures Whole(st) <==> st.total == |st.frags| && forall i :: 0 <= i < |st.frags| ==> st.frags[i].Some?
  {
    CountBounds(st.frags);
  }
}
