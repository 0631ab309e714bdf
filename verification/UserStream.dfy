/** The client's outgoing state: an append-only stream of user events (internal/statesync/userstream.go). */
module UserStreams {
  import opened Basics
  import opened Wire

  // ---------------------------------------------------------------- values

  predicate Single(ev: UserEvent) {
    ev.Keys? ==> |ev.keys| == 1
  }

  /** Streams hold one keystroke byte per event; runs of keys exist only in diffs. */
  predicate PerByte(s: seq<UserEvent>) {
    forall k :: 0 <= k < |s| ==> Single(s[k])
  }

  function KeyEvents(b: bytes): seq<UserEvent> {
    seq(|b|, i requires 0 <= i < |b| => Keys([b[i]]))
  }

  function Drop(s: seq<UserEvent>, k: nat): seq<UserEvent> {
    if k > |s| then [] else s[k..]
  }

  /** Drops as many events as `prefix` has, or all of them when there are fewer. */
  function Subtracted(s: seq<UserEvent>, prefix: seq<UserEvent>): seq<UserEvent> {
    Drop(s, |prefix|)
  }

  /** Joins `ev` to a coalesced list: a keystroke extends a keystroke run, a resize never joins. */
  function Joined(c: seq<UserEvent>, ev: UserEvent): seq<UserEvent> {
    if ev.Keys? && c != [] && c[|c| - 1].Keys?
    then c[..|c| - 1] + [Keys(c[|c| - 1].keys + ev.keys)]
    else c + [ev]
  }

  function Coalesced(s: seq<UserEvent>): seq<UserEvent> {
    if s == [] then [] else Joined(Coalesced(s[..|s| - 1]), s[|s| - 1])
  }

  function DiffFrom(s: seq<UserEvent>, existing: seq<UserEvent>): bytes {
    if |existing| >= |s| then [] else MarshalUserMessage(Coalesced(s[|existing|..]))
  }

  /** How the peer reads an event: a run of keys is one event per byte. */
  function Split(ev: UserEvent): seq<UserEvent> {
    match ev
    case Keys(k) => KeyEvents(k)
    case Resize(_, _) => [ev]
  }

  function SplitAll(events: seq<UserEvent>): seq<UserEvent> {
    if events == [] then []
    else SplitAll(events[..|events| - 1]) + Split(events[|events| - 1])
  }

  /** The events a diff carries, as the peer appends them to its copy. */
  function DiffEvents(diff: bytes): Option<seq<UserEvent>> {
    match UnmarshalUserMessage(diff)
    case Err(_) => None
    case Ok(events) => Some(SplitAll(events))
  }

  lemma SplitNone()
    ensures SplitAll([]) == []
  {
  }

  lemma SplitSnoc(c: seq<UserEvent>, ev: UserEvent)
    ensures SplitAll(c + [ev]) == SplitAll(c) + Split(ev)
  {
    assert (c + [ev])[..|c|] == c;
  }

  lemma SplitSingle(ev: UserEvent)
    requires Single(ev)
    ensures Split(ev) == [ev]
  {
    if ev.Keys? {
      assert ev.keys == [ev.keys[0]];
    }
  }

  lemma SplitJoined(c: seq<UserEvent>, ev: UserEvent)
    requires Single(ev)
    ensures SplitAll(Joined(c, ev)) == SplitAll(c) + [ev]
  {
    hide SplitAll;
    SplitSingle(ev);
    if ev.Keys? && c != [] && c[|c| - 1].Keys? {
      var init, last := c[..|c| - 1], c[|c| - 1];
      assert c == init + [last];
      SplitSnoc(init, last);
      SplitSnoc(init, Keys(last.keys + ev.keys));
      assert KeyEvents(last.keys + ev.keys) == KeyEvents(last.keys) + KeyEvents(ev.keys);
      assert SplitAll(init) + (Split(last) + [ev]) == SplitAll(init) + Split(last) + [ev];
    } else {
      SplitSnoc(c, ev);
    }
  }

  lemma {:induction false} SplitCoalesced(s: seq<UserEvent>)
    requires PerByte(s)
    ensures SplitAll(Coalesced(s)) == s
    decreases |s|
  {
    hide SplitAll, Joined;
    SplitNone();
    if s != [] {
      var n := |s| - 1;
      SplitCoalesced(s[..n]);
      SplitJoined(Coalesced(s[..n]), s[n]);
      assert s[..n] + [s[n]] == s;
    }
  }

  lemma {:induction false} CoalescedSizes(s: seq<UserEvent>)
    requires PerByte(s)
    ensures |Coalesced(s)| <= |s| && (s != [] ==> Coalesced(s) != [])
    ensures ShortRuns(Coalesced(s), |s|)
    decreases |s|
  {
    hide Joined, ShortRuns;
    if s == [] {
      ShortNone();
    } else {
      var n := |s| - 1;
      CoalescedSizes(s[..n]);
      JoinedSizes(Coalesced(s[..n]), s[n], n);
    }
  }

  predicate ShortRuns(c: seq<UserEvent>, n: nat) {
    forall k :: 0 <= k < |c| && c[k].Keys? ==> |c[k].keys| <= n
  }

  lemma ShortNone()
    ensures ShortRuns([], 0)
  {
  }

  lemma JoinedSizes(c: seq<UserEvent>, ev: UserEvent, n: nat)
    requires Single(ev) && |c| <= n && ShortRuns(c, n)
    ensures 0 < |Joined(c, ev)| <= n + 1 && ShortRuns(Joined(c, ev), n + 1)
  {
    var j := Joined(c, ev);
    forall k | 0 <= k < |j| && j[k].Keys?
      ensures |j[k].keys| <= n + 1
    {
      if k < |c| - 1 {
        assert j[k] == c[k];
      }
    }
  }

  /** Coalescing is complete: no two keystroke runs are left side by side. */
  lemma {:induction false} CoalescedCompletely(s: seq<UserEvent>)
    ensures forall i :: 0 < i < |Coalesced(s)| ==> Coalesced(s)[i - 1].Resize? || Coalesced(s)[i].Resize?
    decreases |s|
  {
    if s != [] {
      CoalescedCompletely(s[..|s| - 1]);
    }
  }

  lemma MarshalNonEmpty(events: seq<UserEvent>)
    requires events != []
    ensures MarshalUserMessage(events) != []
  {
    var last := events[|events| - 1];
    assert |EventBytes(last)| >= |Varint.Encode(10)| > 0 by {
      assert EventBytes(last) == Tag(1, WIRE_BYTES) + Varint.Encode(|EventBody(last)|) + EventBody(last);
    }
  }

  /** A diff is empty exactly when the reference has as many events as the stream. */
  lemma DiffEmptyIff(s: seq<UserEvent>, existing: seq<UserEvent>)
    requires PerByte(s)
    ensures DiffFrom(s, existing) == [] <==> |existing| >= |s|
  {
    if |existing| < |s| {
      CoalescedSizes(s[|existing|..]);
      MarshalNonEmpty(Coalesced(s[|existing|..]));
    }
  }

  /** Decoding a diff and splitting its key runs gives exactly the events the reference lacks. */
  lemma DiffCarriesSuffix(s: seq<UserEvent>, existing: seq<UserEvent>)
    requires PerByte(s) && |existing| <= |s| < TWO63
    ensures DiffEvents(DiffFrom(s, existing)) == Some(s[|existing|..])
  {
    var suffix := s[|existing|..];
    if suffix == [] {
      NoEvents();
    } else {
      CoalescedSizes(suffix);
      UserMessageRoundTrip(Coalesced(suffix));
      SplitCoalesced(suffix);
    }
  }

  /** A common prefix makes no difference to a diff. */
  lemma DiffIgnoresPrefix(p: seq<UserEvent>, s: seq<UserEvent>, existing: seq<UserEvent>)
    ensures DiffFrom(p + s, p + existing) == DiffFrom(s, existing)
  {
    if |existing| < |s| {
      assert (p + s)[|p + existing|..] == s[|existing|..];
    }
  }

  // ---------------------------------------------------------------- the object

  class UserStream {
    var events: seq<UserEvent>

    constructor ()
      ensures events == []
    {
      events := [];
    }

    method PushKeys(b: bytes)
      modifies this
      ensures events == old(events) + KeyEvents(b)
    {
      for i := 0 to |b|
        invariant events == old(events) + KeyEvents(b[..i])
      {
        assert KeyEvents(b[..i + 1]) == KeyEvents(b[..i]) + [Keys([b[i]])];
        events := events + [Keys([b[i]])];
      }
      assert b[..|b|] == b;
    }

    method PushResize(width: int64, height: int64)
      modifies this
      ensures events == old(events) + [Resize(width, height)]
    {
      events := events + [Resize(width, height)];
    }

    method Clone() returns (c: UserStream)
      ensures fresh(c) && c.events == events
    {
      c := new UserStream();
      c.events := events;
    }

    method Equal(o: UserStream) returns (same: bool)
      ensures same <==> events == o.events
    {
      if |events| != |o.events| {
        return false;
      }
      for i := 0 to |events|
        invariant events[..i] == o.events[..i]
      {
        if events[i] != o.events[i] {
          return false;
        }
      }
      same := true;
    }

    /** `prefix` may be this very stream, which then becomes empty. */
    method Subtract(prefix: UserStream)
      modifies this
      ensures events == Subtracted(old(events), old(prefix.events))
    {
      var n := |prefix.events|;
      if n > |events| {
        n := |events|;
      }
      events := events[n..];
    }

    method Diff(existing: UserStream) returns (diff: bytes)
      ensures diff == DiffFrom(events, existing.events)
    {
      if |existing.events| >= |events| {
        return [];
      }
      var coalesced := Coalesce(events[|existing.events|..]);
      diff := MarshalUserMessage(coalesced);
    }
  }

  lemma CoalescedNone()
    ensures Coalesced([]) == []
  {
  }

  lemma CoalescedNext(s: seq<UserEvent>, i: nat)
    requires i < |s|
    ensures Coalesced(s[..i + 1]) == Joined(Coalesced(s[..i]), s[i])
  {
    assert s[..i + 1][..i] == s[..i];
  }

  /** The loop of DiffFrom over the missing events. */
  method Coalesce(suffix: seq<UserEvent>) returns (coalesced: seq<UserEvent>)
    ensures coalesced == Coalesced(suffix)
  {
    hide Coalesced;
    CoalescedNone();
    coalesced := [];
    for i := 0 to |suffix|
      invariant coalesced == Coalesced(suffix[..i])
    {
      CoalescedNext(suffix, i);
      var ev, n := suffix[i], |coalesced|;
      if ev.Resize? {
        coalesced := coalesced + [ev];
      } else if n > 0 && !coalesced[n - 1].Resize? {
        var run := Keys(coalesced[n - 1].keys + ev.keys);
        assert coalesced[n - 1 := run] == coalesced[..n - 1] + [run];
        coalesced := coalesced[n - 1 := run];
      } else {
        coalesced := coalesced + [Keys(ev.keys)];
      }
    }
    assert suffix[..|suffix|] == suffix;
  }
}
