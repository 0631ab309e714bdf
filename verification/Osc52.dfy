/** The OSC 52 clipboard filter as a byte-driven machine and as the program's loop (internal/osc52/osc52.go). */
module Osc52 {
  import opened Basics

  datatype Policy = Write | Full | Off

  const ESC: byte := 0x1B
  const BEL: byte := 0x07
  const CAN: byte := 0x18
  const SUB: byte := 0x1A
  const BRACKET: byte := 0x5D    // ]
  const SEMI: byte := 0x3B       // ;
  const BACKSLASH: byte := 0x5C
  const QUERY: byte := 0x3F      // ?
  const LETTER_C: byte := 0x63
  const INTRO: bytes := [0x1B, 0x5D, 0x35, 0x32, 0x3B]  // ESC ] 5 2 ;

  const OSC_NUMBER := 52
  const MAX_DIGITS := 8
  const MAX_SEQUENCE := 65536

  predicate IsDigit(c: byte) {
    0x30 <= c <= 0x39
  }

  predicate EndsBody(c: byte) {
    c == BEL || c == ESC || c == CAN || c == SUB
  }

  // ---------------------------------------------------------------- rendering a sequence

  /** The index of the first `c`, or the length. */
  function IndexOf(s: bytes, c: byte): (k: nat)
    ensures k <= |s|
    ensures k < |s| ==> s[k] == c
    ensures forall j :: 0 <= j < k ==> s[j] != c
  {
    if s == [] || s[0] == c then 0
    else
      var k := IndexOf(s[1..], c) + 1;
      assert forall j :: 0 < j < k ==> s[j] == s[1..][j - 1];
      k
  }

  function Terminator(term: byte): bytes {
    if term == ESC then [ESC, BACKSLASH] else [BEL]
  }

  /** What the policy makes of the body `Pc ; Pd` of a complete sequence. */
  function RenderBody(p: Policy, body: bytes, term: byte): bytes {
    var sep := IndexOf(body, SEMI);
    if p == Off then []
    else if sep == |body| then INTRO + body + Terminator(term)
    else
      var pc, pd := body[..sep], body[sep + 1..];
      if pd == [QUERY] then
        if p == Full then INTRO + pc + [SEMI] + pd + Terminator(term) else []
      else INTRO + (if pc == [] then [LETTER_C] else pc) + [SEMI] + pd + Terminator(term)
  }

  /** The body of a held sequence: what follows `ESC ]`, the number and its semicolon. */
  function BodyOf(buf: bytes): bytes {
    var rest := if |buf| < 2 then [] else buf[2..];
    var k := IndexOf(rest, SEMI);
    if k == |rest| then rest else rest[k + 1..]
  }

  function Emit(p: Policy, buf: bytes, dropping: bool, term: byte): bytes {
    if dropping then [] else RenderBody(p, BodyOf(buf), term)
  }

  // ---------------------------------------------------------------- the machine

  datatype FilterState =
    | Text
    | Esc
    | Prefix(buf: bytes, num: nat, digits: nat)
    | Body(buf: bytes, dropping: bool)
    | BodyEsc(buf: bytes, dropping: bool)

  datatype Ran = Ran(state: FilterState, out: bytes)

  function FeedText(c: byte): Ran {
    if c == ESC then Ran(Esc, []) else Ran(Text, [c])
  }

  function FeedEsc(c: byte): Ran {
    if c == BRACKET then Ran(Prefix([ESC, BRACKET], 0, 0), [])
    else Ran(FeedText(c).state, [ESC] + FeedText(c).out)
  }

  function FeedPrefix(buf: bytes, num: nat, digits: nat, c: byte): Ran {
    if IsDigit(c) && digits < MAX_DIGITS then Ran(Prefix(buf + [c], num * 10 + (c - 0x30), digits + 1), [])
    else if c == SEMI && digits > 0 && num == OSC_NUMBER then Ran(Body(buf + [c], false), [])
    else Ran(FeedText(c).state, buf + FeedText(c).out)
  }

  function FeedBody(p: Policy, buf: bytes, dropping: bool, c: byte): Ran {
    if c == BEL then Ran(Text, Emit(p, buf, dropping, BEL))
    else if c == ESC then Ran(BodyEsc(buf, dropping), [])
    else if c == CAN || c == SUB then Ran(Text, [])
    else if dropping || |buf| >= MAX_SEQUENCE then Ran(Body([], true), [])
    else Ran(Body(buf + [c], false), [])
  }

  function FeedBodyEsc(p: Policy, buf: bytes, dropping: bool, c: byte): Ran {
    if c == BACKSLASH then Ran(Text, Emit(p, buf, dropping, ESC)) else FeedEsc(c)
  }

  /** One byte, with the non-consuming transitions it triggers folded in. */
  function Feed(p: Policy, st: FilterState, c: byte): Ran {
    match st
    case Text => FeedText(c)
    case Esc => FeedEsc(c)
    case Prefix(buf, num, digits) => FeedPrefix(buf, num, digits, c)
    case Body(buf, dropping) => FeedBody(p, buf, dropping, c)
    case BodyEsc(buf, dropping) => FeedBodyEsc(p, buf, dropping, c)
  }

  function Run(p: Policy, st: FilterState, src: bytes): Ran
    decreases |src|
  {
    if src == [] then Ran(st, [])
    else
      var first := Feed(p, st, src[0]);
      var rest := Run(p, first.state, src[1..]);
      Ran(rest.state, first.out + rest.out)
  }

  /** Flush gives up whatever is held, unless it is an oversized sequence being dropped. */
  function Flushed(st: FilterState): bytes {
    match st
    case Text => []
    case Esc => [ESC]
    case Prefix(buf, _, _) => buf
    case Body(buf, dropping) => if dropping then [] else buf
    case BodyEsc(buf, dropping) => if dropping then [] else buf + [ESC]
  }

  /** How the input is split between calls changes neither the output nor the state. */
  lemma {:induction false} RunSplit(p: Policy, st: FilterState, a: bytes, b: bytes)
    ensures var r := Run(p, st, a);
      var t := Run(p, r.state, b);
      Run(p, st, a + b) == Ran(t.state, r.out + t.out)
    decreases |a|
  {
    hide Feed;
    if a == [] {
      assert a + b == b;
    } else {
      assert (a + b)[0] == a[0] && (a + b)[1..] == a[1..] + b;
      RunSplit(p, Feed(p, st, a[0]).state, a[1..], b);
    }
  }

  /** At most 65536 bytes are ever held. */
  ghost predicate Bounded(st: FilterState) {
    match st
    case Text => true
    case Esc => true
    case Prefix(buf, _, digits) => |buf| == digits + 2 && digits <= MAX_DIGITS
    case Body(buf, _) => |buf| <= MAX_SEQUENCE
    case BodyEsc(buf, _) => |buf| <= MAX_SEQUENCE
  }

  lemma {:induction false} RunBounded(p: Policy, st: FilterState, src: bytes)
    requires Bounded(st)
    ensures Bounded(Run(p, st, src).state)
    decreases |src|
  {
    hide Emit;
    if src != [] {
      RunBounded(p, Feed(p, st, src[0]).state, src[1..]);
    }
  }

  // ---------------------------------------------------------------- the object

  datatype Stage = StText | StEsc | StPrefix | StBody | StBodyEsc

  lemma RunCons(p: Policy, st: FilterState, src: bytes, i: nat)
    requires i < |src|
    ensures var f := Feed(p, st, src[i]);
      var r := Run(p, f.state, src[i + 1..]);
      Run(p, st, src[i..]) == Ran(r.state, f.out + r.out)
  {
    hide Feed;
    assert src[i..][1..] == src[i + 1..];
  }

  /** A release hands the held bytes on and reads the same byte again as text. */
  lemma RunReleased(p: Policy, st: FilterState, held: bytes, src: bytes, i: nat)
    requires i < |src|
    requires Feed(p, st, src[i]) == Ran(FeedText(src[i]).state, held + FeedText(src[i]).out)
    ensures var r := Run(p, Text, src[i..]);
      Run(p, st, src[i..]) == Ran(r.state, held + r.out)
  {
    hide Run, FeedText;
    RunCons(p, st, src, i);
    RunCons(p, Text, src, i);
  }

  lemma {:induction false} RunPlain(p: Policy, src: bytes, i: nat, n: nat)
    requires i + n <= |src| && forall j :: i <= j < i + n ==> src[j] != ESC
    ensures var r := Run(p, Text, src[i + n..]);
      Run(p, Text, src[i..]) == Ran(r.state, src[i..i + n] + r.out)
    decreases n
  {
    hide Run;
    if n > 0 {
      RunCons(p, Text, src, i);
      RunPlain(p, src, i + 1, n - 1);
      assert [src[i]] + src[i + 1..i + n] == src[i..i + n];
    }
  }

  /** How many transitions a state can make before a byte is consumed. */
  function Rank(st: FilterState): nat {
    match st
    case Text => 0
    case Esc => 1
    case Prefix(_, _, _) => 1
    case Body(_, dropping) => if dropping then 0 else 1
    case BodyEsc(_, _) => 2
  }

  /** Going on from `st1` at `i1` with `dst1` written ends as going on from `st0` at `i0` with `dst0` does. */
  ghost predicate Continues(p: Policy, src: bytes, st0: FilterState, i0: nat, dst0: bytes,
                            st1: FilterState, i1: nat, dst1: bytes)
  {
    && i0 <= i1 <= |src|
    && (i0 < i1 || Rank(st1) < Rank(st0))
    && var a, b := Run(p, st0, src[i0..]), Run(p, st1, src[i1..]);
       a.state == b.state && dst0 + a.out == dst1 + b.out
  }

  lemma ContinuesFed(p: Policy, src: bytes, st: FilterState, i: nat, dst: bytes)
    requires i < |src|
    ensures Continues(p, src, st, i, dst, Feed(p, st, src[i]).state, i + 1, dst + Feed(p, st, src[i]).out)
  {
    hide Run, Feed;
    RunCons(p, st, src, i);
    var f := Feed(p, st, src[i]);
    var r := Run(p, f.state, src[i + 1..]);
    assert dst + (f.out + r.out) == (dst + f.out) + r.out;
  }

  lemma ContinuesReleased(p: Policy, src: bytes, st: FilterState, held: bytes, i: nat, dst: bytes)
    requires i < |src| && Rank(st) > 0
    requires Feed(p, st, src[i]) == Ran(FeedText(src[i]).state, held + FeedText(src[i]).out)
    ensures Continues(p, src, st, i, dst, Text, i, dst + held)
  {
    hide Run, FeedText, Feed;
    RunReleased(p, st, held, src, i);
    var r := Run(p, Text, src[i..]);
    assert dst + (held + r.out) == (dst + held) + r.out;
  }

  lemma TextToEnd(p: Policy, src: bytes, i: nat, dst: bytes)
    requires i < |src| && forall j :: i <= j < |src| ==> src[j] != ESC
    ensures Continues(p, src, Text, i, dst, Text, |src|, dst + src[i..])
  {
    RunPlain(p, src, i, |src| - i);
    assert src[i..i + (|src| - i)] == src[i..] && src[|src|..] == [];
  }

  lemma TextToEsc(p: Policy, src: bytes, i: nat, n: nat, dst: bytes)
    requires i + n < |src| && src[i + n] == ESC && forall j :: i <= j < i + n ==> src[j] != ESC
    ensures Continues(p, src, Text, i, dst, Esc, i + n + 1, dst + src[i..i + n])
  {
    hide Run;
    RunPlain(p, src, i, n);
    RunCons(p, Text, src, i + n);
    var r := Run(p, Esc, src[i + n + 1..]);
    assert dst + (src[i..i + n] + ([] + r.out)) == (dst + src[i..i + n]) + r.out;
  }

  /** Two states that feed the next byte alike go on alike. */
  lemma ContinuesAlike(p: Policy, src: bytes, st0: FilterState, st1: FilterState, i: nat, dst: bytes)
    requires i < |src| && Rank(st1) < Rank(st0) && Feed(p, st0, src[i]) == Feed(p, st1, src[i])
    ensures Continues(p, src, st0, i, dst, st1, i, dst)
  {
    hide Run, Feed;
    RunCons(p, st0, src, i);
    RunCons(p, st1, src, i);
  }

  class Filter {
    const policy: Policy
    var state: Stage
    var buf: bytes
    var num: nat
    var digits: nat
    var dropping: bool

    /** Text holds nothing, and only a body can be dropping. */
    ghost predicate Valid()
      reads this
    {
      && (state == StText ==> buf == [])
      && (state == StEsc ==> buf == [ESC])
      && (dropping ==> (state == StBody || state == StBodyEsc) && buf == [])
      && (state != StText && state != StEsc && !dropping ==> |buf| >= 2)
    }

    ghost function View(): FilterState
      reads this
    {
      match state
      case StText => Text
      case StEsc => Esc
      case StPrefix => Prefix(buf, num, digits)
      case StBody => Body(buf, dropping)
      case StBodyEsc => BodyEsc(buf, dropping)
    }

    constructor (policy: Policy)
      ensures Valid() && View() == Text && this.policy == policy
    {
      this.policy := policy;
      state, buf, num, digits, dropping := StText, [], 0, 0, false;
    }

    method Reset()
      modifies this`buf, this`state, this`dropping
      ensures Valid() && View() == Text
    {
      buf := [];
      state := StText;
      dropping := false;
    }

    method Release(dst: bytes) returns (r: bytes)
      modifies this`buf, this`state, this`dropping
      ensures Valid() && View() == Text && r == dst + old(buf)
    {
      r := dst + buf;
      Reset();
    }

    /** Applies the policy to the complete sequence in `buf` and rebuilds it from its parts. */
    method EmitSequence(dst: bytes, term: byte) returns (r: bytes)
      requires dropping || |buf| >= 2
      modifies this`buf, this`state, this`dropping
      ensures Valid() && View() == Text && r == dst + Emit(policy, old(buf), old(dropping), term)
    {
      var held, dropped := buf, dropping;
      Reset();
      if dropped || policy == Off {
        return dst;
      }
      var body := BodyOf(held);
      var sep := IndexOf(body, SEMI);
      if sep == |body| {
        return dst + (INTRO + body + Terminator(term));
      }
      var pc, pd := body[..sep], body[sep + 1..];
      if pd == [QUERY] {
        if policy == Full {
          return dst + (INTRO + pc + [SEMI] + pd + Terminator(term));
        }
        return dst;
      }
      if |pc| == 0 {
        pc := [LETTER_C];
      }
      r := dst + (INTRO + pc + [SEMI] + pd + Terminator(term));
    }

    /** Text up to the next ESC is copied in one go. */
    method InText(src: bytes, i: nat, dst: bytes) returns (j: nat, out: bytes)
      requires Valid() && state == StText && i < |src|
      modifies this`buf, this`state
      ensures Valid() && Continues(policy, src, Text, i, dst, View(), j, out)
    {
      hide Run, Continues;
      var n := IndexOf(src[i..], ESC);
      assert forall k :: i <= k < i + n ==> src[k] == src[i..][k - i];
      if i + n == |src| {
        TextToEnd(policy, src, i, dst);
        return |src|, dst + src[i..];
      }
      TextToEsc(policy, src, i, n, dst);
      out := dst + src[i..i + n];
      buf := [ESC];
      state := StEsc;
      j := i + n + 1;
    }

    method InEsc(src: bytes, i: nat, dst: bytes) returns (j: nat, out: bytes)
      requires Valid() && state == StEsc && i < |src|
      modifies this
      ensures Valid() && Continues(policy, src, old(View()), i, dst, View(), j, out)
    {
      hide Run, Continues;
      if src[i] == BRACKET {
        ContinuesFed(policy, src, Esc, i, dst);
        assert dst + [] == dst && buf + [src[i]] == [ESC, BRACKET];
        buf := buf + [src[i]];
        num, digits := 0, 0;
        state := StPrefix;
        return i + 1, dst;
      }
      ContinuesReleased(policy, src, Esc, [ESC], i, dst);
      out := Release(dst);
      j := i;
    }

    method InPrefix(src: bytes, i: nat, dst: bytes) returns (j: nat, out: bytes)
      requires Valid() && state == StPrefix && i < |src|
      modifies this
      ensures Valid() && Continues(policy, src, old(View()), i, dst, View(), j, out)
    {
      hide Run;
      var c := src[i];
      ContinuesFed(policy, src, View(), i, dst);
      if IsDigit(c) && digits < MAX_DIGITS {
        num := num * 10 + (c - 0x30);
        digits := digits + 1;
        buf := buf + [c];
        return i + 1, dst;
      }
      if c == SEMI && digits > 0 && num == OSC_NUMBER {
        buf := buf + [c];
        state := StBody;
        return i + 1, dst;
      }
      ContinuesReleased(policy, src, View(), buf, i, dst);
      out := Release(dst);
      j := i;
    }

    method InBody(src: bytes, i: nat, dst: bytes) returns (j: nat, out: bytes)
      requires Valid() && state == StBody && i < |src|
      modifies this
      ensures Valid() && Continues(policy, src, old(View()), i, dst, View(), j, out)
    {
      hide Run, Emit;
      var c := src[i];
      ContinuesFed(policy, src, View(), i, dst);
      if c == BEL {
        j := i + 1;
        out := EmitSequence(dst, BEL);
      } else if c == ESC {
        state := StBodyEsc;
        return i + 1, dst;
      } else if c == CAN || c == SUB {
        Reset();
        return i + 1, dst;
      } else if !dropping && |buf| >= MAX_SEQUENCE {
        ContinuesAlike(policy, src, View(), Body([], true), i, dst);
        dropping := true;
        buf := [];
        return i, dst;
      } else {
        if !dropping {
          buf := buf + [c];
        }
        return i + 1, dst;
      }
    }

    method InBodyEsc(src: bytes, i: nat, dst: bytes) returns (j: nat, out: bytes)
      requires Valid() && state == StBodyEsc && i < |src|
      modifies this
      ensures Valid() && Continues(policy, src, old(View()), i, dst, View(), j, out)
    {
      hide Run, Emit;
      ContinuesFed(policy, src, View(), i, dst);
      if src[i] == BACKSLASH {
        j := i + 1;
        out := EmitSequence(dst, ESC);
        return;
      }
      ContinuesAlike(policy, src, View(), Esc, i, dst);
      Reset();
      buf := [ESC];
      state := StEsc;
      return i, dst;
    }

    /** One turn of the loop: either a byte is consumed or the rank drops. */
    method Turn(src: bytes, i: nat, dst: bytes) returns (j: nat, out: bytes)
      requires Valid() && i < |src|
      modifies this
      ensures Valid() && Continues(policy, src, old(View()), i, dst, View(), j, out)
    {
      hide Continues;
      match state
      case StText => j, out := InText(src, i, dst);
      case StEsc => j, out := InEsc(src, i, dst);
      case StPrefix => j, out := InPrefix(src, i, dst);
      case StBody => j, out := InBody(src, i, dst);
      case StBodyEsc => j, out := InBodyEsc(src, i, dst);
    }

    /** Filter: its loop writes exactly what the byte-driven machine writes, and stops where it stops. */
    method Filter(dst: bytes, src: bytes) returns (out: bytes)
      requires Valid()
      modifies this
      ensures Valid() && View() == Run(policy, old(View()), src).state
      ensures out == dst + Run(policy, old(View()), src).out
    {
      hide Feed;
      var i := 0;
      out := dst;
      assert src[0..] == src;
      while i < |src|
        invariant Valid() && 0 <= i <= |src|
        invariant var a, b := Run(policy, old(View()), src), Run(policy, View(), src[i..]);
          a.state == b.state && dst + a.out == out + b.out
        decreases |src| - i, Rank(View())
      {
        i, out := Turn(src, i, out);
      }
      assert src[i..] == [];
    }

    method Flush(dst: bytes) returns (out: bytes)
      requires Valid()
      modifies this
      ensures Valid() && View() == Text && out == dst + Flushed(old(View()))
    {
      if state == StText {
        return dst;
      }
      if dropping {
        Reset();
        return dst;
      }
      if state == StBodyEsc {
        buf := buf + [ESC];
      }
      out := Release(dst);
    }

    /** Nothing is held for a later call. */
    method FilterChunk(dst: bytes, src: bytes) returns (out: bytes)
      requires Valid()
      modifies this
      ensures Valid() && View() == Text
      ensures var r := Run(policy, old(View()), src); out == dst + r.out + Flushed(r.state)
    {
      out := Filter(dst, src);
      out := Flush(out);
    }
  }
}
