/**
 * What the filter means: a tokeniser that looks at the whole input, and the theorem that the
 * byte-driven machine writes exactly the rendering of its tokens (internal/osc52/osc52.go).
 */
module Osc52Tokens {
  import opened Basics
  import opened Osc52

  // ---------------------------------------------------------------- the tokeniser

  function NumberFrom(acc: nat, ds: bytes): nat
    requires forall i :: 0 <= i < |ds| ==> IsDigit(ds[i])
    decreases |ds|
  {
    if ds == [] then acc
    else
      assert IsDigit(ds[0]);
      var d: nat := ds[0] as int - 0x30;
      NumberFrom(acc * 10 + d, ds[1..])
  }

  predicate AllDigits(ds: bytes) {
    forall i :: 0 <= i < |ds| ==> IsDigit(ds[i])
  }

  /** `s` opens with `ESC ]`, `k` digits that spell 52, and a semicolon. */
  predicate Introduces(s: bytes, k: nat) {
    && 1 <= k <= MAX_DIGITS && |s| >= k + 3
    && s[0] == ESC && s[1] == BRACKET
    && AllDigits(s[2..k + 2])
    && s[k + 2] == SEMI
    && NumberFrom(0, s[2..k + 2]) == OSC_NUMBER
  }

  /** All of `s` could still open an OSC number: more input is needed to tell. */
  predicate Undecided(s: bytes) {
    && s != [] && s[0] == ESC
    && (|s| > 1 ==> s[1] == BRACKET && |s| <= MAX_DIGITS + 2 && AllDigits(s[2..]))
  }

  function DigitRun(s: bytes): (n: nat)
    ensures n <= |s| && AllDigits(s[..n])
    ensures n < |s| ==> !IsDigit(s[n])
  {
    if s == [] || !IsDigit(s[0]) then 0
    else
      var n := DigitRun(s[1..]) + 1;
      assert forall i :: 0 < i < n ==> s[i] == s[1..][i - 1];
      n
  }

  /** The number of digits of the introducer `s` opens with, or 0. */
  function IntroDigits(s: bytes): nat {
    if |s| < 3 then 0
    else
      var k := DigitRun(s[2..]);
      if |s| >= k + 3 && Introduces(s, k) then k else 0
  }

  /** The length of the body before the first byte that can end it. */
  function BodyLength(s: bytes): (n: nat)
    ensures n <= |s|
    ensures n < |s| ==> EndsBody(s[n])
    ensures forall i :: 0 <= i < n ==> !EndsBody(s[i])
  {
    if s == [] || EndsBody(s[0]) then 0
    else
      var n := BodyLength(s[1..]) + 1;
      assert forall i :: 0 < i < n ==> s[i] == s[1..][i - 1];
      n
  }

  datatype Token =
    | Plain(c: byte)
    | Sequence(head: bytes, body: bytes, term: byte)   // head is the introducer as it was spelled
    | Aborted(head: bytes, body: bytes, cause: bytes)  // cause is CAN or SUB, or nothing when an ESC ended it

  datatype Tail =
    | Complete
    | Waiting(s: bytes)
    | Unfinished(head: bytes, body: bytes, half: bool) // half: an ESC is in that may begin ST

  datatype Lexed = End(tail: Tail) | More(token: Token, rest: bytes)

  /** Inside an OSC 52: the body runs to the first byte that can end it. */
  function LexBody(head: bytes, rest: bytes): Lexed {
    var n := BodyLength(rest);
    var body := rest[..n];
    if n == |rest| then End(Unfinished(head, body, false))
    else if rest[n] == BEL then More(Sequence(head, body, BEL), rest[n + 1..])
    else if rest[n] != ESC then More(Aborted(head, body, [rest[n]]), rest[n + 1..])
    else if n + 1 == |rest| then End(Unfinished(head, body, true))
    else if rest[n + 1] == BACKSLASH then More(Sequence(head, body, ESC), rest[n + 2..])
    else More(Aborted(head, body, []), rest[n..])
  }

  function Lex(s: bytes): Lexed {
    var k := IntroDigits(s);
    if s == [] then End(Complete)
    else if Undecided(s) then End(Waiting(s))
    else if k == 0 || |s| < k + 3 then More(Plain(s[0]), s[1..])
    else LexBody(s[..k + 3], s[k + 3..])
  }

  function Spell(t: Token): bytes {
    match t
    case Plain(c) => [c]
    case Sequence(head, body, term) => head + body + Terminator(term)
    case Aborted(head, body, cause) => head + body + cause
  }

  function SpellTail(t: Tail): bytes {
    match t
    case Complete => []
    case Waiting(s) => s
    case Unfinished(head, body, half) => head + body + if half then [ESC] else []
  }

  lemma Regroup(a: bytes, b: bytes, c: bytes, d: bytes)
    ensures a + b + c + d == a + (b + (c + d))
  {
  }

  lemma LexBodySpells(head: bytes, rest: bytes)
    requires head != []
    ensures match LexBody(head, rest)
      case End(tail) => SpellTail(tail) == head + rest
      case More(t, after) => Spell(t) + after == head + rest && |after| < |head| + |rest|
  {
    var n := BodyLength(rest);
    var body := rest[..n];
    hide BodyLength;
    assert rest == body + rest[n..];
    if n == |rest| {
      assert head + body + [] == head + rest;
    } else if rest[n] != ESC {
      Regroup(head, body, [rest[n]], rest[n + 1..]);
      assert rest[n..] == [rest[n]] + rest[n + 1..];
    } else if n + 1 == |rest| {
      Regroup(head, body, [ESC], []);
      assert rest[n..] == [ESC] + [];
    } else if rest[n + 1] == BACKSLASH {
      Regroup(head, body, [ESC, BACKSLASH], rest[n + 2..]);
      assert rest[n..] == [ESC, BACKSLASH] + rest[n + 2..];
    } else {
      Regroup(head, body, [], rest[n..]);
      assert rest[n..] == [] + rest[n..];
    }
  }

  /** A token and what follows it spell the input. */
  lemma LexSpells(s: bytes)
    ensures match Lex(s)
      case End(tail) => SpellTail(tail) == s
      case More(t, rest) => Spell(t) + rest == s && |rest| < |s|
  {
    hide LexBody, Introduces, Undecided, DigitRun;
    var k := IntroDigits(s);
    if s != [] && k != 0 && |s| >= k + 3 {
      assert s[..k + 3] + s[k + 3..] == s;
      LexBodySpells(s[..k + 3], s[k + 3..]);
    }
  }

  datatype Parse = Parse(tokens: seq<Token>, tail: Tail)

  function Tokenise(s: bytes): Parse
    decreases |s|
  {
    LexSpells(s);
    match Lex(s)
    case End(tail) => Parse([], tail)
    case More(t, rest) =>
      var p := Tokenise(rest);
      Parse([t] + p.tokens, p.tail)
  }

  function SpellAll(ts: seq<Token>): bytes {
    if ts == [] then [] else Spell(ts[0]) + SpellAll(ts[1..])
  }

  /** Text verbatim; the policy's rendering of a complete sequence that fits; nothing for the rest. */
  function Render(p: Policy, t: Token): bytes {
    match t
    case Plain(c) => [c]
    case Sequence(head, body, term) => if |head| + |body| > MAX_SEQUENCE then [] else RenderBody(p, body, term)
    case Aborted(_, _, _) => []
  }

  function RenderAll(p: Policy, ts: seq<Token>): bytes {
    if ts == [] then [] else Render(p, ts[0]) + RenderAll(p, ts[1..])
  }

  lemma SpellCons(t: Token, ts: seq<Token>)
    ensures SpellAll([t] + ts) == Spell(t) + SpellAll(ts)
  {
    assert ([t] + ts)[1..] == ts;
  }

  lemma RenderCons(p: Policy, t: Token, ts: seq<Token>)
    ensures RenderAll(p, [t] + ts) == Render(p, t) + RenderAll(p, ts)
  {
    assert ([t] + ts)[1..] == ts;
  }

  /** Tokens and tail spell the input: nothing is lost, added or moved by tokenising. */
  lemma {:induction false} TokensSpellInput(s: bytes)
    ensures SpellAll(Tokenise(s).tokens) + SpellTail(Tokenise(s).tail) == s
    decreases |s|
  {
    hide Lex, Spell, SpellTail;
    LexSpells(s);
    match Lex(s)
    case End(tail) =>
    case More(t, rest) =>
      TokensSpellInput(rest);
      var p := Tokenise(rest);
      SpellCons(t, p.tokens);
      assert Spell(t) + (SpellAll(p.tokens) + SpellTail(p.tail)) == Spell(t) + SpellAll(p.tokens) + SpellTail(p.tail);
  }

  // ---------------------------------------------------------------- the machine along one token

  /** The state that has held `h` of an OSC 52: past the cap it drops instead. */
  function Holding(h: bytes): FilterState {
    if |h| <= MAX_SEQUENCE then Body(h, false) else Body([], true)
  }

  function HoldingEsc(h: bytes): FilterState {
    if |h| <= MAX_SEQUENCE then BodyEsc(h, false) else BodyEsc([], true)
  }

  /** The machine's state where the tokeniser stops. */
  ghost predicate Stands(st: FilterState, tail: Tail) {
    match tail
    case Complete => st == Text
    case Waiting(s) =>
      if |s| == 1 then st == Esc
      else |s| > 1 && AllDigits(s[2..]) && st == Prefix(s, NumberFrom(0, s[2..]), |s| - 2)
    case Unfinished(head, body, half) => st == if half then HoldingEsc(head + body) else Holding(head + body)
  }

  /** From `st` the machine reads `s` as it was lexed: it renders one token and is back in text, or it waits. */
  ghost predicate Agrees(p: Policy, st: FilterState, s: bytes, lexed: Lexed) {
    match lexed
    case End(tail) => Run(p, st, s).out == [] && Stands(Run(p, st, s).state, tail)
    case More(t, rest) => Run(p, st, s) == Ran(Run(p, Text, rest).state, Render(p, t) + Run(p, Text, rest).out)
  }

  lemma RunOn(p: Policy, st: FilterState, c: byte, rest: bytes)
    ensures var f := Feed(p, st, c);
      var r := Run(p, f.state, rest);
      Run(p, st, [c] + rest) == Ran(r.state, f.out + r.out)
  {
    hide Feed;
    assert ([c] + rest)[1..] == rest;
  }

  /** Bytes that write nothing only move the state. */
  lemma RunQuiet(p: Policy, st: FilterState, c: byte, next: FilterState, rest: bytes)
    requires Feed(p, st, c) == Ran(next, [])
    ensures Run(p, st, [c] + rest) == Run(p, next, rest)
  {
    hide Run, Feed;
    RunOn(p, st, c, rest);
  }

  lemma {:induction false} RunDigits(p: Policy, buf: bytes, num: nat, digits: nat, ds: bytes, rest: bytes)
    requires AllDigits(ds) && digits + |ds| <= MAX_DIGITS
    ensures Run(p, Prefix(buf, num, digits), ds + rest)
         == Run(p, Prefix(buf + ds, NumberFrom(num, ds), digits + |ds|), rest)
    decreases |ds|
  {
    hide Run;
    if ds == [] {
      assert ds + rest == rest && buf + ds == buf;
    } else {
      var d: nat := ds[0] as int - 0x30;
      assert ds + rest == [ds[0]] + (ds[1..] + rest);
      RunQuiet(p, Prefix(buf, num, digits), ds[0], Prefix(buf + [ds[0]], num * 10 + d, digits + 1), ds[1..] + rest);
      RunDigits(p, buf + [ds[0]], num * 10 + d, digits + 1, ds[1..], rest);
      assert buf + [ds[0]] + ds[1..] == buf + ds;
    }
  }

  lemma RunOpening(p: Policy, ds: bytes, rest: bytes)
    requires AllDigits(ds) && |ds| <= MAX_DIGITS
    ensures Run(p, Text, [ESC, BRACKET] + ds + rest)
         == Run(p, Prefix([ESC, BRACKET] + ds, NumberFrom(0, ds), |ds|), rest)
  {
    hide Run;
    assert [ESC, BRACKET] + ds + rest == [ESC] + ([BRACKET] + (ds + rest));
    RunQuiet(p, Text, ESC, Esc, [BRACKET] + (ds + rest));
    RunQuiet(p, Esc, BRACKET, Prefix([ESC, BRACKET], 0, 0), ds + rest);
    RunDigits(p, [ESC, BRACKET], 0, 0, ds, rest);
  }

  lemma RunIntro(p: Policy, s: bytes, k: nat)
    requires Introduces(s, k)
    ensures Run(p, Text, s) == Run(p, Holding(s[..k + 3]), s[k + 3..])
  {
    hide Run;
    var ds, rest := s[2..k + 2], s[k + 3..];
    var buf := [ESC, BRACKET] + ds;
    assert s == buf + ([SEMI] + rest);
    RunOpening(p, ds, [SEMI] + rest);
    RunQuiet(p, Prefix(buf, NumberFrom(0, ds), |ds|), SEMI, Body(buf + [SEMI], false), rest);
    assert buf + [SEMI] == s[..k + 3];
  }

  lemma {:induction false} RunBody(p: Policy, h: bytes, b: bytes, rest: bytes)
    requires forall i :: 0 <= i < |b| ==> !EndsBody(b[i])
    ensures Run(p, Holding(h), b + rest) == Run(p, Holding(h + b), rest)
    decreases |b|
  {
    hide Run;
    if b == [] {
      assert b + rest == rest && h + b == h;
    } else {
      assert b + rest == [b[0]] + (b[1..] + rest);
      RunQuiet(p, Holding(h), b[0], Holding(h + [b[0]]), b[1..] + rest);
      RunBody(p, h + [b[0]], b[1..], rest);
      assert h + [b[0]] + b[1..] == h + b;
    }
  }

  /** The body survives being held behind its introducer. */
  lemma HeldBody(s: bytes, k: nat, body: bytes)
    requires Introduces(s, k)
    ensures BodyOf(s[..k + 3] + body) == body
  {
    var buf := s[..k + 3] + body;
    var rest := buf[2..];
    assert forall i :: 0 <= i < k ==> rest[i] == s[2..k + 2][i];
    assert rest[k] == SEMI && rest[k + 1..] == body;
    var j := IndexOf(rest, SEMI);
    assert j >= k;
  }

  lemma RunBel(p: Policy, head: bytes, body: bytes, after: bytes)
    requires BodyOf(head + body) == body
    ensures var r := Run(p, Text, after);
      Run(p, Holding(head + body), [BEL] + after) == Ran(r.state, Render(p, Sequence(head, body, BEL)) + r.out)
  {
    hide Run, BodyOf, RenderBody;
    RunOn(p, Holding(head + body), BEL, after);
  }

  lemma RunCancel(p: Policy, h: bytes, c: byte, after: bytes)
    requires c == CAN || c == SUB
    ensures Run(p, Holding(h), [c] + after) == Run(p, Text, after)
  {
    hide Run, Emit;
    RunQuiet(p, Holding(h), c, Text, after);
  }

  lemma RunSt(p: Policy, head: bytes, body: bytes, after: bytes)
    requires BodyOf(head + body) == body
    ensures var r := Run(p, Text, after);
      Run(p, HoldingEsc(head + body), [BACKSLASH] + after) == Ran(r.state, Render(p, Sequence(head, body, ESC)) + r.out)
  {
    hide Run, BodyOf, RenderBody;
    RunOn(p, HoldingEsc(head + body), BACKSLASH, after);
  }

  /** An ESC that ends the string without completing it is read again as an ESC of text. */
  lemma RunAbort(p: Policy, h: bytes, c: byte, after: bytes)
    requires c != BACKSLASH
    ensures Run(p, HoldingEsc(h), [c] + after) == Run(p, Text, [ESC] + ([c] + after))
  {
    hide Run, Emit;
    RunOn(p, HoldingEsc(h), c, after);
    RunOn(p, Esc, c, after);
    RunQuiet(p, Text, ESC, Esc, [c] + after);
  }

  /** What the machine does with a sequence that ends, and where it stops if it does not. */
  lemma RunInside(p: Policy, s: bytes, k: nat, rest: bytes)
    requires |s| >= k + 3 && Introduces(s, k)
    ensures Agrees(p, Holding(s[..k + 3]), rest, LexBody(s[..k + 3], rest))
  {
    hide Run, RenderBody, Introduces, BodyOf, Feed, BodyLength, Holding, HoldingEsc;
    var head, n := s[..k + 3], BodyLength(rest);
    var body := rest[..n];
    var h := head + body;
    assert rest == body + rest[n..];
    RunBody(p, head, body, rest[n..]);
    HeldBody(s, k, body);
    if n == |rest| {
      RunNothing(p, Holding(h));
      assert rest[n..] == [];
    } else if rest[n] == BEL {
      assert rest[n..] == [BEL] + rest[n + 1..];
      RunBel(p, head, body, rest[n + 1..]);
    } else if rest[n] != ESC {
      assert rest[n..] == [rest[n]] + rest[n + 1..];
      RunCancel(p, h, rest[n], rest[n + 1..]);
    } else {
      RunHalf(p, head, body, rest[n + 1..]);
      assert rest[n..] == [ESC] + rest[n + 1..];
      if n + 1 == |rest| {
        RunNothing(p, HoldingEsc(h));
        assert rest[n + 1..] == [];
      } else if rest[n + 1] == BACKSLASH {
        assert rest[n + 1..] == [BACKSLASH] + rest[n + 2..];
        RunSt(p, head, body, rest[n + 2..]);
      } else {
        assert rest[n + 1..] == [rest[n + 1]] + rest[n + 2..];
        RunAbort(p, h, rest[n + 1], rest[n + 2..]);
      }
    }
  }

  lemma RunHalf(p: Policy, head: bytes, body: bytes, after: bytes)
    ensures Run(p, Holding(head + body), [ESC] + after) == Run(p, HoldingEsc(head + body), after)
  {
    hide Run, Emit;
    RunQuiet(p, Holding(head + body), ESC, HoldingEsc(head + body), after);
  }

  lemma RunNothing(p: Policy, st: FilterState)
    ensures Run(p, st, []) == Ran(st, [])
  {
  }

  /** Where nothing is decided yet the machine waits with exactly those bytes. */
  lemma RunUndecided(p: Policy, s: bytes)
    requires Undecided(s)
    ensures Run(p, Text, s).out == [] && Stands(Run(p, Text, s).state, Waiting(s))
  {
    hide Run;
    RunNothing(p, Esc);
    if |s| == 1 {
      assert s == [ESC] + [];
      RunQuiet(p, Text, ESC, Esc, []);
    } else {
      var ds := s[2..];
      assert s == [ESC, BRACKET] + ds + [];
      RunOpening(p, ds, []);
      RunNothing(p, Prefix([ESC, BRACKET] + ds, NumberFrom(0, ds), |ds|));
    }
  }

  /** Text without ESC passes straight through. */
  lemma {:induction false} RunVerbatim(p: Policy, t: bytes, rest: bytes)
    requires forall i :: 0 <= i < |t| ==> t[i] != ESC
    ensures var r := Run(p, Text, rest); Run(p, Text, t + rest) == Ran(r.state, t + r.out)
    decreases |t|
  {
    hide Run;
    if t == [] {
      assert t + rest == rest;
    } else {
      assert t + rest == [t[0]] + (t[1..] + rest);
      RunOn(p, Text, t[0], t[1..] + rest);
      RunVerbatim(p, t[1..], rest);
      assert [t[0]] + (t[1..] + Run(p, Text, rest).out) == t + Run(p, Text, rest).out;
    }
  }

  /** An ESC that opens no OSC 52 is text, and so is what was held behind it. */
  lemma RunNotIntro(p: Policy, s: bytes)
    requires s != [] && s[0] == ESC && !Undecided(s) && IntroDigits(s) == 0
    ensures var r := Run(p, Text, s[1..]); Run(p, Text, s) == Ran(r.state, [ESC] + r.out)
  {
    hide Run;
    assert s == [ESC] + s[1..];
    RunQuiet(p, Text, ESC, Esc, s[1..]);
    assert s[1..] == [s[1]] + s[2..];
    if s[1] != BRACKET {
      RunOn(p, Esc, s[1], s[2..]);
      RunOn(p, Text, s[1], s[2..]);
      var f := FeedText(s[1]);
      assert [ESC] + f.out + Run(p, f.state, s[2..]).out == [ESC] + (f.out + Run(p, f.state, s[2..]).out);
    } else {
      var n := DigitRun(s[2..]);
      var m := if n > MAX_DIGITS then MAX_DIGITS else n;
      RunFalseStart(p, s, n, m);
    }
  }

  /** `ESC ]`, some digits and a byte that releases them, against the same bytes read as text. */
  lemma RunReleasedDigits(p: Policy, ds: bytes, c: byte, rest: bytes)
    requires AllDigits(ds) && |ds| <= MAX_DIGITS
    requires var buf := [ESC, BRACKET] + ds;
      Feed(p, Prefix(buf, NumberFrom(0, ds), |ds|), c) == Ran(FeedText(c).state, buf + FeedText(c).out)
    ensures var plain := [BRACKET] + ds + ([c] + rest);
      Run(p, Text, [ESC] + plain) == Ran(Run(p, Text, plain).state, [ESC] + Run(p, Text, plain).out)
  {
    hide Run, FeedText, FeedPrefix;
    var buf, plain := [ESC, BRACKET] + ds, [BRACKET] + ds;
    assert [ESC] + (plain + ([c] + rest)) == buf + ([c] + rest);
    RunOpening(p, ds, [c] + rest);
    RunOn(p, Prefix(buf, NumberFrom(0, ds), |ds|), c, rest);
    RunVerbatim(p, plain, [c] + rest);
    RunOn(p, Text, c, rest);
    var f := FeedText(c);
    var r := Run(p, f.state, rest);
    assert buf + f.out + r.out == [ESC] + (plain + (f.out + r.out));
  }

  /** The byte after a run of at most eight digits that does not make them OSC 52 releases them all. */
  lemma RunFalseStart(p: Policy, s: bytes, n: nat, m: nat)
    requires |s| > 1 && s[0] == ESC && s[1] == BRACKET && !Undecided(s) && IntroDigits(s) == 0
    requires n == DigitRun(s[2..]) && m == if n > MAX_DIGITS then MAX_DIGITS else n
    ensures var r := Run(p, Text, s[1..]); Run(p, Text, s) == Ran(r.state, [ESC] + r.out)
  {
    hide Run, Feed, FeedText, Undecided, IntroDigits, DigitRun, AllDigits;
    NotAllDigits(s, n, m);
    ReleasedBy(p, s, n, m);
    var ds, c, rest := s[2..][..m], s[m + 2], s[m + 3..];
    RunReleasedDigits(p, ds, c, rest);
    var plain := [BRACKET] + ds + ([c] + rest);
    assert s[1..] == plain && s == [ESC] + plain;
  }

  lemma NotAllDigits(s: bytes, n: nat, m: nat)
    requires |s| > 1 && s[0] == ESC && s[1] == BRACKET && !Undecided(s)
    requires n == DigitRun(s[2..]) && m == if n > MAX_DIGITS then MAX_DIGITS else n
    ensures m + 2 < |s|
  {
    assert n + 2 == |s| ==> s[2..][..n] == s[2..];
  }

  lemma ReleasedBy(p: Policy, s: bytes, n: nat, m: nat)
    requires |s| > 1 && s[0] == ESC && s[1] == BRACKET && IntroDigits(s) == 0
    requires n == DigitRun(s[2..]) && m == (if n > MAX_DIGITS then MAX_DIGITS else n) && m + 2 < |s|
    ensures AllDigits(s[2..][..m])
    ensures var ds, c := s[2..][..m], s[m + 2];
      var buf := [ESC, BRACKET] + ds;
      Feed(p, Prefix(buf, NumberFrom(0, ds), m), c) == Ran(FeedText(c).state, buf + FeedText(c).out)
  {
    assert forall i :: 0 <= i < m ==> s[2..][..m][i] == s[2..][..n][i];
    assert s[m + 2] == s[2..][m];
    assert s[2..][..m] == s[2..m + 2];
  }

  // ---------------------------------------------------------------- the refinement

  /** Along one token the machine writes its rendering and is back in text; at the end it waits. */
  lemma RunLexed(p: Policy, s: bytes)
    ensures Agrees(p, Text, s, Lex(s))
  {
    hide Run, LexBody, Undecided, Introduces, DigitRun, Feed, RenderBody;
    var k := IntroDigits(s);
    if s == [] {
      RunNothing(p, Text);
    } else if Undecided(s) {
      RunUndecided(p, s);
    } else if k == 0 || |s| < k + 3 {
      assert s == [s[0]] + s[1..];
      if s[0] == ESC {
        RunNotIntro(p, s);
      } else {
        RunVerbatim(p, [s[0]], s[1..]);
      }
    } else {
      RunIntro(p, s, k);
      RunInside(p, s, k, s[k + 3..]);
    }
  }

  /**
   * The filter refines the tokeniser: on any input it writes text verbatim, the policy's rendering of
   * each complete OSC 52, and nothing for aborted or oversized ones, and holds back just the tail.
   */
  lemma {:induction false} FilterRefinesTokens(p: Policy, s: bytes)
    ensures Run(p, Text, s).out == RenderAll(p, Tokenise(s).tokens)
    ensures Stands(Run(p, Text, s).state, Tokenise(s).tail)
    decreases |s|
  {
    hide Run, Lex, Render, Stands;
    LexSpells(s);
    RunLexed(p, s);
    match Lex(s)
    case End(tail) =>
    case More(t, rest) =>
      FilterRefinesTokens(p, rest);
      RenderCons(p, t, Tokenise(rest).tokens);
  }

  // ---------------------------------------------------------------- what a caller can rely on

  /** No OSC 52 opens anywhere in `s`. */
  ghost predicate NoIntroducer(s: bytes) {
    forall i :: 0 <= i <= |s| ==> IntroDigits(s[i..]) == 0
  }

  lemma {:induction false} AllPlain(s: bytes)
    requires NoIntroducer(s)
    ensures forall p :: RenderAll(p, Tokenise(s).tokens) == SpellAll(Tokenise(s).tokens)
    ensures !Tokenise(s).tail.Unfinished?
    decreases |s|
  {
    hide IntroDigits, Undecided;
    assert s[0..] == s;
    if s != [] && !Undecided(s) {
      assert forall i :: 0 <= i <= |s| - 1 ==> s[1..][i..] == s[i + 1..];
      AllPlain(s[1..]);
      var ts := Tokenise(s[1..]).tokens;
      SpellCons(Plain(s[0]), ts);
      forall p: Policy
        ensures RenderAll(p, [Plain(s[0])] + ts) == [s[0]] + RenderAll(p, ts)
      {
        RenderCons(p, Plain(s[0]), ts);
      }
    }
  }

  lemma FlushedTail(st: FilterState, tail: Tail)
    requires Stands(st, tail) && !tail.Unfinished?
    requires tail.Waiting? ==> tail.s != [] && (|tail.s| == 1 ==> tail.s == [ESC])
    ensures Flushed(st) == SpellTail(tail)
  {
  }

  /** What a flush may give back of the tail: all of it, unless it has outgrown what can be held. */
  function Returned(tail: Tail): bytes {
    if tail.Unfinished? && |tail.head| + |tail.body| > MAX_SEQUENCE then [] else SpellTail(tail)
  }

  lemma FlushedIs(st: FilterState, tail: Tail)
    requires Stands(st, tail)
    requires tail.Waiting? ==> tail.s != [] && (|tail.s| == 1 ==> tail.s == [ESC])
    ensures Flushed(st) == Returned(tail)
  {
  }

  /**
   * A flush swallows no keystroke: on every input and under every policy, what is written and then flushed is the
   * rendering of the tokens and the whole tail, an unfinished OSC 52 included, unless that has outgrown the cap.
   */
  lemma FlushGivesBackTail(p: Policy, s: bytes)
    ensures var r := Run(p, Text, s);
      r.out + Flushed(r.state) == RenderAll(p, Tokenise(s).tokens) + Returned(Tokenise(s).tail)
  {
    hide Run, Tokenise, RenderAll, Stands, Flushed, Returned;
    FilterRefinesTokens(p, s);
    WaitsOnEsc(s);
    FlushedIs(Run(p, Text, s).state, Tokenise(s).tail);
  }

  /** Under every policy, input with no OSC 52 in it comes out as it went in, less what is held. */
  lemma ForeignTextUntouched(p: Policy, s: bytes)
    requires NoIntroducer(s)
    ensures var r := Run(p, Text, s); r.out + Flushed(r.state) == s
  {
    hide Run, Tokenise, RenderAll, SpellAll, Stands, Flushed, IntroDigits, SpellTail;
    FilterRefinesTokens(p, s);
    AllPlain(s);
    TokensSpellInput(s);
    WaitsOnEsc(s);
    FlushedTail(Run(p, Text, s).state, Tokenise(s).tail);
  }

  lemma {:induction false} WaitsOnEsc(s: bytes)
    ensures var tail := Tokenise(s).tail; tail.Waiting? ==> tail.s != [] && (|tail.s| == 1 ==> tail.s == [ESC])
    decreases |s|
  {
    hide BodyLength, IntroDigits;
    LexSpells(s);
    match Lex(s)
    case End(tail) => assert tail.Waiting? ==> Undecided(tail.s);
    case More(t, rest) => WaitsOnEsc(rest);
  }

  lemma BodyLengthIs(b: bytes, rest: bytes)
    requires (forall i :: 0 <= i < |b| ==> !EndsBody(b[i])) && rest != [] && EndsBody(rest[0])
    ensures BodyLength(b + rest) == |b|
  {
    var n, s := BodyLength(b + rest), b + rest;
    assert s[|b|] == rest[0];
  }

  lemma IndexOfIs(a: bytes, c: byte, b: bytes)
    requires forall i :: 0 <= i < |a| ==> a[i] != c
    ensures IndexOf(a + [c] + b, c) == |a|
  {
    var s := a + [c] + b;
    var k := IndexOf(s, c);
    assert s[|a|] == c;
  }

  /** A clipboard write in canonical form: `ESC ] 52 ; Pc ; Pd` with a selection, and not a query. */
  ghost predicate CanonicalWrite(pc: bytes, pd: bytes) {
    && pc != [] && SEMI !in pc && pd != [QUERY]
    && (forall i :: 0 <= i < |pc| ==> !EndsBody(pc[i]))
    && (forall i :: 0 <= i < |pd| ==> !EndsBody(pd[i]))
  }

  lemma RenderWrite(p: Policy, pc: bytes, pd: bytes, term: byte)
    requires p != Off && CanonicalWrite(pc, pd)
    ensures RenderBody(p, pc + [SEMI] + pd, term) == INTRO + (pc + [SEMI] + pd) + Terminator(term)
  {
    IndexOfIs(pc, SEMI, pd);
    var body := pc + [SEMI] + pd;
    assert body[..|pc|] == pc && body[|pc| + 1..] == pd;
    assert INTRO + pc + [SEMI] + pd == INTRO + body;
  }

  lemma LexCanonical(rest: bytes)
    ensures Lex(INTRO + rest) == LexBody(INTRO, rest)
  {
    hide LexBody, NumberFrom;
    var s := INTRO + rest;
    assert s[2..4] == [0x35, 0x32] && s[4] == SEMI;
    FiftyTwo();
    assert Introduces(s, 2);
    var n := DigitRun(s[2..]);
    assert s[2..][0] == 0x35 && s[2..][1] == 0x32 && s[2..][2] == SEMI;
    assert s[2..][..n] == s[2..n + 2];
    assert n == 2 by { DigitRunIs(s[2..]); }
    assert s[..5] == INTRO && s[5..] == rest;
    assert !Undecided(s) by { assert s[2..][2] == SEMI && !IsDigit(SEMI); }
  }

  lemma DigitRunIs(t: bytes)
    requires |t| > 2 && IsDigit(t[0]) && IsDigit(t[1]) && !IsDigit(t[2])
    ensures DigitRun(t) == 2
  {
    assert DigitRun(t[1..][1..]) == 0;
  }

  lemma FiftyTwo()
    ensures AllDigits([0x35, 0x32]) && NumberFrom(0, [0x35, 0x32]) == OSC_NUMBER
  {
    assert [0x35, 0x32][1..] == [0x32] && [0x32][1..] == [];
    assert NumberFrom(52, []) == 52;
    assert NumberFrom(5, [0x32]) == 52;
  }

  /**
   * Under Write and Full a canonical write whose held part fits passes unchanged, and a longer one
   * yields nothing; either way the filter is back in text.
   */
  lemma CanonicalWritePasses(p: Policy, pc: bytes, pd: bytes, term: byte)
    requires p != Off && CanonicalWrite(pc, pd) && (term == BEL || term == ESC)
    ensures var held := INTRO + (pc + [SEMI] + pd);
      Run(p, Text, held + Terminator(term))
        == Ran(Text, if |held| <= 65536 then held + Terminator(term) else [])
  {
    hide Run, RenderBody, CanonicalWrite, BodyLength;
    var body := pc + [SEMI] + pd;
    var rest := body + Terminator(term);
    assert INTRO + body + Terminator(term) == INTRO + rest;
    LexCanonical(rest);
    LexEnds(pc, pd, term);
    RunLexed(p, INTRO + rest);
    RunNothing(p, Text);
    RenderWrite(p, pc, pd, term);
  }

  lemma LexEnds(pc: bytes, pd: bytes, term: byte)
    requires CanonicalWrite(pc, pd) && (term == BEL || term == ESC)
    ensures var body := pc + [SEMI] + pd;
      LexBody(INTRO, body + Terminator(term)) == More(Sequence(INTRO, body, term), [])
  {
    var body := pc + [SEMI] + pd;
    var rest := body + Terminator(term);
    assert forall i :: 0 <= i < |body| ==> !EndsBody(body[i]);
    BodyLengthIs(body, Terminator(term));
    assert rest[..|body|] == body && rest[|body|] == Terminator(term)[0];
    assert rest[|body| + |Terminator(term)|..] == [];
  }
}
