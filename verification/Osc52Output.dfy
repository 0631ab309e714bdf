/**
 * What a terminal makes of the filter's output: its own parse of the bytes written, against what the
 * policy let through (internal/osc52/osc52.go).
 */
module Osc52Output {
  import opened Basics
  import opened Osc52
  import opened Osc52Tokens

  // ---------------------------------------------------------------- what is let through

  /** The body `Pc ; ?` asks the terminal to report the selection. */
  predicate IsQuery(body: bytes) {
    IndexOf(body, SEMI) < |body| && body[IndexOf(body, SEMI) + 1..] == [QUERY]
  }

  predicate Blocked(p: Policy, body: bytes) {
    p == Off || (p == Write && IsQuery(body))
  }

  /** A write that names no selection is given the system clipboard. */
  function Normal(body: bytes): bytes {
    if body != [] && body[0] == SEMI && !IsQuery(body) then [LETTER_C] + body else body
  }

  lemma FirstSemi(body: bytes)
    ensures IndexOf(body, SEMI) == 0 <==> body == [] || body[0] == SEMI
  {
  }

  lemma Rejoin(a: bytes, b: bytes, k: nat)
    requires k < |b|
    ensures a + b[..k] + [b[k]] + b[k + 1..] == a + b
  {
  }

  lemma RejoinNamed(a: bytes, c: bytes, b: bytes)
    requires b != []
    ensures a + c + [b[0]] + b[1..] == a + (c + b)
  {
  }

  /** A sequence is written whole in its one canonical form, or not at all. */
  lemma RenderedBody(p: Policy, body: bytes, term: byte)
    ensures RenderBody(p, body, term)
         == if Blocked(p, body) then [] else INTRO + Normal(body) + Terminator(term)
  {
    hide IndexOf, Terminator;
    var sep := IndexOf(body, SEMI);
    FirstSemi(body);
    if sep < |body| {
      Rejoin(INTRO, body, sep);
      if sep == 0 {
        RejoinNamed(INTRO, [LETTER_C], body);
      }
    }
  }

  /** Naming the selection makes no query of a body. */
  lemma NormalQuery(body: bytes)
    ensures IsQuery(Normal(body)) <==> IsQuery(body)
  {
    if body != [] && body[0] == SEMI && !IsQuery(body) {
      FirstSemi(body);
      assert [LETTER_C] + [SEMI] + body[1..] == [LETTER_C] + body;
      IndexOfIs([LETTER_C], SEMI, body[1..]);
      assert ([LETTER_C] + body)[2..] == body[1..];
    }
  }

  predicate CleanBody(body: bytes) {
    forall i :: 0 <= i < |body| ==> !EndsBody(body[i])
  }

  lemma NormalClean(body: bytes)
    requires CleanBody(body)
    ensures CleanBody(Normal(body))
  {
    hide IsQuery;
  }

  /** Sequences as the tokeniser makes them. */
  predicate Proper(t: Token) {
    t.Sequence? ==> CleanBody(t.body) && (t.term == BEL || t.term == ESC)
  }

  predicate AllProper(ts: seq<Token>) {
    forall i :: 0 <= i < |ts| ==> Proper(ts[i])
  }

  lemma LexProper(s: bytes)
    ensures Lex(s).More? ==> Proper(Lex(s).token)
  {
    hide IntroDigits, Undecided;
  }

  lemma {:induction false} TokensProper(s: bytes)
    ensures AllProper(Tokenise(s).tokens)
    decreases |s|
  {
    hide Lex, Proper;
    LexSpells(s);
    LexProper(s);
    if Lex(s).More? {
      TokensProper(Lex(s).rest);
    }
  }

  predicate Dropped(p: Policy, t: Token) {
    match t
    case Plain(_) => false
    case Sequence(head, body, _) => |head| + |body| > MAX_SEQUENCE || Blocked(p, body)
    case Aborted(_, _, _) => true
  }

  /** The token a terminal should see in place of `t`. */
  function Passed(t: Token): Token {
    match t
    case Plain(_) => t
    case Sequence(_, body, term) => Sequence(INTRO, Normal(body), term)
    case Aborted(_, _, _) => t
  }

  function PassedAll(p: Policy, ts: seq<Token>): seq<Token> {
    if ts == [] then [] else (if Dropped(p, ts[0]) then [] else [Passed(ts[0])]) + PassedAll(p, ts[1..])
  }

  lemma Rendering(p: Policy, t: Token)
    ensures Render(p, t) == if Dropped(p, t) then [] else Spell(Passed(t))
    ensures Dropped(p, t) <==> Render(p, t) == []
  {
    hide RenderBody, Normal, IsQuery, Terminator;
    if t.Sequence? {
      RenderedBody(p, t.body, t.term);
    }
  }

  /** A query token in a parse. */
  predicate QueryToken(t: Token) {
    t.Sequence? && IsQuery(t.body)
  }

  /** What is written is spelled by the tokens let through: under Off only text, under Write no query. */
  lemma {:induction false} OnlyPassedIsWritten(p: Policy, ts: seq<Token>)
    ensures RenderAll(p, ts) == SpellAll(PassedAll(p, ts))
    ensures p == Off ==> forall i :: 0 <= i < |PassedAll(p, ts)| ==> PassedAll(p, ts)[i].Plain?
    ensures p == Write ==> forall i :: 0 <= i < |PassedAll(p, ts)| ==> !QueryToken(PassedAll(p, ts)[i])
    decreases |ts|
  {
    hide IsQuery, Normal, Render, Spell;
    if ts != [] {
      OnlyPassedIsWritten(p, ts[1..]);
      Rendering(p, ts[0]);
      SpellCons(Passed(ts[0]), PassedAll(p, ts[1..]));
      assert [] + PassedAll(p, ts[1..]) == PassedAll(p, ts[1..]);
      if ts[0].Sequence? {
        NormalQuery(ts[0].body);
      }
    }
  }

  // ---------------------------------------------------------------- reading the output

  function Plains(s: bytes): (ts: seq<Token>)
    ensures |ts| == |s|
  {
    seq(|s|, i requires 0 <= i < |s| => Plain(s[i]))
  }

  /** A reader of `o` sees exactly the tokens `us`: bytes that still wait at the end are text so far. */
  ghost predicate ReadsAs(o: bytes, us: seq<Token>) {
    var parse := Tokenise(o);
    !parse.tail.Unfinished? && parse.tokens + Plains(SpellTail(parse.tail)) == us
  }

  lemma ReadsStep(o: bytes, t: Token, rest: bytes, us: seq<Token>)
    requires Lex(o) == More(t, rest)
    ensures ReadsAs(o, [t] + us) <==> ReadsAs(rest, us)
  {
    hide Lex, SpellTail;
    LexSpells(o);
    var a, b := Tokenise(o), Tokenise(rest);
    var tail := Plains(SpellTail(b.tail));
    assert a.tokens + tail == [t] + (b.tokens + tail);
    if [t] + (b.tokens + tail) == [t] + us {
      assert ([t] + (b.tokens + tail))[1..] == b.tokens + tail;
      assert ([t] + us)[1..] == us;
    }
  }

  /** Where a reader sees an OSC 52 open it does not see text. */
  lemma OpensNotText(o: bytes, us: seq<Token>)
    requires IntroDigits(o) != 0 && us != [] && us[0].Plain?
    ensures !ReadsAs(o, us)
  {
    hide IntroDigits, Introduces, SpellTail, BodyLength;
    LexSpells(o);
    LexOpens(o);
  }

  lemma LexOpens(o: bytes)
    requires IntroDigits(o) != 0
    ensures var k := IntroDigits(o);
      |o| >= k + 3 && Introduces(o, k) && Lex(o) == LexBody(o[..k + 3], o[k + 3..])
  {
    hide LexBody;
    var k := IntroDigits(o);
    assert !Undecided(o) by {
      assert o[2..][k] == SEMI;
    }
  }

  lemma LexPassed(t: Token, o: bytes)
    requires t.Sequence? && Proper(t)
    ensures Lex(Spell(Passed(t)) + o) == More(Passed(t), o)
  {
    hide Lex, IsQuery, LexBody;
    NormalClean(t.body);
    hide Normal;
    var body, end := Normal(t.body), Terminator(t.term);
    assert Spell(Passed(t)) + o == INTRO + (body + (end + o));
    LexCanonical(body + (end + o));
    LexClean(INTRO, body, t.term, o);
  }

  lemma LexClean(head: bytes, body: bytes, term: byte, o: bytes)
    requires CleanBody(body) && (term == BEL || term == ESC)
    ensures LexBody(head, body + (Terminator(term) + o)) == More(Sequence(head, body, term), o)
  {
    hide BodyLength;
    var end := Terminator(term) + o;
    var rest := body + end;
    BodyLengthIs(body, end);
    assert rest[..|body|] == body;
    assert rest[|body|] == end[0];
    if term == BEL {
      assert rest[|body| + 1..] == o;
    } else {
      assert rest[|body| + 1] == end[1];
      assert rest[|body| + 2..] == o;
    }
  }

  lemma LexPlainByte(o: bytes)
    requires o != [] && o[0] != ESC
    ensures Lex(o) == More(Plain(o[0]), o[1..])
  {
  }

  lemma LexPlainEsc(o: bytes)
    requires o != [] && !Undecided(o) && IntroDigits(o) == 0
    ensures Lex(o) == More(Plain(o[0]), o[1..])
  {
  }

  predicate NoEsc(o: bytes) {
    forall i :: 0 <= i < |o| ==> o[i] != ESC
  }

  lemma PlainsCons(o: bytes)
    requires o != []
    ensures Plains(o) == [Plain(o[0])] + Plains(o[1..])
  {
  }

  lemma {:induction false} NoEscReads(o: bytes)
    requires NoEsc(o)
    ensures ReadsAs(o, Plains(o))
    decreases |o|
  {
    hide ReadsAs, Lex;
    if o == [] {
      NothingReads();
    } else {
      NoEscReads(o[1..]);
      LexPlainByte(o);
      PlainsCons(o);
      ReadsStep(o, Plain(o[0]), o[1..], Plains(o[1..]));
    }
  }

  lemma NothingReads()
    ensures ReadsAs([], [])
  {
    assert Lex([]) == End(Complete);
  }

  lemma WaitingReads(o: bytes)
    requires Undecided(o)
    ensures ReadsAs(o, Plains(o))
  {
    hide IntroDigits;
    assert Lex(o) == End(Waiting(o));
  }

  /**
   * Each sequence of an input, taken alone, is safe: Off writes nothing for it, and Write writes nothing or
   * one whole sequence that is read back, before whatever follows, as no query.
   */
  lemma SequenceRenderedSafely(s: bytes, i: nat, after: bytes)
    requires i < |Tokenise(s).tokens| && Tokenise(s).tokens[i].Sequence?
    ensures var t := Tokenise(s).tokens[i];
      && Render(Off, t) == []
      && (Render(Write, t) == [] ||
            (Lex(Render(Write, t) + after) == More(Passed(t), after) && !QueryToken(Passed(t))))
  {
    hide Tokenise, Lex, Render, Spell, IsQuery, Normal;
    var t := Tokenise(s).tokens[i];
    TokensProper(s);
    assert Proper(t);
    Rendering(Off, t);
    Rendering(Write, t);
    LexPassed(t, after);
    NormalQuery(t.body);
  }

  /** Whatever comes in, the filter writes the spelling of text and, unless Off, of sequences that may pass. */
  lemma FilterWritesOnlyPassed(p: Policy, s: bytes)
    ensures var us := PassedAll(p, Tokenise(s).tokens);
      && Run(p, Text, s).out == SpellAll(us)
      && (p == Off ==> forall i :: 0 <= i < |us| ==> us[i].Plain?)
      && (p == Write ==> forall i :: 0 <= i < |us| ==> !QueryToken(us[i]))
  {
    hide Run, Tokenise, RenderAll, SpellAll, PassedAll, QueryToken;
    FilterRefinesTokens(p, s);
    OnlyPassedIsWritten(p, Tokenise(s).tokens);
  }

  // ---------------------------------------------------------------- text joined across what was dropped

  /** The text written from the head of `ts` on, up to the next sequence let through. */
  function Lead(p: Policy, ts: seq<Token>): bytes {
    if ts == [] then []
    else if Dropped(p, ts[0]) then Lead(p, ts[1..])
    else if ts[0].Plain? then [ts[0].c] + Lead(p, ts[1..])
    else []
  }

  /** `l` is as much of `o` as comes before the next `ESC ]`, if any, at its end. */
  predicate Leads(l: bytes, o: bytes) {
    l <= o && (l == o || (|l| + 1 < |o| && o[|l|] == ESC && o[|l| + 1] == BRACKET))
  }

  lemma LeadsCons(c: byte, l: bytes, o: bytes)
    requires Leads(l, o)
    ensures Leads([c] + l, [c] + o)
  {
  }

  lemma LeadsIntro(body: bytes, o: bytes)
    ensures Leads([], INTRO + body + o)
  {
    var s := INTRO + body + o;
    assert s[0] == ESC && s[1] == BRACKET;
  }

  lemma {:induction false} LeadOfOutput(p: Policy, ts: seq<Token>)
    ensures Leads(Lead(p, ts), RenderAll(p, ts))
    decreases |ts|
  {
    hide Leads, Render, Normal, IsQuery, Terminator;
    if ts == [] {
      assert Leads([], []) by { LeadsItself(); }
    } else {
      LeadOfOutput(p, ts[1..]);
      Rendering(p, ts[0]);
      assert [] + RenderAll(p, ts[1..]) == RenderAll(p, ts[1..]);
      match ts[0]
      case Plain(c) => LeadsCons(c, Lead(p, ts[1..]), RenderAll(p, ts[1..]));
      case Sequence(_, body, term) =>
        if !Dropped(p, ts[0]) {
          LeadsIntro(Normal(body) + Terminator(term), RenderAll(p, ts[1..]));
          assert INTRO + (Normal(body) + Terminator(term)) == INTRO + Normal(body) + Terminator(term);
        }
      case Aborted(_, _, _) =>
    }
  }

  lemma LeadsItself()
    ensures Leads([], [])
  {
  }

  lemma DigitRunExact(t: bytes, k: nat)
    requires k < |t| && AllDigits(t[..k]) && !IsDigit(t[k])
    ensures DigitRun(t) == k
  {
    var n := DigitRun(t);
    assert forall i :: 0 <= i < n ==> t[i] == t[..n][i];
    assert forall i :: 0 <= i < k ==> t[i] == t[..k][i];
  }

  lemma IntroDigitsIs(o: bytes, k: nat)
    requires Introduces(o, k)
    ensures IntroDigits(o) == k
  {
    hide NumberFrom;
    assert o[2..][..k] == o[2..k + 2];
    DigitRunExact(o[2..], k);
  }

  lemma IntroducesAlike(l: bytes, o: bytes, k: nat)
    requires l <= o && |l| >= k + 3
    ensures Introduces(l, k) <==> Introduces(o, k)
  {
    hide NumberFrom;
    assert l[2..k + 2] == o[2..k + 2];
  }

  /** An introducer holds one ESC, so it opens the output exactly when it opens the lead. */
  lemma OpensInLead(l: bytes, o: bytes)
    requires Leads(l, o) && l != []
    ensures IntroDigits(l) == IntroDigits(o)
  {
    hide IntroDigits, Introduces, NumberFrom;
    var k := IntroDigits(o);
    if k != 0 {
      LexOpens(o);
      LeadCovers(l, o, k);
      IntroducesAlike(l, o, k);
      IntroDigitsIs(l, k);
    }
    var m := IntroDigits(l);
    if m != 0 {
      LexOpens(l);
      IntroducesAlike(l, o, m);
      IntroDigitsIs(o, m);
    }
  }

  lemma LeadCovers(l: bytes, o: bytes, k: nat)
    requires Leads(l, o) && l != [] && Introduces(o, k)
    ensures |l| >= k + 3
  {
    hide NumberFrom;
    assert forall i :: 2 <= i < k + 2 ==> o[i] == o[2..k + 2][i - 2];
  }

  ghost predicate JoinsAt(p: Policy, ts: seq<Token>, k: nat) {
    k < |ts| && ts[k] == Plain(ESC) && IntroDigits(Lead(p, ts[k..])) != 0
  }

  ghost predicate Joins(p: Policy, ts: seq<Token>) {
    exists k: nat :: JoinsAt(p, ts, k)
  }

  lemma JoinsStep(p: Policy, ts: seq<Token>)
    requires ts != []
    ensures Joins(p, ts) <==> JoinsAt(p, ts, 0) || Joins(p, ts[1..])
  {
    hide IntroDigits, Lead;
    if Joins(p, ts) {
      var k: nat :| JoinsAt(p, ts, k);
      if k > 0 {
        assert ts[k..] == ts[1..][k - 1..];
        assert JoinsAt(p, ts[1..], k - 1);
      }
    }
    if Joins(p, ts[1..]) {
      var k: nat :| JoinsAt(p, ts[1..], k);
      assert ts[1..][k..] == ts[k + 1..];
      assert JoinsAt(p, ts, k + 1);
    }
  }

  /** A sequence let through is written from its ESC on. */
  lemma StartsWithEsc(p: Policy, ts: seq<Token>)
    requires ts != []
    ensures Dropped(p, ts[0]) || ts[0].Plain? || !NoEsc(RenderAll(p, ts))
  {
    hide Normal, IsQuery, Render, Terminator;
    Rendering(p, ts[0]);
    if ts[0].Sequence? && !Dropped(p, ts[0]) {
      assert RenderAll(p, ts)[0] == ESC;
    }
  }

  lemma NoEscTail(a: bytes, b: bytes)
    requires NoEsc(a + b)
    ensures NoEsc(b)
  {
    assert forall i :: 0 <= i < |b| ==> b[i] == (a + b)[|a| + i];
  }

  lemma {:induction false} NoEscPassed(p: Policy, ts: seq<Token>)
    requires NoEsc(RenderAll(p, ts))
    ensures PassedAll(p, ts) == Plains(RenderAll(p, ts))
    decreases |ts|
  {
    hide NoEsc, Normal, IsQuery, Render, Terminator;
    if ts != [] {
      var o := RenderAll(p, ts[1..]);
      Rendering(p, ts[0]);
      NoEscTail(Render(p, ts[0]), o);
      NoEscPassed(p, ts[1..]);
      StartsWithEsc(p, ts);
      if Dropped(p, ts[0]) {
        assert [] + PassedAll(p, ts[1..]) == PassedAll(p, ts[1..]);
      } else {
        PlainsCons([ts[0].c] + o);
      }
    }
  }

  /** A waiting opening followed by nothing else written. */
  lemma WaitsAsText(p: Policy, ts: seq<Token>)
    requires ts != [] && ts[0] == Plain(ESC) && Undecided(RenderAll(p, ts))
    ensures PassedAll(p, ts) == Plains(RenderAll(p, ts))
    ensures NoEsc(RenderAll(p, ts[1..])) && PassedAll(p, ts[1..]) == Plains(RenderAll(p, ts[1..]))
  {
    var o := RenderAll(p, ts[1..]);
    assert RenderAll(p, ts) == [ESC] + o;
    assert forall i :: 1 <= i < |o| ==> o[i] == ([ESC] + o)[2..][i - 1];
    NoEscPassed(p, ts[1..]);
    PlainsCons([ESC] + o);
  }

  /** The output is read as it was written exactly when no introducer is joined from text on either side of a drop. */
  lemma {:induction false} ReadsUnlessJoined(p: Policy, ts: seq<Token>)
    requires AllProper(ts)
    ensures ReadsAs(RenderAll(p, ts), PassedAll(p, ts)) <==> !Joins(p, ts)
    decreases |ts|
  {
    hide ReadsAs, Joins, Lex, Render, Spell, Undecided, IntroDigits, Dropped, Passed, Leads;
    if ts == [] {
      NothingReads();
      NoJoins(p);
    } else {
      var t, rest := ts[0], ts[1..];
      var o, us := RenderAll(p, rest), PassedAll(p, rest);
      ReadsUnlessJoined(p, rest);
      JoinsStep(p, ts);
      Rendering(p, t);
      if Dropped(p, t) {
        assert [] + us == us && [] + o == o;
        DroppedNotPlain(p, t);
      } else if t.Plain? {
        assert Render(p, t) == [t.c] && Passed(t) == t by { PlainPasses(p, t); }
        if t.c != ESC {
          LexPlainByte([t.c] + o);
          ReadsStep([t.c] + o, t, o, us);
        } else {
          ReadsAtEsc(p, ts);
        }
      } else {
        assert t.Sequence? by { NotAborted(p, t); }
        LexPassed(t, o);
        ReadsStep(Spell(Passed(t)) + o, Passed(t), o, us);
      }
    }
  }

  lemma NoJoins(p: Policy)
    ensures !Joins(p, [])
  {
  }

  lemma DroppedNotPlain(p: Policy, t: Token)
    requires Dropped(p, t)
    ensures !t.Plain?
  {
  }

  lemma NotAborted(p: Policy, t: Token)
    requires !Dropped(p, t) && !t.Plain?
    ensures t.Sequence?
  {
  }

  lemma PlainPasses(p: Policy, t: Token)
    requires t.Plain?
    ensures !Dropped(p, t) && Render(p, t) == [t.c] && Passed(t) == t
  {
  }

  lemma ReadsAtEsc(p: Policy, ts: seq<Token>)
    requires ts != [] && ts[0] == Plain(ESC)
    ensures var here := ReadsAs(RenderAll(p, ts), PassedAll(p, ts));
      var after := ReadsAs(RenderAll(p, ts[1..]), PassedAll(p, ts[1..]));
      if JoinsAt(p, ts, 0) then !here else here == after
  {
    hide ReadsAs, Lex, Undecided, IntroDigits, Leads;
    var o := RenderAll(p, ts);
    assert ts[0..] == ts;
    LeadOfOutput(p, ts);
    OpensInLead(Lead(p, ts), o);
    if IntroDigits(o) != 0 {
      OpensNotText(o, PassedAll(p, ts));
    } else if Undecided(o) {
      WaitsAsText(p, ts);
      WaitingReads(o);
      NoEscReads(RenderAll(p, ts[1..]));
    } else {
      LexPlainEsc(o);
      assert o[1..] == RenderAll(p, ts[1..]);
      ReadsStep(o, ts[0], o[1..], PassedAll(p, ts[1..]));
    }
  }

  // ---------------------------------------------------------------- the exact condition on the input

  /**
   * The dropped token `j` splits an introducer: the text written from the ESC `k` up to it is an undecided
   * opening, and the text written after it completes that opening.
   */
  ghost predicate Splits(p: Policy, ts: seq<Token>, k: nat, j: nat) {
    && k < j < |ts| && ts[k] == Plain(ESC) && Dropped(p, ts[j])
    && Undecided(RenderAll(p, ts[k..j]))
    && IntroDigits(RenderAll(p, ts[k..j]) + Lead(p, ts[j..])) != 0
  }

  ghost predicate Smuggles(p: Policy, s: bytes) {
    exists k: nat, j: nat :: Splits(p, Tokenise(s).tokens, k, j)
  }

  lemma RenderSplit(p: Policy, ts: seq<Token>, j: nat)
    requires j <= |ts|
    ensures RenderAll(p, ts) == RenderAll(p, ts[..j]) + RenderAll(p, ts[j..])
    decreases j
  {
    hide Render;
    if j == 0 {
      assert ts[..0] == [] && ts[0..] == ts;
    } else {
      RenderSplit(p, ts[1..], j - 1);
      assert ts[..j][1..] == ts[1..][..j - 1] && ts[1..][j - 1..] == ts[j..];
      assert Render(p, ts[0]) + (RenderAll(p, ts[1..][..j - 1]) + RenderAll(p, ts[j..]))
          == Render(p, ts[0]) + RenderAll(p, ts[1..][..j - 1]) + RenderAll(p, ts[j..]);
    }
  }

  predicate Texts(p: Policy, ts: seq<Token>) {
    forall i :: 0 <= i < |ts| ==> ts[i].Plain? || Dropped(p, ts[i])
  }

  /** Along text and drops the lead is what is written, and goes on. */
  lemma {:induction false} LeadSplit(p: Policy, ts: seq<Token>, j: nat)
    requires j <= |ts| && Texts(p, ts[..j])
    ensures Lead(p, ts) == RenderAll(p, ts[..j]) + Lead(p, ts[j..])
    decreases j
  {
    hide Render, Dropped;
    if j == 0 {
      assert ts[..0] == [] && ts[0..] == ts;
    } else {
      assert ts[..j][0] == ts[0];
      assert ts[..j][1..] == ts[1..][..j - 1] && ts[1..][j - 1..] == ts[j..];
      var us := ts[1..][..j - 1];
      assert forall i :: 0 <= i < |us| ==> us[i] == ts[..j][i + 1];
      LeadSplit(p, ts[1..], j - 1);
      Rendering(p, ts[0]);
      if ts[0].Plain? {
        PlainPasses(p, ts[0]);
      }
      assert Render(p, ts[0]) + (RenderAll(p, ts[1..][..j - 1]) + Lead(p, ts[j..]))
          == Render(p, ts[0]) + RenderAll(p, ts[1..][..j - 1]) + Lead(p, ts[j..]);
    }
  }

  /** What is written without an ESC, or without one after the first byte, is all text. */
  lemma {:induction false} NoEscTexts(p: Policy, ts: seq<Token>)
    requires NoEsc(RenderAll(p, ts))
    ensures Texts(p, ts)
    decreases |ts|
  {
    hide NoEsc, Normal, IsQuery, Render, Terminator;
    if ts != [] {
      var o := RenderAll(p, ts[1..]);
      Rendering(p, ts[0]);
      NoEscTail(Render(p, ts[0]), o);
      NoEscTexts(p, ts[1..]);
      StartsWithEsc(p, ts);
    }
  }

  lemma UndecidedTexts(p: Policy, ts: seq<Token>)
    requires ts != [] && ts[0] == Plain(ESC) && Undecided(RenderAll(p, ts))
    ensures Texts(p, ts)
  {
    hide Dropped;
    WaitsAsText(p, ts);
    NoEscTexts(p, ts[1..]);
  }

  lemma SplitJoins(p: Policy, ts: seq<Token>, k: nat, j: nat)
    requires Splits(p, ts, k, j)
    ensures JoinsAt(p, ts, k) && Lead(p, ts[k..]) == RenderAll(p, ts[k..j]) + Lead(p, ts[j..])
  {
    hide Dropped, Undecided, IntroDigits, Lead, RenderAll;
    var us := ts[k..];
    assert us[..j - k] == ts[k..j] && us[j - k..] == ts[j..];
    UndecidedTexts(p, ts[k..j]);
    LeadSplit(p, us, j - k);
  }

  /** Token `k` on are the tokens of a suffix of the input. */
  lemma {:induction false} SuffixOf(s: bytes, k: nat) returns (r: bytes)
    requires k <= |Tokenise(s).tokens|
    ensures Tokenise(r).tokens == Tokenise(s).tokens[k..]
    decreases k
  {
    hide Lex;
    LexSpells(s);
    if k == 0 {
      r := s;
    } else {
      r := SuffixOf(Lex(s).rest, k - 1);
      assert Tokenise(s).tokens[k..] == Tokenise(Lex(s).rest).tokens[k - 1..];
    }
  }

  predicate AllPlainTokens(ts: seq<Token>) {
    forall i :: 0 <= i < |ts| ==> ts[i].Plain?
  }

  /** Text tokens at the head are the input's own bytes. */
  lemma {:induction false} TextIsInput(p: Policy, r: bytes, j: nat)
    requires j <= |Tokenise(r).tokens| && AllPlainTokens(Tokenise(r).tokens[..j])
    ensures RenderAll(p, Tokenise(r).tokens[..j]) <= r && |RenderAll(p, Tokenise(r).tokens[..j])| == j
    decreases j
  {
    hide Lex;
    LexSpells(r);
    var ts := Tokenise(r).tokens;
    if j > 0 {
      var rest := Lex(r).rest;
      assert ts[..j][0] == ts[0];
      assert ts[..j][1..] == Tokenise(rest).tokens[..j - 1];
      var us := Tokenise(rest).tokens[..j - 1];
      assert forall i :: 0 <= i < |us| ==> us[i] == ts[..j][i + 1];
      TextIsInput(p, rest, j - 1);
      PlainPasses(p, ts[0]);
    }
  }

  /** The first token from `j` on that is not text, or the end. */
  function FirstOther(ts: seq<Token>): (j: nat)
    ensures j <= |ts| && AllPlainTokens(ts[..j]) && (j < |ts| ==> !ts[j].Plain?)
  {
    if ts == [] || !ts[0].Plain? then 0
    else
      var j := FirstOther(ts[1..]) + 1;
      assert forall i :: 1 <= i < j ==> ts[..j][i] == ts[1..][..j - 1][i - 1];
      j
  }

  lemma TextLexed(r: bytes, c: byte)
    requires Tokenise(r).tokens != [] && Tokenise(r).tokens[0] == Plain(c)
    ensures IntroDigits(r) == 0
  {
    hide Introduces, IntroDigits, BodyLength;
    LexSpells(r);
    if IntroDigits(r) != 0 {
      LexOpens(r);
    }
  }

  lemma IntroPrefixUndecided(x: bytes, w: bytes, k: nat)
    requires x <= w && x != [] && |x| < k + 3 && Introduces(w, k)
    ensures Undecided(x)
  {
    hide NumberFrom;
    if |x| > 1 {
      var xs, ws := x[2..], w[2..k + 2];
      assert forall i :: 0 <= i < |xs| ==> xs[i] == ws[i];
    }
  }

  lemma LeadStops(p: Policy, ts: seq<Token>)
    ensures ts == [] || (!ts[0].Plain? && !Dropped(p, ts[0])) ==> Lead(p, ts) == []
  {
  }

  /** An introducer joined at the head of the parse of `r` is split by the first token that is not text. */
  lemma JoinIsSplit(p: Policy, r: bytes)
    requires JoinsAt(p, Tokenise(r).tokens, 0)
    ensures Splits(p, Tokenise(r).tokens, 0, FirstOther(Tokenise(r).tokens))
  {
    hide Dropped, Undecided, IntroDigits, Introduces, Tokenise, FirstOther;
    var ts := Tokenise(r).tokens;
    var j := FirstOther(ts);
    var x, w := RenderAll(p, ts[..j]), Lead(p, ts);
    assert ts[0..] == ts && ts[0..j] == ts[..j];
    TextIsInput(p, r, j);
    LeadSplit(p, ts, j);
    LexOpens(w);
    var k := IntroDigits(w);
    TextLexed(r, ESC);
    if |x| >= k + 3 {
      IntroducesAlike(x, w, k);
      IntroducesAlike(x, r, k);
      IntroDigitsIs(r, k);
    }
    IntroPrefixUndecided(x, w, k);
    LeadStops(p, ts[j..]);
  }

  lemma JoinsIffSmuggles(p: Policy, s: bytes)
    ensures Joins(p, Tokenise(s).tokens) <==> Smuggles(p, s)
  {
    hide JoinsAt, Splits, Tokenise, FirstOther;
    var ts := Tokenise(s).tokens;
    if Joins(p, ts) {
      var k: nat :| JoinsAt(p, ts, k);
      JoinSplits(p, s, k);
    }
    if Smuggles(p, s) {
      var k: nat, j: nat :| Splits(p, ts, k, j);
      SplitJoins(p, ts, k, j);
    }
  }

  lemma JoinSplits(p: Policy, s: bytes, k: nat)
    requires JoinsAt(p, Tokenise(s).tokens, k)
    ensures exists j: nat :: Splits(p, Tokenise(s).tokens, k, j)
  {
    hide Dropped, Undecided, IntroDigits, Tokenise, FirstOther, Lead, RenderAll;
    var ts := Tokenise(s).tokens;
    var r := SuffixOf(s, k);
    var us := Tokenise(r).tokens;
    assert us[0..] == us;
    JoinIsSplit(p, r);
    var j := FirstOther(us);
    assert us[0..j] == ts[k..k + j] && us[j..] == ts[k + j..];
    assert Splits(p, ts, k, k + j);
  }

  /**
   * A terminal reads the filter's output as exactly the text and sequences the policy let through, if and
   * only if no dropped sequence of the input splits an introducer.
   */
  lemma OutputReadAsWrittenIff(p: Policy, s: bytes)
    ensures ReadsAs(Run(p, Text, s).out, PassedAll(p, Tokenise(s).tokens)) <==> !Smuggles(p, s)
  {
    hide ReadsAs, Smuggles, Joins, Tokenise, RenderAll, PassedAll, Run;
    FilterRefinesTokens(p, s);
    TokensProper(s);
    ReadsUnlessJoined(p, Tokenise(s).tokens);
    JoinsIffSmuggles(p, s);
  }

  // ---------------------------------------------------------------- under Off: no OSC 52 at all

  /** A reader sees no OSC 52 in `o`, complete, aborted or open. */
  ghost predicate SeesOnlyText(o: bytes) {
    AllPlainTokens(Tokenise(o).tokens) && !Tokenise(o).tail.Unfinished?
  }

  lemma {:induction false} TextSpells(us: seq<Token>)
    requires AllPlainTokens(us)
    ensures us == Plains(SpellAll(us))
    decreases |us|
  {
    if us != [] {
      TextSpells(us[1..]);
      PlainsCons(SpellAll(us));
    }
  }

  lemma PlainsConcat(a: bytes, b: bytes)
    ensures Plains(a + b) == Plains(a) + Plains(b)
  {
  }

  lemma TextReads(o: bytes, us: seq<Token>)
    requires AllPlainTokens(us) && SpellAll(us) == o
    ensures ReadsAs(o, us) <==> SeesOnlyText(o)
  {
    hide SpellAll, Tokenise, SpellTail;
    var parse := Tokenise(o);
    var end := SpellTail(parse.tail);
    TextSpells(us);
    TokensSpellInput(o);
    if SeesOnlyText(o) {
      TextSpells(parse.tokens);
      PlainsConcat(SpellAll(parse.tokens), end);
    }
    if ReadsAs(o, us) {
      var ts := parse.tokens;
      assert forall i :: 0 <= i < |ts| ==> ts[i] == (ts + Plains(end))[i];
    }
  }

  /** Under Off a terminal finds no OSC 52 in the output exactly when no dropped one splits an introducer. */
  lemma OffLeavesOnlyTextIff(s: bytes)
    ensures SeesOnlyText(Run(Off, Text, s).out) <==> !Smuggles(Off, s)
  {
    hide ReadsAs, SeesOnlyText, Smuggles, Tokenise, RenderAll, PassedAll, Run;
    var us := PassedAll(Off, Tokenise(s).tokens);
    OutputReadAsWrittenIff(Off, s);
    FilterRefinesTokens(Off, s);
    OnlyPassedIsWritten(Off, Tokenise(s).tokens);
    TextReads(Run(Off, Text, s).out, us);
  }

  // ---------------------------------------------------------------- under Write: no query

  /** A reader of `o` sees a clipboard query. */
  ghost predicate SeesQuery(o: bytes) {
    exists i :: 0 <= i < |Tokenise(o).tokens| && QueryToken(Tokenise(o).tokens[i])
  }

  ghost predicate OpensQuery(w: bytes) {
    Lex(w).More? && QueryToken(Lex(w).token)
  }

  /** A dropped sequence splits a clipboard query. */
  ghost predicate SmugglesQuery(p: Policy, s: bytes) {
    var ts := Tokenise(s).tokens;
    exists k: nat, j: nat :: Splits(p, ts, k, j) && OpensQuery(RenderAll(p, ts[k..j]) + Lead(p, ts[j..]))
  }

  predicate Osc(b: bytes) {
    |b| > 1 && b[0] == ESC && b[1] == BRACKET
  }

  lemma LexBodyBefore(head: bytes, x: bytes, b: bytes) returns (m: nat)
    requires Osc(b)
    ensures m <= |x|
    ensures var l := LexBody(head, x + b); l.More? && l.rest == x[m..] + b
  {
    var s := x + b;
    var n := BodyLength(s);
    hide BodyLength;
    assert s[|x|] == ESC && s[|x| + 1] == BRACKET;
    if s[n] != ESC {
      m := n + 1;
    } else if s[n + 1] == BACKSLASH {
      m := n + 2;
    } else {
      m := n;
    }
    assert s[m..] == x[m..] + b;
  }

  /** `ESC ]` always begins a token, whatever comes before it. */
  lemma LexBefore(a: bytes, b: bytes) returns (m: nat)
    requires a != [] && Osc(b)
    ensures 0 < m <= |a|
    ensures Lex(a + b).More? && Lex(a + b).rest == a[m..] + b
  {
    hide IntroDigits, Introduces, LexBody, NumberFrom;
    var s := a + b;
    var k := IntroDigits(s);
    assert s[|a|] == ESC;
    assert !Undecided(s) by { EscDecides(s, |a|); }
    if k == 0 {
      LexPlainEsc(s);
      m := 1;
      assert s[1..] == a[1..] + b;
    } else {
      LexOpens(s);
      IntroBefore(s, k, |a|);
      var x := a[k + 3..];
      assert s[k + 3..] == x + b;
      var n := LexBodyBefore(s[..k + 3], x, b);
      m := k + 3 + n;
      assert x[n..] == a[m..];
    }
  }

  lemma EscDecides(s: bytes, n: nat)
    requires 0 < n < |s| && s[n] == ESC
    ensures !Undecided(s)
  {
    if n >= 2 {
      assert s[2..][n - 2] == ESC;
    }
  }

  lemma IntroBefore(s: bytes, k: nat, n: nat)
    requires Introduces(s, k) && 0 < n < |s| && s[n] == ESC
    ensures n >= k + 3
  {
    hide NumberFrom;
    var ds := s[2..k + 2];
    forall i | 2 <= i < k + 2
      ensures s[i] != ESC
    {
      assert s[i] == ds[i - 2];
    }
  }

  lemma {:induction false} Resync(a: bytes, b: bytes) returns (pre: seq<Token>)
    requires Osc(b)
    ensures Tokenise(a + b).tokens == pre + Tokenise(b).tokens
    decreases |a|
  {
    hide Lex;
    if a == [] {
      assert a + b == b;
      pre := [];
    } else {
      var m := LexBefore(a, b);
      LexSpells(a + b);
      var more := Resync(a[m..], b);
      pre := [Lex(a + b).token] + more;
    }
  }

  /** Every token of a parse is lexed somewhere in the input. */
  lemma {:induction false} LexedAt(o: bytes, i: nat) returns (n: nat)
    requires i < |Tokenise(o).tokens|
    ensures n <= |o| && Lex(o[n..]).More? && Lex(o[n..]).token == Tokenise(o).tokens[i]
    decreases i
  {
    hide Lex, Spell;
    LexSpells(o);
    if i == 0 {
      n := 0;
      assert o[0..] == o;
    } else {
      var t, rest := Lex(o).token, Lex(o).rest;
      var m := LexedAt(rest, i - 1);
      assert rest == o[|Spell(t)|..];
      n := |Spell(t)| + m;
      assert rest[m..] == o[n..];
    }
  }

  /** Where `ESC ]` stands in the output, a token was written from there on. */
  lemma {:induction false} WrittenAt(p: Policy, ts: seq<Token>, i: nat) returns (k: nat)
    requires AllProper(ts) && i < |RenderAll(p, ts)| && Osc(RenderAll(p, ts)[i..])
    ensures k < |ts| && !Dropped(p, ts[k]) && RenderAll(p, ts[k..]) == RenderAll(p, ts)[i..]
    decreases |ts|
  {
    hide Render, Dropped, Proper;
    var o := RenderAll(p, ts);
    var piece, rest := Render(p, ts[0]), RenderAll(p, ts[1..]);
    Rendering(p, ts[0]);
    assert o == piece + rest;
    if i < |piece| {
      assert Proper(ts[0]);
      OneOscApiece(p, ts[0], rest, i);
      k := 0;
      assert ts[0..] == ts && o[0..] == o;
    } else {
      assert o[i..] == rest[i - |piece|..];
      k := WrittenAt(p, ts[1..], i - |piece|);
      assert ts[1..][k..] == ts[k + 1..];
      k := k + 1;
    }
  }

  lemma OneOscApiece(p: Policy, t: Token, rest: bytes, i: nat)
    requires Proper(t) && i < |Render(p, t)| && Osc((Render(p, t) + rest)[i..])
    ensures i == 0
  {
    hide Render, IsQuery, Normal;
    Rendering(p, t);
    var piece := Render(p, t);
    var o := piece + rest;
    assert o[i] == o[i..][0] && o[i + 1] == o[i..][1];
    match t
    case Plain(c) => PlainPasses(p, t);
    case Sequence(_, body, term) =>
      NormalClean(body);
      OneEscApiece(Normal(body), term, rest, i);
    case Aborted(_, _, _) =>
  }

  lemma OneEscApiece(body: bytes, term: byte, rest: bytes, i: nat)
    requires CleanBody(body) && (term == BEL || term == ESC)
    requires i < |INTRO + body + Terminator(term)|
    requires var o := INTRO + body + Terminator(term) + rest; i + 1 < |o| && o[i] == ESC && o[i + 1] == BRACKET
    ensures i == 0
  {
    var o := INTRO + body + Terminator(term) + rest;
    var n := 5 + |body|;
    forall j | 5 <= j < n
      ensures o[j] != ESC
    {
      assert o[j] == body[j - 5];
    }
    assert o[n] == Terminator(term)[0] && (term == ESC ==> o[n + 1] == BACKSLASH);
  }

  /** A complete sequence lies within the lead or not at all. */
  lemma SequenceWithin(head: bytes, x: bytes, y: bytes)
    requires y == [] || Osc(y)
    ensures var a, b := LexBody(head, x), LexBody(head, x + y);
      && (a.More? && a.token.Sequence? ==> b.More? && b.token == a.token)
      && (b.More? && b.token.Sequence? ==> a.More? && a.token == b.token)
  {
    if y == [] {
      assert x + y == x;
    } else {
      var n, m := BodyLength(x), BodyLength(x + y);
      hide BodyLength;
      assert forall i :: 0 <= i < |x| ==> (x + y)[i] == x[i];
      assert (x + y)[|x|] == ESC && (x + y)[|x| + 1] == BRACKET;
      assert n == m;
      assert (x + y)[..n] == x[..n];
    }
  }

  lemma QueryInLead(l: bytes, o: bytes)
    requires Leads(l, o) && IntroDigits(l) != 0
    ensures OpensQuery(l) <==> OpensQuery(o)
  {
    hide IntroDigits, Introduces, IsQuery, LexBody;
    LexOpens(l);
    OpensInLead(l, o);
    LexOpens(o);
    var k, y := IntroDigits(l), o[|l|..];
    assert o == l + y;
    assert l[..k + 3] == o[..k + 3] && o[k + 3..] == l[k + 3..] + y;
    SequenceWithin(l[..k + 3], l[k + 3..], y);
  }

  /** A sequence let through under Write is not read as a query, and a query is read only where one opens. */
  lemma QueryOpens(o: bytes)
    requires OpensQuery(o)
    ensures IntroDigits(o) != 0 && Osc(o)
  {
    hide IsQuery, LexBody;
    var k := IntroDigits(o);
    hide IntroDigits;
    if k != 0 {
      LexOpens(o);
    }
  }

  lemma QueryNotPassed(ts: seq<Token>)
    requires ts != [] && Proper(ts[0]) && !Dropped(Write, ts[0]) && OpensQuery(RenderAll(Write, ts))
    ensures ts[0] == Plain(ESC)
  {
    hide Lex, IsQuery, Normal, Render;
    var t, o := ts[0], RenderAll(Write, ts);
    Rendering(Write, t);
    QueryOpens(o);
    if t.Sequence? {
      LexPassed(t, RenderAll(Write, ts[1..]));
      NormalQuery(t.body);
    } else {
      PlainPasses(Write, t);
    }
  }

  lemma SeenIsSmuggled(s: bytes)
    requires SeesQuery(RenderAll(Write, Tokenise(s).tokens))
    ensures SmugglesQuery(Write, s)
  {
    hide Lex, QueryToken, Tokenise, RenderAll, Lead, Osc, Dropped, Proper, Splits, IntroDigits, Leads;
    var ts := Tokenise(s).tokens;
    var o := RenderAll(Write, ts);
    var i :| 0 <= i < |Tokenise(o).tokens| && QueryToken(Tokenise(o).tokens[i]);
    var n := LexedAt(o, i);
    QueryOpens(o[n..]);
    TokensProper(s);
    OscNonEmpty(o[n..]);
    var k := WrittenAt(Write, ts, n);
    QueryJoins(ts, k);
    JoinSplits(Write, s, k);
    var j: nat :| Splits(Write, ts, k, j);
    SplitJoins(Write, ts, k, j);
  }

  lemma OscNonEmpty(b: bytes)
    requires Osc(b)
    ensures |b| > 1
  {
  }

  lemma QueryJoins(ts: seq<Token>, k: nat)
    requires AllProper(ts) && k < |ts| && !Dropped(Write, ts[k]) && OpensQuery(RenderAll(Write, ts[k..]))
    ensures JoinsAt(Write, ts, k) && OpensQuery(Lead(Write, ts[k..]))
  {
    hide Proper, Dropped, OpensQuery, IntroDigits, RenderAll, Leads;
    var us := ts[k..];
    assert us[0] == ts[k];
    QueryNotPassed(us);
    QueryOpens(RenderAll(Write, us));
    LeadOfOutput(Write, us);
    assert Lead(Write, us) != [] by { LeadNonEmpty(Write, us); }
    OpensInLead(Lead(Write, us), RenderAll(Write, us));
    QueryInLead(Lead(Write, us), RenderAll(Write, us));
  }

  lemma LeadNonEmpty(p: Policy, ts: seq<Token>)
    requires ts != [] && ts[0].Plain?
    ensures Lead(p, ts) != []
  {
  }

  lemma SmuggledIsSeen(s: bytes, k: nat, j: nat)
    requires var ts := Tokenise(s).tokens;
      Splits(Write, ts, k, j) && OpensQuery(RenderAll(Write, ts[k..j]) + Lead(Write, ts[j..]))
    ensures SeesQuery(RenderAll(Write, Tokenise(s).tokens))
  {
    hide Lex, QueryToken, Tokenise, RenderAll, Lead, Osc, Leads, IntroDigits;
    var ts := Tokenise(s).tokens;
    SplitJoins(Write, ts, k, j);
    var a, b := RenderAll(Write, ts[..k]), RenderAll(Write, ts[k..]);
    RenderSplit(Write, ts, k);
    LeadOfOutput(Write, ts[k..]);
    QueryInLead(Lead(Write, ts[k..]), b);
    QueryOpens(b);
    var pre := Resync(a, b);
    FirstToken(b);
    assert Tokenise(a + b).tokens[|pre|] == Tokenise(b).tokens[0];
  }

  lemma FirstToken(b: bytes)
    requires Lex(b).More?
    ensures Tokenise(b).tokens != [] && Tokenise(b).tokens[0] == Lex(b).token
  {
    hide Lex;
  }

  /**
   * Under Write a terminal finds a clipboard query in the output exactly when a dropped sequence of the
   * input splits one: the bytes on either side of it, joined, open with `ESC ] 52 ; Pc ; ?` and its end.
   */
  lemma WriteLeaksQueryIff(s: bytes)
    ensures SeesQuery(Run(Write, Text, s).out) <==> SmugglesQuery(Write, s)
  {
    hide SeesQuery, OpensQuery, Tokenise, RenderAll, Lead, Run, Undecided, IntroDigits, Dropped;
    FilterRefinesTokens(Write, s);
    if SeesQuery(Run(Write, Text, s).out) {
      SeenIsSmuggled(s);
    }
    if SmugglesQuery(Write, s) {
      var ts := Tokenise(s).tokens;
      var k: nat, j: nat :|
        Splits(Write, ts, k, j) && OpensQuery(RenderAll(Write, ts[k..j]) + Lead(Write, ts[j..]));
      SmuggledIsSeen(s, k, j);
    }
  }

  // ---------------------------------------------------------------- in plain bytes

  /** `ESC ]`, `k` digits that spell 52, at most eight, and `;`. */
  predicate Opening(s: bytes, k: nat) {
    && 1 <= k <= 8 && |s| >= k + 3 && s[0] == 0x1B && s[1] == 0x5D && s[k + 2] == 0x3B
    && AllDigits(s[2..k + 2]) && NumberFrom(0, s[2..k + 2]) == 52
  }

  /** The filter takes exactly these bytes for an introducer, and its decimal digits for these numbers. */
  lemma OpensIff(s: bytes)
    ensures IntroDigits(s) != 0 <==> exists k: nat :: Opening(s, k)
  {
    hide IntroDigits, NumberFrom;
    if IntroDigits(s) != 0 {
      LexOpens(s);
      assert Opening(s, IntroDigits(s));
    }
    if k: nat :| Opening(s, k) {
      IntroDigitsIs(s, k);
    }
  }

  /** Free of BEL, CAN, SUB and ESC. */
  predicate Quiet(body: bytes) {
    forall i :: 0 <= i < |body| ==> body[i] !in {0x07, 0x18, 0x1A, 0x1B}
  }

  /** CAN and SUB abandon a sequence: nothing is written for it, and what follows is text again. */
  lemma CancelDropsSequence(p: Policy, body: bytes, c: byte, after: bytes)
    requires Quiet(body) && (c == 0x18 || c == 0x1A)
    ensures Run(p, Text, INTRO + (body + ([c] + after))) == Run(p, Text, after)
  {
    hide Run, Lex, LexBody, BodyLength;
    var end := [c] + after;
    var rest := body + end;
    LexCanonical(rest);
    BodyLengthIs(body, end);
    CancelLexed(INTRO, body, c, after);
    RunLexed(p, INTRO + rest);
  }

  lemma CancelLexed(head: bytes, body: bytes, c: byte, after: bytes)
    requires Quiet(body) && (c == 0x18 || c == 0x1A)
    ensures LexBody(head, body + ([c] + after)) == More(Aborted(head, body, [c]), after)
  {
    hide BodyLength;
    var rest := body + ([c] + after);
    BodyLengthIs(body, [c] + after);
    assert rest[|body|] == c && rest[..|body|] == body && rest[|body| + 1..] == after;
  }

  /** A write that names no selection comes out as one to the system clipboard, `52 ; c ;`. */
  lemma EmptySelectionIsClipboard(p: Policy, pd: bytes)
    requires p != Off && pd != [0x3F]
    ensures RenderBody(p, [0x3B] + pd, 0x07) == [0x1B, 0x5D, 0x35, 0x32, 0x3B, 0x63, 0x3B] + pd + [0x07]
  {
    hide IsQuery;
    var body := [0x3B] + pd;
    RenderedBody(p, body, 0x07);
    assert !IsQuery(body) by { NotAsking(pd); }
    assert [0x63] + body == [0x63, 0x3B] + pd;
    assert INTRO + ([0x63, 0x3B] + pd) == [0x1B, 0x5D, 0x35, 0x32, 0x3B, 0x63, 0x3B] + pd;
  }

  lemma NotAsking(pd: bytes)
    requires pd != [0x3F]
    ensures !IsQuery([0x3B] + pd)
  {
    FirstSemi([0x3B] + pd);
    assert ([0x3B] + pd)[1..] == pd;
  }

  // ---------------------------------------------------------------- an input that does it

  const HALF: bytes := [ESC, BRACKET, 0x35]                               // ESC ] 5
  const ASK: bytes := [LETTER_C, SEMI, QUERY]                             // c ; ?
  const OTHER_HALF: bytes := [0x32, SEMI, LETTER_C, SEMI, QUERY, BEL]     // 2 ; c ; ? BEL

  lemma AskIsQuery()
    ensures IsQuery(ASK) && CleanBody(ASK)
  {
    assert ASK == [LETTER_C] + [SEMI] + [QUERY];
    IndexOfIs([LETTER_C], SEMI, [QUERY]);
  }

  lemma HalfReleased(p: Policy, rest: bytes)
    ensures var r := Run(p, Text, [ESC] + rest); Run(p, Text, HALF + ([ESC] + rest)) == Ran(r.state, HALF + r.out)
  {
    hide Run;
    var ds: bytes := [0x35];
    assert HALF == [ESC, BRACKET] + ds;
    RunOpening(p, ds, [ESC] + rest);
    RunOn(p, Prefix(HALF, NumberFrom(0, ds), 1), ESC, rest);
    RunQuiet(p, Text, ESC, Esc, rest);
  }

  lemma AskDropped(p: Policy, rest: bytes)
    requires p != Full
    ensures Run(p, Text, INTRO + (ASK + ([BEL] + rest))) == Run(p, Text, rest)
  {
    hide Run, Lex, IsQuery, RenderBody;
    AskIsQuery();
    LexCanonical(ASK + ([BEL] + rest));
    LexClean(INTRO, ASK, BEL, rest);
    RunLexed(p, INTRO + (ASK + ([BEL] + rest)));
    Rendering(p, Sequence(INTRO, ASK, BEL));
  }

  /**
   * A query that is dropped can let another one through: `ESC ] 5`, a whole query, and `2 ; c ; ? BEL` come
   * out as a whole query, under Write and under Off alike.
   */
  lemma DroppedQueryLeaksAnother(p: Policy)
    requires p != Full
    ensures var query := INTRO + (ASK + [BEL]);
      Run(p, Text, HALF + query + OTHER_HALF) == Ran(Text, query) && SeesQuery(query) && !SeesOnlyText(query)
  {
    hide Run, Lex, IsQuery;
    var query := INTRO + (ASK + [BEL]);
    var rest := query[1..] + OTHER_HALF;
    assert HALF + query + OTHER_HALF == HALF + ([ESC] + rest);
    HalfReleased(p, rest);
    assert [ESC] + rest == INTRO + (ASK + ([BEL] + OTHER_HALF));
    AskDropped(p, OTHER_HALF);
    RunVerbatim(p, OTHER_HALF, []);
    RunNothing(p, Text);
    assert OTHER_HALF + [] == OTHER_HALF;
    assert HALF + OTHER_HALF == query;
    AskIsQuery();
    LexCanonical(ASK + [BEL]);
    LexClean(INTRO, ASK, BEL, []);
    assert [BEL] + [] == [BEL];
    FirstToken(query);
  }
}
