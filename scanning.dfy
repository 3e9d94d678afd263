/** `_Lex.lex`: the scanning loop. At the counter's offset the batches are tried in order; a
    match of an ignored type only advances the counter, any other match becomes a token that
    carries the position from before its text is consumed; no match ends the scan, with an
    error when input remains. */
module Scanning {

  import opened LexTypes
  import opened SeqUtil
  import opened LineCounting
  import opened Matchers
  import opened Unless
  import opened Lexers

  /** What the engine's answers must satisfy for the scan to make progress: every match lies
      within the string, and no token of the lexer matches fewer characters than its minimum width. */
  ghost predicate EngineSound(e: Engine, lx: Lexer) {
    MatchesInBounds(e) && forall i :: 0 <= i < |lx.tokens| ==> WidthSound(e, lx.tokens[i])
  }

  /** A match found by the lexer's batches is a match of one of its tokens, of that token's
      type, at least one character long and inside the stream. */
  lemma {:induction false} MatchProgress(e: Engine, lx: Lexer, stream: string, pos: nat)
    requires ValidLexer(lx) && EngineSound(e, lx)
    requires MatchAny(e, lx.mres, stream, pos).Some?
    ensures var (kind, n) := MatchAny(e, lx.mres, stream, pos).value;
      1 <= n && pos + n <= |stream| &&
      exists i :: 0 <= i < |lx.tokens| && lx.tokens[i].name == kind &&
        e.matchAt(lx.tokens[i].pattern.regexp, stream, pos) == Some(n)
  {
    BatchingIsTransparent(e, lx.mres, stream, pos);
  }

  /** A match found by the lexer's batches is at least one character long and inside the stream. */
  lemma {:induction false} MatchBounds(e: Engine, lx: Lexer, stream: string, pos: nat)
    requires ValidLexer(lx) && EngineSound(e, lx)
    requires MatchAny(e, lx.mres, stream, pos).Some?
    ensures 1 <= MatchAny(e, lx.mres, stream, pos).value.1 && pos + MatchAny(e, lx.mres, stream, pos).value.1 <= |stream|
  {
    MatchProgress(e, lx, stream, pos);
  }

  /** The type a token of type `kind` and text `text` ends up with: the first literal of its
      callback's list whose pattern matches the whole text, if there is a callback and such a
      literal, and `kind` otherwise. */
  function FinalType(e: Engine, lx: Lexer, kind: string, text: string): string {
    if kind !in lx.callback then kind
    else match FirstFullMatch(e, lx.callback[kind].strs, text)
      case None => kind
      case Some(n) => n
  }

  /** `if t.type in lexer.callback: t = lexer.callback[t.type](t)` */
  function ApplyCallbacks(e: Engine, lx: Lexer, t: Token): (r: Token)
    requires ValidLexer(lx)
    ensures r == t.(kind := FinalType(e, lx, t.kind, t.value))
  {
    if t.kind in lx.callback then
      CallbackRetypes(e, lx.callback[t.kind], t);
      ApplyCallback(e, lx.callback[t.kind], t)
    else t
  }

  /** The error raised at the counter's position. */
  function Unexpected(stream: string, c: CounterState): UnexpectedInput
    requires 0 <= c.charPos < |stream|
  {
    UnexpectedInput(stream[c.charPos], Context(stream, c.charPos), c.line, (c.charPos - c.lineStartPos))
  }

  /** One iteration of the `while True` loop. */
  datatype Step = Emit(token: Token, after: CounterState) | Skip(after: CounterState) | End | Fail(error: UnexpectedInput)

  function StepSpec(e: Engine, lx: Lexer, stream: string, nl: seq<string>, ign: seq<string>, c: CounterState): Step
    requires ValidLexer(lx) && EngineSound(e, lx) && 0 <= c.charPos
  {
    match MatchAny(e, lx.mres, stream, c.charPos)
    case None => if c.charPos < |stream| then Fail(Unexpected(stream, c)) else End
    case Some((kind, n)) =>
      MatchBounds(e, lx, stream, c.charPos);
      Consumed(e, lx, stream, nl, ign, c, kind, n)
  }

  /** The iteration after a match of `n` characters of type `kind` at the counter's offset. */
  function Consumed(e: Engine, lx: Lexer, stream: string, nl: seq<string>, ign: seq<string>, c: CounterState, kind: string, n: nat): Step
    requires 0 <= c.charPos && c.charPos + n <= |stream|
  {
    var value := stream[c.charPos..c.charPos + n];
    var after := FeedState(c, value, kind in nl);
    if kind in ign then Skip(after)
    else Emit(Token(FinalType(e, lx, kind, value), value, c.charPos, c.line, c.charPos - c.lineStartPos), after)
  }

  /** One iteration either stops where it is, or consumes the matched text: a token, when it is
      emitted, is the matched text with the position, line and column from before the feed, and
      the type its callback gives the matched type; ignored types are consumed without a token.
      The counter is fed with the newline test exactly for the newline types, and ends inside
      the stream, further on. */
  lemma {:induction false} StepSnapshot(e: Engine, lx: Lexer, stream: string, nl: seq<string>, ign: seq<string>, c: CounterState)
    requires ValidLexer(lx) && EngineSound(e, lx) && 0 <= c.charPos <= |stream|
    ensures var st, m := StepSpec(e, lx, stream, nl, ign, c), MatchAny(e, lx.mres, stream, c.charPos);
      st.Emit? ==>
        && c.charPos < st.after.charPos <= |stream|
        && st.token.value == stream[c.charPos..st.after.charPos]
        && st.token.posInStream == c.charPos && st.token.line == c.line && st.token.column == (c.charPos - c.lineStartPos)
        && m.Some? && m.value.0 !in ign && st.after.charPos == c.charPos + m.value.1
        && st.token.kind == FinalType(e, lx, m.value.0, st.token.value)
        && st.after == FeedState(c, st.token.value, m.value.0 in nl)
    ensures var st, m := StepSpec(e, lx, stream, nl, ign, c), MatchAny(e, lx.mres, stream, c.charPos);
      st.Skip? ==>
        && c.charPos < st.after.charPos <= |stream|
        && m.Some? && m.value.0 in ign && st.after.charPos == c.charPos + m.value.1
        && st.after == FeedState(c, stream[c.charPos..st.after.charPos], m.value.0 in nl)
    ensures var st, m := StepSpec(e, lx, stream, nl, ign, c), MatchAny(e, lx.mres, stream, c.charPos);
      (st.End? <==> m.None? && c.charPos == |stream|) &&
      (st.Fail? <==> m.None? && c.charPos < |stream|) &&
      (st.Fail? ==> st.error == Unexpected(stream, c))
  {
    var m := MatchAny(e, lx.mres, stream, c.charPos);
    if m.Some? {
      var (kind, n) := m.value;
      MatchBounds(e, lx, stream, c.charPos);
      StepAt(e, lx, stream, nl, ign, c, kind, n);
    } else {
      StepNoMatch(e, lx, stream, nl, ign, c);
    }
  }

  /** An iteration that finds no match stops: with an error when input remains. */
  lemma {:induction false} StepNoMatch(e: Engine, lx: Lexer, stream: string, nl: seq<string>, ign: seq<string>, c: CounterState)
    requires ValidLexer(lx) && EngineSound(e, lx) && 0 <= c.charPos <= |stream|
    requires MatchAny(e, lx.mres, stream, c.charPos).None?
    ensures StepSpec(e, lx, stream, nl, ign, c) == if c.charPos < |stream| then Fail(Unexpected(stream, c)) else End
  {
  }

  /** What `next()` on the generator yields: iterations run until one emits a token or the scan
      stops; returns the result and the counter afterwards. */
  datatype NextResult = Yield(token: Token) | Stop | Failed(error: UnexpectedInput) | NoLexerForState(state: Option<int>)

  function NextSpec(e: Engine, lx: Lexer, stream: string, nl: seq<string>, ign: seq<string>, c: CounterState): (r: (NextResult, CounterState))
    requires ValidLexer(lx) && EngineSound(e, lx) && 0 <= c.charPos <= |stream|
    ensures c.charPos <= r.1.charPos <= |stream|
    ensures r.0.Yield? ==> c.charPos < r.1.charPos
    ensures r.0.Yield? || r.0.Stop? || r.0.Failed?
    decreases |stream| - c.charPos
  {
    StepSnapshot(e, lx, stream, nl, ign, c);
    match StepSpec(e, lx, stream, nl, ign, c)
    case Emit(t, a) => (Yield(t), a)
    case Skip(a) => NextSpec(e, lx, stream, nl, ign, a)
    case End => (Stop, c)
    case Fail(x) => (Failed(x), c)
  }

  /** The whole scan from counter `c`: the tokens yielded, the error raised if any, and the
      final counter. */
  datatype Run = Run(tokens: seq<Token>, error: Option<UnexpectedInput>, final: CounterState)

  function LexAllSpec(e: Engine, lx: Lexer, stream: string, nl: seq<string>, ign: seq<string>, c: CounterState): (r: Run)
    requires ValidLexer(lx) && EngineSound(e, lx) && 0 <= c.charPos <= |stream|
    ensures c.charPos <= r.final.charPos <= |stream|
    decreases |stream| - c.charPos
  {
    StepSnapshot(e, lx, stream, nl, ign, c);
    match StepSpec(e, lx, stream, nl, ign, c)
    case Emit(t, a) =>
      var rest := LexAllSpec(e, lx, stream, nl, ign, a);
      rest.(tokens := [t] + rest.tokens)
    case Skip(a) => LexAllSpec(e, lx, stream, nl, ign, a)
    case End => Run([], None, c)
    case Fail(x) => Run([], Some(x), c)
  }

  /** A consistent counter stays consistent through every `next()` and through the whole scan. */
  lemma {:induction false} LexAllConsistent(e: Engine, lx: Lexer, stream: string, nl: seq<string>, ign: seq<string>, c: CounterState)
    requires ValidLexer(lx) && EngineSound(e, lx) && 0 <= c.charPos <= |stream| && Consistent(c)
    ensures Consistent(NextSpec(e, lx, stream, nl, ign, c).1)
    ensures Consistent(LexAllSpec(e, lx, stream, nl, ign, c).final)
    decreases |stream| - c.charPos
  {
    StepSnapshot(e, lx, stream, nl, ign, c);
    match StepSpec(e, lx, stream, nl, ign, c)
    case Emit(t, a) => LexAllConsistent(e, lx, stream, nl, ign, a);
    case Skip(a) => LexAllConsistent(e, lx, stream, nl, ign, a);
    case _ =>
  }

  /** The whole scan is the token-by-token scan: each `next()` contributes its token, and the
      scan ends where `next()` first stops. */
  lemma {:induction false} LexAllViaNext(e: Engine, lx: Lexer, stream: string, nl: seq<string>, ign: seq<string>, c: CounterState)
    requires ValidLexer(lx) && EngineSound(e, lx) && 0 <= c.charPos <= |stream|
    ensures var next := NextSpec(e, lx, stream, nl, ign, c);
      var run := LexAllSpec(e, lx, stream, nl, ign, c);
      match next.0
      case Yield(t) =>
        var rest := LexAllSpec(e, lx, stream, nl, ign, next.1);
        run == rest.(tokens := [t] + rest.tokens)
      case Stop => run == Run([], None, next.1)
      case Failed(x) => run == Run([], Some(x), next.1)
      case NoLexerForState(_) => false
    decreases |stream| - c.charPos
  {
    StepSnapshot(e, lx, stream, nl, ign, c);
    match StepSpec(e, lx, stream, nl, ign, c)
    case Skip(a) => LexAllViaNext(e, lx, stream, nl, ign, a);
    case _ =>
  }

  /** The scan ends where no batch matches; it raises `UnexpectedInput`, about the character
      there and the counter there, exactly when input remains; otherwise it has consumed the
      whole stream. */
  lemma {:induction false} LexAllEnd(e: Engine, lx: Lexer, stream: string, nl: seq<string>, ign: seq<string>, c: CounterState)
    requires ValidLexer(lx) && EngineSound(e, lx) && 0 <= c.charPos <= |stream|
    ensures var run := LexAllSpec(e, lx, stream, nl, ign, c);
      && MatchAny(e, lx.mres, stream, run.final.charPos).None?
      && (run.error.Some? <==> run.final.charPos < |stream|)
      && (run.error.Some? ==> run.error.value == Unexpected(stream, run.final))
      && (run.error.None? ==> run.final.charPos == |stream|)
    decreases |stream| - c.charPos
  {
    StepSnapshot(e, lx, stream, nl, ign, c);
    match StepSpec(e, lx, stream, nl, ign, c)
    case Emit(t, a) => LexAllEnd(e, lx, stream, nl, ign, a);
    case Skip(a) => LexAllEnd(e, lx, stream, nl, ign, a);
    case _ =>
  }

  /** Tokens lie inside the stream, in the order of the stream, without overlap: each token's
      text is non-empty and is the stream's text at its offset, between `from` and `upTo`, and
      the offsets strictly increase. */
  ghost predicate InStreamOrder(stream: string, from: int, upTo: int, ts: seq<Token>) {
    && (forall i :: 0 <= i < |ts| ==>
          0 <= from <= ts[i].posInStream && |ts[i].value| >= 1 && ts[i].posInStream + |ts[i].value| <= upTo &&
          ts[i].posInStream + |ts[i].value| <= |stream| &&
          ts[i].value == stream[ts[i].posInStream..ts[i].posInStream + |ts[i].value|])
    && (forall i, j :: 0 <= i < j < |ts| ==> ts[i].posInStream + |ts[i].value| <= ts[j].posInStream)
  }

  lemma {:induction false} InStreamOrderWeaken(stream: string, from: int, from': int, upTo: int, ts: seq<Token>)
    requires 0 <= from' <= from && InStreamOrder(stream, from, upTo, ts)
    ensures InStreamOrder(stream, from', upTo, ts)
  {
  }

  lemma {:induction false} InStreamOrderCons(stream: string, from: int, mid: int, upTo: int, t: Token, ts: seq<Token>)
    requires InStreamOrder(stream, mid, upTo, ts) && mid <= upTo
    requires 0 <= from <= t.posInStream && t.posInStream + |t.value| <= mid && |t.value| >= 1
    requires t.posInStream + |t.value| <= |stream| && t.value == stream[t.posInStream..t.posInStream + |t.value|]
    ensures InStreamOrder(stream, from, upTo, [t] + ts)
  {
    var all := [t] + ts;
    assert all[0] == t;
    assert forall i :: 0 < i < |all| ==> all[i] == ts[i - 1];
    forall i, j | 0 <= i < j < |all|
      ensures all[i].posInStream + |all[i].value| <= all[j].posInStream
    {
      if i > 0 {
        assert all[i] == ts[i - 1] && all[j] == ts[j - 1];
      }
    }
  }

  /** Yielded tokens lie inside the stream, in the order of the stream, without overlap, and
      before the final counter. */
  lemma {:induction false} LexAllOrdered(e: Engine, lx: Lexer, stream: string, nl: seq<string>, ign: seq<string>, c: CounterState)
    requires ValidLexer(lx) && EngineSound(e, lx) && 0 <= c.charPos <= |stream|
    ensures var run := LexAllSpec(e, lx, stream, nl, ign, c);
      InStreamOrder(stream, c.charPos, run.final.charPos, run.tokens)
    decreases |stream| - c.charPos
  {
    StepSnapshot(e, lx, stream, nl, ign, c);
    var run := LexAllSpec(e, lx, stream, nl, ign, c);
    match StepSpec(e, lx, stream, nl, ign, c)
    case Emit(t, a) =>
      LexAllOrdered(e, lx, stream, nl, ign, a);
      var rest := LexAllSpec(e, lx, stream, nl, ign, a);
      assert run == rest.(tokens := [t] + rest.tokens);
      InStreamOrderCons(stream, c.charPos, a.charPos, rest.final.charPos, t, rest.tokens);
    case Skip(a) =>
      LexAllOrdered(e, lx, stream, nl, ign, a);
      assert run == LexAllSpec(e, lx, stream, nl, ign, a);
      InStreamOrderWeaken(stream, a.charPos, c.charPos, run.final.charPos, run.tokens);
    case _ =>
  }

  /** No match of a pattern whose name is not a newline type holds a newline: the condition
      under which testing for newlines only in the newline types loses nothing. */
  ghost predicate NewlineSafe(e: Engine, lx: Lexer, nl: seq<string>) {
    forall i, s: string, pos: nat ::
      (&& 0 <= i < |lx.tokens| && lx.tokens[i].name !in nl && e.matchAt(lx.tokens[i].pattern.regexp, s, pos).Some?
       && pos + e.matchAt(lx.tokens[i].pattern.regexp, s, pos).value <= |s|) ==>
        NewlineChar !in s[pos..pos + e.matchAt(lx.tokens[i].pattern.regexp, s, pos).value]
  }

  /** Feeding the text between two offsets keeps the counter at the true position, provided
      the newline test is made or the text has no newline. */
  lemma {:induction false} FeedKeepsPosition(stream: string, c: CounterState, n: nat, testNewline: bool)
    requires 0 <= c.charPos && c.charPos + n <= |stream| && c == PositionOf(stream[..c.charPos])
    requires testNewline || NewlineChar !in stream[c.charPos..c.charPos + n]
    ensures FeedState(c, stream[c.charPos..c.charPos + n], testNewline) == PositionOf(stream[..c.charPos + n])
  {
    var value := stream[c.charPos..c.charPos + n];
    assert stream[..c.charPos] + value == stream[..c.charPos + n];
    FeedTracksPosition(stream[..c.charPos], value);
    if !testNewline {
      SkippingNewlineTest(c, value);
    }
  }

  /** A match whose type is not a newline type holds no newline, when the newline types are safe. */
  lemma {:induction false} NoNewlineOutsideNewlineTypes(e: Engine, lx: Lexer, stream: string, nl: seq<string>, pos: nat)
    requires ValidLexer(lx) && EngineSound(e, lx) && NewlineSafe(e, lx, nl)
    requires MatchAny(e, lx.mres, stream, pos).Some? && MatchAny(e, lx.mres, stream, pos).value.0 !in nl
    ensures var n := MatchAny(e, lx.mres, stream, pos).value.1;
      pos + n <= |stream| && NewlineChar !in stream[pos..pos + n]
  {
    MatchProgress(e, lx, stream, pos);
    var (kind, n) := MatchAny(e, lx.mres, stream, pos).value;
    var i :| 0 <= i < |lx.tokens| && lx.tokens[i].name == kind && e.matchAt(lx.tokens[i].pattern.regexp, stream, pos) == Some(n);
  }

  /** The counter fed with a match stays at the true position when the newline types are safe. */
  lemma {:induction false} StepKeepsPosition(e: Engine, lx: Lexer, stream: string, nl: seq<string>, c: CounterState)
    requires ValidLexer(lx) && EngineSound(e, lx) && NewlineSafe(e, lx, nl)
    requires 0 <= c.charPos <= |stream| && c == PositionOf(stream[..c.charPos])
    requires MatchAny(e, lx.mres, stream, c.charPos).Some?
    ensures var (kind, n) := MatchAny(e, lx.mres, stream, c.charPos).value;
      c.charPos + n <= |stream| &&
      FeedState(c, stream[c.charPos..c.charPos + n], kind in nl) == PositionOf(stream[..c.charPos + n])
  {
    MatchBounds(e, lx, stream, c.charPos);
    var (kind, n) := MatchAny(e, lx.mres, stream, c.charPos).value;
    if kind !in nl {
      NoNewlineOutsideNewlineTypes(e, lx, stream, nl, c.charPos);
    }
    FeedKeepsPosition(stream, c, n, kind in nl);
  }

  /** Each token's line and column are those of its offset, counted from the start of the stream. */
  ghost predicate AtTruePositions(stream: string, ts: seq<Token>) {
    forall i :: 0 <= i < |ts| ==>
      0 <= ts[i].posInStream <= |stream| &&
      var p := PositionOf(stream[..ts[i].posInStream]);
      ts[i].line == p.line && ts[i].column == (p.charPos - p.lineStartPos)
  }

  lemma {:induction false} AtTruePositionsCons(stream: string, t: Token, ts: seq<Token>)
    requires AtTruePositions(stream, ts) && 0 <= t.posInStream <= |stream|
    requires var p := PositionOf(stream[..t.posInStream]); t.line == p.line && t.column == (p.charPos - p.lineStartPos)
    ensures AtTruePositions(stream, [t] + ts)
  {
    var all := [t] + ts;
    assert forall i :: 0 < i < |all| ==> all[i] == ts[i - 1];
  }

  /** An iteration from the true position: the counter afterwards is at the true position, and an
      emitted token carries the position it started at. */
  lemma {:induction false} StepPosition(e: Engine, lx: Lexer, stream: string, nl: seq<string>, ign: seq<string>, c: CounterState)
    requires ValidLexer(lx) && EngineSound(e, lx) && NewlineSafe(e, lx, nl)
    requires 0 <= c.charPos <= |stream| && c == PositionOf(stream[..c.charPos])
    ensures var st := StepSpec(e, lx, stream, nl, ign, c);
      (st.Emit? || st.Skip?) ==> c.charPos < st.after.charPos <= |stream| && st.after == PositionOf(stream[..st.after.charPos])
    ensures var st := StepSpec(e, lx, stream, nl, ign, c);
      st.Emit? ==> st.token.posInStream == c.charPos && st.token.line == c.line && st.token.column == (c.charPos - c.lineStartPos)
  {
    var m := MatchAny(e, lx.mres, stream, c.charPos);
    if m.Some? {
      var (kind, n) := m.value;
      MatchBounds(e, lx, stream, c.charPos);
      StepAt(e, lx, stream, nl, ign, c, kind, n);
      if kind !in nl {
        NoNewlineOutsideNewlineTypes(e, lx, stream, nl, c.charPos);
      }
      FeedKeepsPosition(stream, c, n, kind in nl);
    }
  }

  /** When the newline types cover every pattern that can match a newline, each yielded token's
      line and column are the true line and column of its offset, counted from the start of the
      stream, and so is the final counter. */
  lemma {:induction false} LexAllPositions(e: Engine, lx: Lexer, stream: string, nl: seq<string>, ign: seq<string>, c: CounterState)
    requires ValidLexer(lx) && EngineSound(e, lx) && NewlineSafe(e, lx, nl)
    requires 0 <= c.charPos <= |stream| && c == PositionOf(stream[..c.charPos])
    ensures var run := LexAllSpec(e, lx, stream, nl, ign, c);
      run.final == PositionOf(stream[..run.final.charPos]) && AtTruePositions(stream, run.tokens)
    decreases |stream| - c.charPos
  {
    StepPosition(e, lx, stream, nl, ign, c);
    match StepSpec(e, lx, stream, nl, ign, c)
    case Emit(t, a) =>
      LexAllPositions(e, lx, stream, nl, ign, a);
      LexAllEmit(e, lx, stream, nl, ign, c, t, a);
      AtTruePositionsCons(stream, t, LexAllSpec(e, lx, stream, nl, ign, a).tokens);
    case Skip(a) =>
      LexAllPositions(e, lx, stream, nl, ign, a);
      LexAllSkip(e, lx, stream, nl, ign, c, a);
    case End =>
    case Fail(_) =>
  }

  /** One match of the scan, ignored or not: the matched type, where it starts, and its text. */
  datatype Lexeme = Lexeme(kind: string, start: nat, text: string)

  /** The sequence of matches the scan finds from `pos`, without any counter, ignoring or
      callback, and the offset where no batch matches any more. */
  function Scan(e: Engine, lx: Lexer, stream: string, pos: nat): (r: (seq<Lexeme>, nat))
    requires ValidLexer(lx) && EngineSound(e, lx) && pos <= |stream|
    ensures pos <= r.1 <= |stream|
    decreases |stream| - pos
  {
    match MatchAny(e, lx.mres, stream, pos)
    case None => ([], pos)
    case Some((kind, n)) =>
      MatchBounds(e, lx, stream, pos);
      var rest := Scan(e, lx, stream, pos + n);
      ([Lexeme(kind, pos, stream[pos..pos + n])] + rest.0, rest.1)
  }

  function Texts(ls: seq<Lexeme>): string {
    if ls == [] then [] else ls[0].text + Texts(ls[1..])
  }

  /** One step of the scan: a match at `pos` becomes the first lexeme, and the scan goes on
      after it. */
  lemma {:induction false} ScanStep(e: Engine, lx: Lexer, stream: string, pos: nat)
    requires ValidLexer(lx) && EngineSound(e, lx) && pos <= |stream|
    requires MatchAny(e, lx.mres, stream, pos).Some?
    ensures var m := MatchAny(e, lx.mres, stream, pos).value;
      var r := Scan(e, lx, stream, pos);
      var rest := Scan(e, lx, stream, pos + m.1);
      && 1 <= m.1 && pos + m.1 <= |stream|
      && r.0 == [Lexeme(m.0, pos, stream[pos..pos + m.1])] + rest.0 && r.1 == rest.1
  {
    MatchBounds(e, lx, stream, pos);
    var m := MatchAny(e, lx.mres, stream, pos).value;
    ScanAt(e, lx, stream, pos, m.0, m.1);
  }

  /** The same step for a known match. */
  lemma {:induction false} ScanAt(e: Engine, lx: Lexer, stream: string, pos: nat, kind: string, n: nat)
    requires ValidLexer(lx) && EngineSound(e, lx) && pos + n <= |stream|
    requires MatchAny(e, lx.mres, stream, pos) == Some((kind, n))
    ensures var r, rest := Scan(e, lx, stream, pos), Scan(e, lx, stream, pos + n);
      r.0 == [Lexeme(kind, pos, stream[pos..pos + n])] + rest.0 && r.1 == rest.1
  {
    MatchBounds(e, lx, stream, pos);
  }

  lemma {:induction false} TextsCons(l: Lexeme, rest: seq<Lexeme>, stream: string, pos: nat, mid: nat, end: nat)
    requires pos <= mid <= end <= |stream|
    requires l.text == stream[pos..mid] && Texts(rest) == stream[mid..end]
    ensures Texts([l] + rest) == stream[pos..end]
  {
    assert ([l] + rest)[1..] == rest;
    assert stream[pos..end] == stream[pos..mid] + stream[mid..end];
  }

  lemma {:induction false} ScanCoversStep(e: Engine, lx: Lexer, stream: string, pos: nat, kind: string, n: nat)
    requires ValidLexer(lx) && EngineSound(e, lx) && pos + n <= |stream|
    requires MatchAny(e, lx.mres, stream, pos) == Some((kind, n))
    requires var rest := Scan(e, lx, stream, pos + n); Texts(rest.0) == stream[pos + n..rest.1]
    ensures var r := Scan(e, lx, stream, pos); Texts(r.0) == stream[pos..r.1]
  {
    ScanStep(e, lx, stream, pos);
    var rest := Scan(e, lx, stream, pos + n);
    TextsCons(Lexeme(kind, pos, stream[pos..pos + n]), rest.0, stream, pos, pos + n, rest.1);
  }

  /** The texts of the matches are the stream from `pos` to the end offset. */
  lemma {:induction false} ScanCovers(e: Engine, lx: Lexer, stream: string, pos: nat)
    requires ValidLexer(lx) && EngineSound(e, lx) && pos <= |stream|
    ensures var r := Scan(e, lx, stream, pos);
      Texts(r.0) == stream[pos..r.1]
    decreases |stream| - pos
  {
    var m := MatchAny(e, lx.mres, stream, pos);
    if m.Some? {
      MatchBounds(e, lx, stream, pos);
      ScanCovers(e, lx, stream, pos + m.value.1);
      ScanCoversStep(e, lx, stream, pos, m.value.0, m.value.1);
    } else {
      assert Scan(e, lx, stream, pos) == ([], pos);
    }
  }

  /** The scan stops where no batch matches. */
  lemma {:induction false} ScanStops(e: Engine, lx: Lexer, stream: string, pos: nat)
    requires ValidLexer(lx) && EngineSound(e, lx) && pos <= |stream|
    ensures MatchAny(e, lx.mres, stream, Scan(e, lx, stream, pos).1).None?
    decreases |stream| - pos
  {
    var m := MatchAny(e, lx.mres, stream, pos);
    if m.Some? {
      ScanStep(e, lx, stream, pos);
      ScanStops(e, lx, stream, pos + m.value.1);
    }
  }

  /** The lexeme is a non-empty match of the batches at its start, of its type and length. */
  ghost predicate MatchedAt(e: Engine, lx: Lexer, stream: string, l: Lexeme)
    requires ValidLexer(lx)
  {
    l.text != [] && MatchAny(e, lx.mres, stream, l.start) == Some((l.kind, |l.text|))
  }

  lemma {:induction false} AllMatchedCons(e: Engine, lx: Lexer, stream: string, l: Lexeme, rest: seq<Lexeme>)
    requires ValidLexer(lx)
    requires MatchedAt(e, lx, stream, l) && forall i :: 0 <= i < |rest| ==> MatchedAt(e, lx, stream, rest[i])
    ensures var ls := [l] + rest; forall i :: 0 <= i < |ls| ==> MatchedAt(e, lx, stream, ls[i])
  {
    var ls := [l] + rest;
    assert forall i :: 0 < i < |ls| ==> ls[i] == rest[i - 1];
  }

  /** Each match is a non-empty match of the batches at its start, of its type and length. */
  lemma {:induction false} ScanMatches(e: Engine, lx: Lexer, stream: string, pos: nat)
    requires ValidLexer(lx) && EngineSound(e, lx) && pos <= |stream|
    ensures var ls := Scan(e, lx, stream, pos).0;
      forall i :: 0 <= i < |ls| ==> MatchedAt(e, lx, stream, ls[i])
    decreases |stream| - pos
  {
    var m := MatchAny(e, lx.mres, stream, pos);
    if m.Some? {
      ScanStep(e, lx, stream, pos);
      ScanMatches(e, lx, stream, pos + m.value.1);
      var rest := Scan(e, lx, stream, pos + m.value.1).0;
      AllMatchedCons(e, lx, stream, Lexeme(m.value.0, pos, stream[pos..pos + m.value.1]), rest);
    } else {
      assert Scan(e, lx, stream, pos).0 == [];
    }
  }

  /** The lexemes shown to the caller: those of a type that is not ignored. */
  function Shown(ls: seq<Lexeme>, ign: seq<string>): seq<Lexeme> {
    Filter(ls, (l: Lexeme) => l.kind !in ign)
  }

  lemma {:induction false} ShownCons(l: Lexeme, rest: seq<Lexeme>, ign: seq<string>)
    ensures Shown([l] + rest, ign) == if l.kind in ign then Shown(rest, ign) else [l] + Shown(rest, ign)
  {
    FilterAppend([l], rest, (l: Lexeme) => l.kind !in ign);
    assert [l][1..] == [];
  }

  /** The tokens are the shown lexemes one for one: same text and offset, and the type the
      callback gives the lexeme's type. */
  ghost predicate Follows(e: Engine, lx: Lexer, tokens: seq<Token>, shown: seq<Lexeme>) {
    && |tokens| == |shown|
    && forall i :: 0 <= i < |shown| ==>
         tokens[i].value == shown[i].text && tokens[i].posInStream == shown[i].start &&
         tokens[i].kind == FinalType(e, lx, shown[i].kind, shown[i].text)
  }

  lemma {:induction false} FollowsCons(e: Engine, lx: Lexer, t: Token, l: Lexeme, tokens: seq<Token>, shown: seq<Lexeme>)
    requires Follows(e, lx, tokens, shown)
    requires t.value == l.text && t.posInStream == l.start && t.kind == FinalType(e, lx, l.kind, l.text)
    ensures Follows(e, lx, [t] + tokens, [l] + shown)
  {
    var ts, ls := [t] + tokens, [l] + shown;
    assert forall i :: 0 < i < |ls| ==> ts[i] == tokens[i - 1] && ls[i] == shown[i - 1];
  }

  /** The iteration at a known match of `n` characters of type `kind`. */
  lemma {:induction false} StepAt(e: Engine, lx: Lexer, stream: string, nl: seq<string>, ign: seq<string>, c: CounterState, kind: string, n: nat)
    requires ValidLexer(lx) && EngineSound(e, lx) && 0 <= c.charPos && c.charPos + n <= |stream|
    requires MatchAny(e, lx.mres, stream, c.charPos) == Some((kind, n))
    ensures var value := stream[c.charPos..c.charPos + n];
      var a := FeedState(c, value, kind in nl);
      && a.charPos == c.charPos + n
      && (kind in ign ==> StepSpec(e, lx, stream, nl, ign, c) == Skip(a))
      && (kind !in ign ==>
            var t := Token(FinalType(e, lx, kind, value), value, c.charPos, c.line, c.charPos - c.lineStartPos);
            StepSpec(e, lx, stream, nl, ign, c) == Emit(t, a))
  {
    assert StepSpec(e, lx, stream, nl, ign, c) == Consumed(e, lx, stream, nl, ign, c, kind, n);
  }

  /** `next()` after an iteration that emits `t`: it yields `t`. */
  lemma {:induction false} NextEmit(e: Engine, lx: Lexer, stream: string, nl: seq<string>, ign: seq<string>, c: CounterState, t: Token, a: CounterState)
    requires ValidLexer(lx) && EngineSound(e, lx) && 0 <= c.charPos <= |stream|
    requires StepSpec(e, lx, stream, nl, ign, c) == Emit(t, a)
    ensures NextSpec(e, lx, stream, nl, ign, c) == (Yield(t), a)
  {
  }

  /** `next()` after an iteration that skips a match: it goes on from the counter afterwards. */
  lemma {:induction false} NextSkip(e: Engine, lx: Lexer, stream: string, nl: seq<string>, ign: seq<string>, c: CounterState, a: CounterState)
    requires ValidLexer(lx) && EngineSound(e, lx) && 0 <= c.charPos <= |stream|
    requires StepSpec(e, lx, stream, nl, ign, c) == Skip(a)
    ensures c.charPos < a.charPos <= |stream|
    ensures NextSpec(e, lx, stream, nl, ign, c) == NextSpec(e, lx, stream, nl, ign, a)
  {
    StepSnapshot(e, lx, stream, nl, ign, c);
  }

  /** `next()` after an iteration that stops: it stops, or raises the iteration's error. */
  lemma {:induction false} NextStops(e: Engine, lx: Lexer, stream: string, nl: seq<string>, ign: seq<string>, c: CounterState)
    requires ValidLexer(lx) && EngineSound(e, lx) && 0 <= c.charPos <= |stream|
    ensures var st := StepSpec(e, lx, stream, nl, ign, c);
      st.End? ==> NextSpec(e, lx, stream, nl, ign, c) == (Stop, c)
    ensures var st := StepSpec(e, lx, stream, nl, ign, c);
      st.Fail? ==> NextSpec(e, lx, stream, nl, ign, c) == (Failed(st.error), c)
  {
  }

  /** The whole scan after an iteration that emits `t`. */
  lemma {:induction false} LexAllEmit(e: Engine, lx: Lexer, stream: string, nl: seq<string>, ign: seq<string>, c: CounterState, t: Token, a: CounterState)
    requires ValidLexer(lx) && EngineSound(e, lx) && 0 <= c.charPos <= |stream|
    requires StepSpec(e, lx, stream, nl, ign, c) == Emit(t, a)
    ensures 0 <= a.charPos <= |stream|
    ensures var tail := LexAllSpec(e, lx, stream, nl, ign, a);
      LexAllSpec(e, lx, stream, nl, ign, c) == tail.(tokens := [t] + tail.tokens)
  {
    StepSnapshot(e, lx, stream, nl, ign, c);
  }

  /** The whole scan after an iteration that skips a match. */
  lemma {:induction false} LexAllSkip(e: Engine, lx: Lexer, stream: string, nl: seq<string>, ign: seq<string>, c: CounterState, a: CounterState)
    requires ValidLexer(lx) && EngineSound(e, lx) && 0 <= c.charPos <= |stream|
    requires StepSpec(e, lx, stream, nl, ign, c) == Skip(a)
    ensures 0 <= a.charPos <= |stream|
    ensures LexAllSpec(e, lx, stream, nl, ign, c) == LexAllSpec(e, lx, stream, nl, ign, a)
  {
    StepSnapshot(e, lx, stream, nl, ign, c);
  }

  /** The correspondence survives a match that is emitted as `t`. */
  lemma {:induction false} FollowsEmitted(e: Engine, lx: Lexer, ign: seq<string>, run: Run, tail: Run, t: Token,
                       scan: (seq<Lexeme>, nat), rest: (seq<Lexeme>, nat), l: Lexeme)
    requires run == tail.(tokens := [t] + tail.tokens)
    requires scan.0 == [l] + rest.0 && scan.1 == rest.1 && l.kind !in ign
    requires Follows(e, lx, tail.tokens, Shown(rest.0, ign)) && tail.final.charPos == rest.1
    requires t.value == l.text && t.posInStream == l.start && t.kind == FinalType(e, lx, l.kind, l.text)
    ensures Follows(e, lx, run.tokens, Shown(scan.0, ign)) && run.final.charPos == scan.1
  {
    ShownCons(l, rest.0, ign);
    FollowsCons(e, lx, t, l, tail.tokens, Shown(rest.0, ign));
  }

  /** The correspondence survives a match of an ignored type. */
  lemma {:induction false} FollowsSkipped(e: Engine, lx: Lexer, ign: seq<string>, run: Run,
                       scan: (seq<Lexeme>, nat), rest: (seq<Lexeme>, nat), l: Lexeme)
    requires scan.0 == [l] + rest.0 && scan.1 == rest.1 && l.kind in ign
    requires Follows(e, lx, run.tokens, Shown(rest.0, ign)) && run.final.charPos == rest.1
    ensures Follows(e, lx, run.tokens, Shown(scan.0, ign)) && run.final.charPos == scan.1
  {
    ShownCons(l, rest.0, ign);
  }

  /** One iteration seen from the counter-free scan: an emitted token or a skipped match is the
      scan's first lexeme, and the scan from the counter afterwards is the rest; when the
      iteration stops, the scan finds nothing. */
  lemma {:induction false} StepScan(e: Engine, lx: Lexer, stream: string, nl: seq<string>, ign: seq<string>, c: CounterState)
    requires ValidLexer(lx) && EngineSound(e, lx) && 0 <= c.charPos <= |stream|
    ensures var st, r := StepSpec(e, lx, stream, nl, ign, c), Scan(e, lx, stream, c.charPos);
      (st.Emit? || st.Skip?) ==>
        && 0 <= st.after.charPos <= |stream| && r.0 != []
        && Scan(e, lx, stream, st.after.charPos) == (r.0[1..], r.1)
        && (st.Skip? <==> r.0[0].kind in ign)
    ensures var st, r := StepSpec(e, lx, stream, nl, ign, c), Scan(e, lx, stream, c.charPos);
      st.Emit? ==>
        r.0 != [] && st.token.value == r.0[0].text && st.token.posInStream == r.0[0].start &&
        st.token.kind == FinalType(e, lx, r.0[0].kind, r.0[0].text)
    ensures var st, r := StepSpec(e, lx, stream, nl, ign, c), Scan(e, lx, stream, c.charPos);
      (st.End? || st.Fail?) ==> r == ([], c.charPos)
  {
    StepSnapshot(e, lx, stream, nl, ign, c);
    var m := MatchAny(e, lx.mres, stream, c.charPos);
    if m.Some? {
      MatchBounds(e, lx, stream, c.charPos);
      ScanAt(e, lx, stream, c.charPos, m.value.0, m.value.1);
    } else {
      assert Scan(e, lx, stream, c.charPos) == ([], c.charPos);
    }
  }

  /** Against the counter-free scan: the yielded tokens are exactly its matches of types that
      are not ignored, in order, with their texts and offsets, each retyped by its callback, and
      the scan ends where the matches end. */
  lemma {:induction false} LexAllFollowsScan(e: Engine, lx: Lexer, stream: string, nl: seq<string>, ign: seq<string>, c: CounterState)
    requires ValidLexer(lx) && EngineSound(e, lx) && 0 <= c.charPos <= |stream|
    ensures var run := LexAllSpec(e, lx, stream, nl, ign, c);
      var r := Scan(e, lx, stream, c.charPos);
      Follows(e, lx, run.tokens, Shown(r.0, ign)) && run.final.charPos == r.1
    decreases |stream| - c.charPos
  {
    StepScan(e, lx, stream, nl, ign, c);
    var r := Scan(e, lx, stream, c.charPos);
    match StepSpec(e, lx, stream, nl, ign, c)
    case Emit(t, a) =>
      LexAllFollowsScan(e, lx, stream, nl, ign, a);
      LexAllEmit(e, lx, stream, nl, ign, c, t, a);
      assert r.0 == [r.0[0]] + r.0[1..];
      FollowsEmitted(e, lx, ign, LexAllSpec(e, lx, stream, nl, ign, c), LexAllSpec(e, lx, stream, nl, ign, a), t,
                     r, Scan(e, lx, stream, a.charPos), r.0[0]);
    case Skip(a) =>
      LexAllFollowsScan(e, lx, stream, nl, ign, a);
      LexAllSkip(e, lx, stream, nl, ign, c, a);
      assert r.0 == [r.0[0]] + r.0[1..];
      FollowsSkipped(e, lx, ign, LexAllSpec(e, lx, stream, nl, ign, a), r, Scan(e, lx, stream, a.charPos), r.0[0]);
    case End =>
    case Fail(_) =>
  }

  /** The state of one `_Lex.lex` generator: the stream, the types it was given, its counter,
      the lexer whose batches it tries next, and whether it has finished. */
  class LexSession {
    const engine: Engine
    const stream: string
    const newlineTypes: seq<string>
    const ignoreTypes: seq<string>
    const counter: LineCounter
    var lexer: Lexer
    var finished: bool

    ghost predicate Valid()
      reads this, counter
    {
      counter.Valid() && ValidLexer(lexer) && counter.charPos <= |stream|
    }

    constructor (e: Engine, lx: Lexer, stream: string, nl: seq<string>, ign: seq<string>)
      requires ValidLexer(lx)
      ensures Valid() && fresh(counter)
      ensures engine == e && lexer == lx && this.stream == stream && newlineTypes == nl && ignoreTypes == ign
      ensures counter.State() == Initial && !finished
    {
      engine, lexer, this.stream, newlineTypes, ignoreTypes := e, lx, stream, nl, ign;
      counter := new LineCounter();
      finished := false;
    }

    /** `for mre, type_from_index in lexer.mres: m = mre.match(stream, pos) ...`: the batches are
        tried in order and the first that matches gives the type and the length. */
    method FindMatch(pos: nat) returns (found: Option<(string, nat)>)
      requires ValidLexer(lexer)
      ensures found == MatchAny(engine, lexer.mres, stream, pos)
    {
      var mres := lexer.mres;
      var i := 0;
      found := None;
      while found.None? && i < |mres|
        invariant 0 <= i <= |mres|
        invariant found.None? ==> MatchAny(engine, mres, stream, pos) == MatchAny(engine, mres[i..], stream, pos)
        invariant found.Some? ==> found == MatchAny(engine, mres, stream, pos)
      {
        assert mres[i..][0] == mres[i] && mres[i..][1..] == mres[i + 1..];
        var m := MatchIn(engine, mres[i], stream, pos);
        if m.Some? {
          found := Some((mres[i].slotNames[m.value.0], m.value.1));
        }
        i := i + 1;
      }
    }

    /** One iteration of the `while True` loop: the batches are tried at the counter's offset; a
        match feeds the counter with its text, and a token of a type that is not ignored carries
        the position the counter had before. */
    method Iterate() returns (st: Step)
      requires Valid() && EngineSound(engine, lexer)
      modifies counter
      ensures Valid()
      ensures st == StepSpec(engine, lexer, stream, newlineTypes, ignoreTypes, old(counter.State()))
      ensures st.Emit? || st.Skip? ==> counter.State() == st.after
      ensures st.End? || st.Fail? ==> counter.State() == old(counter.State())
    {
      ghost var c := counter.State();
      var found := FindMatch(counter.charPos);
      if found.None? {
        StepNoMatch(engine, lexer, stream, newlineTypes, ignoreTypes, c);
        if counter.charPos < |stream| {
          return Fail(Unexpected(stream, counter.State()));
        }
        return End;
      }
      var (kind, n) := found.value;
      MatchBounds(engine, lexer, stream, counter.charPos);
      assert StepSpec(engine, lexer, stream, newlineTypes, ignoreTypes, c) == Consumed(engine, lexer, stream, newlineTypes, ignoreTypes, c, kind, n);
      st := Consume(kind, n);
    }

    /** The tail of an iteration that matched `n` characters of type `kind`: the counter is fed
        with the text, and a type that is not ignored gives a token with the position from
        before the feed and the type its callback chooses. */
    method Consume(kind: string, n: nat) returns (st: Step)
      requires Valid() && counter.charPos + n <= |stream|
      modifies counter
      ensures Valid()
      ensures st == Consumed(engine, lexer, stream, newlineTypes, ignoreTypes, old(counter.State()), kind, n)
      ensures st.Emit? || st.Skip?
      ensures counter.State() == st.after
    {
      ghost var c := counter.State();
      var value := stream[counter.charPos..counter.charPos + n];
      var testNewline := kind in newlineTypes;
      ghost var token := Token(FinalType(engine, lexer, kind, value), value, c.charPos, c.line, c.charPos - c.lineStartPos);
      assert Consumed(engine, lexer, stream, newlineTypes, ignoreTypes, c, kind, n) ==
        if kind in ignoreTypes then Skip(FeedState(c, value, testNewline)) else Emit(token, FeedState(c, value, testNewline));
      if kind in ignoreTypes {
        counter.Feed(value, testNewline);
        return Skip(counter.State());
      }
      var t := ApplyCallbacks(engine, lexer, Token(kind, value, counter.charPos, counter.line, counter.column));
      counter.Feed(value, testNewline);
      return Emit(t, counter.State());
    }

    /** `next()` on the generator. The counter is fed with a yielded token's text before the
        token is returned rather than when the generator is resumed. */
    method Next() returns (r: NextResult)
      requires Valid() && EngineSound(engine, lexer)
      modifies this, counter
      ensures Valid() && lexer == old(lexer)
      ensures old(finished) ==> r == Stop && finished && counter.State() == old(counter.State())
      ensures !old(finished) ==>
        (r, counter.State()) == NextSpec(engine, lexer, stream, newlineTypes, ignoreTypes, old(counter.State())) &&
        finished == !r.Yield?
    {
      if finished {
        return Stop;
      }
      ghost var spec := NextSpec(engine, lexer, stream, newlineTypes, ignoreTypes, counter.State());
      while true
        invariant Valid() && lexer == old(lexer) && !finished
        invariant spec == NextSpec(engine, lexer, stream, newlineTypes, ignoreTypes, counter.State())
        decreases |stream| - counter.charPos
      {
        ghost var c := counter.State();
        NextStops(engine, lexer, stream, newlineTypes, ignoreTypes, c);
        var st := Iterate();
        match st
        case Emit(t, a) =>
          NextEmit(engine, lexer, stream, newlineTypes, ignoreTypes, c, t, a);
          return Yield(t);
        case Skip(a) =>
          NextSkip(engine, lexer, stream, newlineTypes, ignoreTypes, c, a);
        case End =>
          finished := true;
          return Stop;
        case Fail(x) =>
          finished := true;
          return Failed(x);
      }
    }
  }

  /** `Lexer.lex(stream)` driven to the end: every token the generator yields, and the error it
      raises, if any. */
  method Lex(e: Engine, lx: Lexer, stream: string) returns (tokens: seq<Token>, error: Option<UnexpectedInput>)
    requires ValidLexer(lx) && EngineSound(e, lx)
    ensures tokens == LexAllSpec(e, lx, stream, lx.newlineTypes, lx.ignoreTypes, Initial).tokens
    ensures error == LexAllSpec(e, lx, stream, lx.newlineTypes, lx.ignoreTypes, Initial).error
  {
    var session := new LexSession(e, lx, stream, lx.newlineTypes, lx.ignoreTypes);
    tokens, error := Drain(session);
  }

  /** The tokens still to come after one more yielded token. */
  lemma {:induction false} RunAfterYield(spec: Run, tokens: seq<Token>, run: Run, rest: Run, t: Token)
    requires spec.tokens == tokens + run.tokens && spec.error == run.error
    requires run == rest.(tokens := [t] + rest.tokens)
    ensures spec.tokens == (tokens + [t]) + rest.tokens && spec.error == rest.error
  {
    assert tokens + ([t] + rest.tokens) == (tokens + [t]) + rest.tokens;
  }

  /** The `for` loop over a generator that has not finished yet: `next()` until it stops. */
  method Drain(session: LexSession) returns (tokens: seq<Token>, error: Option<UnexpectedInput>)
    requires session.Valid() && !session.finished && EngineSound(session.engine, session.lexer)
    modifies session, session.counter
    ensures var run := old(LexAllSpec(session.engine, session.lexer, session.stream, session.newlineTypes,
                                      session.ignoreTypes, session.counter.State()));
      tokens == run.tokens && error == run.error
  {
    var e, lx, stream := session.engine, session.lexer, session.stream;
    var nl, ign := session.newlineTypes, session.ignoreTypes;
    ghost var spec := LexAllSpec(e, lx, stream, nl, ign, session.counter.State());
    tokens := [];
    while true
      invariant session.Valid() && !session.finished && session.lexer == lx
      invariant var rest := LexAllSpec(e, lx, stream, nl, ign, session.counter.State());
        spec.tokens == tokens + rest.tokens && spec.error == rest.error
      decreases |stream| - session.counter.charPos
    {
      ghost var c := session.counter.State();
      ghost var run := LexAllSpec(e, lx, stream, nl, ign, c);
      LexAllViaNext(e, lx, stream, nl, ign, c);
      var r := session.Next();
      match r
      case Yield(t) =>
        RunAfterYield(spec, tokens, run, LexAllSpec(e, lx, stream, nl, ign, session.counter.State()), t);
        tokens := tokens + [t];
      case Failed(x) =>
        assert tokens + [] == tokens;
        return tokens, Some(x);
      case Stop =>
        assert tokens + [] == tokens;
        return tokens, None;
      case NoLexerForState(_) =>
        assert false;
    }
  }
}
