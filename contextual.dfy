/** `ContextualLexer`: one lexer per parser state, built from the tokens that state accepts,
    with the state read again before each match of a scan. */
module Contextual {

  import opened LexTypes
  import opened SeqUtil
  import opened LineCounting
  import opened TokenOrder
  import opened Matchers
  import opened Unless
  import opened Lexers
  import opened Scanning

  /** The end-of-input terminal, which no per-state lexer matches. */
  const EndMarker: string := "$END"

  function SetOf(xs: seq<string>): set<string> {
    set x | x in xs
  }

  /** The names of a token list. */
  function NamesOf(ts: seq<TokenDef>): set<string> {
    set i | 0 <= i < |ts| :: ts[i].name
  }

  /** The first token, in order, whose name an earlier token (or `seen`) already has: the
      assertion in the loop that fills `tokens_by_name`. */
  function DuplicateFrom(ts: seq<TokenDef>, seen: set<string>): Option<string> {
    if ts == [] then None
    else if ts[0].name in seen then Some(ts[0].name)
    else DuplicateFrom(ts[1..], seen + {ts[0].name})
  }

  /** The duplicate check passes exactly when the names are distinct, and a name it reports
      is held by two tokens. */
  lemma {:induction false} DuplicateFound(ts: seq<TokenDef>)
    ensures DuplicateFrom(ts, {}).None? <==> NamesDistinct(ts)
    ensures DuplicateFrom(ts, {}).Some? ==>
      exists i, j :: 0 <= i < j < |ts| && ts[i].name == ts[j].name == DuplicateFrom(ts, {}).value
  {
    DuplicateFromSeen(ts, {});
  }

  lemma {:induction false} DuplicateFromSeen(ts: seq<TokenDef>, seen: set<string>)
    ensures DuplicateFrom(ts, seen).None? <==>
      NamesDistinct(ts) && forall i :: 0 <= i < |ts| ==> ts[i].name !in seen
    ensures DuplicateFrom(ts, seen).Some? ==>
      var n := DuplicateFrom(ts, seen).value;
      (n in seen && exists j :: 0 <= j < |ts| && ts[j].name == n) ||
      (exists i, j :: 0 <= i < j < |ts| && ts[i].name == ts[j].name == n)
  {
    if ts != [] && ts[0].name !in seen {
      var rest := ts[1..];
      DuplicateFromSeen(rest, seen + {ts[0].name});
      assert forall i :: 0 < i < |ts| ==> ts[i] == rest[i - 1];
      if DuplicateFrom(rest, seen + {ts[0].name}).Some? {
        var n := DuplicateFrom(rest, seen + {ts[0].name}).value;
        if n !in seen && n == ts[0].name {
          var j :| 0 <= j < |rest| && rest[j].name == n;
          assert ts[0].name == ts[j + 1].name;
        } else if exists i, j :: 0 <= i < j < |rest| && rest[i].name == rest[j].name == n {
          var i, j :| 0 <= i < j < |rest| && rest[i].name == rest[j].name == n;
          assert ts[i + 1].name == ts[j + 1].name;
        }
      }
    }
  }

  /** A name the comprehension over a state's accepted names looks up: a terminal other than
      the end marker (`is_terminal(n) and n != '$END'`). */
  predicate Wanted(n: string, isTerminal: string -> bool) {
    isTerminal(n) && n != EndMarker
  }

  /** The accepted names of a state together with the ignored and always-accepted names. */
  function Accepted(key: set<string>, ignore: seq<string>, alwaysAccept: seq<string>): set<string> {
    key + SetOf(ignore) + SetOf(alwaysAccept)
  }

  /** `state_tokens`: the tokens whose names the state accepts, in token-list order. */
  function StateTokens(tokens: seq<TokenDef>, acc: set<string>, isTerminal: string -> bool): seq<TokenDef> {
    Filter(tokens, (t: TokenDef) => t.name in acc && Wanted(t.name, isTerminal))
  }

  /** The lexer of one accepted set `key` (`frozenset(accepts)`): `UnknownTerminal` when some
      wanted name is not a token name (the `KeyError` of `tokens_by_name[n]`), and otherwise
      the lexer built from the state's tokens, or its construction error. */
  function StateLexerSpec(e: Engine, tokens: seq<TokenDef>, key: set<string>, ignore: seq<string>,
                          alwaysAccept: seq<string>, isTerminal: string -> bool): Result<Lexer, LexError>
  {
    var acc := Accepted(key, ignore, alwaysAccept);
    if exists n :: n in acc && Wanted(n, isTerminal) && n !in NamesOf(tokens) then Err(UnknownTerminal)
    else LexerSpec(e, StateTokens(tokens, acc, isTerminal), ignore)
  }

  /** A built state lexer is valid; its tokens are among the input tokens, each with a name the
      state accepts and none of them the end marker; every wanted name is a token name; and
      every accepted token that no regular expression of the state takes over is kept. */
  lemma {:induction false} StateLexerTokens(e: Engine, tokens: seq<TokenDef>, key: set<string>, ignore: seq<string>,
                                            alwaysAccept: seq<string>, isTerminal: string -> bool)
    requires StateLexerSpec(e, tokens, key, ignore, alwaysAccept, isTerminal).Ok?
    ensures var lx := StateLexerSpec(e, tokens, key, ignore, alwaysAccept, isTerminal).value;
      var acc := Accepted(key, ignore, alwaysAccept);
      && ValidLexer(lx)
      && (forall t :: t in lx.tokens ==> t in tokens && t.name in acc && isTerminal(t.name) && t.name != EndMarker)
      && (forall n :: n in acc && Wanted(n, isTerminal) ==> n in NamesOf(tokens))
      && (forall t ::
            (t in tokens && t.name in acc && Wanted(t.name, isTerminal) &&
             !TakenOver(e, StateTokens(tokens, acc, isTerminal), t)) ==> t in lx.tokens)
      && lx.ignoreTypes == ignore
  {
    var acc := Accepted(key, ignore, alwaysAccept);
    var st := StateTokens(tokens, acc, isTerminal);
    LexerIsValid(e, st, ignore);
    LexerTokens(e, st, ignore);
  }

  /** The state lexers after the states `states` have been read, in order: the first state
      whose lexer cannot be built gives the error; a later entry for a state replaces an
      earlier one. */
  function StatesSpec(e: Engine, tokens: seq<TokenDef>, states: seq<(int, seq<string>)>, ignore: seq<string>,
                      alwaysAccept: seq<string>, isTerminal: string -> bool): Result<map<int, Lexer>, LexError>
    decreases |states|
  {
    if states == [] then Ok(map[])
    else
      var (state, accepts) := states[|states| - 1];
      match StatesSpec(e, tokens, states[..|states| - 1], ignore, alwaysAccept, isTerminal)
      case Err(x) => Err(x)
      case Ok(m) =>
        match StateLexerSpec(e, tokens, SetOf(accepts), ignore, alwaysAccept, isTerminal)
        case Err(x) => Err(x)
        case Ok(lx) => Ok(m[state := lx])
  }

  /** The entry at `j` is the last one for its state. */
  ghost predicate LastEntry(states: seq<(int, seq<string>)>, j: int) {
    0 <= j < |states| && forall k :: j < k < |states| ==> states[k].0 != states[j].0
  }

  /** Reading the entry at `j` after the ones before it. */
  lemma {:induction false} StatesSpecStep(e: Engine, tokens: seq<TokenDef>, states: seq<(int, seq<string>)>,
                                          ignore: seq<string>, alwaysAccept: seq<string>, isTerminal: string -> bool,
                                          j: int)
    requires 0 <= j < |states| && StatesSpec(e, tokens, states[..j], ignore, alwaysAccept, isTerminal).Ok?
    ensures StatesSpec(e, tokens, states[..j + 1], ignore, alwaysAccept, isTerminal) ==
      match StateLexerSpec(e, tokens, SetOf(states[j].1), ignore, alwaysAccept, isTerminal)
      case Err(x) => Err(x)
      case Ok(lx) => Ok(StatesSpec(e, tokens, states[..j], ignore, alwaysAccept, isTerminal).value[states[j].0 := lx])
  {
    assert states[..j + 1][..j] == states[..j];
  }

  /** Once some state's lexer cannot be built, the whole construction fails with its error. */
  lemma {:induction false} StatesFailurePersists(e: Engine, tokens: seq<TokenDef>, states: seq<(int, seq<string>)>,
                                                 ignore: seq<string>, alwaysAccept: seq<string>,
                                                 isTerminal: string -> bool, i: nat)
    requires i <= |states| && StatesSpec(e, tokens, states[..i], ignore, alwaysAccept, isTerminal).Err?
    ensures StatesSpec(e, tokens, states, ignore, alwaysAccept, isTerminal) ==
      StatesSpec(e, tokens, states[..i], ignore, alwaysAccept, isTerminal)
    decreases |states|
  {
    if i < |states| {
      var init := states[..|states| - 1];
      assert init[..i] == states[..i];
      StatesFailurePersists(e, tokens, init, ignore, alwaysAccept, isTerminal, i);
    } else {
      assert states[..i] == states;
    }
  }

  /** `m` holds a lexer for exactly the states listed. */
  ghost predicate KeyedByStates(states: seq<(int, seq<string>)>, m: map<int, Lexer>) {
    forall s :: s in m <==> exists j :: 0 <= j < |states| && states[j].0 == s
  }

  /** The lexer of each state is the lexer of the accepted set of the state's last entry. */
  ghost predicate LastEntriesDecide(e: Engine, tokens: seq<TokenDef>, states: seq<(int, seq<string>)>,
                                    ignore: seq<string>, alwaysAccept: seq<string>, isTerminal: string -> bool,
                                    m: map<int, Lexer>)
  {
    LastEntriesAgree(states, m, StateLexerOf(e, tokens, ignore, alwaysAccept, isTerminal))
  }

  /** The lexer a state gets for a list of accepted names. */
  function StateLexerOf(e: Engine, tokens: seq<TokenDef>, ignore: seq<string>, alwaysAccept: seq<string>,
                        isTerminal: string -> bool): seq<string> -> Result<Lexer, LexError>
  {
    accepts => StateLexerSpec(e, tokens, SetOf(accepts), ignore, alwaysAccept, isTerminal)
  }

  /** The lexer of each state in `m` is what `f` gives for the accepted names of its last entry. */
  ghost predicate LastEntriesAgree(states: seq<(int, seq<string>)>, m: map<int, Lexer>,
                                   f: seq<string> -> Result<Lexer, LexError>)
  {
    forall j :: LastEntry(states, j) ==> states[j].0 in m && Ok(m[states[j].0]) == f(states[j].1)
  }

  ghost predicate AllValid(m: map<int, Lexer>) {
    forall s :: s in m ==> ValidLexer(m[s])
  }

  /** The states that have a lexer are exactly the states listed; each gets the lexer of the
      accepted set of its last entry, so states whose accepted sets are equal share a lexer;
      and every lexer is valid. */
  lemma {:induction false} StatesLexers(e: Engine, tokens: seq<TokenDef>, states: seq<(int, seq<string>)>,
                                        ignore: seq<string>, alwaysAccept: seq<string>, isTerminal: string -> bool)
    requires StatesSpec(e, tokens, states, ignore, alwaysAccept, isTerminal).Ok?
    ensures var m := StatesSpec(e, tokens, states, ignore, alwaysAccept, isTerminal).value;
      KeyedByStates(states, m) && LastEntriesDecide(e, tokens, states, ignore, alwaysAccept, isTerminal, m) &&
      AllValid(m)
    decreases |states|
  {
    if states != [] {
      var init := states[..|states| - 1];
      var last := states[|states| - 1];
      StatesLexers(e, tokens, init, ignore, alwaysAccept, isTerminal);
      StateLexerTokens(e, tokens, SetOf(last.1), ignore, alwaysAccept, isTerminal);
      var lx := StateLexerSpec(e, tokens, SetOf(last.1), ignore, alwaysAccept, isTerminal).value;
      var m0 := StatesSpec(e, tokens, init, ignore, alwaysAccept, isTerminal).value;
      assert StatesSpec(e, tokens, states, ignore, alwaysAccept, isTerminal).value == m0[last.0 := lx];
      KeyedOneMore(states, m0, lx);
      LastEntriesOneMore(states, m0, lx, StateLexerOf(e, tokens, ignore, alwaysAccept, isTerminal));
    }
  }

  /** Two states whose last entries accept the same names get equal lexers (the
      `lexer_by_tokens` cache). */
  lemma {:induction false} SameAcceptsSameLexer(e: Engine, tokens: seq<TokenDef>, states: seq<(int, seq<string>)>,
                                                ignore: seq<string>, alwaysAccept: seq<string>,
                                                isTerminal: string -> bool, j: int, k: int)
    requires StatesSpec(e, tokens, states, ignore, alwaysAccept, isTerminal).Ok?
    requires LastEntry(states, j) && LastEntry(states, k) && SetOf(states[j].1) == SetOf(states[k].1)
    ensures var m := StatesSpec(e, tokens, states, ignore, alwaysAccept, isTerminal).value;
      states[j].0 in m && states[k].0 in m && m[states[j].0] == m[states[k].0]
  {
    StatesLexers(e, tokens, states, ignore, alwaysAccept, isTerminal);
  }

  lemma {:induction false} KeyedOneMore(states: seq<(int, seq<string>)>, m0: map<int, Lexer>, lx: Lexer)
    requires states != [] && KeyedByStates(states[..|states| - 1], m0)
    ensures KeyedByStates(states, m0[states[|states| - 1].0 := lx])
  {
    var init := states[..|states| - 1];
    var m := m0[states[|states| - 1].0 := lx];
    forall s ensures s in m <==> exists j :: 0 <= j < |states| && states[j].0 == s {
      if s in m && s != states[|states| - 1].0 {
        var j :| 0 <= j < |init| && init[j].0 == s;
        assert states[j].0 == s;
      }
      if exists j :: 0 <= j < |states| && states[j].0 == s {
        var j :| 0 <= j < |states| && states[j].0 == s;
        if j < |init| {
          assert init[j].0 == s;
        }
      }
    }
  }

  lemma {:induction false} LastEntriesOneMore(states: seq<(int, seq<string>)>, m0: map<int, Lexer>, lx: Lexer,
                                              f: seq<string> -> Result<Lexer, LexError>)
    requires states != []
    requires LastEntriesAgree(states[..|states| - 1], m0, f)
    requires Ok(lx) == f(states[|states| - 1].1)
    ensures LastEntriesAgree(states, m0[states[|states| - 1].0 := lx], f)
  {
    var init := states[..|states| - 1];
    var last := |states| - 1;
    var m := m0[states[last].0 := lx];
    forall j | LastEntry(states, j)
      ensures states[j].0 in m && Ok(m[states[j].0]) == f(states[j].1)
    {
      if j < last {
        assert init[j] == states[j];
        assert LastEntry(init, j);
        assert states[j].0 != states[last].0;
      }
    }
  }

  /** What `ContextualLexer.__init__` computes: the duplicate check, the state lexers and then
      the root lexer over all the tokens, each failure ending the construction. */
  function ContextualSpec(e: Engine, tokens: seq<TokenDef>, states: seq<(int, seq<string>)>, ignore: seq<string>,
                          alwaysAccept: seq<string>, isTerminal: string -> bool): Result<(map<int, Lexer>, Lexer), LexError>
  {
    match DuplicateFrom(tokens, {})
    case Some(n) => Err(DuplicateName(n))
    case None =>
      match StatesSpec(e, tokens, states, ignore, alwaysAccept, isTerminal)
      case Err(x) => Err(x)
      case Ok(m) =>
        match LexerSpec(e, tokens, ignore)
        case Err(x) => Err(x)
        case Ok(root) => Ok((m, root))
  }

  /** A contextual lexer is built exactly when the names are distinct and every lexer can be
      built; then every lexer is valid and the root lexer is the lexer of all the tokens. */
  lemma {:induction false} ContextualBuilt(e: Engine, tokens: seq<TokenDef>, states: seq<(int, seq<string>)>,
                                           ignore: seq<string>, alwaysAccept: seq<string>, isTerminal: string -> bool)
    ensures var r := ContextualSpec(e, tokens, states, ignore, alwaysAccept, isTerminal);
      && (!NamesDistinct(tokens) ==> r.Err? && r.error.DuplicateName?)
      && (r.Ok? <==>
            && NamesDistinct(tokens)
            && StatesSpec(e, tokens, states, ignore, alwaysAccept, isTerminal).Ok?
            && LexerSpec(e, tokens, ignore).Ok?)
      && (r.Ok? ==>
            && r.value.1 == LexerSpec(e, tokens, ignore).value
            && ValidLexer(r.value.1)
            && forall s :: s in r.value.0 ==> ValidLexer(r.value.0[s]))
  {
    DuplicateFound(tokens);
    var r := ContextualSpec(e, tokens, states, ignore, alwaysAccept, isTerminal);
    if r.Ok? {
      StatesLexers(e, tokens, states, ignore, alwaysAccept, isTerminal);
      LexerIsValid(e, tokens, ignore);
    }
  }

  class ContextualLexer {
    const engine: Engine
    const lexers: map<int, Lexer>
    const rootLexer: Lexer
    var parserState: Option<int>

    ghost predicate Valid() {
      ValidLexer(rootLexer) && forall s :: s in lexers ==> ValidLexer(lexers[s])
    }

    constructor (e: Engine, lexers: map<int, Lexer>, root: Lexer)
      requires ValidLexer(root) && forall s :: s in lexers ==> ValidLexer(lexers[s])
      ensures Valid()
      ensures engine == e && this.lexers == lexers && rootLexer == root && parserState == None
    {
      engine, this.lexers, rootLexer := e, lexers, root;
      parserState := None;
    }

    /** `set_parser_state(state)`: only the state changes. */
    method SetParserState(state: Option<int>)
      modifies this
      ensures parserState == state
    {
      parserState := state;
    }

    /** The lexer of the current parser state (`self.lexers[self.parser_state]`), if the state
        has one; a lexer found is valid, and sound for the engine when all of them are. */
    function Current(): (r: Option<Lexer>)
      reads this
      requires Valid()
      ensures r.Some? <==> parserState.Some? && parserState.value in lexers
      ensures r.Some? ==> r.value in lexers.Values && ValidLexer(r.value)
      ensures r.Some? && (forall s :: s in lexers ==> EngineSound(engine, lexers[s])) ==> EngineSound(engine, r.value)
    {
      match parserState
      case None => None
      case Some(st) => if st in lexers then Some(lexers[st]) else None
    }

    /** `lex(stream)`: a scan with the root lexer's newline and ignored types. The lexer the
        scan uses is looked up at each `next()`. */
    method Start(stream: string) returns (session: LexSession)
      requires Valid()
      ensures fresh(session) && fresh(session.counter) && session.Valid() && !session.finished
      ensures session.engine == engine && session.stream == stream && session.counter.State() == Initial
      ensures session.newlineTypes == rootLexer.newlineTypes && session.ignoreTypes == rootLexer.ignoreTypes
    {
      session := new LexSession(engine, rootLexer, stream, rootLexer.newlineTypes, rootLexer.ignoreTypes);
    }

    /** `next()` on the generator `lex` returns: the lexer of the parser state as it is now is
        fetched (`self.lexers[self.parser_state]`) and the scan goes on with it from where it
        stopped; a state without a lexer ends the scan. A state set between two calls thus
        decides the very next match and no earlier one. */
    method NextToken(session: LexSession) returns (r: NextResult)
      requires Valid() && session.Valid() && session.engine == engine
      requires forall s :: s in lexers ==> EngineSound(engine, lexers[s])
      modifies session, session.counter
      ensures session.Valid()
      ensures old(session.finished) ==>
        r == Stop && session.finished && session.counter.State() == old(session.counter.State())
      ensures !old(session.finished) && Current().None? ==>
        r == NoLexerForState(parserState) && session.finished && session.counter.State() == old(session.counter.State())
      ensures !old(session.finished) && Current().Some? ==>
        && session.lexer == Current().value
        && (r, session.counter.State()) ==
             NextSpec(engine, Current().value, session.stream, session.newlineTypes, session.ignoreTypes,
                      old(session.counter.State()))
        && session.finished == !r.Yield?
    {
      if session.finished {
        return Stop;
      }
      var current := Current();
      if current.None? {
        session.finished := true;
        return NoLexerForState(parserState);
      }
      session.lexer := current.value;
      r := session.Next();
    }
  }

  /** The loop that fills `tokens_by_name`: it stops at the first name seen twice. */
  method IndexByName(tokens: seq<TokenDef>) returns (dup: Option<string>, byName: map<string, TokenDef>)
    ensures dup == DuplicateFrom(tokens, {})
    ensures dup.None? ==> byName.Keys == NamesOf(tokens) && forall n :: n in byName ==> byName[n].name == n
  {
    byName := map[];
    var i := 0;
    assert tokens[i..] == tokens && tokens[..i] == [] && byName.Keys == {};
    while i < |tokens|
      invariant 0 <= i <= |tokens|
      invariant byName.Keys == NamesOf(tokens[..i])
      invariant forall n :: n in byName ==> byName[n].name == n
      invariant DuplicateFrom(tokens, {}) == DuplicateFrom(tokens[i..], byName.Keys)
    {
      var t := tokens[i];
      ghost var keys := byName.Keys;
      assert tokens[i..] == [t] + tokens[i + 1..];
      if t.name in byName {
        return Some(t.name), byName;
      }
      assert tokens[..i + 1] == tokens[..i] + [t];
      assert DuplicateFrom(tokens[i..], byName.Keys) == DuplicateFrom(tokens[i + 1..], byName.Keys + {t.name});
      byName := byName[t.name := t];
      assert byName.Keys == keys + {t.name};
      i := i + 1;
    }
    assert tokens[..i] == tokens;
    return None, byName;
  }

  /** The loop over the parser states: a state whose accepted set was seen before reuses the
      lexer in `lexer_by_tokens`; otherwise its tokens are looked up in `tokens_by_name` and a
      lexer is built and cached. */
  method BuildStates(e: Engine, tokens: seq<TokenDef>, byName: map<string, TokenDef>, states: seq<(int, seq<string>)>,
                     ignore: seq<string>, alwaysAccept: seq<string>, isTerminal: string -> bool)
    returns (r: Result<map<int, Lexer>, LexError>)
    requires byName.Keys == NamesOf(tokens)
    ensures r == StatesSpec(e, tokens, states, ignore, alwaysAccept, isTerminal)
  {
    var cache: map<set<string>, Lexer> := map[];
    var lexers: map<int, Lexer> := map[];
    var j := 0;
    while j < |states|
      invariant 0 <= j <= |states|
      invariant StatesSpec(e, tokens, states[..j], ignore, alwaysAccept, isTerminal) == Ok(lexers)
      invariant forall k :: k in cache ==> StateLexerSpec(e, tokens, k, ignore, alwaysAccept, isTerminal) == Ok(cache[k])
    {
      var (state, accepts) := states[j];
      var key := SetOf(accepts);
      ghost var spec := StateLexerSpec(e, tokens, key, ignore, alwaysAccept, isTerminal);
      StatesSpecStep(e, tokens, states, ignore, alwaysAccept, isTerminal, j);
      var lexer: Lexer;
      if key in cache {
        lexer := cache[key];
      } else {
        var acc := Accepted(key, ignore, alwaysAccept);
        if exists n :: n in acc && Wanted(n, isTerminal) && n !in byName {
          assert spec == Err(UnknownTerminal);
          StatesFailurePersists(e, tokens, states, ignore, alwaysAccept, isTerminal, j + 1);
          return Err(UnknownTerminal);
        }
        var built := NewLexer(e, StateTokens(tokens, acc, isTerminal), ignore);
        assert built == spec;
        if built.Err? {
          StatesFailurePersists(e, tokens, states, ignore, alwaysAccept, isTerminal, j + 1);
          return Err(built.error);
        }
        lexer := built.value;
        cache := cache[key := lexer];
      }
      lexers := lexers[state := lexer];
      j := j + 1;
    }
    assert states[..j] == states;
    return Ok(lexers);
  }

  /** `ContextualLexer.__init__`: the duplicate check, the state lexers, and the root lexer over
      all the tokens, built last. */
  method Build(e: Engine, tokens: seq<TokenDef>, states: seq<(int, seq<string>)>, ignore: seq<string>,
               alwaysAccept: seq<string>, isTerminal: string -> bool) returns (r: Result<ContextualLexer, LexError>)
    ensures var spec := ContextualSpec(e, tokens, states, ignore, alwaysAccept, isTerminal);
      && (spec.Err? ==> r == Err(spec.error))
      && (spec.Ok? ==>
            && r.Ok? && fresh(r.value) && r.value.Valid() && r.value.engine == e
            && r.value.lexers == spec.value.0 && r.value.rootLexer == spec.value.1
            && r.value.parserState == None)
  {
    var dup, byName := IndexByName(tokens);
    if dup.Some? {
      return Err(DuplicateName(dup.value));
    }
    ContextualBuilt(e, tokens, states, ignore, alwaysAccept, isTerminal);
    var lexers := BuildStates(e, tokens, byName, states, ignore, alwaysAccept, isTerminal);
    if lexers.Err? {
      return Err(lexers.error);
    }
    var root := NewLexer(e, tokens, ignore);
    if root.Err? {
      return Err(root.error);
    }
    var cl := new ContextualLexer(e, lexers.value, root.value);
    return Ok(cl);
  }
}
