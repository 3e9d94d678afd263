/** `Lexer.__init__`: the checks on the token definitions and the construction of the matchers. */
module Lexers {

  import opened LexTypes
  import opened SeqUtil
  import opened TokenOrder
  import opened Matchers
  import opened Unless

  /** `sub` occurs in `s` at index `i`. */
  predicate OccursAt(s: string, sub: string, i: nat) {
    i + |sub| <= |s| && s[i..i + |sub|] == sub
  }

  /** Python's `sub in s` on strings. */
  function Contains(s: string, sub: string): (r: bool)
    ensures r <==> exists i: nat :: OccursAt(s, sub, i)
    decreases |s|
  {
    if |sub| > |s| then false
    else if s[..|sub|] == sub then
      assert OccursAt(s, sub, 0);
      true
    else
      var r := Contains(s[1..], sub);
      assert r ==> exists i: nat :: OccursAt(s, sub, i) by {
        if r {
          var i: nat :| OccursAt(s[1..], sub, i);
          assert s[i + 1..i + 1 + |sub|] == s[1..][i..i + |sub|];
          assert OccursAt(s, sub, i + 1);
        }
      }
      assert (exists i: nat :: OccursAt(s, sub, i)) ==> r by {
        if exists i: nat :: OccursAt(s, sub, i) {
          var i: nat :| OccursAt(s, sub, i);
          assert i != 0;
          assert s[1..][i - 1..i - 1 + |sub|] == s[i..i + |sub|];
          assert OccursAt(s[1..], sub, i - 1);
        }
      }
      r
  }

  /** `_regexp_has_newline(r)`: the pattern text holds a newline character, the escape `\n`, or
      both the inline flag `(?s)` and a dot. A purely textual test: it does not recognise classes
      such as `\s` or negated sets that also match a newline. */
  predicate RegexpHasNewline(r: string) {
    Contains(r, "\n") || Contains(r, "\\n") || (Contains(r, "(?s)") && '.' in r)
  }

  /** A pattern whose text has a newline, or `\n`, anywhere is flagged. */
  lemma {:induction false} NewlineTextIsFlagged(a: string, b: string)
    ensures RegexpHasNewline(a + "\n" + b) && RegexpHasNewline(a + "\\n" + b)
  {
    var s, t := a + "\n" + b, a + "\\n" + b;
    assert OccursAt(s, "\n", |a|) by { assert s[|a|..|a| + 1] == "\n"; }
    assert OccursAt(t, "\\n", |a|) by { assert t[|a|..|a| + 2] == "\\n"; }
  }

  /** Only a pattern with a newline character, a backslash or a dot is flagged. */
  lemma {:induction false} FlaggedTextHasNewlineOrEscape(r: string)
    ensures RegexpHasNewline(r) ==> '\n' in r || '\\' in r || '.' in r
  {
    if Contains(r, "\n") {
      var i: nat :| OccursAt(r, "\n", i);
      assert r[i] == r[i..i + 1][0] == '\n';
    } else if Contains(r, "\\n") {
      var i: nat :| OccursAt(r, "\\n", i);
      assert r[i] == r[i..i + 2][0] == '\\';
    }
  }

  /** A lexer as `Lexer.__init__` leaves it. */
  datatype Lexer = Lexer(tokens: seq<TokenDef>, mres: seq<Matcher>, callback: map<string, Callback>,
                         newlineTypes: seq<string>, ignoreTypes: seq<string>)

  /** What construction guarantees: the matchers are well formed and hold exactly the lexer's
      tokens in order, every callback is well formed, and no token can match the empty string. */
  ghost predicate ValidLexer(lx: Lexer) {
    && AllWellFormed(lx.mres)
    && Flatten(lx.mres) == lx.tokens
    && (forall k :: k in lx.callback ==> CallbackValid(lx.callback[k]))
    && (forall i :: 0 <= i < |lx.tokens| ==> lx.tokens[i].pattern.minWidth >= 1)
  }

  /** The token fails the sanitization step. */
  predicate Insane(e: Engine, t: TokenDef) {
    !e.compiles(t.pattern.regexp) || t.pattern.minWidth == 0
  }

  /** The error the sanitization loop raises for its first failing token. */
  function SanitizeError(e: Engine, t: TokenDef): LexError {
    if !e.compiles(t.pattern.regexp) then CannotCompile(t.name) else ZeroWidth(t.name)
  }

  /** The error of the sanitization loop, if any: the first token whose pattern does not compile
      or has minimum width 0 (the compile test comes first). */
  function Sanitize(e: Engine, ts: seq<TokenDef>): (r: Option<LexError>)
    ensures r.None? <==> forall i :: 0 <= i < |ts| ==> !Insane(e, ts[i])
    ensures r.Some? ==>
      exists i :: 0 <= i < |ts| && Insane(e, ts[i]) && r.value == SanitizeError(e, ts[i]) &&
        forall j :: 0 <= j < i ==> !Insane(e, ts[j])
  {
    FirstIndexSound(ts, (t: TokenDef) => Insane(e, t));
    match FirstIndex(ts, (t: TokenDef) => Insane(e, t))
    case None => None
    case Some(i) => Some(SanitizeError(e, ts[i]))
  }

  /** The names of the patterns the newline heuristic flags, in token order. */
  function NewlineTypes(ts: seq<TokenDef>): (r: seq<string>)
    ensures forall n :: n in r <==> exists i :: 0 <= i < |ts| && ts[i].name == n && RegexpHasNewline(ts[i].pattern.regexp)
  {
    if ts == [] then []
    else
      var rest := NewlineTypes(ts[1..]);
      assert forall i :: 0 < i < |ts| ==> ts[i] == ts[1..][i - 1];
      (if RegexpHasNewline(ts[0].pattern.regexp) then [ts[0].name] else []) + rest
  }

  predicate IgnoreDeclared(ts: seq<TokenDef>, ignore: seq<string>) {
    forall n :: n in ignore ==> exists i :: 0 <= i < |ts| && ts[i].name == n
  }

  /** `Lexer(tokens, ignore)`: sanitize, check the ignored names, sort, split off the literals a
      regular expression takes over, and compile the rest into batches. */
  function LexerSpec(e: Engine, ts: seq<TokenDef>, ignore: seq<string>): Result<Lexer, LexError> {
    match Sanitize(e, ts)
    case Some(err) => Err(err)
    case None =>
      if !IgnoreDeclared(ts, ignore) then Err(UndeclaredIgnore)
      else
        match UnlessSpec(e, SortTokens(ts))
        case None => Err(GroupLimit)
        case Some((kept, callback)) =>
          match BuildMresSpec(e, kept, false)
          case None => Err(GroupLimit)
          case Some(mres) => Ok(Lexer(kept, mres, callback, NewlineTypes(ts), ignore))
  }

  /** Construction fails with the first bad token's error when some pattern does not compile or
      can match the empty string, and otherwise with `UndeclaredIgnore` when an ignored name is
      not a token name. */
  lemma {:induction false} LexerRejects(e: Engine, ts: seq<TokenDef>, ignore: seq<string>)
    ensures (exists i :: 0 <= i < |ts| && ts[i].pattern.minWidth == 0) ==>
      LexerSpec(e, ts, ignore).Err? && (LexerSpec(e, ts, ignore).error.CannotCompile? || LexerSpec(e, ts, ignore).error.ZeroWidth?)
    ensures (forall i :: 0 <= i < |ts| ==> !Insane(e, ts[i])) && !IgnoreDeclared(ts, ignore) ==>
      LexerSpec(e, ts, ignore) == Err(UndeclaredIgnore)
    ensures LexerSpec(e, ts, ignore).Ok? ==>
      IgnoreDeclared(ts, ignore) && forall i :: 0 <= i < |ts| ==> e.compiles(ts[i].pattern.regexp) && ts[i].pattern.minWidth >= 1
  {
  }

  /** A constructed lexer's tokens are the sorted input without the literals a regular
      expression takes over, so they stay sorted and every other input token is among them;
      every flagged pattern's name is a newline type and nothing else is; the ignored names are
      kept as given. */
  lemma {:induction false} LexerTokens(e: Engine, ts: seq<TokenDef>, ignore: seq<string>)
    requires LexerSpec(e, ts, ignore).Ok?
    ensures var lx := LexerSpec(e, ts, ignore).value;
      && lx.tokens == Filter(SortTokens(ts), (t: TokenDef) => !TakenOver(e, ts, t))
      && Sorted(lx.tokens)
      && (forall t :: t in ts && !TakenOver(e, ts, t) ==> t in lx.tokens)
      && (forall n :: n in lx.newlineTypes <==>
            exists i :: 0 <= i < |ts| && ts[i].name == n && RegexpHasNewline(ts[i].pattern.regexp))
      && lx.ignoreTypes == ignore
  {
    var sorted := SortTokens(ts);
    var lx := LexerSpec(e, ts, ignore).value;
    LexerParts(e, ts, ignore);
    KeptTokens(e, ts);
    var kept := Filter(sorted, (t: TokenDef) => !TakenOver(e, ts, t));
    FilterSorted(sorted, (t: TokenDef) => !TakenOver(e, ts, t));
    SameElements(ts);
    forall t | t in ts && !TakenOver(e, ts, t) ensures t in kept {
      var i :| 0 <= i < |sorted| && sorted[i] == t;
    }
  }

  /** The pieces of a constructed lexer, as the construction computes them. */
  lemma {:induction false} LexerParts(e: Engine, ts: seq<TokenDef>, ignore: seq<string>)
    requires LexerSpec(e, ts, ignore).Ok?
    ensures var lx := LexerSpec(e, ts, ignore).value;
      && Sanitize(e, ts).None? && IgnoreDeclared(ts, ignore)
      && UnlessSpec(e, SortTokens(ts)).Some?
      && lx.tokens == UnlessSpec(e, SortTokens(ts)).value.0
      && lx.callback == UnlessSpec(e, SortTokens(ts)).value.1
      && BuildMresSpec(e, lx.tokens, false) == Some(lx.mres)
      && lx.newlineTypes == NewlineTypes(ts) && lx.ignoreTypes == ignore
  {
  }

  /** The literals taken over are the same whether judged against the sorted list or the input. */
  lemma {:induction false} KeptTokens(e: Engine, ts: seq<TokenDef>)
    requires UnlessSpec(e, SortTokens(ts)).Some?
    ensures UnlessSpec(e, SortTokens(ts)).value.0 == Filter(SortTokens(ts), (t: TokenDef) => !TakenOver(e, ts, t))
  {
    var sorted := SortTokens(ts);
    UnlessKeeps(e, sorted);
    SameElements(ts);
    forall i | 0 <= i < |sorted| ensures TakenOver(e, sorted, sorted[i]) == TakenOver(e, ts, sorted[i]) {
    }
    FilterCongruent(sorted, (t: TokenDef) => !TakenOver(e, sorted, t), (t: TokenDef) => !TakenOver(e, ts, t));
  }

  lemma {:induction false} SameElements(ts: seq<TokenDef>)
    ensures forall t :: t in SortTokens(ts) <==> t in ts
  {
    forall t ensures t in SortTokens(ts) <==> t in ts {
      assert t in SortTokens(ts) <==> t in multiset(SortTokens(ts));
    }
  }

  /** A constructed lexer is valid, and its tokens all come from the input. */
  lemma {:induction false} LexerIsValid(e: Engine, ts: seq<TokenDef>, ignore: seq<string>)
    requires LexerSpec(e, ts, ignore).Ok?
    ensures ValidLexer(LexerSpec(e, ts, ignore).value)
    ensures forall t :: t in LexerSpec(e, ts, ignore).value.tokens ==> t in ts
  {
    var lx := LexerSpec(e, ts, ignore).value;
    LexerParts(e, ts, ignore);
    KeptFromInput(e, ts);
    BuiltBatchesWellFormed(e, lx.tokens, lx.mres);
    SaneTokensAreWide(e, ts, lx.tokens);
  }

  /** Every token the construction keeps is an input token. */
  lemma {:induction false} KeptFromInput(e: Engine, ts: seq<TokenDef>)
    requires UnlessSpec(e, SortTokens(ts)).Some?
    ensures forall t :: t in UnlessSpec(e, SortTokens(ts)).value.0 ==> t in ts
  {
    KeptTokens(e, ts);
    SameElements(ts);
  }

  /** The batches built from a token list are well formed. */
  lemma {:induction false} BuiltBatchesWellFormed(e: Engine, toks: seq<TokenDef>, ms: seq<Matcher>)
    requires BuildMresSpec(e, toks, false) == Some(ms)
    ensures AllWellFormed(ms) && Flatten(ms) == toks
  {
    forall i | 0 <= i < |ms| ensures WellFormed(ms[i]) {
      assert GoodBatch(e, ms[i], |toks|, false);
    }
  }

  /** Tokens drawn from an input that passed sanitization cannot match the empty string. */
  lemma {:induction false} SaneTokensAreWide(e: Engine, ts: seq<TokenDef>, toks: seq<TokenDef>)
    requires Sanitize(e, ts).None?
    requires forall t :: t in toks ==> t in ts
    ensures forall i :: 0 <= i < |toks| ==> toks[i].pattern.minWidth >= 1
  {
    forall i | 0 <= i < |toks| ensures toks[i].pattern.minWidth >= 1 {
      assert toks[i] in ts;
      var j :| 0 <= j < |ts| && ts[j] == toks[i];
      assert !Insane(e, ts[j]);
    }
  }

  /** The constructed lexer does not depend on the order of its input when the token names are
      distinct: a rearranged list passes sanitization exactly when the original does, and then
      gives the same error or a lexer with the same tokens, batches, callbacks and ignored
      names, and the same newline types up to their order. */
  lemma {:induction false} LexerOrderIrrelevant(e: Engine, p: seq<TokenDef>, q: seq<TokenDef>, ignore: seq<string>)
    requires multiset(p) == multiset(q) && NamesDistinct(p)
    ensures Sanitize(e, p).None? <==> Sanitize(e, q).None?
    ensures Sanitize(e, p).None? ==>
      var a, b := LexerSpec(e, p, ignore), LexerSpec(e, q, ignore);
      && a.Ok? == b.Ok?
      && (a.Err? ==> a == b)
      && (a.Ok? ==>
            && a.value.tokens == b.value.tokens && a.value.mres == b.value.mres
            && a.value.callback == b.value.callback && a.value.ignoreTypes == b.value.ignoreTypes
            && forall n :: n in a.value.newlineTypes <==> n in b.value.newlineTypes)
  {
    SameMembers(e, p, q, ignore);
    SameMembers(e, q, p, ignore);
    SortForgetsOrder(p, q);
    if Sanitize(e, p).None? && IgnoreDeclared(p, ignore) {
      SameLexer(e, p, q, ignore);
    }
  }

  /** Two lists that pass the first checks and sort alike build alike. */
  lemma {:induction false} SameLexer(e: Engine, p: seq<TokenDef>, q: seq<TokenDef>, ignore: seq<string>)
    requires Sanitize(e, p).None? && Sanitize(e, q).None? && IgnoreDeclared(p, ignore) && IgnoreDeclared(q, ignore)
    requires SortTokens(p) == SortTokens(q)
    ensures var a, b := LexerSpec(e, p, ignore), LexerSpec(e, q, ignore);
      && a.Ok? == b.Ok?
      && (a.Err? ==> a == b)
      && (a.Ok? ==> a.value == b.value.(newlineTypes := a.value.newlineTypes))
  {
  }

  /** What the construction checks of a list depends only on its members. */
  lemma {:induction false} SameMembers(e: Engine, p: seq<TokenDef>, q: seq<TokenDef>, ignore: seq<string>)
    requires multiset(p) == multiset(q)
    ensures forall t :: t in p <==> t in q
    ensures Sanitize(e, p).None? ==> Sanitize(e, q).None?
    ensures IgnoreDeclared(p, ignore) ==> IgnoreDeclared(q, ignore)
    ensures forall n :: n in NewlineTypes(p) ==> n in NewlineTypes(q)
  {
    forall t ensures t in p <==> t in q {
      assert t in p <==> t in multiset(p);
      assert t in q <==> t in multiset(q);
    }
    if Sanitize(e, p).None? {
      forall i | 0 <= i < |q| ensures !Insane(e, q[i]) {
        assert q[i] in p;
      }
    }
    if IgnoreDeclared(p, ignore) {
      forall n | n in ignore ensures exists i :: 0 <= i < |q| && q[i].name == n {
        var i :| 0 <= i < |p| && p[i].name == n;
        assert p[i] in q;
      }
    }
    forall n | n in NewlineTypes(p) ensures n in NewlineTypes(q) {
      var i :| 0 <= i < |p| && p[i].name == n && RegexpHasNewline(p[i].pattern.regexp);
      assert p[i] in q;
    }
  }

  /** `Lexer.__init__`. */
  method NewLexer(e: Engine, tokens: seq<TokenDef>, ignore: seq<string>) returns (r: Result<Lexer, LexError>)
    ensures r == LexerSpec(e, tokens, ignore)
  {
    var i := 0;
    while i < |tokens|
      invariant 0 <= i <= |tokens|
      invariant forall j :: 0 <= j < i ==> !Insane(e, tokens[j])
    {
      var t := tokens[i];
      if !e.compiles(t.pattern.regexp) {
        return Err(CannotCompile(t.name));
      }
      if t.pattern.minWidth == 0 {
        return Err(ZeroWidth(t.name));
      }
      i := i + 1;
    }
    if !IgnoreDeclared(tokens, ignore) {
      return Err(UndeclaredIgnore);
    }
    var newlineTypes := NewlineTypes(tokens);
    var sorted := SortTokens(tokens);
    var unless := CreateUnless(e, sorted);
    if unless.None? {
      return Err(GroupLimit);
    }
    var (kept, callback) := unless.value;
    var mres := BuildMres(e, kept, false);
    if mres.None? {
      return Err(GroupLimit);
    }
    return Ok(Lexer(kept, mres.value, callback, newlineTypes, ignore));
  }
}
