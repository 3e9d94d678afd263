/** `_create_unless`: a literal token whose text a regular-expression token also matches is
    handled by the regular expression, and a callback on that token's type turns the emitted
    token back into the literal's type. */
module Unless {

  import opened LexTypes
  import opened SeqUtil
  import opened Matchers

  /** `re.match(re.pattern.to_regexp(), s)` succeeds and the match is all of `s`. */
  predicate MatchesWhole(e: Engine, re: TokenDef, s: string) {
    e.matchAt(re.pattern.regexp, s, 0) == Some(|s|)
  }

  /** The literal `str` is taken over by `re`: `re` matches all of its text and `str`'s flags
      are among `re`'s. */
  predicate Embeds(e: Engine, re: TokenDef, str: TokenDef) {
    MatchesWhole(e, re, str.pattern.value) && str.pattern.flags <= re.pattern.flags
  }

  /** The literal tokens, in order (`tokens_by_type[PatternStr]`). */
  function Literals(ts: seq<TokenDef>): seq<TokenDef> {
    Filter(ts, (t: TokenDef) => t.pattern.kind == Str)
  }

  /** The regular-expression tokens, in order (`tokens_by_type[PatternRE]`). */
  function Regexps(ts: seq<TokenDef>): seq<TokenDef> {
    Filter(ts, (t: TokenDef) => t.pattern.kind == RE)
  }

  /** The `unless` list of one regular-expression token: the literals it matches whole, in order. */
  function UnlessList(e: Engine, re: TokenDef, strs: seq<TokenDef>): seq<TokenDef> {
    Filter(strs, (s: TokenDef) => MatchesWhole(e, re, s.pattern.value))
  }

  lemma {:induction false} UnlessListStep(e: Engine, re: TokenDef, strs: seq<TokenDef>, x: TokenDef)
    ensures UnlessList(e, re, strs + [x]) ==
      UnlessList(e, re, strs) + (if MatchesWhole(e, re, x.pattern.value) then [x] else [])
  {
    FilterAppend(strs, [x], (s: TokenDef) => MatchesWhole(e, re, s.pattern.value));
    assert [x][1..] == [];
  }

  /** `embedded_strs` after the regular expressions `res` have been tried against `strs`. */
  function EmbeddedBy(e: Engine, res: seq<TokenDef>, strs: seq<TokenDef>): set<TokenDef> {
    set s | s in strs && exists r :: r in res && Embeds(e, r, s)
  }

  /** A disambiguation callback: the literals it chooses among, in order, and their whole-match batches. */
  datatype Callback = Callback(strs: seq<TokenDef>, mres: seq<Matcher>)

  ghost predicate CallbackValid(cb: Callback) {
    cb.strs != [] && AllWellFormed(cb.mres) && Flatten(cb.mres) == cb.strs
  }

  /** The `callback` dictionary after the regular expressions `res` have been tried, in order:
      a token with a non-empty `unless` list gets (or replaces) the entry under its name.
      `None` when some `unless` list does not compile within the group limit. */
  function CallbackMap(e: Engine, res: seq<TokenDef>, strs: seq<TokenDef>): (r: Option<map<string, Callback>>)
    ensures r.Some? ==> forall k :: k in r.value ==> CallbackValid(r.value[k])
    decreases |res|
  {
    if res == [] then Some(map[])
    else
      var last := res[|res| - 1];
      var unless := UnlessList(e, last, strs);
      var before := CallbackMap(e, res[..|res| - 1], strs);
      if before.None? then None
      else if unless == [] then before
      else match BuildMresSpec(e, unless, true)
        case None => None
        case Some(ms) =>
          assert AllWellFormed(ms) by {
            forall i | 0 <= i < |ms| ensures WellFormed(ms[i]) {
              assert GoodBatch(e, ms[i], |unless|, true);
            }
          }
          Some(before.value[last.name := Callback(unless, ms)])
  }

  /** Some regular-expression token of `res` named `k` matches the whole text of a literal. */
  predicate HasUnless(e: Engine, res: seq<TokenDef>, strs: seq<TokenDef>, k: string) {
    exists i :: 0 <= i < |res| && res[i].name == k && UnlessList(e, res[i], strs) != []
  }

  /** Some non-empty `unless` list of `res` does not compile within the group limit. */
  predicate SomeUnlessTooLarge(e: Engine, res: seq<TokenDef>, strs: seq<TokenDef>) {
    exists i :: 0 <= i < |res| && UnlessList(e, res[i], strs) != [] &&
      BuildMresSpec(e, UnlessList(e, res[i], strs), true).None?
  }

  lemma {:induction false} CallbackMapKeys(e: Engine, res: seq<TokenDef>, strs: seq<TokenDef>, k: string)
    requires CallbackMap(e, res, strs).Some?
    ensures k in CallbackMap(e, res, strs).value <==> HasUnless(e, res, strs, k)
    ensures k in CallbackMap(e, res, strs).value ==>
      exists i :: 0 <= i < |res| && res[i].name == k && CallbackMap(e, res, strs).value[k].strs == UnlessList(e, res[i], strs)
  {
    if res != [] {
      var init := res[..|res| - 1];
      assert forall i :: 0 <= i < |init| ==> init[i] == res[i];
      CallbackMapKeys(e, init, strs, k);
      if HasUnless(e, res, strs, k) && !HasUnless(e, init, strs, k) {
        var i :| 0 <= i < |res| && res[i].name == k && UnlessList(e, res[i], strs) != [];
        assert i == |res| - 1;
      }
    }
  }

  lemma {:induction false} CallbackMapFails(e: Engine, res: seq<TokenDef>, strs: seq<TokenDef>)
    ensures CallbackMap(e, res, strs).None? <==> SomeUnlessTooLarge(e, res, strs)
  {
    if res != [] {
      var init := res[..|res| - 1];
      assert forall i :: 0 <= i < |init| ==> init[i] == res[i];
      CallbackMapFails(e, init, strs);
      if SomeUnlessTooLarge(e, res, strs) && !SomeUnlessTooLarge(e, init, strs) {
        var i :| 0 <= i < |res| && UnlessList(e, res[i], strs) != [] &&
          BuildMresSpec(e, UnlessList(e, res[i], strs), true).None?;
        assert i == |res| - 1;
      }
    }
  }

  lemma {:induction false} CallbackMapFailurePersists(e: Engine, res: seq<TokenDef>, strs: seq<TokenDef>, i: nat)
    requires i <= |res| && CallbackMap(e, res[..i], strs).None?
    ensures CallbackMap(e, res, strs).None?
  {
    CallbackMapFails(e, res[..i], strs);
    CallbackMapFails(e, res, strs);
    var j :| 0 <= j < |res[..i]| && UnlessList(e, res[..i][j], strs) != [] &&
      BuildMresSpec(e, UnlessList(e, res[..i][j], strs), true).None?;
    assert res[..i][j] == res[j];
  }

  /** What `_create_unless(tokens)` returns: the tokens not taken over by a regular expression,
      in order, and the callback dictionary; `None` when a callback's batches cannot be built. */
  function UnlessSpec(e: Engine, ts: seq<TokenDef>): Option<(seq<TokenDef>, map<string, Callback>)> {
    var strs, res := Literals(ts), Regexps(ts);
    match CallbackMap(e, res, strs)
    case None => None
    case Some(cb) =>
      var embedded := EmbeddedBy(e, res, strs);
      Some((Filter(ts, (t: TokenDef) => t !in embedded), cb))
  }

  /** The tokens `_create_unless` takes out of the lexer's list, described from the list alone. */
  predicate TakenOver(e: Engine, ts: seq<TokenDef>, t: TokenDef) {
    t.pattern.kind == Str && exists r :: r in ts && r.pattern.kind == RE && Embeds(e, r, t)
  }

  /** The returned list is the input filtered in order: a token is removed exactly when it is a
      literal that some regular-expression token of the list matches whole, with the literal's
      flags among the regular expression's. */
  lemma {:induction false} UnlessKeeps(e: Engine, ts: seq<TokenDef>)
    requires UnlessSpec(e, ts).Some?
    ensures UnlessSpec(e, ts).value.0 == Filter(ts, (t: TokenDef) => !TakenOver(e, ts, t))
  {
    var strs, res := Literals(ts), Regexps(ts);
    var embedded := EmbeddedBy(e, res, strs);
    forall i | 0 <= i < |ts| ensures (ts[i] !in embedded) == !TakenOver(e, ts, ts[i]) {
      var t := ts[i];
      if TakenOver(e, ts, t) {
        var r :| r in ts && r.pattern.kind == RE && Embeds(e, r, t);
        var j :| 0 <= j < |ts| && ts[j] == r;
        assert r in res;
        assert t in strs;
      }
    }
    FilterCongruent(ts, (t: TokenDef) => t !in embedded, (t: TokenDef) => !TakenOver(e, ts, t));
  }

  /** The callback dictionary has an entry for a name exactly when a regular-expression token of
      that name matches the whole text of at least one literal token; the entry's literals are
      that token's `unless` list. */
  lemma {:induction false} UnlessCallbacks(e: Engine, ts: seq<TokenDef>, k: string)
    requires UnlessSpec(e, ts).Some?
    ensures k in UnlessSpec(e, ts).value.1 <==>
      exists r, s :: r in ts && s in ts && r.pattern.kind == RE && r.name == k &&
        s.pattern.kind == Str && MatchesWhole(e, r, s.pattern.value)
    ensures k in UnlessSpec(e, ts).value.1 ==>
      var cb := UnlessSpec(e, ts).value.1[k];
      CallbackValid(cb) &&
      exists r :: r in ts && r.pattern.kind == RE && r.name == k && cb.strs == UnlessList(e, r, Literals(ts))
  {
    var strs, res := Literals(ts), Regexps(ts);
    CallbackMapKeys(e, res, strs, k);
    if k in UnlessSpec(e, ts).value.1 {
      KeyHasLiteral(e, ts, k);
      var i :| 0 <= i < |res| && res[i].name == k && UnlessSpec(e, ts).value.1[k].strs == UnlessList(e, res[i], strs);
      assert res[i] in ts && res[i].pattern.kind == RE;
    }
    LiteralHasKey(e, ts, k);
  }

  /** A regular-expression token that matches some literal whole has a non-empty `unless` list. */
  lemma {:induction false} LiteralHasKey(e: Engine, ts: seq<TokenDef>, k: string)
    ensures (exists r, s :: r in ts && s in ts && r.pattern.kind == RE && r.name == k &&
               s.pattern.kind == Str && MatchesWhole(e, r, s.pattern.value)) ==>
      HasUnless(e, Regexps(ts), Literals(ts), k)
  {
    if exists r, s :: r in ts && s in ts && r.pattern.kind == RE && r.name == k &&
         s.pattern.kind == Str && MatchesWhole(e, r, s.pattern.value) {
      var r, s :| r in ts && s in ts && r.pattern.kind == RE && r.name == k &&
         s.pattern.kind == Str && MatchesWhole(e, r, s.pattern.value);
      UnlessHasLiteral(e, ts, r, s);
    }
  }

  /** A name with a non-empty `unless` list names a regular-expression token that matches some
      literal of the list whole. */
  lemma {:induction false} KeyHasLiteral(e: Engine, ts: seq<TokenDef>, k: string)
    requires HasUnless(e, Regexps(ts), Literals(ts), k)
    ensures exists r, s :: r in ts && s in ts && r.pattern.kind == RE && r.name == k &&
              s.pattern.kind == Str && MatchesWhole(e, r, s.pattern.value)
  {
    var strs, res := Literals(ts), Regexps(ts);
    var i :| 0 <= i < |res| && res[i].name == k && UnlessList(e, res[i], strs) != [];
    var s := UnlessList(e, res[i], strs)[0];
    assert s in strs;
    assert res[i] in ts && s in ts;
  }

  lemma {:induction false} UnlessHasLiteral(e: Engine, ts: seq<TokenDef>, r: TokenDef, s: TokenDef)
    requires r in ts && s in ts && r.pattern.kind == RE && s.pattern.kind == Str && MatchesWhole(e, r, s.pattern.value)
    ensures HasUnless(e, Regexps(ts), Literals(ts), r.name)
  {
    var strs, res := Literals(ts), Regexps(ts);
    var a :| 0 <= a < |ts| && ts[a] == r;
    var b :| 0 <= b < |ts| && ts[b] == s;
    assert r in res && s in strs;
    var i :| 0 <= i < |res| && res[i] == r;
    var j :| 0 <= j < |strs| && strs[j] == s;
    assert s in UnlessList(e, r, strs);
  }

  /** `unless_callback(t)`: the first whole-match batch that matches the token's text decides
      the new type; a token that none matches is returned unchanged. */
  function ApplyCallback(e: Engine, cb: Callback, t: Token): Token
    requires AllWellFormed(cb.mres)
  {
    match WholeMatchAny(e, cb.mres, t.value)
    case None => t
    case Some(kind) => t.(kind := kind)
  }

  /** The callback changes at most the type of the token, and only to the first literal of its
      list whose pattern, anchored at the end, matches the token's text. */
  lemma {:induction false} CallbackRetypes(e: Engine, cb: Callback, t: Token)
    requires CallbackValid(cb)
    ensures ApplyCallback(e, cb, t) ==
      match FirstFullMatch(e, cb.strs, t.value)
      case None => t
      case Some(n) => t.(kind := n)
    ensures var u := ApplyCallback(e, cb, t);
      u.value == t.value && u.posInStream == t.posInStream && u.line == t.line && u.column == t.column
  {
    WholeBatchingIsTransparent(e, cb.mres, t.value);
  }

  lemma {:induction false} EmbeddedByStep(e: Engine, re: TokenDef, strs: seq<TokenDef>, j: nat)
    requires j < |strs|
    ensures EmbeddedBy(e, [re], strs[..j + 1]) ==
      EmbeddedBy(e, [re], strs[..j]) + (if Embeds(e, re, strs[j]) then {strs[j]} else {})
  {
    assert strs[..j + 1] == strs[..j] + [strs[j]];
  }

  lemma {:induction false} EmbeddedByAppend(e: Engine, res: seq<TokenDef>, strs: seq<TokenDef>, i: nat)
    requires i < |res|
    ensures EmbeddedBy(e, res[..i], strs) + EmbeddedBy(e, [res[i]], strs) == EmbeddedBy(e, res[..i + 1], strs)
  {
    assert res[..i + 1] == res[..i] + [res[i]];
  }

  lemma {:induction false} CallbackMapStep(e: Engine, res: seq<TokenDef>, strs: seq<TokenDef>, i: nat)
    requires i < |res|
    ensures CallbackMap(e, res[..i + 1], strs) ==
      var before := CallbackMap(e, res[..i], strs);
      var unless := UnlessList(e, res[i], strs);
      if before.None? then None
      else if unless == [] then before
      else match BuildMresSpec(e, unless, true)
        case None => None
        case Some(ms) => Some(before.value[res[i].name := Callback(unless, ms)])
  {
    assert res[..i + 1][..i] == res[..i];
  }

  /** The inner loop of `_create_unless` for one regular-expression token: its `unless` list and
      the literals it takes over. */
  method TryLiterals(e: Engine, retok: TokenDef, strs: seq<TokenDef>) returns (unless: seq<TokenDef>, taken: set<TokenDef>)
    ensures unless == UnlessList(e, retok, strs)
    ensures taken == EmbeddedBy(e, [retok], strs)
  {
    unless, taken := [], {};
    var j := 0;
    while j < |strs|
      invariant 0 <= j <= |strs|
      invariant unless == UnlessList(e, retok, strs[..j])
      invariant taken == EmbeddedBy(e, [retok], strs[..j])
    {
      var strtok := strs[j];
      assert strs[..j + 1] == strs[..j] + [strtok];
      UnlessListStep(e, retok, strs[..j], strtok);
      EmbeddedByStep(e, retok, strs, j);
      if MatchesWhole(e, retok, strtok.pattern.value) {
        unless := unless + [strtok];
        if strtok.pattern.flags <= retok.pattern.flags {
          taken := taken + {strtok};
        }
      }
      j := j + 1;
    }
    assert strs[..j] == strs;
  }

  /** `_create_unless(tokens)`. */
  method CreateUnless(e: Engine, ts: seq<TokenDef>) returns (r: Option<(seq<TokenDef>, map<string, Callback>)>)
    ensures r == UnlessSpec(e, ts)
  {
    var strs, res := Literals(ts), Regexps(ts);
    var embedded: set<TokenDef> := {};
    var callback: map<string, Callback> := map[];
    var i := 0;
    while i < |res|
      invariant 0 <= i <= |res|
      invariant CallbackMap(e, res[..i], strs) == Some(callback)
      invariant embedded == EmbeddedBy(e, res[..i], strs)
    {
      var retok := res[i];
      var unless, taken := TryLiterals(e, retok, strs);
      embedded := embedded + taken;
      EmbeddedByAppend(e, res, strs, i);
      CallbackMapStep(e, res, strs, i);
      if unless != [] {
        var mres := BuildMres(e, unless, true);
        if mres.None? {
          assert CallbackMap(e, res[..i + 1], strs) == None;
          CallbackMapFailurePersists(e, res, strs, i + 1);
          return None;
        }
        callback := callback[retok.name := Callback(unless, mres.value)];
        assert CallbackMap(e, res[..i + 1], strs) == Some(callback);
      } else {
        assert CallbackMap(e, res[..i + 1], strs) == Some(callback);
      }
      i := i + 1;
    }
    assert res[..i] == res;
    return Some((Filter(ts, (t: TokenDef) => t !in embedded), callback));
  }
}
