/** The matcher compiler: `_build_mres` / `build_mres` split a token list into consecutive
    batches, each compiled into one alternation of named groups, halving the batch size whenever
    the engine's group limit is exceeded. Also the lookup of a match through such batches. */
module Matchers {

  import opened LexTypes
  import opened SeqUtil

  /** One compiled alternation: its alternatives in order, whether each carries the end anchor
      `$`, and the reverse map from group slot to token name. */
  datatype Matcher = Matcher(alts: seq<TokenDef>, matchWhole: bool, slotNames: map<nat, string>)

  /** The reverse map names every slot after the alternative that fills it, and no other slot. */
  ghost predicate WellFormed(m: Matcher) {
    && (forall i: nat :: i in m.slotNames <==> i < |m.alts|)
    && (forall i: nat :: i < |m.alts| ==> m.slotNames[i] == m.alts[i].name)
  }

  ghost predicate AllWellFormed(ms: seq<Matcher>) {
    forall i :: 0 <= i < |ms| ==> WellFormed(ms[i])
  }

  /** `re.compile` of one batch together with `{i: n for n, i in mre.groupindex.items()}`. */
  function Compile(alts: seq<TokenDef>, whole: bool): (m: Matcher)
    ensures WellFormed(m) && m.alts == alts && m.matchWhole == whole
  {
    Matcher(alts, whole, map i: nat | i < |alts| :: alts[i].name)
  }

  /** The alternatives of all batches, in order. */
  function Flatten(ms: seq<Matcher>): seq<TokenDef>
  {
    if ms == [] then [] else ms[0].alts + Flatten(ms[1..])
  }

  lemma {:induction false} FlattenAppend(a: seq<Matcher>, b: seq<Matcher>)
    ensures Flatten(a + b) == Flatten(a) + Flatten(b)
  {
    if a == [] {
      assert a + b == b;
    } else {
      assert (a + b)[0] == a[0];
      assert (a + b)[1..] == a[1..] + b;
      FlattenAppend(a[1..], b);
    }
  }

  /** A batch as the compiler emits it: non-empty, at most `maxSize` alternatives, accepted by the engine. */
  ghost predicate GoodBatch(e: Engine, m: Matcher, maxSize: nat, whole: bool) {
    WellFormed(m) && 1 <= |m.alts| <= maxSize && m.matchWhole == whole && e.fits(m.alts, whole)
  }

  function Prepend(acc: seq<Matcher>, r: Option<seq<Matcher>>): Option<seq<Matcher>> {
    match r
    case None => None
    case Some(ms) => Some(acc + ms)
  }

  /** The batching as intended: emit the first `maxSize` tokens as one batch when they fit and go
      on with the rest, keeping the batches already built; when they do not fit, halve the size;
      when not even one token fits alone, give up (`None`) instead of looping. */
  function MresFrom(e: Engine, tokens: seq<TokenDef>, maxSize: nat, whole: bool): (r: Option<seq<Matcher>>)
    ensures tokens == [] ==> r == Some([])
    ensures r.Some? ==> Flatten(r.value) == tokens
    ensures r.Some? ==> forall i :: 0 <= i < |r.value| ==> GoodBatch(e, r.value[i], maxSize, whole)
    ensures maxSize >= 1 && (forall i :: 0 <= i < |tokens| ==> e.fits([tokens[i]], whole)) ==> r.Some?
    ensures r.None? && maxSize >= 1 ==> exists i :: 0 <= i < |tokens| && !e.fits([tokens[i]], whole)
    decreases |tokens|, maxSize
  {
    if tokens == [] then Some([])
    else if maxSize >= 1 && e.fits(Take(tokens, maxSize), whole) then
      var rest := MresFrom(e, Drop(tokens, maxSize), maxSize, whole);
      BatchThenRest(e, tokens, maxSize, whole, rest);
      Prepend([Compile(Take(tokens, maxSize), whole)], rest)
    else if maxSize >= 2 then MresFrom(e, tokens, maxSize / 2, whole)
    else
      assert maxSize == 1 ==> Take(tokens, maxSize) == [tokens[0]];
      None
  }

  /** The first batch in front of the batches of the rest: together they cover the tokens,
      and when the rest fails some token of the rest does not fit alone. */
  lemma {:induction false} BatchThenRest(e: Engine, tokens: seq<TokenDef>, maxSize: nat, whole: bool, rest: Option<seq<Matcher>>)
    requires tokens != [] && maxSize >= 1 && e.fits(Take(tokens, maxSize), whole)
    requires rest.Some? ==> Flatten(rest.value) == Drop(tokens, maxSize)
    requires rest.Some? ==> forall i :: 0 <= i < |rest.value| ==> GoodBatch(e, rest.value[i], maxSize, whole)
    requires rest.None? ==> exists i :: 0 <= i < |Drop(tokens, maxSize)| && !e.fits([Drop(tokens, maxSize)[i]], whole)
    ensures var r := Prepend([Compile(Take(tokens, maxSize), whole)], rest);
      && (r.Some? ==> Flatten(r.value) == tokens)
      && (r.Some? ==> forall i :: 0 <= i < |r.value| ==> GoodBatch(e, r.value[i], maxSize, whole))
      && (r.None? ==> exists i :: 0 <= i < |tokens| && !e.fits([tokens[i]], whole))
  {
    var batch := Compile(Take(tokens, maxSize), whole);
    TakeDrop(tokens, maxSize);
    if rest.None? {
      var i :| 0 <= i < |Drop(tokens, maxSize)| && !e.fits([Drop(tokens, maxSize)[i]], whole);
      assert Drop(tokens, maxSize)[i] == tokens[Min(maxSize, |tokens|) + i];
    } else {
      var all := [batch] + rest.value;
      assert all[1..] == rest.value;
      assert forall i :: 0 < i < |all| ==> all[i] == rest.value[i - 1];
    }
  }

  /** `build_mres(tokens, match_whole)`: the first attempt puts every token in one batch. */
  function BuildMresSpec(e: Engine, tokens: seq<TokenDef>, whole: bool): Option<seq<Matcher>>
  {
    MresFrom(e, tokens, |tokens|, whole)
  }

  /** The batching as an iterative loop that keeps what it has built. */
  method BuildMres(e: Engine, tokens: seq<TokenDef>, whole: bool) returns (r: Option<seq<Matcher>>)
    ensures r == BuildMresSpec(e, tokens, whole)
  {
    var rest := tokens;
    var maxSize: nat := |tokens|;
    var mres: seq<Matcher> := [];
    assert BuildMresSpec(e, tokens, whole).Some? ==> [] + BuildMresSpec(e, tokens, whole).value == BuildMresSpec(e, tokens, whole).value;
    while rest != []
      invariant BuildMresSpec(e, tokens, whole) == Prepend(mres, MresFrom(e, rest, maxSize, whole))
      decreases |rest|, maxSize
    {
      var batch := Take(rest, maxSize);
      if maxSize >= 1 && e.fits(batch, whole) {
        MresStep(e, rest, maxSize, whole);
        PrependAssoc(mres, [Compile(batch, whole)], MresFrom(e, Drop(rest, maxSize), maxSize, whole));
        mres := mres + [Compile(batch, whole)];
        rest := Drop(rest, maxSize);
      } else if maxSize >= 2 {
        assert MresFrom(e, rest, maxSize, whole) == MresFrom(e, rest, maxSize / 2, whole);
        maxSize := maxSize / 2;
      } else {
        assert MresFrom(e, rest, maxSize, whole) == None;
        return None;
      }
    }
    assert mres + [] == mres;
    return Some(mres);
  }

  lemma {:induction false} PrependAssoc(a: seq<Matcher>, b: seq<Matcher>, r: Option<seq<Matcher>>)
    ensures Prepend(a, Prepend(b, r)) == Prepend(a + b, r)
  {
    if r.Some? {
      assert a + (b + r.value) == (a + b) + r.value;
    }
  }

  /** Every contiguous slice of the list compiles within the group limit. */
  ghost predicate AllSlicesFit(e: Engine, tokens: seq<TokenDef>, whole: bool) {
    forall i, j :: 0 <= i < j <= |tokens| ==> e.fits(tokens[i..j], whole)
  }

  lemma {:induction false} SuffixSlicesFit(e: Engine, tokens: seq<TokenDef>, k: nat, whole: bool)
    requires AllSlicesFit(e, tokens, whole)
    ensures AllSlicesFit(e, Drop(tokens, k), whole)
  {
    var d := Drop(tokens, k);
    forall i, j | 0 <= i < j <= |d| ensures e.fits(d[i..j], whole) {
      var o := Min(k, |tokens|);
      assert d[i..j] == tokens[o + i..o + j];
    }
  }

  /** One step of the intended batching when the first batch fits. */
  lemma {:induction false} MresStep(e: Engine, tokens: seq<TokenDef>, k: nat, whole: bool)
    requires tokens != [] && k >= 1 && e.fits(Take(tokens, k), whole)
    ensures MresFrom(e, tokens, k, whole) ==
      Prepend([Compile(Take(tokens, k), whole)], MresFrom(e, Drop(tokens, k), k, whole))
  {
  }

  /** When every slice compiles, batching with size `k >= 1` succeeds, each batch holds between
      one and `k` tokens, and every batch but the last holds exactly `k`. */
  lemma {:induction false} MresWhenAllFit(e: Engine, tokens: seq<TokenDef>, k: nat, whole: bool)
    requires k >= 1 && AllSlicesFit(e, tokens, whole)
    ensures var r := MresFrom(e, tokens, k, whole);
      && r.Some?
      && (tokens == [] <==> r.value == [])
      && (forall i :: 0 <= i < |r.value| ==> 1 <= |r.value[i].alts| <= k)
      && (forall i :: 0 <= i < |r.value| - 1 ==> |r.value[i].alts| == k)
  {
    if tokens != [] {
      assert Take(tokens, k) == tokens[0..Min(k, |tokens|)];
      var d := Drop(tokens, k);
      SuffixSlicesFit(e, tokens, k, whole);
      MresWhenAllFit(e, d, k, whole);
      MresStep(e, tokens, k, whole);
      var rest := MresFrom(e, d, k, whole).value;
      var r := MresFrom(e, tokens, k, whole).value;
      assert r == [Compile(Take(tokens, k), whole)] + rest;
      assert forall i :: 0 < i < |r| ==> r[i] == rest[i - 1];
      assert |tokens| <= k ==> d == [] && rest == [];
    }
  }

  lemma {:induction false} MulStep(m: int, k: int)
    ensures (m + 1) * k == m * k + k
  {
  }

  /** The number of batches is `ceil(n/k)` for `n >= 1` tokens, stated as `(b - 1) * k < n <= b * k`
      for `b` batches. */
  lemma {:induction false} MresCountWhenAllFit(e: Engine, tokens: seq<TokenDef>, k: nat, whole: bool)
    requires k >= 1 && AllSlicesFit(e, tokens, whole) && tokens != []
    ensures MresFrom(e, tokens, k, whole).Some?
    ensures var b := |MresFrom(e, tokens, k, whole).value|; (b - 1) * k < |tokens| <= b * k
  {
    assert Take(tokens, k) == tokens[0..Min(k, |tokens|)];
    var d := Drop(tokens, k);
    SuffixSlicesFit(e, tokens, k, whole);
    MresStep(e, tokens, k, whole);
    MresWhenAllFit(e, d, k, whole);
    var rest := MresFrom(e, d, k, whole).value;
    assert |MresFrom(e, tokens, k, whole).value| == 1 + |rest|;
    if |tokens| > k {
      MresCountWhenAllFit(e, d, k, whole);
      var m := |rest|;
      MulStep(m, k);
      MulStep(m - 1, k);
    }
  }

  /** `_build_mres` exactly as written, run for at most `fuel` iterations of its loop (`None`:
      not finished). `mres` is the local list of batches. On a compile failure the code returns
      a fresh call on the tokens that remain, with half the size: that call starts again from an
      empty `mres`, so the batches already built are lost. With `maxSize == 0` the slice
      `tokens[:0]` is empty and `tokens[0:]` is the whole list, so the loop can never finish. */
  function MresAsWritten(e: Engine, tokens: seq<TokenDef>, maxSize: nat, whole: bool,
                         mres: seq<Matcher>, fuel: nat): Option<seq<Matcher>>
    decreases fuel
  {
    if tokens == [] then Some(mres)
    else if fuel == 0 then None
    else if e.fits(Take(tokens, maxSize), whole) then
      MresAsWritten(e, Drop(tokens, maxSize), maxSize, whole, mres + [Compile(Take(tokens, maxSize), whole)], fuel - 1)
    else
      MresAsWritten(e, tokens, maxSize / 2, whole, [], fuel - 1)
  }

  /** When every slice compiles, the code as written and the intended batching agree. */
  lemma {:induction false} AsWrittenAgreesWhenAllFit(e: Engine, tokens: seq<TokenDef>, k: nat, whole: bool,
                                                    mres: seq<Matcher>, fuel: nat)
    requires k >= 1 && AllSlicesFit(e, tokens, whole) && fuel >= |tokens|
    ensures MresAsWritten(e, tokens, k, whole, mres, fuel) == Prepend(mres, MresFrom(e, tokens, k, whole))
  {
    if tokens == [] {
      assert mres + [] == mres;
    } else {
      var d := Drop(tokens, k);
      assert Take(tokens, k) == tokens[0..Min(k, |tokens|)];
      SuffixSlicesFit(e, tokens, k, whole);
      MresStep(e, tokens, k, whole);
      var b := Compile(Take(tokens, k), whole);
      assert MresAsWritten(e, tokens, k, whole, mres, fuel) == MresAsWritten(e, d, k, whole, mres + [b], fuel - 1);
      AsWrittenAgreesWhenAllFit(e, d, k, whole, mres + [b], fuel - 1);
      PrependAssoc(mres, [b], MresFrom(e, d, k, whole));
    }
  }

  /** With a batch size of 0 the loop as written never finishes, whatever the fuel. */
  lemma {:induction false} AsWrittenNeverFinishesAtZero(e: Engine, tokens: seq<TokenDef>, whole: bool,
                                                       mres: seq<Matcher>, fuel: nat)
    requires tokens != []
    ensures MresAsWritten(e, tokens, 0, whole, mres, fuel) == None
    decreases fuel
  {
    if fuel > 0 {
      assert Drop(tokens, 0) == tokens;
      AsWrittenNeverFinishesAtZero(e, tokens, whole, mres + [Compile(Take(tokens, 0), whole)], fuel - 1);
      AsWrittenNeverFinishesAtZero(e, tokens, whole, [], fuel - 1);
    }
  }

  /** A token that does not fit alone makes the code as written loop forever once the size has
      been halved down to 1; the intended batching reports the failure instead. */
  lemma {:induction false} AsWrittenHangsOnOversizedToken(e: Engine, tokens: seq<TokenDef>, whole: bool,
                                      mres: seq<Matcher>, fuel: nat)
    requires tokens != [] && !e.fits([tokens[0]], whole)
    ensures MresAsWritten(e, tokens, 1, whole, mres, fuel) == None
    ensures MresFrom(e, tokens, 1, whole) == None
  {
    assert Take(tokens, 1) == [tokens[0]];
    if fuel > 0 {
      AsWrittenNeverFinishesAtZero(e, tokens, whole, [], fuel - 1);
    }
  }

  function Tok(name: string): TokenDef {
    TokenDef(name, Pattern(RE, name, {}, name, 1, 1), 0)
  }

  /** An engine whose group limit admits `D` only alone (as a pattern with many groups of its own would). */
  function SmallLimitEngine(): Engine {
    Engine((p: string, s: string, pos: nat) => None, (p: string, s: string) => false, (p: string) => true,
           (alts: seq<TokenDef>, whole: bool) => |alts| <= 1 || Tok("D") !in alts)
  }

  /** The counterexample: four tokens, the last of which fits only alone. The code as written
      compiles `[A, B]`, fails on `[C, D]`, and restarts on `[C, D]` alone, returning matchers
      for `C` and `D` only: text of `A` or `B` either fails to lex or is yielded under another
      token's type. */
  lemma {:induction false} AsWrittenLosesTokens()
    ensures var e, ts := SmallLimitEngine(), [Tok("A"), Tok("B"), Tok("C"), Tok("D")];
      && MresAsWritten(e, ts, 4, false, [], 10) == Some([Compile([Tok("C")], false), Compile([Tok("D")], false)])
      && Flatten(MresAsWritten(e, ts, 4, false, [], 10).value) != ts
  {
    var e := SmallLimitEngine();
    var a, b, c, d := Tok("A"), Tok("B"), Tok("C"), Tok("D");
    var ts := [a, b, c, d];
    var mc, md := Compile([c], false), Compile([d], false);
    SmallLimitFits();
    assert Take(ts, 4) == ts;
    assert Take(ts, 2) == [a, b];
    assert Drop(ts, 2) == [c, d];
    assert Take([c, d], 2) == [c, d];
    assert Take([c, d], 1) == [c];
    assert Drop([c, d], 1) == [d];
    assert Take([d], 1) == [d];
    assert Drop([d], 1) == [];
    assert [mc] + [md] == [mc, md];
    assert [] + [mc] == [mc];
    assert MresAsWritten(e, [], 1, false, [mc, md], 5) == Some([mc, md]);
    assert MresAsWritten(e, [d], 1, false, [mc], 6) == MresAsWritten(e, [], 1, false, [mc, md], 5);
    assert MresAsWritten(e, [c, d], 1, false, [], 7) == MresAsWritten(e, [d], 1, false, [mc], 6);
    assert MresAsWritten(e, [c, d], 2, false, [Compile([a, b], false)], 8) == MresAsWritten(e, [c, d], 1, false, [], 7);
    assert MresAsWritten(e, ts, 2, false, [], 9) == MresAsWritten(e, [c, d], 2, false, [Compile([a, b], false)], 8);
    assert MresAsWritten(e, ts, 4, false, [], 10) == MresAsWritten(e, ts, 2, false, [], 9);
    assert Flatten([md]) == [d] by { assert [md][1..] == []; }
    assert Flatten([mc, md]) == [c, d] by { assert [mc, md][1..] == [md]; }
    assert |[c, d]| != |ts|;
  }

  /** Which slices of the counterexample's token list the small-limit engine accepts. */
  lemma {:induction false} SmallLimitFits()
    ensures var e, a, b, c, d := SmallLimitEngine(), Tok("A"), Tok("B"), Tok("C"), Tok("D");
      && !e.fits([a, b, c, d], false) && e.fits([a, b], false) && !e.fits([c, d], false)
      && e.fits([c], false) && e.fits([d], false)
  {
    var a, b, c, d := Tok("A"), Tok("B"), Tok("C"), Tok("D");
    assert a.name != d.name && b.name != d.name && c.name != d.name;
    assert [a, b, c, d][3] == d && [c, d][1] == d;
  }

  /** On the same input the intended batching keeps every token: `[A, B]`, then `C` and `D`. */
  lemma {:induction false} IntendedKeepsTokens()
    ensures var e, ts := SmallLimitEngine(), [Tok("A"), Tok("B"), Tok("C"), Tok("D")];
      MresFrom(e, ts, 4, false) ==
        Some([Compile([Tok("A"), Tok("B")], false), Compile([Tok("C")], false), Compile([Tok("D")], false)])
  {
    var e := SmallLimitEngine();
    var a, b, c, d := Tok("A"), Tok("B"), Tok("C"), Tok("D");
    var ts := [a, b, c, d];
    var mc, md := Compile([c], false), Compile([d], false);
    SmallLimitFits();
    assert Take(ts, 4) == ts;
    assert Take(ts, 2) == [a, b];
    assert Drop(ts, 2) == [c, d];
    assert Take([c, d], 2) == [c, d];
    assert Take([c, d], 1) == [c];
    assert Drop([c, d], 1) == [d];
    assert Take([d], 1) == [d];
    assert Drop([d], 1) == [];
    MresStep(e, [d], 1, false);
    assert [md] + [] == [md];
    assert MresFrom(e, [d], 1, false) == Some([md]);
    MresStep(e, [c, d], 1, false);
    assert [mc] + [md] == [mc, md];
    assert MresFrom(e, [c, d], 1, false) == Some([mc, md]);
    assert MresFrom(e, [c, d], 2, false) == Some([mc, md]);
    MresStep(e, ts, 2, false);
    assert [Compile([a, b], false)] + [mc, md] == [Compile([a, b], false), mc, md];
    assert MresFrom(e, ts, 2, false) == Some([Compile([a, b], false), mc, md]);
  }

  /** The engine's answer for one position: the alternative matches there. */
  function MatchesAt(e: Engine, stream: string, pos: nat): TokenDef -> bool {
    (t: TokenDef) => e.matchAt(t.pattern.regexp, stream, pos).Some?
  }

  /** `mre.match(stream, pos)` on one batch: the alternation tries its alternatives in order and
      the first that matches decides; the slot of that alternative and the match length. */
  function MatchIn(e: Engine, m: Matcher, stream: string, pos: nat): Option<(nat, nat)> {
    FirstIndexSound(m.alts, MatchesAt(e, stream, pos));
    match FirstIndex(m.alts, MatchesAt(e, stream, pos))
    case None => None
    case Some(i) => Some((i, e.matchAt(m.alts[i].pattern.regexp, stream, pos).value))
  }

  /** The `for mre, type_from_index in lexer.mres` loop of the scanner: the first batch that
      matches decides, and its reverse map gives the token type. */
  function MatchAny(e: Engine, mres: seq<Matcher>, stream: string, pos: nat): Option<(string, nat)>
    requires AllWellFormed(mres)
  {
    if mres == [] then None
    else match MatchIn(e, mres[0], stream, pos)
      case Some((slot, n)) => Some((mres[0].slotNames[slot], n))
      case None => MatchAny(e, mres[1..], stream, pos)
  }

  /** The same question put to the token list itself, as one alternation: the first token (in
      list order) whose pattern matches at `pos` wins, whatever the lengths of later matches. */
  function FirstMatch(e: Engine, ts: seq<TokenDef>, stream: string, pos: nat): (r: Option<(string, nat)>)
    ensures r.Some? ==>
      exists i :: 0 <= i < |ts| && ts[i].name == r.value.0
        && e.matchAt(ts[i].pattern.regexp, stream, pos) == Some(r.value.1)
        && forall j :: 0 <= j < i ==> e.matchAt(ts[j].pattern.regexp, stream, pos) == None
    ensures r.None? ==> forall j :: 0 <= j < |ts| ==> e.matchAt(ts[j].pattern.regexp, stream, pos) == None
  {
    FirstIndexSound(ts, MatchesAt(e, stream, pos));
    match FirstIndex(ts, MatchesAt(e, stream, pos))
    case None => None
    case Some(i) => Some((ts[i].name, e.matchAt(ts[i].pattern.regexp, stream, pos).value))
  }

  /** Splitting the tokens into batches does not change what is matched: the batched lookup
      agrees with one alternation over the concatenated batches. */
  lemma {:induction false} BatchingIsTransparent(e: Engine, mres: seq<Matcher>, stream: string, pos: nat)
    requires AllWellFormed(mres)
    ensures MatchAny(e, mres, stream, pos) == FirstMatch(e, Flatten(mres), stream, pos)
  {
    if mres != [] {
      var p := MatchesAt(e, stream, pos);
      FirstIndexAppend(mres[0].alts, Flatten(mres[1..]), p);
      BatchingIsTransparent(e, mres[1..], stream, pos);
      var f := Flatten(mres);
      match FirstIndex(mres[0].alts, p)
      case Some(i) =>
        assert f[i] == mres[0].alts[i];
      case None =>
        match FirstIndex(Flatten(mres[1..]), p)
        case Some(i) =>
          assert f[|mres[0].alts| + i] == Flatten(mres[1..])[i];
        case None =>
    }
  }

  /** The alternative `t`, followed by `$`, matches all of `s`. */
  function FullMatches(e: Engine, s: string): TokenDef -> bool {
    (t: TokenDef) => e.fullMatch(t.pattern.regexp, s)
  }

  /** The loop of the disambiguation callback over its whole-match batches: the first batch
      whose alternation matches `s` decides, and its reverse map gives the new type. */
  function WholeMatchAny(e: Engine, mres: seq<Matcher>, s: string): Option<string>
    requires AllWellFormed(mres)
  {
    if mres == [] then None
    else match FirstIndex(mres[0].alts, FullMatches(e, s))
      case Some(slot) => Some(mres[0].slotNames[slot])
      case None => WholeMatchAny(e, mres[1..], s)
  }

  /** The name of the first token of `ts` that whole-matches `s`. */
  function FirstFullMatch(e: Engine, ts: seq<TokenDef>, s: string): (r: Option<string>)
    ensures r.Some? ==>
      exists i :: 0 <= i < |ts| && ts[i].name == r.value && e.fullMatch(ts[i].pattern.regexp, s)
        && forall j :: 0 <= j < i ==> !e.fullMatch(ts[j].pattern.regexp, s)
    ensures r.None? ==> forall j :: 0 <= j < |ts| ==> !e.fullMatch(ts[j].pattern.regexp, s)
  {
    FirstIndexSound(ts, FullMatches(e, s));
    match FirstIndex(ts, FullMatches(e, s))
    case None => None
    case Some(i) => Some(ts[i].name)
  }

  lemma {:induction false} WholeBatchingIsTransparent(e: Engine, mres: seq<Matcher>, s: string)
    requires AllWellFormed(mres)
    ensures WholeMatchAny(e, mres, s) == FirstFullMatch(e, Flatten(mres), s)
  {
    if mres != [] {
      var p := FullMatches(e, s);
      FirstIndexAppend(mres[0].alts, Flatten(mres[1..]), p);
      WholeBatchingIsTransparent(e, mres[1..], s);
      var f := Flatten(mres);
      match FirstIndex(mres[0].alts, p)
      case Some(i) =>
        assert f[i] == mres[0].alts[i];
      case None =>
        match FirstIndex(Flatten(mres[1..]), p)
        case Some(i) =>
          assert f[|mres[0].alts| + i] == Flatten(mres[1..])[i];
        case None =>
    }
  }
}
