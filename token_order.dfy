/** The order in which a lexer tries its tokens: the sort key
    `(-priority, -max_width, -len(pattern.value), name)`. */
module TokenOrder {

  import opened LexTypes
  import opened SeqUtil

  /** Python's `<=` on strings: character codes compared left to right, a proper prefix first. */
  predicate StrLe(a: string, b: string)
  {
    if a == [] then true
    else if b == [] then false
    else if a[0] != b[0] then a[0] < b[0]
    else StrLe(a[1..], b[1..])
  }

  lemma {:induction false} StrLeTotal(a: string, b: string)
    ensures StrLe(a, b) || StrLe(b, a)
  {
    if a != [] && b != [] && a[0] == b[0] {
      StrLeTotal(a[1..], b[1..]);
    }
  }

  lemma {:induction false} StrLeTransitive(a: string, b: string, c: string)
    requires StrLe(a, b) && StrLe(b, c)
    ensures StrLe(a, c)
  {
    if a != [] && b != [] && c != [] && a[0] == b[0] && b[0] == c[0] {
      StrLeTransitive(a[1..], b[1..], c[1..]);
    }
  }

  lemma {:induction false} StrLeAntisymmetric(a: string, b: string)
    requires StrLe(a, b) && StrLe(b, a)
    ensures a == b
  {
    if a != [] && b != [] {
      StrLeAntisymmetric(a[1..], b[1..]);
      assert a == [a[0]] + a[1..] && b == [b[0]] + b[1..];
    }
  }

  /** The sort key of `a` is at most that of `b`: higher priority first, then the wider maximum
      width, then the longer pattern text, then the name. */
  predicate KeyLe(a: TokenDef, b: TokenDef)
  {
    if a.priority != b.priority then a.priority > b.priority
    else if a.pattern.maxWidth != b.pattern.maxWidth then a.pattern.maxWidth > b.pattern.maxWidth
    else if |a.pattern.value| != |b.pattern.value| then |a.pattern.value| > |b.pattern.value|
    else StrLe(a.name, b.name)
  }

  lemma {:induction false} KeyLeTotal(a: TokenDef, b: TokenDef)
    ensures KeyLe(a, b) || KeyLe(b, a)
  {
    StrLeTotal(a.name, b.name);
  }

  lemma {:induction false} KeyLeTransitive(a: TokenDef, b: TokenDef, c: TokenDef)
    requires KeyLe(a, b) && KeyLe(b, c)
    ensures KeyLe(a, c)
  {
    if a.priority == b.priority == c.priority && a.pattern.maxWidth == b.pattern.maxWidth == c.pattern.maxWidth
       && |a.pattern.value| == |b.pattern.value| == |c.pattern.value| {
      StrLeTransitive(a.name, b.name, c.name);
    }
  }

  /** Two tokens with the same key have the same name. */
  lemma {:induction false} KeyLeAntisymmetricOnNames(a: TokenDef, b: TokenDef)
    requires KeyLe(a, b) && KeyLe(b, a)
    ensures a.name == b.name && a.priority == b.priority
  {
    if a.priority == b.priority && a.pattern.maxWidth == b.pattern.maxWidth && |a.pattern.value| == |b.pattern.value| {
      StrLeAntisymmetric(a.name, b.name);
    }
  }

  /** Non-decreasing in the sort key. */
  ghost predicate Sorted(s: seq<TokenDef>) {
    forall i, j :: 0 <= i < j < |s| ==> KeyLe(s[i], s[j])
  }

  /** Place `x` before the first element whose key is not below its own. */
  function Insert(x: TokenDef, s: seq<TokenDef>): (r: seq<TokenDef>)
    ensures multiset(r) == multiset(s) + multiset{x}
    ensures Sorted(s) ==> Sorted(r)
  {
    if s == [] then [x]
    else if KeyLe(x, s[0]) then
      InsertInFront(x, s);
      [x] + s
    else
      var rest := Insert(x, s[1..]);
      InsertBehind(x, s, rest);
      [s[0]] + rest
  }

  lemma {:induction false} InsertInFront(x: TokenDef, s: seq<TokenDef>)
    requires s != [] && KeyLe(x, s[0])
    ensures Sorted(s) ==> Sorted([x] + s)
  {
    if Sorted(s) {
      forall j | 0 <= j < |s| ensures KeyLe(x, s[j]) {
        if j > 0 { KeyLeTransitive(x, s[0], s[j]); }
      }
      SortedCons(x, s);
    }
  }

  lemma {:induction false} InsertBehind(x: TokenDef, s: seq<TokenDef>, rest: seq<TokenDef>)
    requires s != [] && !KeyLe(x, s[0])
    requires multiset(rest) == multiset(s[1..]) + multiset{x}
    requires Sorted(s[1..]) ==> Sorted(rest)
    ensures multiset([s[0]] + rest) == multiset(s) + multiset{x}
    ensures Sorted(s) ==> Sorted([s[0]] + rest)
  {
    assert s == [s[0]] + s[1..];
    if Sorted(s) {
      assert Sorted(s[1..]);
      KeyLeTotal(x, s[0]);
      forall j | 0 <= j < |rest| ensures KeyLe(s[0], rest[j]) {
        assert rest[j] in multiset(rest);
        if rest[j] != x {
          assert rest[j] in multiset(s[1..]);
          var k :| 0 <= k < |s[1..]| && s[1..][k] == rest[j];
          assert s[k + 1] == rest[j];
        }
      }
      SortedCons(s[0], rest);
    }
  }

  /** `tokens.sort(key=...)`; Python's sort is stable, and so is this insertion sort (`SortStable`). */
  function SortTokens(ts: seq<TokenDef>): (r: seq<TokenDef>)
    ensures multiset(r) == multiset(ts)
    ensures Sorted(r)
  {
    if ts == [] then []
    else
      assert ts == [ts[0]] + ts[1..];
      Insert(ts[0], SortTokens(ts[1..]))
  }

  /** Equal sort keys: neither token goes before the other. */
  predicate SameKey(a: TokenDef, b: TokenDef) {
    KeyLe(a, b) && KeyLe(b, a)
  }

  /** The tokens whose key ties with that of `x`. */
  function TiesWith(x: TokenDef): TokenDef -> bool {
    t => SameKey(t, x)
  }

  /** Inserting `y` puts it in front of every token already present whose key ties with its own. */
  lemma {:induction false} InsertStable(y: TokenDef, s: seq<TokenDef>, x: TokenDef)
    ensures Filter(Insert(y, s), TiesWith(x)) == (if SameKey(y, x) then [y] else []) + Filter(s, TiesWith(x))
  {
    if s == [] {
      FilterCons(y, [], TiesWith(x));
    } else if KeyLe(y, s[0]) {
      FilterCons(y, s, TiesWith(x));
    } else {
      var f := TiesWith(x);
      var rest := Insert(y, s[1..]);
      assert Insert(y, s) == [s[0]] + rest;
      assert s == [s[0]] + s[1..];
      InsertStable(y, s[1..], x);
      FilterCons(s[0], rest, f);
      FilterCons(s[0], s[1..], f);
      TiesExclusive(y, s[0], x);
      SwapInFront(f(y), f(s[0]), y, s[0], Filter(s[1..], f), Filter(rest, f), Filter(Insert(y, s), f), Filter(s, f));
    }
  }

  /** Two tokens that both tie with `x` tie with each other. */
  lemma {:induction false} TiesExclusive(y: TokenDef, z: TokenDef, x: TokenDef)
    requires !KeyLe(y, z)
    ensures !(SameKey(y, x) && SameKey(z, x))
  {
    if SameKey(y, x) && SameKey(z, x) {
      KeyLeTransitive(y, x, z);
    }
  }

  /** The sort is stable: the tokens of every key keep their input order. */
  lemma {:induction false} SortStable(ts: seq<TokenDef>, x: TokenDef)
    ensures Filter(SortTokens(ts), TiesWith(x)) == Filter(ts, TiesWith(x))
  {
    if ts != [] {
      SortStable(ts[1..], x);
      InsertStable(ts[0], SortTokens(ts[1..]), x);
    }
  }

  lemma {:induction false} TailMultiset(a: seq<TokenDef>, b: seq<TokenDef>)
    requires multiset(a) == multiset(b) && a != [] && b != [] && a[0] == b[0]
    ensures multiset(a[1..]) == multiset(b[1..])
  {
    assert a == [a[0]] + a[1..] && b == [b[0]] + b[1..];
    assert multiset(a[1..]) == multiset(a) - multiset{a[0]};
    assert multiset(b[1..]) == multiset(b) - multiset{b[0]};
  }

  /** No two tokens of the list share a name. */
  predicate NamesDistinct(ts: seq<TokenDef>) {
    forall i, j :: 0 <= i < j < |ts| ==> ts[i].name != ts[j].name
  }

  /** In two sorted arrangements of one multiset of distinctly named tokens, the first elements agree. */
  lemma {:induction false} HeadsAgree(a: seq<TokenDef>, b: seq<TokenDef>)
    requires multiset(a) == multiset(b) && Sorted(a) && Sorted(b) && a != []
    requires NamesDistinct(a)
    ensures b != [] && a[0] == b[0]
  {
    assert a[0] in multiset(b);
    assert b[0] in multiset(a);
    var i :| 0 <= i < |b| && b[i] == a[0];
    var j :| 0 <= j < |a| && a[j] == b[0];
    if j != 0 {
      assert KeyLe(a[0], a[j]);
      if i != 0 { assert KeyLe(b[0], b[i]); }
      KeyLeAntisymmetricOnNames(a[0], a[j]);
    }
  }

  /** The sort result is determined by the multiset of tokens when no two share a name: any two
      sorted arrangements are equal. */
  lemma {:induction false} SortedArrangementUnique(a: seq<TokenDef>, b: seq<TokenDef>)
    requires multiset(a) == multiset(b) && Sorted(a) && Sorted(b)
    requires NamesDistinct(a)
    ensures a == b
  {
    if a == [] {
      assert |b| == |multiset(b)| == 0;
    } else {
      HeadsAgree(a, b);
      TailMultiset(a, b);
      assert Sorted(a[1..]) && Sorted(b[1..]);
      SortedArrangementUnique(a[1..], b[1..]);
      assert a == [a[0]] + a[1..] && b == [b[0]] + b[1..];
    }
  }

  /** A token whose key is at most every key of a sorted list can be put in front of it. */
  lemma {:induction false} SortedCons(x: TokenDef, rest: seq<TokenDef>)
    requires Sorted(rest)
    requires forall j :: 0 <= j < |rest| ==> KeyLe(x, rest[j])
    ensures Sorted([x] + rest)
  {
    var r := [x] + rest;
    forall i, j | 0 <= i < j < |r| ensures KeyLe(r[i], r[j]) {
      assert r[j] == rest[j - 1];
      if i > 0 { assert r[i] == rest[i - 1]; }
    }
  }

  /** Keeping some of the tokens of a sorted list, in order, leaves it sorted. */
  lemma {:induction false} FilterSorted(s: seq<TokenDef>, keep: TokenDef -> bool)
    requires Sorted(s)
    ensures Sorted(Filter(s, keep))
  {
    if s != [] {
      var tail := s[1..];
      assert Sorted(tail);
      FilterSorted(tail, keep);
      var rest := Filter(tail, keep);
      if keep(s[0]) {
        forall j | 0 <= j < |rest| ensures KeyLe(s[0], rest[j]) {
          assert rest[j] in tail;
          var k :| 0 <= k < |tail| && tail[k] == rest[j];
          assert s[k + 1] == rest[j];
        }
        SortedCons(s[0], rest);
        assert Filter(s, keep) == [s[0]] + rest;
      } else {
        assert Filter(s, keep) == rest;
      }
    }
  }

  /** Rearranging a list keeps its names distinct. */
  lemma {:induction false} NamesDistinctPermutation(a: seq<TokenDef>, b: seq<TokenDef>)
    requires multiset(a) == multiset(b) && NamesDistinct(a)
    ensures NamesDistinct(b)
  {
    if b != [] {
      var x := b[0];
      assert x in multiset(a);
      var k :| 0 <= k < |a| && a[k] == x;
      var a' := a[..k] + a[k + 1..];
      RemoveOne(a, k);
      assert b == [x] + b[1..];
      assert multiset(b[1..]) == multiset(b) - multiset{x};
      NamesDistinctPermutation(a', b[1..]);
      forall y | y in b[1..] ensures y.name != x.name {
        assert y in multiset(a');
      }
      DistinctCons(x, b[1..]);
    }
  }

  /** Taking one token out of a distinctly named list: the rest keeps distinct names, none of
      them the name taken out. */
  lemma {:induction false} RemoveOne(a: seq<TokenDef>, k: nat)
    requires k < |a| && NamesDistinct(a)
    ensures var a' := a[..k] + a[k + 1..];
      && multiset(a') == multiset(a) - multiset{a[k]}
      && NamesDistinct(a')
      && forall y :: y in a' ==> y.name != a[k].name
  {
    var a' := a[..k] + a[k + 1..];
    assert a == a[..k] + [a[k]] + a[k + 1..];
    assert forall m :: 0 <= m < |a'| ==> a'[m] == a[if m < k then m else m + 1];
  }

  lemma {:induction false} DistinctCons(x: TokenDef, rest: seq<TokenDef>)
    requires NamesDistinct(rest) && forall y :: y in rest ==> y.name != x.name
    ensures NamesDistinct([x] + rest)
  {
    var b := [x] + rest;
    forall i, j | 0 <= i < j < |b| ensures b[i].name != b[j].name {
      assert b[j] == rest[j - 1];
      if i > 0 {
        assert b[i] == rest[i - 1];
      }
    }
  }

  /** Sorting forgets the input order: two arrangements of one list of distinctly named tokens
      sort to the same list. */
  lemma {:induction false} SortForgetsOrder(p: seq<TokenDef>, q: seq<TokenDef>)
    requires multiset(p) == multiset(q) && NamesDistinct(p)
    ensures SortTokens(p) == SortTokens(q)
  {
    NamesDistinctPermutation(p, SortTokens(p));
    SortedArrangementUnique(SortTokens(p), SortTokens(q));
  }
}
