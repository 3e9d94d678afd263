/** Sequence helpers with Python's slicing and comprehension behaviour. */
module SeqUtil {

  import opened LexTypes

  /** `s[:k]` */
  function Take<T>(s: seq<T>, k: nat): (r: seq<T>)
    ensures |r| == Min(k, |s|) && r == s[..|r|]
  {
    s[..Min(k, |s|)]
  }

  /** `s[k:]` */
  function Drop<T>(s: seq<T>, k: nat): (r: seq<T>)
    ensures |r| == |s| - Min(k, |s|) && r == s[Min(k, |s|)..]
  {
    s[Min(k, |s|)..]
  }

  lemma {:induction false} TakeDrop<T>(s: seq<T>, k: nat)
    ensures Take(s, k) + Drop(s, k) == s
  {
  }

  /** `[x for x in s if keep(x)]` */
  function Filter<T>(s: seq<T>, keep: T -> bool): (r: seq<T>)
    ensures |r| <= |s|
    ensures forall i :: 0 <= i < |r| ==> r[i] in s && keep(r[i])
    ensures forall i :: 0 <= i < |s| && keep(s[i]) ==> s[i] in r
  {
    if s == [] then [] else (if keep(s[0]) then [s[0]] else []) + Filter(s[1..], keep)
  }

  lemma {:induction false} FilterAppend<T>(a: seq<T>, b: seq<T>, keep: T -> bool)
    ensures Filter(a + b, keep) == Filter(a, keep) + Filter(b, keep)
  {
    if a == [] {
      assert a + b == b;
    } else {
      assert (a + b)[0] == a[0];
      assert (a + b)[1..] == a[1..] + b;
      FilterAppend(a[1..], b, keep);
    }
  }

  /** Filtering a list with an element in front. */
  lemma {:induction false} FilterCons<T>(a: T, r: seq<T>, keep: T -> bool)
    ensures Filter([a] + r, keep) == (if keep(a) then [a] else []) + Filter(r, keep)
  {
    assert ([a] + r)[1..] == r;
  }

  /** At most one of two optional elements is present, so they can be put in either order. */
  lemma {:induction false} SwapInFront<T>(p: bool, q: bool, u: T, v: T, b: seq<T>, a: seq<T>, l: seq<T>, r: seq<T>)
    requires !(p && q)
    requires l == (if q then [v] else []) + a
    requires a == (if p then [u] else []) + b
    requires r == (if q then [v] else []) + b
    ensures l == (if p then [u] else []) + r
  {
    if !p && !q {
      assert l == a && a == b && r == b;
    }
  }

  /** Filtering depends only on what the predicate says about the elements present. */
  lemma {:induction false} FilterCongruent<T>(s: seq<T>, p: T -> bool, q: T -> bool)
    requires forall i :: 0 <= i < |s| ==> p(s[i]) == q(s[i])
    ensures Filter(s, p) == Filter(s, q)
  {
    if s != [] {
      FilterCongruent(s[1..], p, q);
    }
  }

  /** The index of the first element that satisfies `p`: the order in which a regular-expression
      alternation tries its alternatives. */
  function FirstIndex<T>(s: seq<T>, p: T -> bool): (r: Option<nat>)
    ensures r.Some? ==> r.value < |s|
  {
    if s == [] then None
    else if p(s[0]) then Some(0)
    else match FirstIndex(s[1..], p)
      case None => None
      case Some(i) => Some(i + 1)
  }

  /** The index found satisfies `p` and no earlier element does; when none is found, no element
      satisfies `p`. */
  lemma {:induction false} FirstIndexSound<T>(s: seq<T>, p: T -> bool)
    ensures var r := FirstIndex(s, p);
      && (r.Some? ==> p(s[r.value]) && forall j :: 0 <= j < r.value ==> !p(s[j]))
      && (r.None? ==> forall j :: 0 <= j < |s| ==> !p(s[j]))
  {
    if s != [] && !p(s[0]) {
      FirstIndexSound(s[1..], p);
      assert forall j :: 1 <= j < |s| ==> s[j] == s[1..][j - 1];
    }
  }

  /** The first match in a concatenation is the first match in the left part, if any, and
      otherwise the first match in the right part, shifted. */
  lemma {:induction false} FirstIndexAppend<T>(a: seq<T>, b: seq<T>, p: T -> bool)
    ensures FirstIndex(a + b, p) ==
      if FirstIndex(a, p).Some? then FirstIndex(a, p)
      else if FirstIndex(b, p).Some? then Some(|a| + FirstIndex(b, p).value)
      else None
  {
    if a == [] {
      assert a + b == b;
    } else {
      assert (a + b)[0] == a[0];
      assert (a + b)[1..] == a[1..] + b;
      FirstIndexAppend(a[1..], b, p);
    }
  }
}
