/** Values shared by every part of the lexer model: token definitions, the regular-expression
    engine seen as an oracle, emitted tokens and the errors the lexer raises. */
module LexTypes {

  datatype Option<+T> = None | Some(value: T)

  datatype Result<+T, +E> = Ok(value: T) | Err(error: E)

  /** The two kinds of pattern a token definition carries: a literal string or a regular expression. */
  datatype PatternKind = Str | RE

  /** A token definition's pattern. `value` is the literal text or the regular-expression source,
      `regexp` what `to_regexp()` yields for it, and the widths what the pattern compiler computed. */
  datatype Pattern = Pattern(kind: PatternKind, value: string, flags: set<char>, regexp: string,
                             minWidth: nat, maxWidth: nat)

  datatype TokenDef = TokenDef(name: string, pattern: Pattern, priority: int)

  /** The host regular-expression engine, seen only through the questions the lexer asks of it.
      - `matchAt(p, s, pos)`: `re.match` of pattern `p` on `s` anchored at `pos`; the length of the match.
      - `fullMatch(p, s)`: pattern `p` followed by the end anchor `$` matches `s` from its start.
      - `compiles(p)`: `re.compile(p)` succeeds.
      - `fits(alts, whole)`: the alternation of named groups over `alts` (each with a trailing `$`
        when `whole`) compiles without exceeding the engine's group limit. */
  datatype Engine = Engine(
    matchAt: (string, string, nat) -> Option<nat>,
    fullMatch: (string, string) -> bool,
    compiles: string -> bool,
    fits: (seq<TokenDef>, bool) -> bool)

  /** Every match the engine reports ends inside the string it was asked about. */
  ghost predicate MatchesInBounds(e: Engine) {
    forall p: string, s: string, pos: nat :: e.matchAt(p, s, pos).Some? ==> pos + e.matchAt(p, s, pos).value <= |s|
  }

  /** Every match of `t`'s pattern is at least as wide as its declared minimum width. */
  ghost predicate WidthSound(e: Engine, t: TokenDef) {
    forall s: string, pos: nat :: e.matchAt(t.pattern.regexp, s, pos).Some? ==>
      e.matchAt(t.pattern.regexp, s, pos).value >= t.pattern.minWidth
  }

  /** An emitted token: its type, its text and where its match started. */
  datatype Token = Token(kind: string, value: string, posInStream: int, line: int, column: int)

  /** What a token can be compared with: another token or a plain string. */
  datatype Comparand = AToken(token: Token) | AString(text: string)

  /** `Token.__eq__`: a token never equals a token of another type; otherwise the texts are compared. */
  predicate TokenEquals(t: Token, other: Comparand) {
    match other
    case AToken(u) => if t.kind != u.kind then false else t.value == u.value
    case AString(s) => t.value == s
  }

  lemma {:induction false} TokenEqualityIgnoresPosition(a: Token, b: Token)
    ensures TokenEquals(a, AToken(b)) <==> a.kind == b.kind && a.value == b.value
    ensures TokenEquals(a, AToken(b)) <==> TokenEquals(b, AToken(a))
    ensures TokenEquals(a, AToken(a))
  {
  }

  /** Between tokens the equality is transitive... */
  lemma {:induction false} TokenEqualityTransitive(a: Token, b: Token, c: Token)
    requires TokenEquals(a, AToken(b)) && TokenEquals(b, AToken(c))
    ensures TokenEquals(a, AToken(c))
  {
  }

  /** ...but not through a plain string: two tokens of different types both equal the same text. */
  lemma {:induction false} StringEqualityForgetsType()
    ensures exists a: Token, b: Token, s: string ::
      TokenEquals(a, AString(s)) && TokenEquals(b, AString(s)) && !TokenEquals(a, AToken(b))
  {
    var a := Token("A", "x", 0, 1, 0);
    var b := Token("B", "x", 0, 1, 0);
    assert TokenEquals(a, AString("x")) && TokenEquals(b, AString("x")) && !TokenEquals(a, AToken(b));
  }

  /** Failures while building a lexer. */
  datatype LexError =
    | CannotCompile(name: string)   // a token's pattern does not compile
    | ZeroWidth(name: string)       // a token's pattern can match the empty string
    | UndeclaredIgnore              // an ignored name is not a token name
    | GroupLimit                    // some token does not compile alone within the group limit
    | DuplicateName(name: string)   // a contextual lexer got two tokens with one name
    | UnknownTerminal               // a state accepts a terminal that no token defines

  /** The error raised when no token matches: the offending character, up to five characters of
      context, and the position. */
  datatype UnexpectedInput = UnexpectedInput(offending: char, context: string, line: int, column: int)

  function Min(a: int, b: int): int { if a <= b then a else b }

  /** `seq[lex_pos:lex_pos+5]`, with Python's clamping of slice bounds. */
  function Context(stream: string, pos: nat): (r: string)
    ensures |r| == if pos < |stream| then Min(5, |stream| - pos) else 0
    ensures forall i :: 0 <= i < |r| ==> r[i] == stream[pos + i]
  {
    if pos < |stream| then stream[pos..Min(pos + 5, |stream|)] else []
  }
}
