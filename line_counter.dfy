/** `LineCounter`: the running offset, line and column of a lexing pass. */
module LineCounting {

  const NewlineChar: char := '\n'

  /** A snapshot of a counter: its offset, line and line start. The counter's `column` field is
      always the distance from the line start to the offset, `charPos - lineStartPos`, so the
      snapshot leaves it out. */
  datatype CounterState = CounterState(charPos: int, line: int, lineStartPos: int)

  /** A fresh counter: offset 0, line 1, column 0. */
  const Initial: CounterState := CounterState(0, 1, 0)

  /** The invariant every counter keeps: lines count from 1, and the current line starts at or
      before the offset (so the column is never negative). */
  predicate Consistent(c: CounterState) {
    c.line >= 1 && 0 <= c.lineStartPos <= c.charPos
  }

  /** `s.count(ch)` */
  function Count(s: string, ch: char): (n: nat)
    ensures n <= |s|
    ensures n == 0 <==> ch !in s
  {
    if s == [] then 0 else (if s[0] == ch then 1 else 0) + Count(s[1..], ch)
  }

  /** `s.rindex(ch)`, or -1 when `ch` does not occur: the position of the last occurrence. */
  function LastIndex(s: string, ch: char): (r: int)
    ensures -1 <= r < |s|
    ensures r == -1 <==> ch !in s
  {
    if s == [] then -1 else if s[|s| - 1] == ch then |s| - 1 else LastIndex(s[..|s| - 1], ch)
  }

  /** The position found holds `ch`, and no later position does. */
  lemma {:induction false} LastIndexSound(s: string, ch: char)
    ensures var r := LastIndex(s, ch);
      (r >= 0 ==> s[r] == ch) && forall j :: r < j < |s| ==> s[j] != ch
  {
    if s != [] && s[|s| - 1] != ch {
      var s' := s[..|s| - 1];
      LastIndexSound(s', ch);
      assert forall j :: 0 <= j < |s'| ==> s'[j] == s[j];
    }
  }

  /** What `feed(token, testNewline)` does to a counter. */
  function FeedState(c: CounterState, token: string, testNewline: bool): (r: CounterState)
    ensures Consistent(c) ==> Consistent(r)
  {
    var newlines := if testNewline then Count(token, NewlineChar) else 0;
    var lineStart := if newlines > 0 then c.charPos + LastIndex(token, NewlineChar) + 1 else c.lineStartPos;
    var charPos := c.charPos + |token|;
    CounterState(charPos, c.line + newlines, lineStart)
  }

  /** One feed: the offset grows by the token's length, the line by the number of newlines in it
      (when they are counted), the current line then starts just after the token's last newline,
      and the column is the distance from that start. */
  lemma {:induction false} FeedAdvances(c: CounterState, token: string, testNewline: bool)
    requires Consistent(c)
    ensures var r := FeedState(c, token, testNewline);
      && Consistent(r)
      && r.charPos == c.charPos + |token|
      && r.line == c.line + (if testNewline then Count(token, NewlineChar) else 0)
      && (testNewline && NewlineChar in token ==>
            var k := r.lineStartPos - 1 - c.charPos;
            0 <= k < |token| && token[k] == NewlineChar &&
            forall j :: k < j < |token| ==> token[j] != NewlineChar)
      && (!(testNewline && NewlineChar in token) ==> r.lineStartPos == c.lineStartPos)
  {
    var r := FeedState(c, token, testNewline);
    if testNewline && NewlineChar in token {
      var k := LastIndex(token, NewlineChar);
      LastIndexSound(token, NewlineChar);
      assert Count(token, NewlineChar) > 0;
      assert r.lineStartPos == c.charPos + k + 1;
    } else {
      assert r.lineStartPos == c.lineStartPos;
    }
  }

  /** Skipping the newline test is harmless exactly when the token holds no newline. */
  lemma {:induction false} SkippingNewlineTest(c: CounterState, token: string)
    ensures FeedState(c, token, false) == FeedState(c, token, true) <==> NewlineChar !in token
  {
  }

  /** The position reached after reading `text` from the start, computed directly from the text:
      one line per newline, the current line starting after the last newline. */
  function PositionOf(text: string): (r: CounterState)
    ensures Consistent(r) && r.charPos == |text|
  {
    CounterState(|text|, 1 + Count(text, NewlineChar), LastIndex(text, NewlineChar) + 1)
  }

  lemma {:induction false} CountAppend(a: string, b: string, ch: char)
    ensures Count(a + b, ch) == Count(a, ch) + Count(b, ch)
  {
    if a == [] {
      assert a + b == b;
    } else {
      assert (a + b)[0] == a[0];
      assert (a + b)[1..] == a[1..] + b;
      CountAppend(a[1..], b, ch);
    }
  }

  lemma {:induction false} LastIndexAppend(a: string, b: string, ch: char)
    ensures LastIndex(a + b, ch) == if ch in b then |a| + LastIndex(b, ch) else LastIndex(a, ch)
  {
    if b == [] {
      assert a + b == a;
    } else {
      var b' := b[..|b| - 1];
      assert (a + b)[..|a + b| - 1] == a + b';
      assert (a + b)[|a + b| - 1] == b[|b| - 1];
      if b[|b| - 1] != ch {
        LastIndexAppend(a, b', ch);
        assert b == b' + [b[|b| - 1]];
        assert ch in b <==> ch in b';
      }
    }
  }

  /** Feeding with the newline test always keeps the counter at the true position of the text
      read so far. */
  lemma {:induction false} FeedTracksPosition(text: string, token: string)
    ensures FeedState(PositionOf(text), token, true) == PositionOf(text + token)
  {
    CountAppend(text, token, NewlineChar);
    LastIndexAppend(text, token, NewlineChar);
  }

  lemma {:induction false} InitialIsStart()
    ensures PositionOf([]) == Initial
  {
  }

  /** The object the lexing loop updates in place. */
  class LineCounter {
    const newlineChar: char
    var charPos: int
    var line: int
    var column: int
    var lineStartPos: int

    ghost predicate Valid()
      reads this
    {
      newlineChar == NewlineChar && line >= 1 && 0 <= lineStartPos <= charPos && column == charPos - lineStartPos
    }

    function State(): CounterState
      reads this
    {
      CounterState(charPos, line, lineStartPos)
    }

    constructor ()
      ensures Valid()
      ensures State() == Initial
    {
      newlineChar := NewlineChar;
      charPos := 0;
      line := 1;
      column := 0;
      lineStartPos := 0;
    }

    /** Consume a token's text and update the position. */
    method Feed(token: string, testNewline: bool)
      requires Valid()
      modifies this
      ensures Valid()
      ensures charPos == old(charPos) + |token|
      ensures State() == FeedState(old(State()), token, testNewline)
    {
      if testNewline {
        var newlines := Count(token, newlineChar);
        if newlines > 0 {
          line := line + newlines;
          lineStartPos := charPos + LastIndex(token, newlineChar) + 1;
        }
      }
      charPos := charPos + |token|;
      column := charPos - lineStartPos;
    }
  }
}
