# lark lexer core, modelled in Dafny

This project models the lexing core of the lark parsing library (`lark/lexer.py`):

- the `LineCounter` that keeps the offset, line and column of a lexing pass;
- the checks and the construction performed by `Lexer.__init__`: sanitization, the newline heuristic, the token sort, the "unless" disambiguation and the matcher compiler `build_mres`;
- the scanning loop `_Lex.lex`, driven through its generator interface one `next()` at a time;
- the `ContextualLexer`, which keeps one lexer per parser state and looks the lexer up again before every match.

The host regular-expression engine is not modelled. It is an oracle, `LexTypes.Engine`, which answers four questions:

- where an anchored match ends;
- whether a pattern with a trailing `$` matches a whole string;
- whether a pattern compiles;
- whether an alternation of named groups fits within the engine's group limit.

An alternation is modelled as Python's leftmost-first choice: the first alternative, in order, whose own pattern matches at the position decides.

Modules, one per concern:

| file | module | models |
|---|---|---|
| `lex_types.dfy` | `LexTypes` | token definitions, the engine oracle, `Token` and its equality, the errors |
| `seq_util.dfy` | `SeqUtil` | Python slicing and comprehension helpers |
| `line_counter.dfy` | `LineCounting` | `LineCounter`, as a class with a `Feed` method and as a state function |
| `token_order.dfy` | `TokenOrder` | the sort key and the stable sort of `Lexer.__init__` |
| `matchers.dfy` | `Matchers` | `_build_mres` / `build_mres`, and matching through the batches |
| `unless.dfy` | `Unless` | `_create_unless` and `_create_unless_callback` |
| `lexer.dfy` | `Lexers` | `Lexer.__init__` |
| `scanning.dfy` | `Scanning` | `_Lex.lex` as a class holding one generator's state, and `Lexer.lex` |
| `contextual.dfy` | `Contextual` | `ContextualLexer` |

Each operation has a pure specification function and, where the source works by looping or by updating objects, a method or class proved against it. Properties of the whole scan are lemmas about the specification functions:

- tokens come in stream order, without overlap;
- the texts of the matches are exactly the consumed input;
- line and column are the true position of each token's offset, when no token outside the newline types can match a newline;
- the scan fails exactly when input remains;
- batching does not change which token matches.

Python exceptions become values:

- `LexError` in `Lexer.__init__` becomes `Err(...)` of `LexTypes.LexError`;
- `UnexpectedInput` becomes `Scanning.NextResult.Failed`;
- the `KeyError` for a parser state without a lexer becomes `NoLexerForState`;
- the `KeyError` raised by `tokens_by_name[n]` at line 189, for a terminal that no token defines, becomes `UnknownTerminal`.

Two `assert` statements of the source are also modelled as errors rather than as preconditions:

- line 155, an ignored name that no token has;
- line 178, a duplicate token name.

Two facts about the code matter to the model:

- The third sort key is `len(pattern.value)` for every token, literals and regular expressions alike (line 161).
- `Lexer` has no check of its own for duplicate token names; only `ContextualLexer` checks them, at lines 176-179. In the source, two tokens with one name put two groups of that name into the first alternation (line 102). Python refuses to compile that, and the error is not caught at line 103, so `Lexer.__init__` fails. The model does not follow this; see "## Left out".

`_build_mres` can lose batches and can loop forever; both are listed under Findings below. The model keeps the code as written (`Matchers.MresAsWritten`) for those findings. Lexer construction is built on the corrected batching (`Matchers.MresFrom`), as "## Left out" says.

## Model

| member | source | states |
|---|---|---|
| LexTypes.TokenEqualityIgnoresPosition | lark/lexer.py:43-47 | two tokens are equal exactly when type and text agree, whatever their positions; the equality is symmetric and reflexive |
| LexTypes.TokenEqualityTransitive | lark/lexer.py:43-47 | equality between tokens is transitive |
| LexTypes.StringEqualityForgetsType | lark/lexer.py:43-47 | two tokens of different types both equal the same plain string, so equality through a string is not transitive |
| LexTypes.Context | lark/lexer.py:13 | the error context is the stream's next characters from the offset, at most five, clamped at the end like a Python slice |
| LineCounting.Count | lark/lexer.py:128 | `count` is zero exactly when the character does not occur, and never exceeds the length |
| LineCounting.LastIndexSound | lark/lexer.py:131 | `rindex` finds the character, and no later position holds it |
| LineCounting.FeedAdvances | lark/lexer.py:122-134 | a feed keeps the counter consistent, adds the token's length to the offset and its newline count to the line, and starts the line just after the token's last newline |
| LineCounting.SkippingNewlineTest | lark/lexer.py:122-126 | skipping the newline test gives the same counter exactly when the token has no newline |
| LineCounting.FeedTracksPosition | lark/lexer.py:122-134 | feeding with the newline test turns the true position after a text into the true position after the text and the token |
| LineCounting.InitialIsStart | lark/lexer.py:115-120 | a fresh counter is at the true position of the empty text |
| LineCounting.LineCounter.constructor | lark/lexer.py:115-120 | a fresh counter is valid, at offset 0, line 1, column 0 |
| LineCounting.LineCounter.Feed | lark/lexer.py:122-134 | the object is updated exactly as the feed function says, and the column stays the distance from the line start |
| TokenOrder.KeyLeTotal | lark/lexer.py:161 | any two sort keys are comparable |
| TokenOrder.KeyLeTransitive | lark/lexer.py:161 | the key order is transitive |
| TokenOrder.KeyLeAntisymmetricOnNames | lark/lexer.py:161 | two tokens with equal keys have equal names |
| TokenOrder.SortTokens | lark/lexer.py:161 | the sort result is a permutation of its input and is ordered by the key |
| TokenOrder.InsertStable | lark/lexer.py:161 | inserting a token puts it in front of every token already present whose key ties with its own |
| TokenOrder.SortStable | lark/lexer.py:161 | the sort is stable: for every key, the tokens with that key appear in the result in their input order |
| TokenOrder.SortedArrangementUnique | lark/lexer.py:161 | with distinct names, any two key-ordered arrangements of one multiset are equal, so the sort's result is fixed by its input's elements |
| TokenOrder.SortForgetsOrder | lark/lexer.py:161 | two rearrangements of one list of distinctly named tokens sort to the same list |
| TokenOrder.NamesDistinctPermutation | lark/lexer.py:161 | rearranging a list keeps its names distinct |
| TokenOrder.FilterSorted | lark/lexer.py:90 | keeping some tokens of a sorted list, in order, leaves it sorted |
| Matchers.Compile | lark/lexer.py:102-106 | a batch's reverse map names each group slot after the alternative filling it, and no other slot |
| Matchers.MresFrom | lark/lexer.py:94-108 | the batches concatenate to the token list; each has one to `max_size` alternatives and fits the group limit; batching succeeds whenever every token fits alone, and fails only when one does not |
| Matchers.BuildMres | lark/lexer.py:94-111 | the loop that keeps its batches computes the batching function, starting from one batch of every token |
| Matchers.MresWhenAllFit | lark/lexer.py:100-107 | when every slice fits, all batches but the last hold exactly `max_size` tokens |
| Matchers.MresCountWhenAllFit | lark/lexer.py:100-107 | when every slice fits, `n` tokens give `ceil(n / max_size)` batches |
| Matchers.AsWrittenAgreesWhenAllFit | lark/lexer.py:94-108 | when no compilation fails, the code as written and the corrected batching agree |
| Matchers.AsWrittenLosesTokens | lark/lexer.py:103-104 | as written, a failure after a first good batch restarts on the remaining tokens and drops that batch |
| Matchers.IntendedKeepsTokens | lark/lexer.py:94-108 | on the same input the corrected batching keeps every token |
| Matchers.AsWrittenNeverFinishesAtZero | lark/lexer.py:100-107 | as written, a batch size of 0 never ends the loop |
| Matchers.AsWrittenHangsOnOversizedToken | lark/lexer.py:103-104 | as written, a token that does not fit alone makes the loop run forever; the corrected batching reports failure |
| Matchers.FirstMatch | lark/lexer.py:221-225 | a single alternation picks the first token that matches at the offset, and reports no match only when none does |
| Matchers.BatchingIsTransparent | lark/lexer.py:221-225 | trying the batches in order gives the same type and length as one alternation over all their tokens |
| Matchers.FirstFullMatch | lark/lexer.py:64-69 | the whole-match probe picks the first literal whose pattern matches from the start with a trailing `$` |
| Matchers.WholeBatchingIsTransparent | lark/lexer.py:64-69 | trying the whole-match batches in order is the same as probing their literals in order |
| Unless.CallbackMap | lark/lexer.py:78-88 | every installed callback has a non-empty literal list and whole-match batches covering exactly that list |
| Unless.CallbackMapKeys | lark/lexer.py:78-88 | a name gets a callback exactly when a regular-expression token of that name has an anchored match that is exactly some literal's text; the callback's list is that token's `unless` list |
| Unless.CallbackMapFails | lark/lexer.py:88 | building the callbacks fails exactly when some non-empty `unless` list does not fit the group limit |
| Unless.UnlessKeeps | lark/lexer.py:76-90 | the returned list is the input in order, without exactly the literals that a regular-expression token matches whole with flags among its own |
| Unless.UnlessCallbacks | lark/lexer.py:73-91 | the callback dictionary has a key exactly for the regular-expression tokens that match some literal whole, and each entry is valid |
| Unless.CallbackRetypes | lark/lexer.py:61-70 | the callback sets the type to the first literal of its list whose pattern matches the text with a trailing `$`, leaves the token unchanged when none does, and never changes text or position |
| Unless.TryLiterals | lark/lexer.py:80-86 | the inner loop builds exactly the `unless` list and the set of literals taken over |
| Unless.CreateUnless | lark/lexer.py:73-91 | the loops compute the specification of `_create_unless`, including its failure |
| Lexers.Contains | lark/lexer.py:57 | Python's `sub in s` holds exactly when the substring occurs at some index |
| Lexers.NewlineTextIsFlagged | lark/lexer.py:56-57 | a pattern containing a newline or the escape `\n` is flagged |
| Lexers.FlaggedTextHasNewlineOrEscape | lark/lexer.py:56-57 | only a pattern with a newline, a backslash or a dot is flagged |
| Lexers.Sanitize | lark/lexer.py:146-153 | sanitization fails exactly when some pattern does not compile or has minimum width 0, with the error of the first such token, compile errors first |
| Lexers.NewlineTypes | lark/lexer.py:158 | a name is a newline type exactly when some token of that name has a flagged pattern |
| Lexers.LexerRejects | lark/lexer.py:146-155 | construction rejects a zero-width token and an undeclared ignored name; a built lexer had only compiling, non-zero-width patterns |
| Lexers.LexerTokens | lark/lexer.py:158-166 | the lexer's tokens are the sorted input without the literals taken over; they stay sorted; every other input token is kept; newline and ignored types are as computed |
| Lexers.LexerIsValid | lark/lexer.py:139-168 | a built lexer has well-formed batches holding exactly its tokens, valid callbacks and no zero-width token, all drawn from the input |
| Lexers.LexerOrderIrrelevant | lark/lexer.py:143-168 | with distinct names, a rearranged input fails sanitization exactly when the original does; when it passes, the outcome, tokens, batches, callbacks and ignored types are the same and the newline types differ only in order |
| Lexers.NewLexer | lark/lexer.py:139-168 | the checking loop and the construction steps compute the specification of `Lexer.__init__` |
| Scanning.MatchProgress | lark/lexer.py:221-225 | a match through the batches is a match of one of the lexer's tokens, of its type, non-empty and inside the stream |
| Scanning.ApplyCallbacks | lark/lexer.py:228-229 | applying the callback only retypes the token, to the first literal of its list whose pattern matches the text with a trailing `$` |
| Scanning.StepSnapshot | lark/lexer.py:219-237 | one iteration emits a token with the position from before the feed, skips an ignored match, stops at the end, or fails exactly when input remains; the feed tests newlines exactly for newline types |
| Scanning.NextSpec | lark/lexer.py:219-237 | `next()` never moves the counter backwards or out of the stream; a yielded token always moves it forward |
| Scanning.LexAllConsistent | lark/lexer.py:114-134 | the counter stays consistent through every `next()` and the whole scan |
| Scanning.LexAllViaNext | lark/lexer.py:219-237 | the whole scan is `next()` repeated: each call contributes its token, and the scan ends where a call stops |
| Scanning.LexAllEnd | lark/lexer.py:234-237 | the scan ends where no batch matches, and raises `UnexpectedInput` about that position exactly when input remains |
| Scanning.LexAllOrdered | lark/lexer.py:219-237 | yielded tokens are non-empty texts of the stream at their offsets, in stream order, without overlap |
| Scanning.NoNewlineOutsideNewlineTypes | lark/lexer.py:232 | under the newline-safety condition, a match whose type is not a newline type holds no newline |
| Scanning.FeedKeepsPosition | lark/lexer.py:232 | feeding a match keeps the counter at the true position when the newline test is made or the text has no newline |
| Scanning.StepPosition | lark/lexer.py:227-232 | from the true position, an iteration ends at the true position, and a token carries the line and column of its own start |
| Scanning.LexAllPositions | lark/lexer.py:219-237 | under the newline-safety condition, every token's line and column are the true ones of its offset, and so is the final counter |
| Scanning.Scan | lark/lexer.py:219-237 | the counter-free chain of matches ends inside the stream |
| Scanning.ScanCovers | lark/lexer.py:219-237 | the texts of the matches are exactly the stream from the start offset to where matching stops |
| Scanning.ScanStops | lark/lexer.py:234 | the chain of matches stops where no batch matches |
| Scanning.ScanMatches | lark/lexer.py:221-225 | each match in the chain is a non-empty batch match at its start, of its type and length |
| Scanning.LexAllFollowsScan | lark/lexer.py:226-232 | the yielded tokens are the chain's matches of non-ignored types, one for one, with their texts and offsets and the type the callback gives |
| Scanning.LexSession.FindMatch | lark/lexer.py:221-223 | the loop over the batches finds the first batch match |
| Scanning.LexSession.Iterate | lark/lexer.py:219-237 | one loop iteration on the session's counter does what the iteration function says, and leaves the counter unchanged when it stops |
| Scanning.LexSession.Consume | lark/lexer.py:224-232 | a match feeds the counter and gives a token with the position from before the feed, unless its type is ignored |
| Scanning.LexSession.Next | lark/lexer.py:219-237 | `next()` yields what the `next()` function says and moves the counter accordingly; once stopped, the generator stays stopped |
| Scanning.Lex | lark/lexer.py:170-171 | `Lexer.lex` driven to the end yields exactly the scan's tokens and error, from a fresh counter with the lexer's own newline and ignored types |
| Scanning.Drain | lark/lexer.py:219-237 | calling `next()` until the generator stops collects the whole scan from the current counter |
| Contextual.DuplicateFound | lark/lexer.py:176-179 | the duplicate check passes exactly when the names are distinct, and a reported name belongs to two tokens |
| Contextual.IndexByName | lark/lexer.py:176-179 | the loop filling `tokens_by_name` stops at the first repeated name, and otherwise maps every token name to its token |
| Contextual.StateLexerTokens | lark/lexer.py:184-191 | a state's lexer is valid; its tokens are input tokens with accepted, terminal, non-`$END` names; every wanted name exists; every accepted token not taken over is kept; the ignored types are kept |
| Contextual.StatesFailurePersists | lark/lexer.py:183-193 | the first state whose lexer cannot be built decides the error of the whole construction |
| Contextual.StatesLexers | lark/lexer.py:181-193 | exactly the listed states get a lexer, the lexer of the accepted set of the state's last entry, and every one is valid |
| Contextual.SameAcceptsSameLexer | lark/lexer.py:184-191 | states whose accepted sets are equal get equal lexers |
| Contextual.ContextualBuilt | lark/lexer.py:175-197 | construction fails on duplicate names, succeeds exactly when every state lexer and the root lexer can be built, and then the root lexer is the lexer of all tokens |
| Contextual.BuildStates | lark/lexer.py:181-193 | the loop over the states with its `lexer_by_tokens` cache computes the state lexers |
| Contextual.Build | lark/lexer.py:175-197 | the constructor returns the specified error, or a fresh valid contextual lexer with the specified lexers, root and no parser state |
| Contextual.ContextualLexer.constructor | lark/lexer.py:174-197 | a contextual lexer made from valid lexers is valid, holds them and has no parser state |
| Contextual.ContextualLexer.SetParserState | lark/lexer.py:199-200 | only the parser state changes |
| Contextual.ContextualLexer.Current | lark/lexer.py:203-206 | the current state has a lexer exactly when it is set and listed; that lexer is one of the state lexers, and valid |
| Contextual.ContextualLexer.Start | lark/lexer.py:202-204 | a scan starts from a fresh counter with the root lexer's newline and ignored types |
| Contextual.ContextualLexer.NextToken | lark/lexer.py:202-206 | each `next()` runs the scan on with the lexer of the parser state as it is at that call; a state without a lexer ends the scan |

## Left out

- The regular-expression engine is an oracle (`LexTypes.Engine`); the model does not define regular expressions, `to_regexp`, or pattern widths. The scanning lemmas require the engine's answers to agree with the declared minimum widths and to stay inside the string (`Scanning.EngineSound`).
- Group numbering (`groupindex`, `lastindex`) is abstracted to a map from alternative index to token name, since every alternative is wrapped in its own named group.
- The message text of `LexError` and `UnexpectedInput` is not modelled; the errors carry their fields. `allowed` is always `None` in this file and is left out.
- `Token.new_borrow_pos`, `__repr__`, `__deepcopy__` and `__hash__` are left out: the core never calls them. Only `__eq__` is modelled.
- The class `Regex` (lines 51-54) is an unused data holder and is left out.
- The assertions at lines 75, 140 and 164 are guaranteed by the types here: there are two pattern kinds, every token is a `TokenDef`, and every callback is a value.
- `classify` and `is_terminal` live in other files, which are not part of this model. `classify` is a filter by pattern kind. `is_terminal` is a parameter.
- Contextual.StateTokens takes the state's tokens in token-list order, while the source iterates a Python set, whose order is unspecified. Lexers.LexerOrderIrrelevant shows that with distinct names (which the contextual lexer checks first) only two things can differ: the order of the newline types, and which bad token a sanitization error names, since `Sanitize` reports the first bad token in list order (lines 146-153).
- Lexers.LexerSpec, Lexers.NewLexer, Unless.CallbackMap and Unless.CreateUnless build their batches with the corrected `Matchers.MresFrom`, not with the code as written (`Matchers.MresAsWritten`). Where the two differ, the source's `Lexer` loses the batches for the first tokens, so lexing their text either raises `UnexpectedInput` or yields it under another token's type, while the model's lexer keeps all tokens. In the other case the source's constructor never returns, and the model returns `Err(GroupLimit)` instead; `GroupLimit` has no counterpart in the source. Matchers.AsWrittenAgreesWhenAllFit shows the two agree whenever no batch fails to compile.
- Lexers.LexerSpec and Matchers.MresFrom: the oracle tells only whether a batch fits, and every failure is read as the group limit, which halves the batch size. In the source, a batch can also fail to compile for another reason, such as two groups named after two tokens of one name. That error is not the `AssertionError` caught at line 103, so it propagates out of `Lexer.__init__` (and out of `_create_unless_callback` for repeated literal names). The model instead builds a lexer with smaller batches. Only `ContextualLexer`'s construction rejects duplicate names, with `DuplicateName`.
- Contextual.StateLexerSpec reports an unknown terminal as `UnknownTerminal` without the name, because Python's choice of name depends on set order.
- The `states` dictionary is a sequence of pairs in iteration order. A state listed twice keeps its last entry, as a dictionary update would.
- Scanning.LexSession.Next feeds the counter with a yielded token before returning it. The generator does this when it is resumed. The difference cannot be observed, except that a `KeyError` raised on resume in the contextual lexer leaves the Python counter unfed. The state of a finished generator is never read.
- A value sent into the generator (`lexer = yield t`) is ignored: the source overwrites it at the top of the loop before using it.
- Lexers.RegexpHasNewline is the textual heuristic as written. It does not flag `\s`, negated classes or other patterns that can match a newline.
- Scanning.LexAllPositions: the true line and column are proved only when no token outside the newline types can match a newline (`Scanning.NewlineSafe`), because the heuristic can miss such patterns.
- Contextual.ContextualLexer.NextToken requires every state lexer to be sound for the engine, the condition under which scanning is proved to make progress.
- Concurrency and thread ownership of sessions are not modelled.

## Findings

| source | as written | input that shows it | evidently intended | confidence | as-written member | corrected member |
|---|---|---|---|---|---|---|
| lark/lexer.py:103-104 | on a compile failure, `_build_mres` restarts with half the size on the tokens still left and returns only the batches of that restart, dropping the batches already built | four tokens `A, B, C, D` where `D` fits the group limit only alone: the result holds batches for `C` and `D` only, so text of `A` or `B` either raises `UnexpectedInput` or is yielded under another token's type | keep the batches already built and go on with the rest at the smaller size | not executed | Matchers.AsWrittenLosesTokens | Matchers.MresFrom |
| lark/lexer.py:100-107 | once the size is halved to 0, `tokens[:0]` is empty and `tokens[0:]` is the whole list, so the loop never ends | `_build_mres` called directly with one token whose pattern alone exceeds the group limit; through `Lexer`, such a pattern is caught at lines 146-150, so the loop is reached only by a pattern that compiles alone but not inside its named group, one that already uses every group the engine allows | report that the token cannot be compiled | not executed | Matchers.AsWrittenHangsOnOversizedToken | Matchers.MresFrom |
