# A verified model of a regex lexer generator

This project models the core of a small lexer generator written in Python. It turns an
ordered list of `(token name, regular expression)` pairs into one DFA, and uses that DFA to
split an input word into `(token name, text)` pairs by longest match. The pipeline, stage by
stage, with its Dafny module:

- **`RegexParser`** (`parser.dfy`): the recursive-descent parser of `src/Regex.py`.
  - `eliminate_spaces` is in `Syntax` (`syntax.dfy`).
  - The parser is the class `Parser`, whose `regex` field is the character deque.
  - Each of its methods is proved equal to a function over the input text.
  - `RegexPrinter` (`printer.dfy`) proves the parser's precedence and associativity by a
    printing round trip.
- **`Thompson`** (`thompson.dfy`): the `thompson()` methods of `Epsilon`, `Character`,
  `Concat`, `Union` and `Star`.
  - Every result is a *fragment*: states `lo..lo+n-1`, start `lo`, exactly one final state,
    and no edge leaving the block.
  - Its state count is given by the syntax of the expression.
  - Each method is proved to return a ghost function of its operands (`StarOf`, `ConcatOf`,
    `JoinOf`, `FreshOf`). Those give the exact table: the operands' transitions, moved into
    place, and the construction's ε-edges.
  - On the trees where the source raises (`Syntax.ThompsonRaises`), the model still builds
    that automaton. The parser is proved never to build such a tree.
- **`Automata`**, **`Closure`** and **`Subset`** (`automata.dfy`, `closure.dfy`,
  `subset.dfy`): the NFA record, `remap_states`, the breadth-first `epsilon_closure` and the
  worklist `subset_construction` of `src/NFA.py`. The DFA is the record the source builds
  at `src/NFA.py:128`.
- **`Merge`** (`merge.dfy`): `merge_nfas` and the per-entry steps of `Lexer.__init__`.
  - Each entry's automaton (`EntryOf`) is the Thompson automaton of its parsed regex, moved
    past the states used so far.
  - Its final state is tagged with the token name.
  - It is merged under the shared start, state 0.
- **`Scan`** (`scan.dfy`): what `lex` computes, as functions.
  - One longest-match scan from a position is `Walk`.
  - Repeated scans are `LexFrom`.
  - The properties proved about them:
    - on success the texts joined give the word, and every token is a longest match named
      by the earliest accepting entry;
    - every failure has a reason in the input.
- **`Text`** (`text.dfy`): `find_nth`, the line and column of a position, and decimal
  printing for the error messages.
- **`Lexing`** (`lexer.dfy`): the class `Lexer`.
  - Its constructor runs the whole construction.
  - `Lex` runs the source's `while` loop (in `LexWord`). It is proved to return exactly
    `Render(word, LexFrom(...))`: the tokens, or the single error pair the source builds.

At these points the model follows the code as written:

- **The error index.** The invalid-character error cites the column of the character: its
  distance from the last newline before it, or its position when there is none
  (src/Lexer.py:67-69). It does not cite the absolute index.
- **A character outside the alphabet.** It ends lexing with that error at once, even when a
  candidate token has been recorded (src/Lexer.py:108-114).
- **The EOF error.** It cites the number of newlines in the whole input (src/Lexer.py:104,
  src/Lexer.py:169), not the current line.
- **Malformed regular expressions.** They are not rejected by a designed check. The parser
  returns `None` where the source would raise. The `Lexer` constructor requires every entry
  to parse.

## Model

| member | source | states |
|---|---|---|
| Automata.RemapStates | src/NFA.py:130-146 | the renamed NFA keeps the alphabet; its start, states and final states are the images under f; every transition (q, a) -> T becomes (f(q), a) -> f(T) |
| Automata.RemapKeyOrigin | src/NFA.py:145 | every transition key of the renamed NFA is the renaming of a key of the original |
| Automata.RemapIdentity | src/NFA.py:130-146 | renaming by the identity returns an equal NFA |
| Automata.InjectiveImageSize | src/NFA.py:135 | an injective renaming keeps the number of states |
| Automata.Move | src/NFA.py:78-83 | the c-moves of a set of states are exactly the c-successors of its members: each member's c-successors are in, and every state in is a c-successor of some member |
| Closure.EpsClosure | src/NFA.py:39-50 | the ε-closure of s contains s, holds only s and transition targets, and is exactly the set of states reachable from s by ε-edges |
| Closure.EpsilonClosure | src/NFA.py:19-50 | the breadth-first worklist loop returns exactly the ε-closure of the state |
| Closure.ClosureMembers | src/NFA.py:19-37 | t is in the closure of s if and only if t is reachable from s by ε-edges |
| Closure.ClosureIsClosed | src/NFA.py:26-34 | every ε-successor of a member of the closure is a member |
| Closure.ClosureStep | src/NFA.py:26-34 | adding the ε-successors of a member keeps the closure unchanged |
| Closure.ClosureIsLeast | src/NFA.py:19-37 | the closure is contained in every ε-closed set that contains s |
| Closure.ReachBounded | src/NFA.py:28-34 | every state reachable from s is s or a transition target, so the search visits finitely many states |
| Subset.ContainsFinal | src/NFA.py:68-71 | the loop answers true if and only if the DFA state holds an NFA final state |
| Subset.MoveUnion | src/NFA.py:78-83 | the loop over the members returns the union of their c-successors |
| Subset.ClosureUnion | src/NFA.py:86-87 | the loop returns the union of the ε-closures of the states it is given |
| Subset.NextStates | src/NFA.py:75-90 | the successor on c is the ε-closure of the c-moves of all members |
| Subset.DStepEmpty | src/NFA.py:90-95 | the successor is the empty set, the sink, if and only if no member has a c-move |
| Subset.DStepInUniverse | src/NFA.py:86-90 | every successor holds only states of the NFA, so the DFA states are bounded |
| Subset.PowerSetComplete | src/NFA.py:99-102 | every set of NFA states is in the finite power set that bounds the worklist |
| Subset.AddTransitions | src/NFA.py:73-102 | adding the transitions of one DFA state on every symbol keeps all entries correct, expands that state and only grows K and the table |
| Subset.ProcessState | src/NFA.py:53-104 | one `subset_helper` step keeps the worklist invariant, only grows K, and shrinks the queue when K does not grow |
| Subset.SubsetConstruction | src/NFA.py:106-128 | the DFA has the NFA's alphabet; its start is the ε-closure of the NFA start and is a state; its transition function is total on K×S, lands in K and gives the ε-closed successors; a state is final if and only if it holds an NFA final state |
| Subset.SubsetDfaFromLoop | src/NFA.py:106-128 | what the worklist loop establishes at the end gives all of the above |
| Subset.TransitionsTotal | src/NFA.py:74-102 | every (DFA state, symbol) pair has a transition, and it lands in K |
| Subset.KeysInRange | src/NFA.py:95 | every transition key is a DFA state paired with a symbol of the alphabet |
| Subset.FinalsExact | src/NFA.py:68-71 | a DFA state is final if and only if it is a state holding an NFA final state |
| Syntax.Replace | src/Regex.py:116 | `str.replace` never lengthens the text when the replacement is no longer than the pattern, keeps its length when they are as long, and brings in no character that is not in the text or the replacement |
| Syntax.EliminateSpaces | src/Regex.py:114-117 | the result is never longer than the input, and every space left in it is escaped by a backslash |
| Syntax.EliminateSpacesKeepsEscaped | src/Regex.py:114-117 | on text without the letter s, `eliminate_spaces` keeps a space exactly when a backslash precedes it and drops every other space |
| Syntax.KeepEscapedSpacesNoSpaces | src/Regex.py:114-117 | the reference filter KeepEscapedSpaces, which EliminateSpacesKeepsEscaped equates with `eliminate_spaces` on text without the letter s, leaves text without spaces unchanged |
| Syntax.MarkEscapedStep | src/Regex.py:116 | the first replacement turns every backslash-space into backslash-s and changes nothing else |
| Syntax.DropSpaces | src/Regex.py:116 | the second replacement deletes every space and keeps every other character in order |
| RegexParser.SugarAlternatives | src/Regex.py:17-25 | the bracket sugar is a left-nested union whose alternatives are the characters of the range, in order |
| RegexParser.Parser.ParseSyntacticSugar | src/Regex.py:17-25 | the loop builds the left-nested union of the characters |
| RegexParser.SquareSpec | src/Regex.py:34-52 | a successful parse of a bracket range consumes input |
| RegexParser.SquareConsumesFive | src/Regex.py:34-52 | a bracket range consumes exactly five characters, depends only on its first character, and succeeds if and only if that is an ASCII letter or digit |
| RegexParser.Parser.ParseSquareBrackets | src/Regex.py:34-52 | the method pops the five characters and returns the sugar for the range, or fails where the source would raise |
| RegexParser.RoundSpec | src/Regex.py:27-32 | a successful parse of a parenthesised union consumes input |
| RegexParser.Parser.ParseRoundBrackets | src/Regex.py:27-32 | the method parses a union between the brackets and pops both |
| RegexParser.PartsSpec | src/Regex.py:54-65 | a successful parse of one part (group, range, escaped or plain character) consumes input |
| RegexParser.Parser.ParseConcatParts | src/Regex.py:54-65 | the method parses a bracketed group, a bracket range, an escaped character or a plain character |
| RegexParser.OperationsSpec | src/Regex.py:68-88 | at most one character, the postfix operator, is consumed, and without one the tree comes back unchanged |
| RegexParser.Parser.ParseOperations | src/Regex.py:68-88 | one postfix operator is applied: `*` to Star(E), `+` to Concat(E, Star(E)), `?` to Union(E, Epsilon) |
| RegexParser.PostfixSpec | src/Regex.py:91-92 | a successful parse of a part with its postfix operator consumes input |
| RegexParser.ConcatSpec | src/Regex.py:90-98 | a successful parse of a concatenation consumes input |
| RegexParser.ConcatTailSpec | src/Regex.py:93-96 | the loop of `parse_concat` never grows the remaining input |
| RegexParser.Parser.ParseConcat | src/Regex.py:90-98 | the loop builds the left-nested concatenation of the parts up to `|`, `)` or the end |
| RegexParser.UnionTailSpec | src/Regex.py:106-111 | the loop of `parse_union` never grows the remaining input |
| RegexParser.Parser.ParseUnion | src/Regex.py:102-112 | the loop builds the left-nested union of the concatenations separated by `|` |
| RegexParser.ParseRegex | src/Regex.py:288-292 | `parse_regex` removes spaces and parses a union |
| RegexParser.UnionSpec | src/Regex.py:102-112 | a successful parse consumes at least one character |
| RegexPrinter.RoundTripAtom | src/Regex.py:54-65 | parsing the printed form of an atom, followed by any text, gives back the atom and leaves that text |
| RegexPrinter.RoundTripPostfix | src/Regex.py:68-88 | the same for an atom with its postfix operator |
| RegexPrinter.RoundTripConcat | src/Regex.py:90-98 | printing a concatenation left-nested and parsing it gives it back: concatenation is left-associative and binds tighter than union |
| RegexPrinter.RoundTripUnion | src/Regex.py:102-112 | the same for union: union is left-associative and binds loosest |
| RegexPrinter.ParseShow | src/Regex.py:102-112 | `parse_union` reads the whole printed form of every printable expression and returns that expression |
| RegexPrinter.ParseRegexShow | src/Regex.py:288-292 | `parse_regex` of the printed form returns the expression, when it has no space or s characters |
| Thompson.EpsilonNfa | src/Regex.py:122-123 | the single state 0 is start and final; the alphabet and transition table are empty |
| Thompson.CharacterNfa | src/Regex.py:283-285 | states {0, 1}, start 0, the one transition 0 --c--> 1, final {1}, alphabet {c} |
| Thompson.ShiftedIsRemap | src/Regex.py:134 | moving every state up by k is `remap_states` with the renaming x + k, which is injective on the states |
| Thompson.MovedIsShifted | src/Regex.py:134 | the automaton moved up by k one state and one transition at a time is the shifted automaton |
| Thompson.ShiftLabels | src/NFA.py:130-146 | moving the states up leaves the set of characters that label transitions unchanged |
| Thompson.ShiftFragment | src/NFA.py:130-146 | the shift is injective and moves every state, transition and target into the new block |
| Thompson.StarOf | src/Regex.py:129-158 | the automaton of `Star` is a fragment over n+2 states with final n+1 and the operand's alphabet; the new start and the old final each have ε-edges to exactly the old start 1 and the new final |
| Thompson.StarTable | src/Regex.py:134-156 | every transition of the operand, moved up by one, is kept with the same targets, and the only keys added are the ε-keys of the new start and of the old final |
| Thompson.StarNfa | src/Regex.py:129-158 | the step-by-step updates of `Star.thompson` produce exactly StarOf of the operand's automaton |
| Thompson.ConcatOf | src/Regex.py:250-276 | the automaton of `Concat` is a fragment over nl+nr states with final fr+nl and the union alphabet; the left final's only ε-successor is the right start nl; the start keeps the left start's ε-edges unless the left start is final |
| Thompson.ConcatTable | src/Regex.py:255-270 | every transition of the left automaton and of the right one moved past it is kept with the same targets; the only key added is the ε-key of the left final |
| Thompson.ConcatNfa | src/Regex.py:250-276 | the step-by-step updates of `Concat.thompson` produce exactly ConcatOf of the operands' automata |
| Thompson.JoinOf | src/Regex.py:176-204 | when the first start fans out, the union is a fragment over n1+n2 states with the first final f1 ≠ 0 and the union alphabet; the start's ε-successors are the old ones plus the second start n1, so it still fans out; the second final's only ε-successor is f1 |
| Thompson.JoinTable | src/Regex.py:178-202 | every transition of the first automaton except the start's ε-key, and every transition of the second moved past the first, is kept with the same targets; the only key added is the ε-key of the second final |
| Thompson.JoinNfa | src/Regex.py:176-204 | the step-by-step updates of that branch of `Union.thompson` produce exactly JoinOf of the operands' automata |
| Thompson.FreshOf | src/Regex.py:206-242 | otherwise the union is a fragment over n1+n2+2 states with final n1+n2+1 and the union alphabet; the new start's ε-successors are exactly the two old starts 1 and n1+1, so it fans out; both old finals have the new final as only ε-successor |
| Thompson.FreshTable | src/Regex.py:208-240 | every transition of both operands, moved up by 1 and by n1+1, is kept with the same targets; the only keys added are the ε-keys of the new start and of the two old finals |
| Thompson.FreshNfa | src/Regex.py:206-242 | the step-by-step updates of that branch of `Union.thompson` produce exactly FreshOf of the operands' automata |
| Thompson.UnionOf | src/Regex.py:166-242 | the union is JoinOf when the first start fans out, a fragment over n1+n2 states ending in f1, and FreshOf otherwise, a fragment over n1+n2+2 states ending in n1+n2+1; either way its start fans out and its alphabet is the union of the operands' alphabets |
| Thompson.UnionNfa | src/Regex.py:166-242 | the result is JoinOf when the first start has ε-edges none of which reaches its final, and FreshOf otherwise, with the state count and the final of the case taken |
| Thompson.StarShape | src/Regex.py:129-158 | an automaton shaped as StarOf promises has the shape the syntax predicts for `Star(a)` |
| Thompson.ConcatStartEps | src/Regex.py:270-274 | the start of a concatenation has ε-edges exactly when the left operand is `Epsilon` or its own start has them |
| Thompson.ConcatFansOut | src/Regex.py:270-274 | the start of a concatenation fans out exactly when the syntax says so |
| Thompson.ConcatOfShape | src/Regex.py:250-276 | the concatenation of the automata of a and b has the shape the syntax predicts for `Concat(a, b)` |
| Thompson.JoinOfShape | src/Regex.py:176-204 | the join of the automata of a, whose start fans out, and b has the shape the syntax predicts for `Union(a, b)` |
| Thompson.FreshOfShape | src/Regex.py:206-242 | the fresh union of the automata of a, whose start does not fan out, and b has the shape the syntax predicts for `Union(a, b)` |
| Thompson.ThompsonNfa | src/Regex.py:122-285 | the automaton of every expression r is a fragment from 0 with StateCount(r) states, the final FinalOf(r) and the alphabet of r; its start is final only for `Epsilon`, and has ε-edges and fans out exactly as the syntax says; on the trees where the source raises, it is the automaton the source would build with a set for the alphabet |
| Thompson.StarLabels | src/Regex.py:148-156 | `Star` adds only ε-edges, so its transitions are labelled by the operand's characters |
| Thompson.ConcatLabels | src/Regex.py:258-270 | a concatenation's transitions are labelled by the characters of both operands and no other |
| Thompson.JoinLabels | src/Regex.py:187-202 | a union without new states is labelled by the characters of both operands and no other |
| Thompson.FreshLabels | src/Regex.py:225-240 | a union with a new start and final is labelled by the characters of both operands and no other |
| Thompson.ThompsonLabels | src/Regex.py:122-285 | the characters labelling transitions of the automaton of r are exactly the characters of r: every `Character` leaf keeps its edge |
| Thompson.Thompson | src/Regex.py:122-285 | the recursive `thompson()` returns exactly ThompsonNfa(r), whose final is FinalOf(r), on every tree where it does not raise |
| Syntax.DictAlphabetEmpty | src/Regex.py:123 | where `thompson()` does not raise, an alphabet that is still Epsilon's dict literal is empty, so its keys agree with the set Chars(r) |
| RegexParser.ParsedTreesSafe | src/Regex.py:17-112 | `thompson()` never raises on a tree `parse_regex` builds, and that tree's alphabet is a set |
| Merge.MergeNfas | src/Lexer.py:7-18 | the merged alphabet, states and finals are the unions; the transitions of the second automaton win; state 0 gets one more ε-successor, the second start |
| Merge.TagFragment | src/Lexer.py:44 | tagging the final state with the token name is injective, keeps the alphabet and the state count, and lays the fragment out as an entry |
| Merge.TagInjective | src/Lexer.py:44 | tagging the final state renames no two states of a fragment alike |
| Merge.TagStates | src/Lexer.py:44 | after tagging, the states are the block with the final tagged, still n of them; the start is the tagged start and the only final is the tagged final |
| Merge.TagShiftedLaidOut | src/Lexer.py:40-44 | moving a fragment up to lo and tagging its final gives an entry over the n states from lo, with the final f+lo tagged and the same alphabet |
| Merge.EntryOfLaidOut | src/Lexer.py:37-44 | the entry of an expression at lo lies over its StateCount states from lo, with its final tagged and the expression's characters as alphabet |
| Merge.EntryNfa | src/Lexer.py:37-44 | the automaton of one entry is exactly the Thompson automaton of the parsed regex, moved up past the offset, with its final tagged with the token name; it lies over offset+1..offset+n with the regex's characters as alphabet |
| Merge.EntryNumbers | src/Lexer.py:40-44 | every state of an entry is numbered inside its block, and the only tagged one is its final |
| Merge.EntryAvoidsRoot | src/Lexer.py:40 | an entry placed after state 0 has no transition out of state 0 |
| Merge.MergeOfEmpty | src/Lexer.py:31-32 | the merge of no entry is state 0 with an empty ε-successor set |
| Merge.MergeStep | src/Lexer.py:7-18 | merging one more entry into the merge of the entries before it gives the merge of all of them |
| Merge.OffsetsOrdered | src/Lexer.py:49 | the block of an earlier entry ends before the block of a later one starts |
| Merge.EntriesDisjoint | src/Lexer.py:27-49 | no state of one entry is a state of another entry, and none is state 0 |
| Merge.UnionDKeeps | src/Lexer.py:13 | the dictionary updates never overwrite a transition of an earlier entry |
| Merge.EntryTransitionsKept | src/Lexer.py:13 | every transition of every entry is in the merged automaton unchanged |
| Merge.MergedFinalsTagged | src/Lexer.py:44 | every final state of the merge is tagged with a token name of the specification |
| Merge.TokenNames | src/Lexer.py:55 | the token order lists the token names in specification order |
| Merge.PlanNames | src/Lexer.py:55 | the layout keeps the token names of the specification |
| Scan.IndexOf | src/Lexer.py:126 | `token_order.index(t)` is the first position holding t |
| Scan.MinTag | src/Lexer.py:123-126 | the chosen token is accepted by the DFA state, and no token the state accepts comes earlier in the specification |
| Scan.SinkAbsorbs | src/NFA.py:92-95 | once the sink is reached, no later character leaves it |
| Scan.ResumeInvalid | src/Lexer.py:108-114 | a character outside the alphabet ends lexing with an invalid-character failure at that character |
| Scan.ResumeFinal | src/Lexer.py:118-138 | a final state records the earliest accepted token over the text so far; at the end of the input it emits that token over the rest of the word |
| Scan.ResumeSink | src/Lexer.py:141-162 | the sink fails without a candidate; with one it emits the candidate and restarts at the DFA start after the candidate's text |
| Scan.ResumeLive | src/Lexer.py:164-169 | any other state moves on, and fails with an unexpected end at the end of the input |
| Scan.Walk | src/Lexer.py:106-169 | one scan matches text that ends after the scan's start and inside the word, or reports an invalid character at or after the current position |
| Scan.Resume | src/Lexer.py:106-169 | lexing on from a scan in progress reports an invalid character only inside the input from the scan's start on |
| Scan.LexFrom | src/Lexer.py:91-171 | lexing from position p reports an invalid character only inside the input from p on |
| Scan.WalkMatch | src/Lexer.py:118-162 | a scan that ends with a token ends with a longest match, named by the earliest token its final state accepts |
| Scan.LexTokens | src/Lexer.py:132-155 | when lexing succeeds, the emitted texts joined give the rest of the word, and every token is a longest match where the one before it ended |
| Scan.WalkFail | src/Lexer.py:108-169 | a scan that fails does so because of one of the following: a character outside the alphabet; the sink reached with nothing accepted since a scan start; or the input ending in a live non-final state |
| Scan.LexFailure | src/Lexer.py:108-169 | every failure of lexing has such a reason in the input |
| Text.Find | src/Lexer.py:79 | `str.find` gives the first occurrence at or after the start, or -1 when there is none |
| Text.NthIndex | src/Lexer.py:78-84 | the n-th occurrence is -1 exactly when there are fewer than n occurrences (at least one asked for); otherwise it holds c and has n - 1 occurrences before it |
| Text.NthNext | src/Lexer.py:81-83 | the next occurrence is found right after the previous one |
| Text.FindNth | src/Lexer.py:78-84 | the counting loop of `find_nth` returns the n-th occurrence |
| Text.LinesBefore | src/Lexer.py:65-66 | newlines in total minus newlines from a position on is the number of newlines before it, its line |
| Text.ColumnFromNth | src/Lexer.py:67-69 | the index computed from `find_nth` is the distance from the last newline before the position, or the position when there is none |
| Text.NatToStringRoundTrip | src/Lexer.py:60 | the decimal text of a number reads back as that number |
| Lexing.Error1 | src/Lexer.py:59-60 | the invalid-character answer is one pair with an empty token name whose message starts with "No viable alternative at character " |
| Lexing.Error1Injective | src/Lexer.py:59-60 | two invalid-character messages are equal only for the same index and line |
| Lexing.ErrorEof | src/Lexer.py:74-75 | the end-of-input answer is one pair with an empty token name whose message starts with "No viable alternative at character " |
| Lexing.ErrorEofInjective | src/Lexer.py:74-75 | different lines give different end-of-input messages: the message determines the line |
| Lexing.ErrorsDistinct | src/Lexer.py:59-60 | an invalid-character message is never an end-of-input message |
| Lexing.CreateError1 | src/Lexer.py:63-70 | the error names the column and the line of the failing character's position in the whole word |
| Lexing.RestOfDrop | src/Lexer.py:155 | re-slicing the word list after the accepted text leaves it a suffix of the word |
| Lexing.SubsetScannerDfa | src/NFA.py:106-128 | the subset DFA of an automaton whose finals are all tagged with specification tokens is total, keeps the sink absorbing, and accepts a specification token in every final state |
| Lexing.SpecEntryInPlan | src/Lexer.py:35-49 | the automaton of specification entry k lies in block k of the layout, with its final tagged with token k |
| Lexing.SpecLaidOut | src/Lexer.py:27-49 | the automata of all specification entries lie each in its own block |
| Lexing.SpecEntryIs | src/Lexer.py:37-44 | the automaton built for entry k at the current offset is the automaton of specification entry k |
| Lexing.SpecEntryFits | src/Lexer.py:40-49 | that automaton leaves state 0 alone, and the offset after it is where entry k+1 starts |
| Lexing.MergeNext | src/Lexer.py:47 | merging entry k into the merge of the entries before it gives the merge of the entries up to k |
| Lexing.MergingStep | src/Lexer.py:35-49 | one iteration merges the Thompson automaton of entry k's regex, moved past the offset and tagged, into the merge of the entries before it, giving the merge of one more entry, and moves the offset to the start of entry k+1 |
| Lexing.MergeSpec | src/Lexer.py:27-49 | the loop returns the merge of the automata of all specification entries, each the Thompson automaton of its parsed regex moved into its block and tagged with its token name |
| Lexing.BuiltScanner | src/Lexer.py:44-55 | the DFA of the merge accepts in every final state a token of the specification |
| Lexing.Lexer.constructor | src/Lexer.py:22-55 | the entries are the specification entries' Thompson automata moved into their blocks and tagged; the DFA is the subset construction of their merge; the token order is the names in specification order; the DFA is a scanner DFA |
| Lexing.ScanInvalid | src/Lexer.py:108-114 | at a character outside the alphabet, the loop and the scanner give the same error |
| Lexing.ScanFinalLast | src/Lexer.py:118-138 | at a final state on the last character, the loop appends the candidate and returns what the scanner returns |
| Lexing.FinalStep | src/Lexer.py:118-132 | a final state before the end records the candidate of the text read so far, named by MinTag, and the loop goes on from the next character |
| Lexing.ScanFinal | src/Lexer.py:118-132 | at a final state before the end, both record the candidate and go on alike |
| Lexing.SinkStep | src/Lexer.py:148-162 | at the sink with a candidate, the candidate's text is the word from the token start to the last accept, and the loop restarts from the start state just after it with the candidate appended |
| Lexing.RestartOutcome | src/Lexer.py:148-162 | the scanner emitting the candidate and restarting after its text answers the same as restarting with the candidate already appended |
| Lexing.ScanRestart | src/Lexer.py:148-162 | at the sink with a candidate, both emit it and restart after its text alike |
| Lexing.ScanSink | src/Lexer.py:141-162 | at the sink, both fail alike without a candidate; with one, both emit it and restart after its text |
| Lexing.ScanLive | src/Lexer.py:164-169 | in any other state, both move on alike, or both report the end of input |
| Lexing.LexLoopScans | src/Lexer.py:106-169 | entered with any consistent variables, the loop returns the tokens found so far followed by what the scanner gives from there |
| Lexing.LexLoopIsLex | src/Lexer.py:91-171 | entered with the initial variables, the loop returns what the longest-match scanner returns for the word |
| Lexing.LexAnswer | src/Lexer.py:86-171 | on success the answer is the tokens, whose texts join to the word and are each a longest match; on failure the reason is in the word, and the answer is one pair with an empty token name |
| Lexing.LexWord | src/Lexer.py:86-171 | the `while` loop of `lex` returns exactly the tokens of the longest-match scan, or the error pair for its failure |
| Lexing.Lexer.Lex | src/Lexer.py:86-171 | `lex` on the lexer's DFA returns the same |

## Left out

- Language correctness of the Thompson construction is not proved: that every automaton
  accepts exactly the language of its expression. The model pins each automaton down exactly
  instead: wherever `thompson()` does not raise, it returns `ThompsonNfa(r)`, each step keeps
  every transition of its operands and adds only its own ε-edges, and the labels are exactly
  the characters of r.
- Thompson.Thompson: does not model the `ValueError` that `thompson()` raises on the trees
  where `Syntax.ThompsonRaises` holds, such as `Concat(Epsilon, Character('a'))`. There
  `Epsilon` passes on its dict literal `{}` as the alphabet (src/Regex.py:123, src/NFA.py:146),
  and `dict.update` with a set of characters fails (src/Regex.py:197, 216, 261). The model
  returns `ThompsonNfa(r)` on those trees too. `RegexParser.ParsedTreesSafe` proves that
  `parse_regex` never builds such a tree, so the lexer never reaches the raise.
- Mutation in place is modelled as values.
  - The automata built by `thompson()` and `merge_nfas` are datatype values that the methods
    rebuild.
  - Every NFA the source mutates is freshly built. Its parts are shared only with values that
    are then discarded, so no aliasing is observable. For example, `remap_states` hands the
    original's alphabet object to its result (src/NFA.py:146), and the original is dropped.
  - The mutation of `new_nfa` by `merge_nfas` becomes a reassignment of the returned value.
- The recursion of `eps_helper` and `subset_helper` is modelled as `while` loops over a
  worklist. The interpreter's stack depth is not modelled.
- Set and dictionary iteration order is not modelled. The results do not depend on it.
- The `print` calls at src/Lexer.py:112-113 are debugging output and are left out.
- Python exceptions on malformed expressions are modelled as `None` from the parser:
  `IndexError` from an empty deque, and the unbound `set_char` after a bracket.
  `Lexing.Lexer.constructor` requires every entry to parse.
- `isalpha`, `islower` and `isdigit` are modelled on ASCII. The bracket sugar only uses
  `a-z`, `A-Z` and `0-9`. A bracket range that starts with a non-ASCII letter or digit, such
  as `[é-z]`, gets one of those three ranges in the source (src/Regex.py:34-52). The model
  fails to parse it instead, so the `Parses(spec)` requirement of `Lexing.Lexer.constructor`
  excludes such specifications.
- `DFA.py` is not part of this model. The DFA is the plain record the source constructs.
- `src/Interpreter.py` and `src/main.py` are not part of this model. They hold the
  downstream evaluator and the file and argument handling.
- Subset.SubsetConstruction: does not state that K holds only the sets reachable from the
  start state. The loop adds a set to K only as the successor of a set already in K
  (src/NFA.py:99-102). The contract states that K contains the start state and is closed
  under every transition, which is what lexing observes.
- Automata.RemapStates: requires the renaming to be injective on the states. A renaming that
  merges two transition keys would make the source's dictionary comprehension keep whichever
  entry comes last in dictionary order. Every renaming the source performs is injective.
- Syntax.EliminateSpacesKeepsEscaped: stated for text without the letter `s`. The source uses
  backslash-s as a placeholder, so an escaped `s` in an expression is turned into an escaped
  space. `EliminateSpaces` itself models that as written.
- RegexPrinter.ParseRegexShow: stated for expressions without space or `s` characters, for
  the same reason.
- The merged automaton's state set never contains state 0 (src/Lexer.py:31). The model keeps
  this as written.
