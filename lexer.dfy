/**
 * The lexer (src/Lexer.py): the constructor builds the DFA of an ordered specification of
 * (token name, regular expression) pairs, and `lex` splits a word into (token name, text) pairs
 * by longest match, or returns a single error pair naming where the match failed.
 */
module Lexing {
  import opened Wrappers
  import opened Automata
  import opened Subset
  import opened Merge
  import opened Scan
  import opened Text
  import opened RegexParser
  import opened Thompson

  /** The first words of both error messages. */
  const NoViable: string := "No viable alternative at character "

  /**
   * `error1` (src/Lexer.py:59-60): no token can be matched at column index of line line. The
   * answer is one pair with an empty token name, whose message starts with NoViable.
   */
  function Error1(index: nat, line: nat): (r: seq<(string, string)>)
    ensures |r| == 1 && r[0].0 == "" && NoViable <= r[0].1
  {
    [("", NoViable + NatToString(index) + ", line " + NatToString(line))]
  }

  /**
   * `error_eof` (src/Lexer.py:74-75): the word ended inside a possible token. The answer is one
   * pair with an empty token name, whose message starts with NoViable.
   */
  function ErrorEof(line: nat): (r: seq<(string, string)>)
    ensures |r| == 1 && r[0].0 == "" && NoViable <= r[0].1
  {
    [("", NoViable + "EOF, line " + NatToString(line))]
  }

  /** A comma right after a shorter run of digits sits where the longer run has a digit. */
  lemma CommaAfterDigits(a: string, x: string, b: string, y: string)
    requires forall i :: 0 <= i < |b| ==> '0' <= b[i] <= '9'
    requires |x| > 0 && x[0] == ',' && |a| < |b|
    ensures a + x != b + y
  {
    assert (a + x)[|a|] != (b + y)[|a|];
  }

  /** Two runs of digits each followed by a comma are equal when the texts are. */
  lemma DigitsBeforeComma(a: string, x: string, b: string, y: string)
    requires forall i :: 0 <= i < |a| ==> '0' <= a[i] <= '9'
    requires forall i :: 0 <= i < |b| ==> '0' <= b[i] <= '9'
    requires |x| > 0 && x[0] == ',' && |y| > 0 && y[0] == ','
    requires a + x == b + y
    ensures a == b && x == y
  {
    if |a| < |b| {
      CommaAfterDigits(a, x, b, y);
      assert false;
    } else if |b| < |a| {
      CommaAfterDigits(b, y, a, x);
      assert false;
    }
    assert a == (a + x)[..|a|] && b == (b + y)[..|b|];
    assert x == (a + x)[|a|..] && y == (b + y)[|b|..];
  }

  /** The message of an invalid-character error after its first words. */
  lemma Error1Tail(index: nat, line: nat)
    ensures Error1(index, line)[0].1[|NoViable|..] == NatToString(index) + (", line " + NatToString(line))
  {
    var m := Error1(index, line)[0].1;
    assert m == NoViable + (NatToString(index) + (", line " + NatToString(line)));
  }

  /** Different positions give different error messages: the message determines the position. */
  lemma Error1Injective(index: nat, line: nat, index': nat, line': nat)
    requires Error1(index, line) == Error1(index', line')
    ensures index == index' && line == line'
  {
    Error1Tail(index, line);
    Error1Tail(index', line');
    var x, y := ", line " + NatToString(line), ", line " + NatToString(line');
    DigitsBeforeComma(NatToString(index), x, NatToString(index'), y);
    assert NatToString(line) == x[7..] && NatToString(line') == y[7..];
    NatToStringRoundTrip(index);
    NatToStringRoundTrip(index');
    NatToStringRoundTrip(line);
    NatToStringRoundTrip(line');
  }

  /** Different lines give different end-of-input messages: the message determines the line. */
  lemma ErrorEofInjective(line: nat, line': nat)
    requires ErrorEof(line) == ErrorEof(line')
    ensures line == line'
  {
    var head := NoViable + "EOF, line ";
    var m, m' := ErrorEof(line)[0].1, ErrorEof(line')[0].1;
    assert m == head + NatToString(line) && m' == head + NatToString(line');
    assert NatToString(line) == m[|head|..] && NatToString(line') == m'[|head|..];
    NatToStringRoundTrip(line);
    NatToStringRoundTrip(line');
  }

  /** The end-of-input error differs from every invalid-character error. */
  lemma ErrorsDistinct(index: nat, line: nat, line': nat)
    ensures Error1(index, line) != ErrorEof(line')
  {
    var m, m' := Error1(index, line)[0].1, ErrorEof(line')[0].1;
    assert m[|NoViable|] == NatToString(index)[0];
    assert m'[|NoViable|] == 'E';
  }

  /**
   * The answer `lex` gives for an outcome: the tokens, the invalid-character error at the
   * column and line of the character, or the end-of-input error with the number of newlines
   * in the whole word as the line.
   */
  function Render(word: string, o: Outcome): seq<(string, string)>
  {
    match o
    case Tokens(ts) => ts
    case Failed(UnexpectedEnd) => ErrorEof(Count(word, '\n'))
    case Failed(InvalidCharacter(j)) => if j <= |word| then Error1(Column(word, j), Line(word, j)) else []
  }

  /** The word list is what is left of the word: its last |wordList| characters. */
  ghost predicate RestOf(wordList: string, word: string)
  {
    |wordList| <= |word| && forall k :: 0 <= k < |wordList| ==> wordList[k] == word[|word| - |wordList| + k]
  }

  /** What is left of the word after i more characters of the word list is a suffix of the word. */
  lemma RestOfSuffix(wordList: string, word: string, i: nat)
    requires RestOf(wordList, word) && i <= |wordList|
    ensures wordList[i..] == word[|word| - |wordList| + i..]
  {
  }

  /** Dropping characters from the front of the word list leaves what is left of the word. */
  lemma RestOfDrop(wordList: string, word: string, k: nat)
    requires RestOf(wordList, word) && k <= |wordList|
    ensures RestOf(wordList[k..], word)
  {
  }

  /**
   * `create_error1` (src/Lexer.py:63-70): the word list is the rest of the word after the
   * tokens already matched, and the error is at its i-th character. The reported index is the
   * column of that character (its distance from the newline before it, or its position when
   * there is none) and the line is the number of newlines before it.
   */
  method CreateError1(wordList: string, word: string, i: nat) returns (r: seq<(string, string)>)
    requires RestOf(wordList, word) && i <= |wordList|
    ensures r == Error1(Column(word, |word| - |wordList| + i), Line(word, |word| - |wordList| + i))
  {
    ghost var p := |word| - |wordList| + i;
    RestOfSuffix(wordList, word, i);
    LinesBefore(word, p);
    ColumnFromNth(word, p);
    var charCount := |word|;
    var linesInTotal: int := Count(word, '\n');
    var linesLeft: int := Count(wordList[i..], '\n');
    var posLastNewline := -1;
    if linesInTotal != linesLeft {
      posLastNewline := FindNth(word, '\n', linesInTotal - linesLeft);
    }
    var charCountLeft := |wordList[i..]|;
    var index := if posLastNewline != -1 then charCount - charCountLeft - posLastNewline - 1
                 else charCount - charCountLeft;
    assert linesInTotal - linesLeft == Line(word, p);
    assert index == Column(word, p);
    r := Error1(index, linesInTotal - linesLeft);
  }

  /**
   * The subset-construction DFA of an automaton whose final states are all tagged with names
   * of order has what the scanner relies on; in particular the sink is absorbing.
   */
  lemma SubsetScannerDfa(nfa: Nfa<State>, dfa: Dfa<set<State>>, order: seq<string>)
    requires SubsetDfa(nfa, dfa)
    requires forall x :: x in nfa.F ==> x.Tagged? && x.token in order
    ensures ScannerDfa(dfa, order)
  {
    forall c | c in dfa.S && {} in dfa.K ensures dfa.d[({}, c)] == {} {
      DStepEmpty(nfa, {}, c);
    }
    forall X | X in dfa.F ensures X in dfa.K && Accepts(X, order) {
      var x :| x in X * nfa.F;
    }
  }

  /** What lexing a word comes to, from the scanner's outcome on it. */
  lemma LexAnswer(dfa: Dfa<set<State>>, order: seq<string>, word: string)
    requires ScannerDfa(dfa, order)
    ensures var o := LexFrom(dfa, order, word, 0);
            && (o.Tokens? ==> Render(word, o) == o.tokens && Texts(o.tokens) == word &&
                              AllLongest(dfa, order, word, 0, o.tokens))
            && (o.Failed? ==> Explains(dfa, order, word, 0, o.failure) &&
                              |Render(word, o)| == 1 && Render(word, o)[0].0 == "")
  {
    var o := LexFrom(dfa, order, word, 0);
    if o.Tokens? {
      LexTokens(dfa, order, word, 0, o.tokens);
    } else {
      LexFailure(dfa, order, word, 0, o.failure);
    }
  }

  /** Laying out one more entry in its block keeps the entries laid out. */
  lemma LaidOutStep(es: seq<Nfa<State>>, fs: seq<int>, plan: seq<(string, nat)>, e: Nfa<State>, f: int)
    requires LaidOut(es, fs, plan) && |es| < |plan|
    requires EntryAt(e, plan, |es|, f)
    ensures LaidOut(es + [e], fs + [f], plan)
  {
    var es', fs' := es + [e], fs + [f];
    forall k | 0 <= k < |es'| ensures EntryAt(es'[k], plan, k, fs'[k]) {
      if k < |es| {
        assert es'[k] == es[k] && fs'[k] == fs[k];
      }
    }
  }

  /** The first state of the block of specification entry k. */
  function Start(spec: seq<(string, string)>, k: nat): int
    requires Parses(spec) && k < |spec|
  {
    Offset(Plan(spec), k) + 1
  }

  /** The automaton of specification entry k, in its block of the plan. */
  ghost function SpecEntry(spec: seq<(string, string)>, k: nat): Nfa<State>
    requires Parses(spec) && k < |spec|
  {
    EntryOf(spec[k].0, ParseRegexSpec(spec[k].1).value, Start(spec, k))
  }

  /** The final state of the automaton of specification entry k. */
  ghost function SpecFinal(spec: seq<(string, string)>, k: nat): int
    requires Parses(spec) && k < |spec|
  {
    FinalAt(ParseRegexSpec(spec[k].1).value, Start(spec, k))
  }

  /** The automata of the specification entries, in order. */
  ghost function SpecEntries(spec: seq<(string, string)>): seq<Nfa<State>>
    requires Parses(spec)
  {
    seq(|spec|, j requires 0 <= j < |spec| => SpecEntry(spec, j))
  }

  /** The final states of the automata of the specification entries, in order. */
  ghost function SpecFinals(spec: seq<(string, string)>): seq<int>
    requires Parses(spec)
  {
    seq(|spec|, j requires 0 <= j < |spec| => SpecFinal(spec, j))
  }

  /** Entry k lies in block k of the plan. */
  lemma SpecEntryInPlan(spec: seq<(string, string)>, k: nat)
    requires Parses(spec) && k < |spec|
    ensures EntryAt(SpecEntry(spec, k), Plan(spec), k, SpecFinal(spec, k))
  {
    var plan, tree, lo := Plan(spec), ParseRegexSpec(spec[k].1).value, Start(spec, k);
    EntryOfLaidOut(spec[k].0, tree, lo);
    assert lo == Offset(plan, k) + 1;
    assert plan[k] == (spec[k].0, StateCount(tree));
  }

  /** The automata of the specification entries lie each in its own block of the plan. */
  lemma SpecLaidOut(spec: seq<(string, string)>)
    requires Parses(spec)
    ensures LaidOut(SpecEntries(spec), SpecFinals(spec), Plan(spec)) && |SpecEntries(spec)| == |spec|
  {
    var es, fs := SpecEntries(spec), SpecFinals(spec);
    forall j | 0 <= j < |spec| ensures EntryAt(es[j], Plan(spec), j, fs[j]) {
      SpecEntryInPlan(spec, j);
    }
  }

  /** The first k + 1 elements are the first k and then element k. */
  lemma TakeOneMore<T>(s: seq<T>, k: nat)
    requires k < |s|
    ensures s[..k + 1] == s[..k] + [s[k]]
  {
  }

  /** Element k of the entries is the automaton of specification entry k. */
  lemma SpecEntryAt(spec: seq<(string, string)>, k: nat)
    requires Parses(spec) && k < |spec|
    ensures SpecEntries(spec)[k] == SpecEntry(spec, k)
  {
  }

  /** Merging entry k into the merge of the entries before it gives the merge of one more. */
  lemma MergeNext(es: seq<Nfa<State>>, k: nat, m: Nfa<State>, e: Nfa<State>, merged: Nfa<State>)
    requires k < |es| && es[k] == e && m == MergeOf(es[..k])
    requires (Root, Eps) !in e.d && Merged(m, e, merged)
    ensures merged == MergeOf(es[..k + 1])
  {
    MergeStep(es[..k], m, e, merged);
    TakeOneMore(es, k);
  }

  /**
   * The state of the constructor's loop before specification entry k: `new_nfa` is the merge of
   * the automata of the entries before it, and `offset_of_states` is past their states.
   */
  ghost predicate Merging(spec: seq<(string, string)>, k: nat, m: Nfa<State>, offset: int)
    requires Parses(spec)
  {
    k <= |spec| && m == MergeOf(SpecEntries(spec)[..k]) && offset == Offset(Plan(spec), k)
  }

  /**
   * One step of the constructor's loop: merging the automaton of entry k into the merge of the
   * entries before it gives the merge of one more entry, with the offset moved past its states.
   */
  lemma MergingStep(spec: seq<(string, string)>, k: nat, m: Nfa<State>, offset: int,
                    e: Nfa<State>, merged: Nfa<State>)
    requires Parses(spec) && k < |spec| && Merging(spec, k, m, offset)
    requires e == EntryOf(spec[k].0, ParseRegexSpec(spec[k].1).value, offset + 1) && Merged(m, e, merged)
    ensures Merging(spec, k + 1, merged, offset + |e.K|)
  {
    SpecEntryIs(spec, k, offset, e);
    SpecEntryFits(spec, k, offset, e);
    MergeNext(SpecEntries(spec), k, m, e, merged);
  }

  /** The automaton built for entry k past the states of the entries before it is element k. */
  lemma SpecEntryIs(spec: seq<(string, string)>, k: nat, offset: int, e: Nfa<State>)
    requires Parses(spec) && k < |spec| && offset == Offset(Plan(spec), k)
    requires e == EntryOf(spec[k].0, ParseRegexSpec(spec[k].1).value, offset + 1)
    ensures SpecEntries(spec)[k] == e
  {
    SpecEntryAt(spec, k);
    assert Start(spec, k) == offset + 1;
  }

  /**
   * The automaton built for entry k past the states of the entries before it does not touch the
   * shared start, and its states end where entry k + 1 starts.
   */
  lemma SpecEntryFits(spec: seq<(string, string)>, k: nat, offset: int, e: Nfa<State>)
    requires Parses(spec) && k < |spec| && offset == Offset(Plan(spec), k)
    requires e == EntryOf(spec[k].0, ParseRegexSpec(spec[k].1).value, offset + 1)
    ensures (Root, Eps) !in e.d && offset + |e.K| == Offset(Plan(spec), k + 1)
  {
    var tree := ParseRegexSpec(spec[k].1).value;
    EntryOfLaidOut(spec[k].0, tree, offset + 1);
    EntryAvoidsRoot(e, spec[k].0, offset + 1, StateCount(tree), FinalAt(tree, offset + 1));
  }

  /** The DFA built from laid-out entries has what the scanner relies on. */
  lemma BuiltScanner(es: seq<Nfa<State>>, fs: seq<int>, spec: seq<(string, string)>,
                     nfa: Nfa<State>, dfa: Dfa<set<State>>)
    requires Parses(spec) && LaidOut(es, fs, Plan(spec)) && nfa == MergeOf(es) && SubsetDfa(nfa, dfa)
    ensures ScannerDfa(dfa, TokenNames(spec))
  {
    PlanNames(spec);
    forall x | x in nfa.F ensures x.Tagged? && x.token in TokenNames(spec) {
      MergedFinalsTagged(es, fs, Plan(spec), x);
    }
    SubsetScannerDfa(nfa, dfa, TokenNames(spec));
  }

  /**
   * The loop of `__init__` (src/Lexer.py:25-46): each entry's automaton is built past the
   * states used so far, tagged and merged in, and the offset moves past its states. The result
   * is the merge of the automata of all the entries.
   */
  method MergeSpec(spec: seq<(string, string)>) returns (newNfa: Nfa<State>)
    requires Parses(spec)
    ensures newNfa == MergeOf(SpecEntries(spec))
  {
    var offsetOfStates := 0;
    newNfa := Nfa({}, {}, Root, map[], {});
    newNfa := newNfa.(d := newNfa.d[(Root, Eps) := {}]);
    MergeOfEmpty();
    for k := 0 to |spec|
      invariant Merging(spec, k, newNfa, offsetOfStates)
    {
      var entry := EntryNfa(spec[k].0, spec[k].1, offsetOfStates);
      var merged := MergeNfas(newNfa, entry);
      MergingStep(spec, k, newNfa, offsetOfStates, entry, merged);
      newNfa := merged;
      offsetOfStates := offsetOfStates + |entry.K|;
    }
    assert SpecEntries(spec)[..|spec|] == SpecEntries(spec);
  }

  /**
   * The loop of `lex` (src/Lexer.py:106-171) as a function of its variables: the answer `lex`
   * returns when the loop is entered with these values.
   */
  ghost function LexLoop(dfa: Dfa<set<State>>, order: seq<string>, word: string, wordList: string,
                         nextState: set<State>, lastTimeItAccepted: nat, i: nat,
                         tokenList: seq<(string, string)>, possiblePair: Option<(string, string)>,
                         wasInFinalState: bool): seq<(string, string)>
    requires ScannerDfa(dfa, order) && nextState in dfa.K
    requires |wordList| <= |word| && i <= |wordList|
    requires wasInFinalState ==> lastTimeItAccepted < i
    decreases |wordList|, |wordList| - i
  {
    if i == |wordList| then tokenList
    else if (nextState, wordList[i]) !in dfa.d then
      Error1(Column(word, |word| - |wordList| + i), Line(word, |word| - |wordList| + i))
    else
      var next := dfa.d[(nextState, wordList[i])];
      if next in dfa.F then
        var pair := (MinTag(next, order), wordList[..i + 1]);
        if i + 1 == |wordList| then tokenList + [pair]
        else LexLoop(dfa, order, word, wordList, next, i, i + 1, tokenList, Some(pair), true)
      else if next == {} then
        if !wasInFinalState then
          Error1(Column(word, |word| - |wordList| + i), Line(word, |word| - |wordList| + i))
        else
          var kept := if possiblePair.Some? then tokenList + [possiblePair.value] else tokenList;
          LexLoop(dfa, order, word, wordList[lastTimeItAccepted + 1..], dfa.q0, lastTimeItAccepted, 0,
                  kept, None, false)
      else if i + 1 == |wordList| then ErrorEof(Count(word, '\n'))
      else LexLoop(dfa, order, word, wordList, next, lastTimeItAccepted, i + 1, tokenList, possiblePair,
                   wasInFinalState)
  }

  /** The scanner's candidate for the loop's accepted pair, which ends at end. */
  function Candidate(possiblePair: Option<(string, string)>, end: nat): (c: Option<(string, nat)>)
    ensures c.Some? <==> possiblePair.Some?
    ensures c.Some? ==> c.value == (possiblePair.value.0, end)
  {
    if possiblePair.Some? then Some((possiblePair.value.0, end)) else None
  }

  /** The first n characters of the rest of the word from base are the word from base to base + n. */
  lemma PrefixOfRest(word: string, base: nat, wordList: string, n: nat)
    requires base + |wordList| == |word| && RestOf(wordList, word) && n <= |wordList|
    ensures wordList[..n] == word[base..base + n]
    ensures n == |wordList| ==> wordList[..n] == word[base..]
  {
  }

  /**
   * The loop's variables in the middle of a scan that started at base: the word list is the
   * rest of the word from base, and the accepted pair is the text up to just after
   * lastTimeItAccepted.
   */
  ghost predicate Scanning(dfa: Dfa<set<State>>, order: seq<string>, word: string, base: nat, wordList: string,
                           nextState: set<State>, lastTimeItAccepted: nat, i: nat,
                           possiblePair: Option<(string, string)>, wasInFinalState: bool)
  {
    && ScannerDfa(dfa, order) && nextState in dfa.K
    && base + |wordList| == |word| && RestOf(wordList, word) && i < |wordList|
    && (wasInFinalState <==> possiblePair.Some?)
    && (wasInFinalState ==>
          lastTimeItAccepted < i && possiblePair.value.1 == wordList[..lastTimeItAccepted + 1])
  }

  /**
   * Entered with such variables, the loop gives the tokens already found followed by what the
   * longest-match scanner gives from here.
   */
  ghost predicate LoopScans(dfa: Dfa<set<State>>, order: seq<string>, word: string, base: nat, wordList: string,
                            nextState: set<State>, lastTimeItAccepted: nat, i: nat,
                            tokenList: seq<(string, string)>, possiblePair: Option<(string, string)>,
                            wasInFinalState: bool)
    requires Scanning(dfa, order, word, base, wordList, nextState, lastTimeItAccepted, i, possiblePair,
                      wasInFinalState)
  {
    LexLoop(dfa, order, word, wordList, nextState, lastTimeItAccepted, i, tokenList, possiblePair,
            wasInFinalState) ==
    Render(word, Prefixed(tokenList, Resume(dfa, order, word, base, base + i, nextState,
                                            Candidate(possiblePair, base + lastTimeItAccepted + 1))))
  }

  /** A character outside the alphabet: both report an invalid character there. */
  lemma {:induction false} ScanInvalid(dfa: Dfa<set<State>>, order: seq<string>, word: string, base: nat, wordList: string,
                    nextState: set<State>, lastTimeItAccepted: nat, i: nat, tokenList: seq<(string, string)>,
                    possiblePair: Option<(string, string)>, wasInFinalState: bool)
    requires Scanning(dfa, order, word, base, wordList, nextState, lastTimeItAccepted, i, possiblePair,
                      wasInFinalState)
    requires (nextState, wordList[i]) !in dfa.d
    ensures LoopScans(dfa, order, word, base, wordList, nextState, lastTimeItAccepted, i, tokenList,
                      possiblePair, wasInFinalState)
  {
    assert word[base + i] == wordList[i];
    var cand := Candidate(possiblePair, base + lastTimeItAccepted + 1);
    ResumeInvalid(dfa, order, word, base, base + i, nextState, cand);
    var failed := Resume(dfa, order, word, base, base + i, nextState, cand);
    assert Prefixed(tokenList, failed) == failed;
    assert |word| - |wordList| + i == base + i;
  }

  /** A final state at the last character: both end with the token of the whole rest. */
  lemma ScanFinalLast(dfa: Dfa<set<State>>, order: seq<string>, word: string, base: nat,
                                         wordList: string, nextState: set<State>, lastTimeItAccepted: nat, i: nat,
                                         tokenList: seq<(string, string)>, possiblePair: Option<(string, string)>,
                                         wasInFinalState: bool)
    requires Scanning(dfa, order, word, base, wordList, nextState, lastTimeItAccepted, i, possiblePair,
                      wasInFinalState)
    requires (nextState, wordList[i]) in dfa.d && dfa.d[(nextState, wordList[i])] in dfa.F
    requires i + 1 == |wordList|
    ensures LoopScans(dfa, order, word, base, wordList, nextState, lastTimeItAccepted, i, tokenList,
                      possiblePair, wasInFinalState)
  {
    assert word[base + i] == wordList[i];
    var t := MinTag(dfa.d[(nextState, wordList[i])], order);
    var cand := Candidate(possiblePair, base + lastTimeItAccepted + 1);
    ResumeFinal(dfa, order, word, base, base + i, nextState, cand);
    PrefixOfRest(word, base, wordList, i + 1);
    assert Resume(dfa, order, word, base, base + i, nextState, cand) == Tokens([(t, word[base..])]);
    assert LexLoop(dfa, order, word, wordList, nextState, lastTimeItAccepted, i, tokenList, possiblePair,
                   wasInFinalState) == tokenList + [(t, wordList[..i + 1])];
  }

  /** Reaching a final state before the last character: the loop goes on with that state as candidate. */
  lemma FinalStep(dfa: Dfa<set<State>>, order: seq<string>, word: string, base: nat,
                  wordList: string, nextState: set<State>, lastTimeItAccepted: nat, i: nat,
                  tokenList: seq<(string, string)>, possiblePair: Option<(string, string)>,
                  wasInFinalState: bool)
    requires Scanning(dfa, order, word, base, wordList, nextState, lastTimeItAccepted, i, possiblePair,
                      wasInFinalState)
    requires (nextState, wordList[i]) in dfa.d && dfa.d[(nextState, wordList[i])] in dfa.F
    requires i + 1 < |wordList|
    ensures var next := dfa.d[(nextState, wordList[i])];
            var pair := (MinTag(next, order), wordList[..i + 1]);
            && Scanning(dfa, order, word, base, wordList, next, i, i + 1, Some(pair), true)
            && LexLoop(dfa, order, word, wordList, nextState, lastTimeItAccepted, i, tokenList, possiblePair,
                       wasInFinalState) ==
               LexLoop(dfa, order, word, wordList, next, i, i + 1, tokenList, Some(pair), true)
  {
  }

  /** Reaching a final state: both take the text so far as the candidate and go on. */
  lemma {:induction false} ScanFinal(dfa: Dfa<set<State>>, order: seq<string>, word: string, base: nat,
                                     wordList: string, nextState: set<State>, lastTimeItAccepted: nat, i: nat,
                                     tokenList: seq<(string, string)>, possiblePair: Option<(string, string)>,
                                     wasInFinalState: bool)
    requires Scanning(dfa, order, word, base, wordList, nextState, lastTimeItAccepted, i, possiblePair,
                      wasInFinalState)
    requires (nextState, wordList[i]) in dfa.d && dfa.d[(nextState, wordList[i])] in dfa.F
    requires i + 1 < |wordList|
    ensures LoopScans(dfa, order, word, base, wordList, nextState, lastTimeItAccepted, i, tokenList,
                      possiblePair, wasInFinalState)
    decreases |wordList|, |wordList| - i, 0
  {
    assert word[base + i] == wordList[i];
    var next := dfa.d[(nextState, wordList[i])];
    var pair := (MinTag(next, order), wordList[..i + 1]);
    ResumeFinal(dfa, order, word, base, base + i, nextState, Candidate(possiblePair, base + lastTimeItAccepted + 1));
    PrefixOfRest(word, base, wordList, i + 1);
    FinalStep(dfa, order, word, base, wordList, nextState, lastTimeItAccepted, i, tokenList, possiblePair,
              wasInFinalState);
    assert Candidate(Some(pair), base + i + 1) == Some((pair.0, base + i + 1));
    LexLoopScans(dfa, order, word, base, wordList, next, i, i + 1, tokenList, Some(pair), true);
  }

  /**
   * Reaching the sink with a candidate: the loop restarts just after the candidate, which is the
   * text from base up to there, with the candidate added to the tokens.
   */
  lemma SinkStep(dfa: Dfa<set<State>>, order: seq<string>, word: string, base: nat,
                 wordList: string, nextState: set<State>, lastTimeItAccepted: nat, i: nat,
                 tokenList: seq<(string, string)>, possiblePair: Option<(string, string)>)
    requires Scanning(dfa, order, word, base, wordList, nextState, lastTimeItAccepted, i, possiblePair, true)
    requires (nextState, wordList[i]) in dfa.d && dfa.d[(nextState, wordList[i])] == {}
    ensures var rest := wordList[lastTimeItAccepted + 1..];
            var pair := possiblePair.value;
            && pair == (pair.0, word[base..base + lastTimeItAccepted + 1])
            && Scanning(dfa, order, word, base + lastTimeItAccepted + 1, rest, dfa.q0, lastTimeItAccepted, 0, None, false)
            && LexLoop(dfa, order, word, wordList, nextState, lastTimeItAccepted, i, tokenList, possiblePair, true)
               == LexLoop(dfa, order, word, rest, dfa.q0, lastTimeItAccepted, 0, tokenList + [pair], None, false)
  {
    RestOfDrop(wordList, word, lastTimeItAccepted + 1);
    PrefixOfRest(word, base, wordList, lastTimeItAccepted + 1);
  }

  /** Reaching the sink: both fail without a candidate, and restart after it with one. */
  lemma {:induction false} ScanSink(dfa: Dfa<set<State>>, order: seq<string>, word: string, base: nat,
                                    wordList: string, nextState: set<State>, lastTimeItAccepted: nat, i: nat,
                                    tokenList: seq<(string, string)>, possiblePair: Option<(string, string)>,
                                    wasInFinalState: bool)
    requires Scanning(dfa, order, word, base, wordList, nextState, lastTimeItAccepted, i, possiblePair,
                      wasInFinalState)
    requires (nextState, wordList[i]) in dfa.d && dfa.d[(nextState, wordList[i])] == {}
    ensures LoopScans(dfa, order, word, base, wordList, nextState, lastTimeItAccepted, i, tokenList,
                      possiblePair, wasInFinalState)
    decreases |wordList|, |wordList| - i, 1
  {
    if wasInFinalState {
      ScanRestart(dfa, order, word, base, wordList, nextState, lastTimeItAccepted, i, tokenList, possiblePair);
    } else {
      assert word[base + i] == wordList[i];
      ResumeSink(dfa, order, word, base, base + i, nextState, None);
      assert LexLoop(dfa, order, word, wordList, nextState, lastTimeItAccepted, i, tokenList, possiblePair, false)
             == Error1(Column(word, base + i), Line(word, base + i));
    }
  }

  /** Reaching the sink with a candidate: both emit it and go on just after its text. */
  lemma {:induction false} ScanRestart(dfa: Dfa<set<State>>, order: seq<string>, word: string, base: nat,
                                       wordList: string, nextState: set<State>, lastTimeItAccepted: nat, i: nat,
                                       tokenList: seq<(string, string)>, possiblePair: Option<(string, string)>)
    requires Scanning(dfa, order, word, base, wordList, nextState, lastTimeItAccepted, i, possiblePair, true)
    requires (nextState, wordList[i]) in dfa.d && dfa.d[(nextState, wordList[i])] == {}
    ensures LoopScans(dfa, order, word, base, wordList, nextState, lastTimeItAccepted, i, tokenList,
                      possiblePair, true)
    decreases |wordList|, |wordList| - i, 0
  {
    var restart := base + lastTimeItAccepted + 1;
    var pair := possiblePair.value;
    assert word[base + i] == wordList[i];
    SinkStep(dfa, order, word, base, wordList, nextState, lastTimeItAccepted, i, tokenList, possiblePair);
    RestartOutcome(dfa, order, word, base, base + i, nextState, restart, pair, tokenList);
    assert Candidate(possiblePair, restart) == Some((pair.0, restart));
    LexLoopScans(dfa, order, word, restart, wordList[lastTimeItAccepted + 1..], dfa.q0, lastTimeItAccepted, 0,
                 tokenList + [pair], None, false);
  }

  /**
   * The scanner's outcome at the sink with a candidate ending at restart: the candidate's token,
   * then what lexing from restart gives.
   */
  lemma RestartOutcome(dfa: Dfa<set<State>>, order: seq<string>, word: string, p: nat, j: nat, q: set<State>,
                       restart: nat, pair: (string, string), tokenList: seq<(string, string)>)
    requires ScannerDfa(dfa, order) && q in dfa.K && p < restart <= j < |word|
    requires word[j] in dfa.S && dfa.d[(q, word[j])] == {}
    requires pair == (pair.0, word[p..restart])
    ensures Render(word, Prefixed(tokenList, Resume(dfa, order, word, p, j, q, Some((pair.0, restart)))))
            == Render(word, Prefixed(tokenList + [pair], Resume(dfa, order, word, restart, restart, dfa.q0, None)))
  {
    ResumeSink(dfa, order, word, p, j, q, Some((pair.0, restart)));
    PrefixedTwice(tokenList, [pair], LexFrom(dfa, order, word, restart));
  }

  /** Reaching a live state that is not final: both go on, or fail at the end of the input. */
  lemma {:induction false} ScanLive(dfa: Dfa<set<State>>, order: seq<string>, word: string, base: nat,
                                    wordList: string, nextState: set<State>, lastTimeItAccepted: nat, i: nat,
                                    tokenList: seq<(string, string)>, possiblePair: Option<(string, string)>,
                                    wasInFinalState: bool)
    requires Scanning(dfa, order, word, base, wordList, nextState, lastTimeItAccepted, i, possiblePair,
                      wasInFinalState)
    requires var key := (nextState, wordList[i]);
             key in dfa.d && dfa.d[key] !in dfa.F && dfa.d[key] != {}
    ensures LoopScans(dfa, order, word, base, wordList, nextState, lastTimeItAccepted, i, tokenList,
                      possiblePair, wasInFinalState)
    decreases |wordList|, |wordList| - i, 0
  {
    assert word[base + i] == wordList[i];
    var next := dfa.d[(nextState, wordList[i])];
    ResumeLive(dfa, order, word, base, base + i, nextState,
               Candidate(possiblePair, base + lastTimeItAccepted + 1));
    var loop := LexLoop(dfa, order, word, wordList, nextState, lastTimeItAccepted, i, tokenList, possiblePair,
                        wasInFinalState);
    if i + 1 == |wordList| {
      assert loop == ErrorEof(Count(word, '\n'));
    } else {
      assert loop == LexLoop(dfa, order, word, wordList, next, lastTimeItAccepted, i + 1, tokenList, possiblePair,
                             wasInFinalState);
      LexLoopScans(dfa, order, word, base, wordList, next, lastTimeItAccepted, i + 1, tokenList, possiblePair,
                   wasInFinalState);
    }
  }

  /** By induction over the loop: every state it goes through scans as the scanner does. */
  lemma {:induction false} LexLoopScans(dfa: Dfa<set<State>>, order: seq<string>, word: string, base: nat,
                                        wordList: string, nextState: set<State>, lastTimeItAccepted: nat,
                                        i: nat, tokenList: seq<(string, string)>,
                                        possiblePair: Option<(string, string)>, wasInFinalState: bool)
    requires Scanning(dfa, order, word, base, wordList, nextState, lastTimeItAccepted, i, possiblePair,
                      wasInFinalState)
    ensures LoopScans(dfa, order, word, base, wordList, nextState, lastTimeItAccepted, i, tokenList,
                      possiblePair, wasInFinalState)
    decreases |wordList|, |wordList| - i, 2
  {
    if (nextState, wordList[i]) !in dfa.d {
      ScanInvalid(dfa, order, word, base, wordList, nextState, lastTimeItAccepted, i, tokenList,
                  possiblePair, wasInFinalState);
    } else if dfa.d[(nextState, wordList[i])] in dfa.F && i + 1 == |wordList| {
      ScanFinalLast(dfa, order, word, base, wordList, nextState, lastTimeItAccepted, i, tokenList,
                    possiblePair, wasInFinalState);
    } else if dfa.d[(nextState, wordList[i])] in dfa.F {
      ScanFinal(dfa, order, word, base, wordList, nextState, lastTimeItAccepted, i, tokenList,
                possiblePair, wasInFinalState);
    } else if dfa.d[(nextState, wordList[i])] == {} {
      ScanSink(dfa, order, word, base, wordList, nextState, lastTimeItAccepted, i, tokenList,
               possiblePair, wasInFinalState);
    } else {
      ScanLive(dfa, order, word, base, wordList, nextState, lastTimeItAccepted, i, tokenList,
               possiblePair, wasInFinalState);
    }
  }

  /** Entered at the start, the loop gives what the longest-match scanner gives for the word. */
  lemma LexLoopIsLex(dfa: Dfa<set<State>>, order: seq<string>, word: string)
    requires ScannerDfa(dfa, order)
    ensures LexLoop(dfa, order, word, word, dfa.q0, 0, 0, [], None, false) ==
            Render(word, LexFrom(dfa, order, word, 0))
  {
    if |word| > 0 {
      LexLoopScans(dfa, order, word, 0, word, dfa.q0, 0, 0, [], None, false);
      var o := Resume(dfa, order, word, 0, 0, dfa.q0, None);
      assert o.Tokens? ==> [] + o.tokens == o.tokens;
    }
  }

  /**
   * The body of `lex` (src/Lexer.py:86-171): runs the DFA over the word, remembering the last
   * accepted token, and restarts after it when the sink is reached. The answer is what the
   * longest-match scanner gives for the word.
   */
  method LexWord(dfa: Dfa<set<State>>, tokenOrder: seq<string>, word: string) returns (r: seq<(string, string)>)
    requires ScannerDfa(dfa, tokenOrder)
    ensures r == Render(word, LexFrom(dfa, tokenOrder, word, 0))
  {
    var wordList := word;
    var nextState := dfa.q0;
    var lastTimeItAccepted := 0;
    var i := 0;
    var tokenList: seq<(string, string)> := [];
    var possiblePair: Option<(string, string)> := None;
    var wasInFinalState := false;
    var linesInTotal := Count(word, '\n');
    ghost var answer := LexLoop(dfa, tokenOrder, word, word, dfa.q0, 0, 0, [], None, false);
    while i < |wordList|
      invariant RestOf(wordList, word)
      invariant i <= |wordList| && nextState in dfa.K
      invariant wasInFinalState ==> lastTimeItAccepted < i
      invariant LexLoop(dfa, tokenOrder, word, wordList, nextState, lastTimeItAccepted, i, tokenList,
                        possiblePair, wasInFinalState) == answer
      decreases |wordList|, |wordList| - i
    {
      if (nextState, wordList[i]) !in dfa.d {
        r := CreateError1(wordList, word, i);
        LexLoopIsLex(dfa, tokenOrder, word);
        return;
      }
      var key := (nextState, wordList[i]);
      nextState := dfa.d[key];
      if nextState in dfa.F {
        wasInFinalState := true;
        var minToken := MinTag(nextState, tokenOrder);
        lastTimeItAccepted := i;
        i := i + 1;
        possiblePair := Some((minToken, wordList[..i]));
        if i == |wordList| {
          tokenList := tokenList + [possiblePair.value];
          break;
        }
      } else if nextState == {} {
        if !wasInFinalState {
          r := CreateError1(wordList, word, i);
          LexLoopIsLex(dfa, tokenOrder, word);
          return;
        }
        wasInFinalState := false;
        nextState := dfa.q0;
        RestOfDrop(wordList, word, lastTimeItAccepted + 1);
        wordList := wordList[lastTimeItAccepted + 1..];
        i := 0;
        if possiblePair.Some? {
          tokenList := tokenList + [possiblePair.value];
          possiblePair := None;
        }
      } else {
        i := i + 1;
        if i == |wordList| {
          r := ErrorEof(linesInTotal);
          LexLoopIsLex(dfa, tokenOrder, word);
          return;
        }
      }
    }
    assert tokenList == answer;
    r := tokenList;
    LexLoopIsLex(dfa, tokenOrder, word);
  }

  class Lexer {
    /** The DFA of the whole specification. */
    var dfa: Dfa<set<State>>
    /** The token names in specification order, for choosing among accepted tokens. */
    var tokenOrder: seq<string>
    /** The specification, its entries' automata, their final states and their merge. */
    ghost var spec: seq<(string, string)>
    ghost var entries: seq<Nfa<State>>
    ghost var finals: seq<int>
    ghost var nfa: Nfa<State>

    /** What `lex` relies on: a DFA whose final states accept tokens of the specification. */
    ghost predicate Valid()
      reads this
    {
      ScannerDfa(dfa, tokenOrder)
    }

    /**
     * `__init__` (src/Lexer.py:22-55): each entry's Thompson automaton is moved past the
     * states already used, its final state tagged with the entry's token name, and merged in;
     * the DFA is the subset construction of the merge and the token order is the names in
     * specification order.
     */
    constructor (spec: seq<(string, string)>)
      requires Parses(spec)
      ensures this.spec == spec && entries == SpecEntries(spec) && finals == SpecFinals(spec)
      ensures LaidOut(entries, finals, Plan(spec)) && |entries| == |spec|
      ensures nfa == MergeOf(entries) && SubsetDfa(nfa, dfa)
      ensures tokenOrder == TokenNames(spec)
      ensures Valid()
    {
      var newNfa := MergeSpec(spec);
      ghost var es, fs := SpecEntries(spec), SpecFinals(spec);
      SpecLaidOut(spec);
      var d := SubsetConstruction(newNfa);
      var order := TokenNames(spec);
      BuiltScanner(es, fs, spec, newNfa, d);
      this.dfa := d;
      this.tokenOrder := order;
      this.spec := spec;
      this.entries := es;
      this.finals := fs;
      this.nfa := newNfa;
    }

    /** `lex` (src/Lexer.py:86-171) on the lexer's DFA and token order. */
    method Lex(word: string) returns (r: seq<(string, string)>)
      requires Valid()
      ensures r == Render(word, LexFrom(dfa, tokenOrder, word, 0))
    {
      r := LexWord(dfa, tokenOrder, word);
    }
  }
}
