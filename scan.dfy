/**
 * What `Lexer.lex` (src/Lexer.py:86-171) computes, as functions of the DFA, the token order and
 * the input: one longest-match scan from a position, repeated from where the last match ended.
 * The scan restarts from the DFA start after the last accepting character, picks among the
 * tokens a final DFA state accepts the one earliest in the specification, and fails on a
 * character outside the alphabet, on the sink state before any match, and on input that ends
 * in a live non-final state.
 */
module Scan {
  import opened Wrappers
  import opened Automata
  import opened Merge

  /** X holds a final state tagged with the token name t. */
  predicate HasTag(X: set<State>, t: string)
  {
    exists x :: x in X && x.Tagged? && x.token == t
  }

  /** X accepts some token of the specification. */
  predicate Accepts(X: set<State>, order: seq<string>)
  {
    exists x :: x in X && x.Tagged? && x.token in order
  }

  /**
   * The facts about the DFA the scanner relies on: its transition function is defined exactly
   * on K x S and stays in K, the sink (the empty set) only leads back to itself, and every
   * final state accepts a token of the specification.
   */
  ghost predicate TotalDfa(dfa: Dfa<set<State>>)
  {
    && dfa.q0 in dfa.K
    && (forall X, c {:trigger (X, c) in dfa.d} :: X in dfa.K && c in dfa.S ==> (X, c) in dfa.d)
    && (forall key :: key in dfa.d ==> key.0 in dfa.K && key.1 in dfa.S && dfa.d[key] in dfa.K)
    && (forall c :: c in dfa.S && {} in dfa.K ==> dfa.d[({}, c)] == {})
  }

  ghost predicate ScannerDfa(dfa: Dfa<set<State>>, order: seq<string>)
  {
    && TotalDfa(dfa)
    && (forall X :: X in dfa.F ==> X in dfa.K && Accepts(X, order))
  }

  /** `token_order.index(t)` (src/Lexer.py:126): the first position of t in order. */
  function IndexOf(order: seq<string>, t: string): (k: nat)
    requires t in order
    ensures k < |order| && order[k] == t
    ensures forall i :: 0 <= i < k ==> order[i] != t
  {
    if order[0] == t then 0 else 1 + IndexOf(order[1..], t)
  }

  /** The first name from position k of order on that X holds a tag of. */
  function FirstTagged(X: set<State>, order: seq<string>, k: nat): (t: string)
    requires k <= |order|
    requires exists j :: k <= j < |order| && HasTag(X, order[j])
    ensures exists j :: k <= j < |order| && order[j] == t && HasTag(X, t) &&
                        forall i :: k <= i < j ==> !HasTag(X, order[i])
    decreases |order| - k
  {
    if HasTag(X, order[k]) then order[k] else FirstTagged(X, order, k + 1)
  }

  /** A state that accepts a token has a tag at some position of order. */
  lemma AcceptsSomewhere(X: set<State>, order: seq<string>)
    requires Accepts(X, order)
    ensures exists j :: 0 <= j < |order| && HasTag(X, order[j])
  {
    var x :| x in X && x.Tagged? && x.token in order;
    var j := IndexOf(order, x.token);
    assert HasTag(X, order[j]);
  }

  /**
   * The token of a final DFA state (src/Lexer.py:123-126): among the names of the tags it
   * holds, the one with the smallest index in the specification order.
   */
  function MinTag(X: set<State>, order: seq<string>): (t: string)
    requires Accepts(X, order)
    ensures HasTag(X, t) && t in order
    ensures forall x :: x in X && x.Tagged? && x.token in order ==>
              IndexOf(order, t) <= IndexOf(order, x.token)
  {
    AcceptsSomewhere(X, order);
    var t := FirstTagged(X, order, 0);
    MinTagIsFirst(X, order, t);
    t
  }

  lemma MinTagIsFirst(X: set<State>, order: seq<string>, t: string)
    requires exists j :: 0 <= j < |order| && order[j] == t && HasTag(X, t) &&
                         forall i :: 0 <= i < j ==> !HasTag(X, order[i])
    ensures t in order
    ensures forall x :: x in X && x.Tagged? && x.token in order ==>
              IndexOf(order, t) <= IndexOf(order, x.token)
  {
    var j :| 0 <= j < |order| && order[j] == t && HasTag(X, t) &&
             forall i :: 0 <= i < j ==> !HasTag(X, order[i]);
    assert IndexOf(order, t) == j;
    forall x | x in X && x.Tagged? && x.token in order
      ensures IndexOf(order, t) <= IndexOf(order, x.token)
    {
      assert HasTag(X, order[IndexOf(order, x.token)]);
    }
  }

  /** The DFA state after reading w from q, or None when w has a character outside the alphabet. */
  ghost function Run(dfa: Dfa<set<State>>, q: set<State>, w: string): (r: Option<set<State>>)
    requires TotalDfa(dfa) && q in dfa.K
    ensures r.Some? ==> r.value in dfa.K
    decreases |w|
  {
    if w == [] then Some(q)
    else
      match Run(dfa, q, w[..|w| - 1])
      case None => None
      case Some(q') => if w[|w| - 1] in dfa.S then Some(dfa.d[(q', w[|w| - 1])]) else None
  }

  /** Reading one more character of the input. */
  lemma RunStep(dfa: Dfa<set<State>>, word: string, p: nat, j: nat, q: set<State>)
    requires TotalDfa(dfa) && p <= j < |word|
    requires Run(dfa, dfa.q0, word[p..j]) == Some(q)
    ensures Run(dfa, dfa.q0, word[p..j + 1]) ==
              if word[j] in dfa.S then Some(dfa.d[(q, word[j])]) else None
  {
    assert word[p..j + 1][..j - p] == word[p..j];
  }

  /** The text word[s..e] leads from the DFA start into a final state. */
  ghost predicate Accepting(dfa: Dfa<set<State>>, word: string, s: nat, e: nat)
    requires TotalDfa(dfa) && s <= e <= |word|
  {
    Run(dfa, dfa.q0, word[s..e]).Some? && Run(dfa, dfa.q0, word[s..e]).value in dfa.F
  }

  /** Once the sink is reached, reading on stays in the sink or leaves the alphabet. */
  lemma {:induction false} SinkAbsorbs(dfa: Dfa<set<State>>, word: string, p: nat, m: nat, e: nat)
    requires TotalDfa(dfa) && p <= m <= e <= |word|
    requires Run(dfa, dfa.q0, word[p..m]) == Some({})
    ensures Run(dfa, dfa.q0, word[p..e]) in {None, Some({})}
    decreases e - m
  {
    if e > m {
      SinkAbsorbs(dfa, word, p, m, e - 1);
      if Run(dfa, dfa.q0, word[p..e - 1]) == Some({}) {
        RunStep(dfa, word, p, e - 1, {});
      } else {
        assert word[p..e][..e - 1 - p] == word[p..e - 1];
      }
    }
  }

  /** Why a scan ended without a token. */
  datatype Failure =
    | InvalidCharacter(pos: nat)  // no viable alternative at the character at pos
    | UnexpectedEnd               // the input ended in a live, non-final state

  /** The result of one scan: a failure, or the token name and the end of the matched text. */
  datatype Munched = Fail(failure: Failure) | Match(token: string, end: nat)

  /** The result of lexing: the tokens, or the failure that ended it. */
  datatype Outcome = Tokens(tokens: seq<(string, string)>) | Failed(failure: Failure)

  /** Tokens emitted before an outcome. */
  function Prefixed(ts: seq<(string, string)>, o: Outcome): Outcome
  {
    match o
    case Tokens(us) => Tokens(ts + us)
    case Failed(f) => Failed(f)
  }

  lemma PrefixedTwice(ts: seq<(string, string)>, us: seq<(string, string)>, o: Outcome)
    ensures Prefixed(ts, Prefixed(us, o)) == Prefixed(ts + us, o)
  {
    if o.Tokens? {
      assert ts + (us + o.tokens) == (ts + us) + o.tokens;
    }
  }

  /**
   * One scan of `lex` from position p, at position j in DFA state q, with cand the token name
   * and end of the last accepted text (src/Lexer.py:106-169). A character outside the
   * alphabet fails at once; a final state records a candidate, and ends the scan when the input
   * ends; the sink ends the scan with the candidate, or fails without one; input ending in any
   * other state fails.
   */
  function Walk(dfa: Dfa<set<State>>, order: seq<string>, word: string, p: nat, j: nat,
                q: set<State>, cand: Option<(string, nat)>): (r: Munched)
    requires ScannerDfa(dfa, order) && q in dfa.K && p <= j < |word|
    requires cand.Some? ==> p < cand.value.1 <= j
    ensures r.Match? ==> p < r.end <= |word|
    ensures r.Fail? && r.failure.InvalidCharacter? ==> j <= r.failure.pos < |word|
    decreases |word| - j
  {
    var c := word[j];
    if c !in dfa.S then Fail(InvalidCharacter(j))
    else
      var next := dfa.d[(q, c)];
      if next in dfa.F then
        var t := MinTag(next, order);
        if j + 1 == |word| then Match(t, j + 1) else Walk(dfa, order, word, p, j + 1, next, Some((t, j + 1)))
      else if next == {} then
        if cand.None? then Fail(InvalidCharacter(j)) else Match(cand.value.0, cand.value.1)
      else if j + 1 == |word| then Fail(UnexpectedEnd)
      else Walk(dfa, order, word, p, j + 1, next, cand)
  }

  /**
   * The outcome of lexing the input from a scan in progress on. An invalid character it
   * reports lies in the input from the scan's start p on.
   */
  function Resume(dfa: Dfa<set<State>>, order: seq<string>, word: string, p: nat, j: nat,
                  q: set<State>, cand: Option<(string, nat)>): (r: Outcome)
    requires ScannerDfa(dfa, order) && q in dfa.K && p <= j < |word|
    requires cand.Some? ==> p < cand.value.1 <= j
    ensures r.Failed? && r.failure.InvalidCharacter? ==> p <= r.failure.pos < |word|
    decreases |word| - p, 0
  {
    match Walk(dfa, order, word, p, j, q, cand)
    case Fail(f) => Failed(f)
    case Match(t, e) => Prefixed([(t, word[p..e])], LexFrom(dfa, order, word, e))
  }

  /**
   * The outcome of lexing the input from position p on, each scan starting at the DFA start
   * (src/Lexer.py:91-171). An invalid character it reports lies in the input from p on.
   */
  function LexFrom(dfa: Dfa<set<State>>, order: seq<string>, word: string, p: nat): (r: Outcome)
    requires ScannerDfa(dfa, order) && p <= |word|
    ensures r.Failed? && r.failure.InvalidCharacter? ==> p <= r.failure.pos < |word|
    decreases |word| - p, 1
  {
    if p == |word| then Tokens([]) else Resume(dfa, order, word, p, p, dfa.q0, None)
  }

  /** A character outside the alphabet ends lexing with an invalid-character failure. */
  lemma ResumeInvalid(dfa: Dfa<set<State>>, order: seq<string>, word: string, p: nat, j: nat,
                      q: set<State>, cand: Option<(string, nat)>)
    requires ScannerDfa(dfa, order) && q in dfa.K && p <= j < |word|
    requires cand.Some? ==> p < cand.value.1 <= j
    requires word[j] !in dfa.S
    ensures Resume(dfa, order, word, p, j, q, cand) == Failed(InvalidCharacter(j))
  {
  }

  /** Reading a character into a final state: the candidate is the text up to here. */
  lemma ResumeFinal(dfa: Dfa<set<State>>, order: seq<string>, word: string, p: nat, j: nat,
                    q: set<State>, cand: Option<(string, nat)>)
    requires ScannerDfa(dfa, order) && q in dfa.K && p <= j < |word|
    requires cand.Some? ==> p < cand.value.1 <= j
    requires word[j] in dfa.S && dfa.d[(q, word[j])] in dfa.F
    ensures var next := dfa.d[(q, word[j])];
            Resume(dfa, order, word, p, j, q, cand) ==
              if j + 1 == |word| then Tokens([(MinTag(next, order), word[p..])])
              else Resume(dfa, order, word, p, j + 1, next, Some((MinTag(next, order), j + 1)))
  {
    if j + 1 == |word| {
      assert word[p..j + 1] == word[p..];
    }
  }

  /** Reaching the sink: the candidate is the token, and lexing restarts after it. */
  lemma ResumeSink(dfa: Dfa<set<State>>, order: seq<string>, word: string, p: nat, j: nat,
                   q: set<State>, cand: Option<(string, nat)>)
    requires ScannerDfa(dfa, order) && q in dfa.K && p <= j < |word|
    requires cand.Some? ==> p < cand.value.1 <= j
    requires word[j] in dfa.S && dfa.d[(q, word[j])] == {}
    ensures cand.None? ==> Resume(dfa, order, word, p, j, q, cand) == Failed(InvalidCharacter(j))
    ensures cand.Some? ==>
              && Resume(dfa, order, word, p, j, q, cand) ==
                   Prefixed([(cand.value.0, word[p..cand.value.1])], LexFrom(dfa, order, word, cand.value.1))
              && LexFrom(dfa, order, word, cand.value.1) ==
                   Resume(dfa, order, word, cand.value.1, cand.value.1, dfa.q0, None)
  {
    assert {} !in dfa.F;
  }

  /** Reading a character into a live state that is not final keeps scanning. */
  lemma ResumeLive(dfa: Dfa<set<State>>, order: seq<string>, word: string, p: nat, j: nat,
                   q: set<State>, cand: Option<(string, nat)>)
    requires ScannerDfa(dfa, order) && q in dfa.K && p <= j < |word|
    requires cand.Some? ==> p < cand.value.1 <= j
    requires word[j] in dfa.S && dfa.d[(q, word[j])] !in dfa.F && dfa.d[(q, word[j])] != {}
    ensures Resume(dfa, order, word, p, j, q, cand) ==
              if j + 1 == |word| then Failed(UnexpectedEnd)
              else Resume(dfa, order, word, p, j + 1, dfa.d[(q, word[j])], cand)
  {
  }

  /**
   * What a scan from p knows at position j: q is the state after word[p..j], and cand is the
   * longest accepted text so far with the token of its state, or None when none was accepted.
   */
  ghost predicate WalkInv(dfa: Dfa<set<State>>, order: seq<string>, word: string, p: nat, j: nat,
                          q: set<State>, cand: Option<(string, nat)>)
    requires ScannerDfa(dfa, order) && p <= j <= |word|
  {
    && Run(dfa, dfa.q0, word[p..j]) == Some(q)
    && (cand.None? ==> forall i :: p < i <= j ==> !Accepting(dfa, word, p, i))
    && (cand.Some? ==>
          && p < cand.value.1 <= j && Accepting(dfa, word, p, cand.value.1)
          && cand.value.0 == MinTag(Run(dfa, dfa.q0, word[p..cand.value.1]).value, order)
          && forall i :: cand.value.1 < i <= j ==> !Accepting(dfa, word, p, i))
  }

  /**
   * The token (t, word[s..e]) is a longest match at s: its text leads the DFA into a final
   * state whose earliest token is t, and no longer text from s does.
   */
  ghost predicate LongestMatch(dfa: Dfa<set<State>>, order: seq<string>, word: string, s: nat,
                               e: nat, t: string)
    requires ScannerDfa(dfa, order)
  {
    && s < e <= |word| && Accepting(dfa, word, s, e)
    && t == MinTag(Run(dfa, dfa.q0, word[s..e]).value, order)
    && forall e' :: e < e' <= |word| ==> !Accepting(dfa, word, s, e')
  }

  /** Reading a character into a final state makes the text so far the candidate. */
  lemma StepFinal(dfa: Dfa<set<State>>, order: seq<string>, word: string, p: nat, j: nat,
                  q: set<State>, cand: Option<(string, nat)>)
    requires ScannerDfa(dfa, order) && q in dfa.K && p <= j < |word|
    requires WalkInv(dfa, order, word, p, j, q, cand)
    requires word[j] in dfa.S && dfa.d[(q, word[j])] in dfa.F
    ensures WalkInv(dfa, order, word, p, j + 1, dfa.d[(q, word[j])],
                    Some((MinTag(dfa.d[(q, word[j])], order), j + 1)))
  {
    RunStep(dfa, word, p, j, q);
  }

  /** Reading a character into a state that is not final keeps the candidate. */
  lemma StepLive(dfa: Dfa<set<State>>, order: seq<string>, word: string, p: nat, j: nat,
                 q: set<State>, cand: Option<(string, nat)>)
    requires ScannerDfa(dfa, order) && q in dfa.K && p <= j < |word|
    requires WalkInv(dfa, order, word, p, j, q, cand)
    requires word[j] in dfa.S && dfa.d[(q, word[j])] !in dfa.F
    ensures WalkInv(dfa, order, word, p, j + 1, dfa.d[(q, word[j])], cand)
  {
    RunStep(dfa, word, p, j, q);
  }

  /** Reaching the sink makes the candidate a longest match. */
  lemma StepSink(dfa: Dfa<set<State>>, order: seq<string>, word: string, p: nat, j: nat,
                 q: set<State>, cand: Option<(string, nat)>)
    requires ScannerDfa(dfa, order) && q in dfa.K && p <= j < |word|
    requires WalkInv(dfa, order, word, p, j, q, cand) && cand.Some?
    requires word[j] in dfa.S && dfa.d[(q, word[j])] == {}
    ensures LongestMatch(dfa, order, word, p, cand.value.1, cand.value.0)
  {
    RunStep(dfa, word, p, j, q);
    forall e' | j < e' <= |word| ensures !Accepting(dfa, word, p, e') {
      SinkAbsorbs(dfa, word, p, j + 1, e');
    }
  }

  /** A scan that ends in a match ends in a longest match. */
  lemma {:induction false} WalkMatch(dfa: Dfa<set<State>>, order: seq<string>, word: string,
                                     p: nat, j: nat, q: set<State>, cand: Option<(string, nat)>)
    requires ScannerDfa(dfa, order) && q in dfa.K && p <= j < |word|
    requires cand.Some? ==> p < cand.value.1 <= j
    requires WalkInv(dfa, order, word, p, j, q, cand)
    requires Walk(dfa, order, word, p, j, q, cand).Match?
    ensures LongestMatch(dfa, order, word, p, Walk(dfa, order, word, p, j, q, cand).end,
                         Walk(dfa, order, word, p, j, q, cand).token)
    decreases |word| - j
  {
    var c := word[j];
    assert c in dfa.S;
    var next := dfa.d[(q, c)];
    if next in dfa.F {
      var t := MinTag(next, order);
      StepFinal(dfa, order, word, p, j, q, cand);
      if j + 1 < |word| {
        assert Walk(dfa, order, word, p, j, q, cand) == Walk(dfa, order, word, p, j + 1, next, Some((t, j + 1)));
        WalkMatch(dfa, order, word, p, j + 1, next, Some((t, j + 1)));
      }
    } else if next == {} {
      StepSink(dfa, order, word, p, j, q, cand);
    } else {
      StepLive(dfa, order, word, p, j, q, cand);
      assert Walk(dfa, order, word, p, j, q, cand) == Walk(dfa, order, word, p, j + 1, next, cand);
      WalkMatch(dfa, order, word, p, j + 1, next, cand);
    }
  }

  /** The texts of the tokens, joined. */
  function Texts(ts: seq<(string, string)>): string
  {
    if ts == [] then [] else ts[0].1 + Texts(ts[1..])
  }

  /**
   * Each token is a longest match where the one before it ended, the first at p, named by the
   * earliest token its final state accepts.
   */
  ghost predicate AllLongest(dfa: Dfa<set<State>>, order: seq<string>, word: string, p: nat,
                             ts: seq<(string, string)>)
    requires ScannerDfa(dfa, order)
    decreases |ts|
  {
    ts == [] ||
    (LongestMatch(dfa, order, word, p, p + |ts[0].1|, ts[0].0) &&
     AllLongest(dfa, order, word, p + |ts[0].1|, ts[1..]))
  }

  /** Nothing is known yet when a scan starts. */
  lemma StartInv(dfa: Dfa<set<State>>, order: seq<string>, word: string, p: nat)
    requires ScannerDfa(dfa, order) && p <= |word|
    ensures WalkInv(dfa, order, word, p, p, dfa.q0, None)
  {
    assert word[p..p] == [];
  }

  /** A lex that succeeds from p < |word| starts with a longest match and lexes on from its end. */
  lemma LexFromMatch(dfa: Dfa<set<State>>, order: seq<string>, word: string, p: nat)
    requires ScannerDfa(dfa, order) && p < |word|
    requires LexFrom(dfa, order, word, p).Tokens?
    ensures var m := Walk(dfa, order, word, p, p, dfa.q0, None);
            && m.Match?
            && LongestMatch(dfa, order, word, p, m.end, m.token)
            && LexFrom(dfa, order, word, m.end).Tokens?
            && LexFrom(dfa, order, word, p).tokens ==
                 [(m.token, word[p..m.end])] + LexFrom(dfa, order, word, m.end).tokens
  {
    StartInv(dfa, order, word, p);
    WalkMatch(dfa, order, word, p, p, dfa.q0, None);
  }

  /**
   * A successful lex of the input from p covers it exactly: the matched texts, joined, are the
   * rest of the input, and every token is a longest match where the one before it ended, named
   * by the earliest token its state accepts.
   */
  lemma {:induction false} LexTokens(dfa: Dfa<set<State>>, order: seq<string>, word: string,
                                     p: nat, ts: seq<(string, string)>)
    requires ScannerDfa(dfa, order) && p <= |word|
    requires LexFrom(dfa, order, word, p) == Tokens(ts)
    ensures Texts(ts) == word[p..]
    ensures AllLongest(dfa, order, word, p, ts)
    decreases |word| - p
  {
    if p < |word| {
      var m := Walk(dfa, order, word, p, p, dfa.q0, None);
      LexFromMatch(dfa, order, word, p);
      var e := m.end;
      var tok := (m.token, word[p..e]);
      var us := LexFrom(dfa, order, word, e).tokens;
      assert ts == [tok] + us;
      LexTokens(dfa, order, word, e, us);
      assert word[p..] == word[p..e] + word[e..];
      assert ts[1..] == us;
    }
  }

  /**
   * Why a scan from p failed: a character outside the alphabet; the sink reached from some
   * scan start s with no accepted text since s; or the input ended from s in a live state
   * that is not final.
   */
  ghost predicate Explains(dfa: Dfa<set<State>>, order: seq<string>, word: string, p: nat, f: Failure)
    requires ScannerDfa(dfa, order)
  {
    match f
    case InvalidCharacter(j) =>
      && p <= j < |word|
      && (word[j] !in dfa.S || exists s :: p <= s <= j && DeadAt(dfa, word, s, j))
    case UnexpectedEnd =>
      exists s :: p <= s < |word| && StuckFrom(dfa, word, s)
  }

  /** From s, the character at j leads into the sink with no text from s accepted before it. */
  ghost predicate DeadAt(dfa: Dfa<set<State>>, word: string, s: nat, j: nat)
    requires TotalDfa(dfa) && s <= j < |word|
  {
    && Run(dfa, dfa.q0, word[s..j + 1]) == Some({})
    && forall i :: s < i <= j ==> !Accepting(dfa, word, s, i)
  }

  /** The rest of the input from s leads into a live state that is not final. */
  ghost predicate StuckFrom(dfa: Dfa<set<State>>, word: string, s: nat)
    requires TotalDfa(dfa) && s <= |word|
  {
    && Run(dfa, dfa.q0, word[s..]).Some?
    && Run(dfa, dfa.q0, word[s..]).value != {}
    && Run(dfa, dfa.q0, word[s..]).value !in dfa.F
  }

  /** Reaching the sink with no accepted text since p explains an invalid character. */
  lemma FailDead(dfa: Dfa<set<State>>, order: seq<string>, word: string, p: nat, j: nat, q: set<State>)
    requires ScannerDfa(dfa, order) && q in dfa.K && p <= j < |word|
    requires WalkInv(dfa, order, word, p, j, q, None)
    requires word[j] in dfa.S && dfa.d[(q, word[j])] == {}
    ensures Explains(dfa, order, word, p, InvalidCharacter(j))
  {
    RunStep(dfa, word, p, j, q);
    assert DeadAt(dfa, word, p, j);
  }

  /** Running out of input in a live state that is not final explains an unexpected end. */
  lemma FailStuck(dfa: Dfa<set<State>>, order: seq<string>, word: string, p: nat, j: nat,
                  q: set<State>, cand: Option<(string, nat)>)
    requires ScannerDfa(dfa, order) && q in dfa.K && p <= j && j + 1 == |word|
    requires WalkInv(dfa, order, word, p, j, q, cand)
    requires word[j] in dfa.S && dfa.d[(q, word[j])] != {} && dfa.d[(q, word[j])] !in dfa.F
    ensures Explains(dfa, order, word, p, UnexpectedEnd)
  {
    RunStep(dfa, word, p, j, q);
    assert word[p..j + 1] == word[p..];
    assert StuckFrom(dfa, word, p);
  }

  /** A failed scan fails for one of the reasons the source reports. */
  lemma {:induction false} WalkFail(dfa: Dfa<set<State>>, order: seq<string>, word: string,
                                    p: nat, j: nat, q: set<State>, cand: Option<(string, nat)>)
    requires ScannerDfa(dfa, order) && q in dfa.K && p <= j < |word|
    requires cand.Some? ==> p < cand.value.1 <= j
    requires WalkInv(dfa, order, word, p, j, q, cand)
    requires Walk(dfa, order, word, p, j, q, cand).Fail?
    ensures Explains(dfa, order, word, p, Walk(dfa, order, word, p, j, q, cand).failure)
    decreases |word| - j
  {
    var c := word[j];
    var w := Walk(dfa, order, word, p, j, q, cand);
    if c !in dfa.S {
      assert w == Fail(InvalidCharacter(j));
    } else {
      var next := dfa.d[(q, c)];
      if next in dfa.F {
        var t := MinTag(next, order);
        assert j + 1 < |word|;
        StepFinal(dfa, order, word, p, j, q, cand);
        assert w == Walk(dfa, order, word, p, j + 1, next, Some((t, j + 1)));
        WalkFail(dfa, order, word, p, j + 1, next, Some((t, j + 1)));
      } else if next == {} {
        assert cand.None? && w == Fail(InvalidCharacter(j));
        FailDead(dfa, order, word, p, j, q);
      } else if j + 1 == |word| {
        assert w == Fail(UnexpectedEnd);
        FailStuck(dfa, order, word, p, j, q, cand);
      } else {
        StepLive(dfa, order, word, p, j, q, cand);
        assert w == Walk(dfa, order, word, p, j + 1, next, cand);
        WalkFail(dfa, order, word, p, j + 1, next, cand);
      }
    }
  }

  /** An explanation from a later scan start is an explanation from an earlier one. */
  lemma ExplainsEarlier(dfa: Dfa<set<State>>, order: seq<string>, word: string, p: nat, e: nat,
                        f: Failure)
    requires ScannerDfa(dfa, order) && p <= e && Explains(dfa, order, word, e, f)
    ensures Explains(dfa, order, word, p, f)
  {
  }

  /** A failed lex of the input fails for one of the reasons the source reports. */
  lemma {:induction false} LexFailure(dfa: Dfa<set<State>>, order: seq<string>, word: string,
                                      p: nat, f: Failure)
    requires ScannerDfa(dfa, order) && p <= |word|
    requires LexFrom(dfa, order, word, p) == Failed(f)
    ensures Explains(dfa, order, word, p, f)
    decreases |word| - p
  {
    var m := Walk(dfa, order, word, p, p, dfa.q0, None);
    assert word[p..p] == [];
    if m.Fail? {
      WalkFail(dfa, order, word, p, p, dfa.q0, None);
    } else {
      LexFailure(dfa, order, word, m.end, f);
      ExplainsEarlier(dfa, order, word, p, m.end, f);
    }
  }
}
