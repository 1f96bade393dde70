/**
 * Building one automaton from the ordered lexer specification (src/Lexer.py:7-49): each entry's
 * Thompson automaton is moved past the states already used, its final state is tagged with the
 * entry's token name, and it is merged into an automaton whose start, state 0, has an Eps-edge
 * to the start of every entry.
 */
module Merge {
  import opened Wrappers
  import opened Automata
  import opened Syntax
  import opened RegexParser
  import opened Thompson

  /**
   * A state of the merged automaton: a plain number, or a final state tagged with the name of
   * the token it accepts (the source's `(token, x)` pairs).
   */
  datatype State = Plain(n: int) | Tagged(token: string, n: int)

  /** The shared start of the merged automaton, the source's state 0. */
  const Root: State := Plain(0)

  /** `lambda x: (token, x) if x in nfa.F else x` (src/Lexer.py:44). */
  function TagFinal(token: string, F: set<int>): int -> State
  {
    x => if x in F then Tagged(token, x) else Plain(x)
  }

  /** State x of an entry whose only final state is f. */
  function Tag(token: string, f: int, x: int): State
  {
    if x == f then Tagged(token, f) else Plain(x)
  }

  /** The states lo..hi-1 of an entry whose only final state is f. */
  function Block(token: string, f: int, lo: int, hi: int): set<State>
  {
    set x | lo <= x < hi :: Tag(token, f, x)
  }

  /** The block is the image of the numbers lo..hi-1 under the tagging of f. */
  lemma BlockIsImage(token: string, f: int, lo: int, hi: int)
    ensures Block(token, f, lo, hi) == Image(Interval(lo, hi), TagFinal(token, {f}))
  {
    var g := TagFinal(token, {f});
    forall x | x in Image(Interval(lo, hi), g) ensures x in Block(token, f, lo, hi) {
      var y :| y in Interval(lo, hi) && g(y) == x;
      assert Tag(token, f, y) == x;
    }
    forall x | x in Block(token, f, lo, hi) ensures x in Image(Interval(lo, hi), g) {
      var y :| lo <= y < hi && Tag(token, f, y) == x;
      assert y in Interval(lo, hi) && g(y) == x;
    }
  }

  /**
   * A specification entry laid out in the merged automaton: its states are the numbers
   * lo..lo+n-1, the final one f tagged with the token name and the others plain, and nothing
   * in it mentions another state.
   */
  ghost predicate Entry(e: Nfa<State>, token: string, lo: int, n: nat, f: int)
  {
    && lo <= f < lo + n
    && e.q0 == Tag(token, f, lo)
    && e.K == Block(token, f, lo, lo + n)
    && e.F == {Tagged(token, f)}
    && StatesOf(e) <= e.K
  }

  /** Every state of an entry is numbered inside its block. */
  lemma EntryNumbers(e: Nfa<State>, token: string, lo: int, n: nat, f: int, x: State)
    requires Entry(e, token, lo, n, f) && x in StatesOf(e)
    ensures lo <= x.n < lo + n
    ensures x.Tagged? ==> x == Tagged(token, f)
  {
    assert x in e.K;
    var y :| lo <= y < lo + n && Tag(token, f, y) == x;
  }

  /**
   * Tagging the final state of a fragment (src/Lexer.py:44) renames no two states alike and
   * lays the fragment out as an entry with the same alphabet and the same number of states.
   */
  lemma TagFragment(nfa: Nfa<int>, token: string, lo: int, n: nat, f: int)
    requires Fragment(nfa, lo, n, f)
    ensures InjectiveOn(TagFinal(token, nfa.F), StatesOf(nfa))
    ensures Entry(RemapStates(nfa, TagFinal(token, nfa.F)), token, lo, n, f)
    ensures RemapStates(nfa, TagFinal(token, nfa.F)).S == nfa.S
    ensures |RemapStates(nfa, TagFinal(token, nfa.F)).K| == n
  {
    assert TagFinal(token, nfa.F) == TagFinal(token, {f});
    TagInjective(nfa, token, lo, n, f);
    TagStates(nfa, token, lo, n, f);
    TaggedStatesKnown(nfa, token, lo, n, f);
  }

  /** The tagging of the final state f renames no two states of the fragment alike. */
  lemma TagInjective(nfa: Nfa<int>, token: string, lo: int, n: nat, f: int)
    requires Fragment(nfa, lo, n, f)
    ensures InjectiveOn(TagFinal(token, {f}), StatesOf(nfa)) && InjectiveOn(TagFinal(token, {f}), nfa.K)
  {
    var g := TagFinal(token, {f});
    LeftInverseInjective(g, (x: State) => x.n, StatesOf(nfa));
    LeftInverseInjective(g, (x: State) => x.n, nfa.K);
  }

  /**
   * After tagging, the states of the fragment are the block lo..lo+n-1 with f tagged, there are
   * still n of them, the start is the tagged start and the only final state is the tagged f.
   */
  lemma TagStates(nfa: Nfa<int>, token: string, lo: int, n: nat, f: int)
    requires Fragment(nfa, lo, n, f)
    requires InjectiveOn(TagFinal(token, {f}), StatesOf(nfa)) && InjectiveOn(TagFinal(token, {f}), nfa.K)
    ensures RemapStates(nfa, TagFinal(token, {f})).K == Block(token, f, lo, lo + n)
    ensures |RemapStates(nfa, TagFinal(token, {f})).K| == n
    ensures RemapStates(nfa, TagFinal(token, {f})).q0 == Tag(token, f, lo)
    ensures RemapStates(nfa, TagFinal(token, {f})).F == {Tagged(token, f)}
  {
    var g := TagFinal(token, {f});
    var r := RemapStates(nfa, g);
    BlockIsImage(token, f, lo, lo + n);
    assert g(f) == Tagged(token, f);
    assert r.F == {Tagged(token, f)};
    IntervalSize(lo, lo + n);
    InjectiveImageSize(nfa.K, g);
  }

  /** Tagging a transition of the fragment gives one between states of the tagged fragment. */
  lemma TaggedKey(nfa: Nfa<int>, token: string, lo: int, n: nat, f: int, k0: (int, Label))
    requires Fragment(nfa, lo, n, f)
    requires InjectiveOn(TagFinal(token, {f}), StatesOf(nfa))
    requires k0 in nfa.d
    ensures var g := TagFinal(token, {f});
            && g(k0.0) in RemapStates(nfa, g).K
            && RemapStates(nfa, g).d[RemapKey(g, k0)] <= RemapStates(nfa, g).K
  {
    var g := TagFinal(token, {f});
    assert k0.0 in nfa.K by {
      assert InRange(lo, lo + n, k0.0);
    }
    forall y | y in nfa.d[k0] ensures y in nfa.K {
      assert InRange(lo, lo + n, y);
    }
    ImageMono(nfa.d[k0], nfa.K, g);
  }

  /** After tagging, a transition leaves and enters states of the tagged fragment. */
  lemma TaggedTransition(nfa: Nfa<int>, token: string, lo: int, n: nat, f: int, key: (State, Label))
    requires Fragment(nfa, lo, n, f)
    requires InjectiveOn(TagFinal(token, {f}), StatesOf(nfa))
    requires key in RemapStates(nfa, TagFinal(token, {f})).d
    ensures key.0 in RemapStates(nfa, TagFinal(token, {f})).K
    ensures RemapStates(nfa, TagFinal(token, {f})).d[key] <= RemapStates(nfa, TagFinal(token, {f})).K
  {
    var g := TagFinal(token, {f});
    RemapKeyOrigin(nfa, g, key);
    var k0 :| k0 in nfa.d && key == RemapKey(g, k0);
    TaggedKey(nfa, token, lo, n, f, k0);
  }

  /** After tagging, every state mentioned by a transition is one of the fragment's states. */
  lemma TaggedStatesKnown(nfa: Nfa<int>, token: string, lo: int, n: nat, f: int)
    requires Fragment(nfa, lo, n, f)
    requires InjectiveOn(TagFinal(token, {f}), StatesOf(nfa))
    ensures StatesOf(RemapStates(nfa, TagFinal(token, {f}))) <= RemapStates(nfa, TagFinal(token, {f})).K
  {
    var g := TagFinal(token, {f});
    var r := RemapStates(nfa, g);
    forall key | key in r.d ensures key.0 in r.K && r.d[key] <= r.K {
      TaggedTransition(nfa, token, lo, n, f, key);
    }
    assert nfa.q0 in nfa.K && f in nfa.K;
    assert r.F == Image({f}, g) && r.F <= r.K;
    assert (set k | k in r.d :: k.0) <= r.K;
    assert Targets(r.d) <= r.K;
  }

  /**
   * A fragment over 0..n-1 with final state f, moved up to lo, with its final state tagged
   * with token.
   */
  ghost function TagShifted(t: Nfa<int>, token: string, lo: int, n: nat, f: int): Nfa<State>
    requires Fragment(t, 0, n, f)
  {
    ShiftFragment(t, n, f, lo);
    var s := Shifted(t, lo);
    TagFragment(s, token, lo, n, f + lo);
    RemapStates(s, TagFinal(token, s.F))
  }

  /** The tagged, moved fragment lies over the n states from lo on, its final state f+lo tagged. */
  lemma TagShiftedLaidOut(t: Nfa<int>, token: string, lo: int, n: nat, f: int, fl: int)
    requires Fragment(t, 0, n, f) && fl == f + lo
    ensures InjectiveOn(TagFinal(token, Shifted(t, lo).F), StatesOf(Shifted(t, lo)))
    ensures Entry(TagShifted(t, token, lo, n, f), token, lo, n, fl)
    ensures TagShifted(t, token, lo, n, f).S == t.S && |TagShifted(t, token, lo, n, f).K| == n
  {
    ShiftFragment(t, n, f, lo);
    TagFragment(Shifted(t, lo), token, lo, n, f + lo);
  }

  /** The final state of the entry of tree when its states start at lo. */
  function FinalAt(tree: Regex, lo: int): int
  {
    FinalOf(tree) + lo
  }

  /**
   * The automaton the entry `token: tree` contributes when its states start at lo: the
   * Thompson automaton of tree moved up to lo, with its final state tagged with token.
   */
  ghost function EntryOf(token: string, tree: Regex, lo: int): Nfa<State>
  {
    TagShifted(ThompsonNfa(tree), token, lo, StateCount(tree), FinalOf(tree))
  }

  /**
   * The entry of tree is laid out over the StateCount(tree) states from lo on, its final state
   * FinalAt(tree, lo) tagged, with the alphabet of tree.
   */
  lemma EntryOfLaidOut(token: string, tree: Regex, lo: int)
    ensures Entry(EntryOf(token, tree, lo), token, lo, StateCount(tree), FinalAt(tree, lo))
    ensures EntryOf(token, tree, lo).S == Chars(tree)
    ensures |EntryOf(token, tree, lo).K| == StateCount(tree)
  {
    TagShiftedLaidOut(ThompsonNfa(tree), token, lo, StateCount(tree), FinalOf(tree), FinalAt(tree, lo));
  }

  /**
   * One loop step of `Lexer.__init__` before the merge (src/Lexer.py:37-44): parse the regex,
   * build its Thompson automaton, move it up past the `offset` states already used, and tag
   * its final state with the token name. The result is EntryOf the parsed tree.
   */
  method EntryNfa(token: string, regex: string, offset: int) returns (nfa: Nfa<State>)
    requires ParseRegexSpec(regex).Some?
    ensures nfa == EntryOf(token, ParseRegexSpec(regex).value, offset + 1)
    ensures Entry(nfa, token, offset + 1, StateCount(ParseRegexSpec(regex).value),
                  FinalAt(ParseRegexSpec(regex).value, offset + 1))
    ensures nfa.S == Chars(ParseRegexSpec(regex).value)
    ensures |nfa.K| == StateCount(ParseRegexSpec(regex).value)
  {
    var tree := ParseRegex(regex);
    var thompson, ft := Thompson.Thompson(tree.value);
    TagShiftedLaidOut(thompson, token, offset + 1, StateCount(tree.value), ft, ft + (offset + 1));
    var shifted := Shifted(thompson, offset + 1);
    nfa := RemapStates(shifted, TagFinal(token, shifted.F));
    EntryOfLaidOut(token, ParseRegexSpec(regex).value, offset + 1);
  }

  /**
   * merged joins the alphabets, states and final states of nfa1 and nfa2 and keeps the start of
   * nfa1; its transitions are those of nfa2 and, where nfa2 has none, those of nfa1, except
   * that the Eps-successors of state 0 get the start of nfa2 added.
   */
  ghost predicate Merged(nfa1: Nfa<State>, nfa2: Nfa<State>, merged: Nfa<State>)
  {
    && merged.S == nfa1.S + nfa2.S && merged.K == nfa1.K + nfa2.K
    && merged.F == nfa1.F + nfa2.F && merged.q0 == nfa1.q0
    && merged.d.Keys == nfa1.d.Keys + nfa2.d.Keys
    && (forall k :: k in nfa2.d && k != (Root, Eps) ==> merged.d[k] == nfa2.d[k])
    && (forall k :: k in nfa1.d && k !in nfa2.d ==> k == (Root, Eps) || merged.d[k] == nfa1.d[k])
    && (Root, Eps) in merged.d
    && merged.d[(Root, Eps)] == Get(nfa1.d + nfa2.d, (Root, Eps)) + {nfa2.q0}
  }

  /**
   * `merge_nfas` (src/Lexer.py:7-18): the alphabets, states and final states of both automata
   * are joined, the transitions of the second are written over those of the first, and the
   * start of the second becomes one more Eps-successor of state 0. The source's lookup of
   * `nfa1.d[(0, EPSILON)]` fails unless one of the two tables has that entry.
   */
  method MergeNfas(nfa1: Nfa<State>, nfa2: Nfa<State>) returns (merged: Nfa<State>)
    requires (Root, Eps) in nfa1.d || (Root, Eps) in nfa2.d
    ensures Merged(nfa1, nfa2, merged)
  {
    merged := nfa1;
    merged := merged.(S := merged.S + nfa2.S);
    merged := merged.(K := merged.K + nfa2.K);
    merged := merged.(d := merged.d + nfa2.d);
    merged := merged.(F := merged.F + nfa2.F);
    merged := merged.(d := merged.d[(Root, Eps) := merged.d[(Root, Eps)] + {nfa2.q0}]);
  }

  /** The transitions of all entries, a later entry writing over an earlier one. */
  function UnionD(es: seq<Nfa<State>>): map<(State, Label), set<State>>
  {
    if es == [] then map[] else UnionD(es[..|es| - 1]) + es[|es| - 1].d
  }

  /**
   * The automaton the constructor merges the entries into: the union of their alphabets,
   * states, transitions and final states, with start 0 and an Eps-edge from 0 to every entry
   * start.
   */
  function MergeOf(es: seq<Nfa<State>>): Nfa<State>
  {
    Nfa(set k, c | 0 <= k < |es| && c in es[k].S :: c,
        set k, x | 0 <= k < |es| && x in es[k].K :: x,
        Root,
        UnionD(es)[(Root, Eps) := Starts(es)],
        set k, x | 0 <= k < |es| && x in es[k].F :: x)
  }

  /** The starts of the entries, the Eps-successors of state 0 in the merge. */
  function Starts(es: seq<Nfa<State>>): set<State>
  {
    set k | 0 <= k < |es| :: es[k].q0
  }

  /** The merge of no entry: state 0 alone, with no Eps-successor. */
  lemma MergeOfEmpty()
    ensures MergeOf([]) == Nfa({}, {}, Root, map[(Root, Eps) := {}], {})
  {
    var m := MergeOf([]);
    assert m.S == {} && m.K == {} && m.F == {};
    assert UnionD([]) == map[] && Starts([]) == {};
  }

  /** The alphabet, states and final states of a merge with one more entry. */
  lemma MergeOfSnoc(es: seq<Nfa<State>>, e: Nfa<State>)
    ensures MergeOf(es + [e]).S == MergeOf(es).S + e.S
    ensures MergeOf(es + [e]).K == MergeOf(es).K + e.K
    ensures MergeOf(es + [e]).F == MergeOf(es).F + e.F
    ensures MergeOf(es + [e]).q0 == Root
  {
    var es' := es + [e];
    assert forall k :: 0 <= k < |es| ==> es'[k] == es[k];
    assert es'[|es|] == e;
  }

  /** The transitions of a merge with one more entry. */
  lemma UnionDSnoc(es: seq<Nfa<State>>, e: Nfa<State>)
    ensures UnionD(es + [e]) == UnionD(es) + e.d
    ensures Starts(es + [e]) == Starts(es) + {e.q0}
    ensures MergeOf(es).d == UnionD(es)[(Root, Eps) := Starts(es)]
    ensures MergeOf(es + [e]).d == UnionD(es + [e])[(Root, Eps) := Starts(es + [e])]
  {
    var es' := es + [e];
    assert es'[..|es'| - 1] == es;
    assert forall k :: 0 <= k < |es| ==> es'[k] == es[k];
    assert es'[|es|] == e;
  }

  /** Merging one more entry that leaves state 0 alone extends the merge by that entry. */
  lemma MergeStep(es: seq<Nfa<State>>, m: Nfa<State>, e: Nfa<State>, merged: Nfa<State>)
    requires m == MergeOf(es) && (Root, Eps) !in e.d && Merged(m, e, merged)
    ensures merged == MergeOf(es + [e])
  {
    var m' := MergeOf(es + [e]);
    MergeOfSnoc(es, e);
    UnionDSnoc(es, e);
    assert merged.d.Keys == m'.d.Keys;
    forall k | k in merged.d ensures merged.d[k] == m'.d[k] {
      if k == (Root, Eps) {
        assert Get(m.d + e.d, (Root, Eps)) == Starts(es);
      } else if k in e.d {
        assert m'.d[k] == e.d[k];
      } else {
        assert m'.d[k] == UnionD(es)[k] == m.d[k];
      }
    }
    TableExt(merged.d, m'.d);
  }

  /** Every entry parses. */
  predicate Parses(spec: seq<(string, string)>)
  {
    forall k :: 0 <= k < |spec| ==> ParseRegexSpec(spec[k].1).Some?
  }

  /**
   * The layout the constructor follows: each entry's token name with the number of states
   * of the Thompson automaton of its regular expression.
   */
  function Plan(spec: seq<(string, string)>): seq<(string, nat)>
    requires Parses(spec)
  {
    seq(|spec|, k requires 0 <= k < |spec| => (spec[k].0, StateCount(ParseRegexSpec(spec[k].1).value)))
  }

  /** `offset_of_states` before entry k: the states of the entries before it (src/Lexer.py:49). */
  function Offset(plan: seq<(string, nat)>, k: nat): nat
    requires k <= |plan|
  {
    if k == 0 then 0 else Offset(plan, k - 1) + plan[k - 1].1
  }

  /** The blocks of two entries follow one another in specification order. */
  lemma {:induction false} OffsetsOrdered(plan: seq<(string, nat)>, j: nat, k: nat)
    requires j < k <= |plan|
    ensures Offset(plan, j) + plan[j].1 <= Offset(plan, k)
    decreases k
  {
    if j < k - 1 {
      OffsetsOrdered(plan, j, k - 1);
    }
  }

  /** The token names of the specification (or of its plan), in order (src/Lexer.py:55). */
  function TokenNames<T>(spec: seq<(string, T)>): (names: seq<string>)
    ensures |names| == |spec| && forall k :: 0 <= k < |spec| ==> names[k] == spec[k].0
  {
    seq(|spec|, k requires 0 <= k < |spec| => spec[k].0)
  }

  /** The plan keeps the token names of the specification. */
  lemma PlanNames(spec: seq<(string, string)>)
    requires Parses(spec)
    ensures TokenNames(Plan(spec)) == TokenNames(spec)
  {
    assert forall k :: 0 <= k < |spec| ==> Plan(spec)[k].0 == spec[k].0;
  }

  /**
   * The entries built so far lie each in its own block: entry k over the plan[k].1 states from
   * Offset(plan, k)+1 on, with final state finals[k] tagged with the k-th token name.
   */
  ghost predicate LaidOut(es: seq<Nfa<State>>, finals: seq<int>, plan: seq<(string, nat)>)
  {
    && |es| == |finals| <= |plan|
    && forall k :: 0 <= k < |es| ==> EntryAt(es[k], plan, k, finals[k])
  }

  /** e is entry k of the plan, laid out in its block with final state f. */
  ghost predicate EntryAt(e: Nfa<State>, plan: seq<(string, nat)>, k: nat, f: int)
    requires k < |plan|
  {
    Entry(e, plan[k].0, Offset(plan, k) + 1, plan[k].1, f)
  }

  /**
   * Entries are disjoint: no state of one entry is a state of another one, and none is the
   * shared start 0.
   */
  lemma EntriesDisjoint(es: seq<Nfa<State>>, finals: seq<int>, plan: seq<(string, nat)>,
                        j: nat, k: nat, x: State)
    requires LaidOut(es, finals, plan) && j < |es| && k < |es| && j != k
    requires x in StatesOf(es[j])
    ensures x !in StatesOf(es[k]) && x != Root
  {
    EntryNumbers(es[j], plan[j].0, Offset(plan, j) + 1, plan[j].1, finals[j], x);
    if x in StatesOf(es[k]) {
      EntryNumbers(es[k], plan[k].0, Offset(plan, k) + 1, plan[k].1, finals[k], x);
      if j < k {
        OffsetsOrdered(plan, j, k);
      } else {
        OffsetsOrdered(plan, k, j);
      }
    }
  }

  /** No entry has a transition out of the shared start 0. */
  lemma EntryAvoidsRoot(e: Nfa<State>, token: string, lo: int, n: nat, f: int)
    requires Entry(e, token, lo, n, f) && lo >= 1
    ensures (Root, Eps) !in e.d
  {
    if (Root, Eps) in e.d {
      assert Root in StatesOf(e);
      EntryNumbers(e, token, lo, n, f, Root);
    }
  }

  /**
   * Every transition of every entry is in the merged automaton unchanged: the merge loses
   * nothing, because the entries' states are disjoint.
   */
  lemma EntryTransitionsKept(es: seq<Nfa<State>>, finals: seq<int>, plan: seq<(string, nat)>,
                             k: nat, key: (State, Label))
    requires LaidOut(es, finals, plan) && k < |es| && key in es[k].d
    ensures key in MergeOf(es).d && MergeOf(es).d[key] == es[k].d[key]
  {
    KeyInBlock(es, finals, plan, k, key);
    forall j, key' | 0 <= j < |es| && key' in es[j].d
      ensures Offset(plan, j) < key'.0.n <= Offset(plan, j) + plan[j].1
    {
      KeyInBlock(es, finals, plan, j, key');
      EntryNumbers(es[j], plan[j].0, Offset(plan, j) + 1, plan[j].1, finals[j], key'.0);
    }
    UnionDKeeps(es, plan, k, key);
  }

  /** The sources of the transitions of every entry are numbered inside the entry's block. */
  ghost predicate KeysNumbered(es: seq<Nfa<State>>, plan: seq<(string, nat)>)
  {
    && |es| <= |plan|
    && forall j, key :: 0 <= j < |es| && key in es[j].d ==>
         Offset(plan, j) < key.0.n <= Offset(plan, j) + plan[j].1
  }

  /** Dropping the last entry keeps the others' transitions numbered in their blocks. */
  lemma KeysNumberedPrefix(es: seq<Nfa<State>>, plan: seq<(string, nat)>)
    requires KeysNumbered(es, plan) && es != []
    ensures KeysNumbered(es[..|es| - 1], plan)
  {
    var pre := es[..|es| - 1];
    forall j, key | 0 <= j < |pre| && key in pre[j].d
      ensures Offset(plan, j) < key.0.n <= Offset(plan, j) + plan[j].1
    {
      assert pre[j] == es[j];
    }
  }

  /** Two entries have no transition source in common. */
  lemma KeysApart(es: seq<Nfa<State>>, plan: seq<(string, nat)>, j: nat, k: nat, key: (State, Label))
    requires KeysNumbered(es, plan) && j < k < |es| && key in es[j].d
    ensures key !in es[k].d
  {
    OffsetsOrdered(plan, j, k);
  }

  /** The joined table of the entries holds every transition of every entry. */
  lemma {:induction false} UnionDKeeps(es: seq<Nfa<State>>, plan: seq<(string, nat)>, k: nat,
                                       key: (State, Label))
    requires KeysNumbered(es, plan) && k < |es| && key in es[k].d
    ensures key in UnionD(es) && UnionD(es)[key] == es[k].d[key]
    decreases |es|
  {
    var last := |es| - 1;
    var pre := es[..last];
    assert UnionD(es) == UnionD(pre) + es[last].d;
    if k < last {
      KeysApart(es, plan, k, last, key);
      KeysNumberedPrefix(es, plan);
      assert pre[k] == es[k];
      UnionDKeeps(pre, plan, k, key);
    }
  }

  /** The source of a transition of entry k is a state of entry k, other than state 0. */
  lemma KeyInBlock(es: seq<Nfa<State>>, finals: seq<int>, plan: seq<(string, nat)>, k: nat,
                   key: (State, Label))
    requires LaidOut(es, finals, plan) && k < |es| && key in es[k].d
    ensures key.0 in StatesOf(es[k]) && key.0 != Root
  {
    assert key.0 in StatesOf(es[k]);
    EntryNumbers(es[k], plan[k].0, Offset(plan, k) + 1, plan[k].1, finals[k], key.0);
  }

  /** The final states of the merged automaton are tagged, each with a token name of the specification. */
  lemma MergedFinalsTagged(es: seq<Nfa<State>>, finals: seq<int>, plan: seq<(string, nat)>, x: State)
    requires LaidOut(es, finals, plan) && x in MergeOf(es).F
    ensures x.Tagged? && x.token in TokenNames(plan)
  {
    var k :| 0 <= k < |es| && x in es[k].F;
    assert TokenNames(plan)[k] == plan[k].0;
  }
}
