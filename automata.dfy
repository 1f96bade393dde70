/**
 * Finite automata as plain records, as the source's NFA dataclass and the DFA record it builds
 * (src/NFA.py:11-17, src/NFA.py:128). A transition table maps a (state, label) pair to a set of
 * successors; the empty word is the label Eps (the source uses the empty string for it).
 */
module Automata {

  /** A transition label: the empty word or one input character. */
  datatype Label = Eps | Sym(c: char)

  /** A nondeterministic automaton over states of type St. */
  datatype Nfa<St> = Nfa(S: set<char>, K: set<St>, q0: St, d: map<(St, Label), set<St>>, F: set<St>)

  /** A deterministic automaton: one successor per (state, character). */
  datatype Dfa<St> = Dfa(S: set<char>, K: set<St>, q0: St, d: map<(St, char), St>, F: set<St>)

  /** Some member of a non-empty set. */
  ghost function Pick<T>(U: set<T>): (x: T)
    requires U != {}
    ensures x in U
  {
    var x :| x in U; x
  }

  /** `d.get(key, set())` of the source. */
  function Get<St>(d: map<(St, Label), set<St>>, key: (St, Label)): set<St>
  {
    if key in d then d[key] else {}
  }

  /** The states reachable from q by one Eps-edge. */
  function EpsSucc<St>(nfa: Nfa<St>, q: St): set<St>
  {
    Get(nfa.d, (q, Eps))
  }

  /** Every state that is the target of some transition. */
  function Targets<St>(d: map<(St, Label), set<St>>): (t: set<St>)
    ensures forall k, y :: k in d && y in d[k] ==> y in t
  {
    set k, y | k in d && y in d[k] :: y
  }

  /** The union of the c-moves of all members of X. */
  function Move<St>(nfa: Nfa<St>, X: set<St>, c: char): (m: set<St>)
    ensures m <= Targets(nfa.d)
    ensures forall x :: x in X ==> Get(nfa.d, (x, Sym(c))) <= m
    ensures forall y :: y in m ==> exists x :: x in X && y in Get(nfa.d, (x, Sym(c)))
  {
    set x, y | x in X && (x, Sym(c)) in nfa.d && y in nfa.d[(x, Sym(c))] :: y
  }

  /** Every transition of u is a transition of t, with the same successors. */
  ghost predicate Keeps<St>(t: map<(St, Label), set<St>>, u: map<(St, Label), set<St>>)
  {
    forall k :: k in u ==> k in t && t[k] == u[k]
  }

  /** The characters that label some transition of the table. */
  function Labels<St>(d: map<(St, Label), set<St>>): set<char>
  {
    set k | k in d && k.1.Sym? :: k.1.c
  }

  /** A table whose keys are those of d1 and d2 plus Eps-keys carries the labels of both. */
  lemma LabelsOfKeys<St>(d: map<(St, Label), set<St>>, d1: map<(St, Label), set<St>>,
                         d2: map<(St, Label), set<St>>, E: set<(St, Label)>)
    requires d.Keys == d1.Keys + d2.Keys + E && forall k :: k in E ==> k.1 == Eps
    ensures Labels(d) == Labels(d1) + Labels(d2)
  {
    forall c | c in Labels(d) ensures c in Labels(d1) + Labels(d2) {
      var k :| k in d && k.1.Sym? && k.1.c == c;
    }
  }

  /** The image of a set under f. */
  function Image<A, B>(s: set<A>, f: A -> B): (r: set<B>)
    ensures forall x :: x in s ==> f(x) in r
  {
    set x | x in s :: f(x)
  }

  /** Every state occurring anywhere in the automaton. */
  function StatesOf<St>(nfa: Nfa<St>): set<St>
  {
    nfa.K + {nfa.q0} + nfa.F + (set k | k in nfa.d :: k.0) + Targets(nfa.d)
  }

  /** f never maps two different states of the automaton to the same state. */
  ghost predicate InjectiveOn<A, B>(f: A -> B, s: set<A>)
  {
    forall x, y :: x in s && y in s && f(x) == f(y) ==> x == y
  }

  /** The key of a transition from q on l, renamed through f: from f(q) on l. */
  function RemapKey<A, B>(f: A -> B, k: (A, Label)): (B, Label)
  {
    (f(k.0), k.1)
  }

  /**
   * `remap_states`: renames every state through f, in K, q0, F, the sources and the targets of the
   * transition table, and keeps the alphabet. The source's dict comprehension keeps one entry per
   * renamed key, so f must not merge two states (both of its callers rename injectively).
   */
  function RemapStates<A, B>(nfa: Nfa<A>, f: A -> B): (r: Nfa<B>)
    requires InjectiveOn(f, StatesOf(nfa))
    ensures r.S == nfa.S && r.q0 == f(nfa.q0)
    ensures r.K == Image(nfa.K, f) && r.F == Image(nfa.F, f)
    ensures forall k :: k in nfa.d ==> RemapKey(f, k) in r.d && r.d[RemapKey(f, k)] == Image(nfa.d[k], f)
  {
    var d := map k | k in nfa.d :: RemapKey(f, k) := Image(nfa.d[k], f);
    Nfa(nfa.S, Image(nfa.K, f), f(nfa.q0), d, Image(nfa.F, f))
  }

  /** Every key of a renamed table is the renaming of a key of the original table. */
  lemma RemapKeyOrigin<A, B>(nfa: Nfa<A>, f: A -> B, k: (B, Label))
    requires InjectiveOn(f, StatesOf(nfa))
    requires k in RemapStates(nfa, f).d
    ensures exists k0 :: k0 in nfa.d && k == RemapKey(f, k0)
  {
  }

  /** Renaming the states keeps the characters that label transitions. */
  lemma RemapLabels<A, B>(nfa: Nfa<A>, f: A -> B)
    requires InjectiveOn(f, StatesOf(nfa))
    ensures Labels(RemapStates(nfa, f).d) == Labels(nfa.d)
  {
    var r := RemapStates(nfa, f);
    forall c | c in Labels(r.d) ensures c in Labels(nfa.d) {
      var k :| k in r.d && k.1 == Sym(c);
      RemapKeyOrigin(nfa, f, k);
      var k0 :| k0 in nfa.d && k == RemapKey(f, k0);
    }
    forall c | c in Labels(nfa.d) ensures c in Labels(r.d) {
      var k :| k in nfa.d && k.1 == Sym(c);
      assert RemapKey(f, k) in r.d;
    }
  }

  /** Two automata with the same parts are equal. */
  lemma NfaExt<St>(a: Nfa<St>, b: Nfa<St>)
    requires a.S == b.S && a.K == b.K && a.q0 == b.q0 && a.d == b.d && a.F == b.F
    ensures a == b
  {
  }

  /** Two tables with the same keys and the same entries are equal. */
  lemma TableExt<St>(d: map<(St, Label), set<St>>, e: map<(St, Label), set<St>>)
    requires forall k :: k in d <==> k in e
    requires forall k :: k in d ==> d[k] == e[k]
    ensures d == e
  {
  }

  /** Renaming a smaller set gives a smaller set. */
  lemma ImageMono<A, B>(s: set<A>, t: set<A>, f: A -> B)
    requires s <= t
    ensures Image(s, f) <= Image(t, f)
  {
  }

  /** A map with a left inverse is injective on every set. */
  lemma LeftInverseInjective<A, B>(f: A -> B, g: B -> A, s: set<A>)
    requires forall x :: g(f(x)) == x
    ensures InjectiveOn(f, s)
  {
    forall x, y | f(x) == f(y) ensures x == y {
      assert g(f(x)) == x && g(f(y)) == y;
    }
  }

  /** An injective renaming keeps the number of states. */
  lemma {:induction false} InjectiveImageSize<A, B>(s: set<A>, f: A -> B)
    requires InjectiveOn(f, s)
    ensures |Image(s, f)| == |s|
    decreases s
  {
    if s != {} {
      var x :| x in s;
      var s' := s - {x};
      assert InjectiveOn(f, s');
      InjectiveImageSize(s', f);
      assert Image(s, f) == Image(s', f) + {f(x)};
      assert f(x) !in Image(s', f);
    }
  }

  /** The image of a set under the identity is the set itself. */
  lemma ImageIdentity<T>(s: set<T>)
    ensures Image(s, (x: T) => x) == s
  {
  }

  /** With the identity renaming, the transition table is unchanged. */
  lemma RemapIdentityTable<St>(nfa: Nfa<St>)
    requires InjectiveOn((x: St) => x, StatesOf(nfa))
    ensures RemapStates(nfa, (x: St) => x).d == nfa.d
  {
    var f := (x: St) => x;
    var r := RemapStates(nfa, f);
    forall k | k in nfa.d ensures k in r.d && r.d[k] == nfa.d[k] {
      ImageIdentity(nfa.d[k]);
    }
    forall k | k in r.d ensures k in nfa.d {
      RemapKeyOrigin(nfa, f, k);
    }
    TableExt(r.d, nfa.d);
  }

  /** With the identity renaming, remap_states returns an equal automaton. */
  lemma RemapIdentity<St>(nfa: Nfa<St>)
    ensures InjectiveOn(x => x, StatesOf(nfa))
    ensures RemapStates(nfa, x => x) == nfa
  {
    var f := (x: St) => x;
    LeftInverseInjective(f, f, StatesOf(nfa));
    ImageIdentity(nfa.K);
    ImageIdentity(nfa.F);
    RemapIdentityTable(nfa);
  }
}
