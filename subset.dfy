/**
 * Subset construction (src/NFA.py:53-128): the DFA whose states are sets of NFA states, built by
 * a worklist that starts from the epsilon closure of the NFA start.
 */
module Subset {
  import opened Wrappers
  import opened Automata
  import opened Closure

  /** The union of the epsilon closures of the members of X. */
  ghost function ClosureOfSet<St(!new)>(nfa: Nfa<St>, X: set<St>): set<St>
  {
    set x, y | x in X && y in EpsClosure(nfa, x) :: y
  }

  /** The DFA successor of X on c: the closure of the c-moves of its members. */
  ghost function DStep<St(!new)>(nfa: Nfa<St>, X: set<St>, c: char): set<St>
  {
    ClosureOfSet(nfa, Move(nfa, X, c))
  }

  /** Every state a DFA state can be made of. */
  function Universe<St>(nfa: Nfa<St>): set<St>
  {
    {nfa.q0} + Targets(nfa.d)
  }

  /** All subsets of U. */
  ghost function PowerSet<T>(U: set<T>): set<set<T>>
    decreases U
  {
    if U == {} then {{}}
    else
      var x := Pick(U);
      var P := PowerSet(U - {x});
      P + set X | X in P :: X + {x}
  }

  lemma {:induction false} PowerSetComplete<T>(U: set<T>, X: set<T>)
    requires X <= U
    ensures X in PowerSet(U)
    decreases U
  {
    if U == {} {
      assert X == {};
    } else {
      var x := Pick(U);
      var P := PowerSet(U - {x});
      assert PowerSet(U) == P + set Y | Y in P :: Y + {x};
      if x in X {
        PowerSetComplete(U - {x}, X - {x});
        assert X == (X - {x}) + {x};
        assert (X - {x}) + {x} in set Y | Y in P :: Y + {x};
      } else {
        PowerSetComplete(U - {x}, X);
      }
    }
  }

  /**
   * What the source's subset construction promises of its result: the alphabet is the NFA's,
   * the start is the closure of the NFA start, the transition function is total over K x S with
   * every target in K and equal to the closure of the moves, and a state is final exactly when
   * it holds an NFA final state.
   */
  ghost predicate SubsetDfa<St(!new)>(nfa: Nfa<St>, dfa: Dfa<set<St>>)
  {
    && dfa.S == nfa.S
    && dfa.q0 == EpsClosure(nfa, nfa.q0) && dfa.q0 in dfa.K
    && (forall X, c :: X in dfa.K && c in dfa.S ==>
          (X, c) in dfa.d && dfa.d[(X, c)] == DStep(nfa, X, c) && dfa.d[(X, c)] in dfa.K)
    && (forall k :: k in dfa.d ==> k.0 in dfa.K && k.1 in dfa.S)
    && (forall X :: X in dfa.F <==> X in dfa.K && X * nfa.F != {})
  }

  /** The closure of a set of targets holds only targets. */
  lemma ClosureOfTargets<St(!new)>(nfa: Nfa<St>, Y: set<St>)
    requires Y <= Targets(nfa.d)
    ensures ClosureOfSet(nfa, Y) <= Targets(nfa.d)
  {
  }

  /** Every DFA successor is a set of NFA states drawn from the universe. */
  lemma DStepInUniverse<St(!new)>(nfa: Nfa<St>, X: set<St>, c: char)
    ensures DStep(nfa, X, c) <= Universe(nfa)
  {
    ClosureOfTargets(nfa, Move(nfa, X, c));
  }

  /**
   * The successor is the sink (the empty set) exactly when no member of X has a c-move.
   */
  lemma DStepEmpty<St(!new)>(nfa: Nfa<St>, X: set<St>, c: char)
    ensures DStep(nfa, X, c) == {} <==> Move(nfa, X, c) == {}
  {
    if Move(nfa, X, c) != {} {
      var y :| y in Move(nfa, X, c);
      assert y in EpsClosure(nfa, y);
      assert y in ClosureOfSet(nfa, Move(nfa, X, c));
    }
  }

  /** `for states in current_state: if states in self.F: ... break` (src/NFA.py:68-71). */
  method ContainsFinal<St>(nfa: Nfa<St>, currentState: set<St>) returns (final: bool)
    ensures final <==> currentState * nfa.F != {}
  {
    final := false;
    var pending := currentState;
    while pending != {}
      invariant pending <= currentState
      invariant (currentState - pending) * nfa.F == {}
      invariant !final
      decreases pending
    {
      var states :| states in pending;
      if states in nfa.F {
        assert states in currentState * nfa.F;
        final := true;
        break;
      }
      pending := pending - {states};
    }
  }

  /** The first loop of the successor step (src/NFA.py:78-82): the union of all moves on c. */
  method MoveUnion<St>(nfa: Nfa<St>, currentState: set<St>, character: char)
    returns (nextStates: set<St>)
    ensures nextStates == Move(nfa, currentState, character)
  {
    nextStates := {};
    var pending := currentState;
    while pending != {}
      invariant pending <= currentState
      invariant nextStates == Move(nfa, currentState - pending, character)
      decreases pending
    {
      var states :| states in pending;
      nextStates := nextStates + Get(nfa.d, (states, Sym(character)));
      pending := pending - {states};
      assert currentState - pending == (currentState - pending - {states}) + {states};
    }
  }

  /**
   * The second loop of the successor step (src/NFA.py:84-86): adds the epsilon closure of every
   * state moved to.
   */
  method ClosureUnion<St(!new)>(nfa: Nfa<St>, aux: set<St>) returns (nextStates: set<St>)
    ensures nextStates == ClosureOfSet(nfa, aux)
  {
    nextStates := aux;
    var moved := aux;
    while moved != {}
      invariant moved <= aux
      invariant nextStates == aux + ClosureOfSet(nfa, aux - moved)
      decreases moved
    {
      var states :| states in moved;
      var closure := EpsilonClosure(nfa, states);
      nextStates := nextStates + closure;
      moved := moved - {states};
      assert aux - moved == (aux - moved - {states}) + {states};
    }
    forall y | y in aux ensures y in ClosureOfSet(nfa, aux) {
      assert y in EpsClosure(nfa, y);
    }
  }

  /**
   * The successor of one DFA state on one character (src/NFA.py:75-90): the union of the moves
   * of all members, then the union of the epsilon closures of the states moved to.
   */
  method NextStates<St(!new)>(nfa: Nfa<St>, currentState: set<St>, character: char)
    returns (allNextStates: set<St>)
    ensures allNextStates == DStep(nfa, currentState, character)
  {
    var aux := MoveUnion(nfa, currentState, character);
    allNextStates := ClosureUnion(nfa, aux);
  }

  /** Every entry of a partial transition table is a correct subset-construction step into K. */
  ghost predicate EntriesCorrect<St(!new)>(nfa: Nfa<St>, K: set<set<St>>, d: map<(set<St>, char), set<St>>)
  {
    forall k :: k in d ==> k.0 in K && k.1 in nfa.S && d[k] == DStep(nfa, k.0, k.1) && d[k] in K
  }

  /** X has an entry for every character of the alphabet. */
  ghost predicate Expanded<St>(nfa: Nfa<St>, d: map<(set<St>, char), set<St>>, X: set<St>)
  {
    forall c :: c in nfa.S ==> (X, c) in d
  }

  /** The DFA states found so far are sets drawn from the universe. */
  ghost predicate Bounded<St(!new)>(nfa: Nfa<St>, K: set<set<St>>)
  {
    (forall X :: X in K ==> X <= Universe(nfa)) && K <= PowerSet(Universe(nfa))
  }

  /**
   * The `for character in self.S` loop of one `subset_helper` step (src/NFA.py:74-102): records
   * the successor of currentState on every character, and enqueues and adds to K every successor
   * not seen before.
   */
  method AddTransitions<St(!new)>(nfa: Nfa<St>, currentState: set<St>, dfaK: set<set<St>>,
                                  dfaD: map<(set<St>, char), set<St>>, queue: seq<set<St>>)
    returns (dfaK': set<set<St>>, dfaD': map<(set<St>, char), set<St>>, queue': seq<set<St>>)
    requires currentState in dfaK && Bounded(nfa, dfaK)
    requires EntriesCorrect(nfa, dfaK, dfaD)
    ensures dfaK <= dfaK' && Bounded(nfa, dfaK')
    ensures EntriesCorrect(nfa, dfaK', dfaD')
    ensures dfaD.Keys <= dfaD'.Keys && Expanded(nfa, dfaD', currentState)
    ensures forall X :: X in queue ==> X in queue'
    ensures forall X :: X in queue' ==> X in queue || X in dfaK' - dfaK
    ensures forall X :: X in dfaK' - dfaK ==> X in queue'
    ensures dfaK' == dfaK ==> queue' == queue
  {
    dfaK', dfaD', queue' := dfaK, dfaD, queue;
    var pending := nfa.S;
    while pending != {}
      invariant pending <= nfa.S
      invariant dfaK <= dfaK' && Bounded(nfa, dfaK')
      invariant EntriesCorrect(nfa, dfaK', dfaD')
      invariant dfaD.Keys <= dfaD'.Keys
      invariant forall c :: c in nfa.S - pending ==> (currentState, c) in dfaD'
      invariant forall X :: X in queue ==> X in queue'
      invariant forall X :: X in queue' ==> X in queue || X in dfaK' - dfaK
      invariant forall X :: X in dfaK' - dfaK ==> X in queue'
      invariant dfaK' == dfaK ==> queue' == queue
      decreases pending
    {
      var character :| character in pending;
      var allNextStates := NextStates(nfa, currentState, character);
      dfaD' := dfaD'[(currentState, character) := allNextStates];
      if allNextStates !in dfaK' {
        DStepInUniverse(nfa, currentState, character);
        PowerSetComplete(Universe(nfa), allNextStates);
        queue' := queue' + [allNextStates];
        dfaK' := dfaK' + {allNextStates};
      }
      pending := pending - {character};
    }
  }

  /** The worklist invariant of the subset construction. */
  ghost predicate WorklistInv<St(!new)>(nfa: Nfa<St>, q0: set<St>, K: set<set<St>>,
                                        d: map<(set<St>, char), set<St>>, F: set<set<St>>,
                                        queue: seq<set<St>>)
  {
    && q0 in K && Bounded(nfa, K)
    && (forall X :: X in queue ==> X in K)
    && EntriesCorrect(nfa, K, d)
    && (forall X :: X in K ==> X in queue || Expanded(nfa, d, X))
    && (forall X :: X in F ==> X in K && X * nfa.F != {})
    && (forall X :: X in K ==> X in queue || X * nfa.F == {} || X in F)
  }

  /**
   * One call of `subset_helper` (src/NFA.py:53-104): takes the head of the queue, marks it final
   * when it holds an NFA final state, and adds its transitions and new successors.
   */
  method ProcessState<St(!new)>(nfa: Nfa<St>, q0: set<St>, K: set<set<St>>,
                                d: map<(set<St>, char), set<St>>, F: set<set<St>>,
                                queue: seq<set<St>>)
    returns (K': set<set<St>>, d': map<(set<St>, char), set<St>>, F': set<set<St>>,
             queue': seq<set<St>>)
    requires queue != [] && WorklistInv(nfa, q0, K, d, F, queue)
    ensures WorklistInv(nfa, q0, K', d', F', queue')
    ensures K <= K'
    ensures K' == K ==> |queue'| < |queue|
  {
    var currentState := queue[0];
    var rest := queue[1..];
    assert forall X :: X in queue ==> X == currentState || X in rest;
    var final := ContainsFinal(nfa, currentState);
    F' := if final then F + {currentState} else F;
    K', d', queue' := AddTransitions(nfa, currentState, K, d, rest);
  }

  /**
   * `subset_construction` with its helper `subset_helper`: starting from the closure of the NFA
   * start, takes DFA states off a queue, marks them final when they hold an NFA final state,
   * and adds their successors; a successor not seen before joins K and the queue. The empty
   * set, reached when no member moves, is the sink and is expanded like any other state. The
   * recursion of the helper on the queue is the loop here.
   */
  method SubsetConstruction<St(!new)>(nfa: Nfa<St>) returns (dfa: Dfa<set<St>>)
    ensures SubsetDfa(nfa, dfa)
  {
    var dfaS := nfa.S;
    var dfaF: set<set<St>> := {};
    var dfaK: set<set<St>> := {};
    var dfaD: map<(set<St>, char), set<St>> := map[];
    var queue: seq<set<St>> := [];
    var dfaQ0 := EpsilonClosure(nfa, nfa.q0);
    dfaK := dfaK + {dfaQ0};
    queue := queue + [dfaQ0];
    ghost var U := Universe(nfa);
    PowerSetComplete(U, dfaQ0);
    while queue != []
      invariant WorklistInv(nfa, dfaQ0, dfaK, dfaD, dfaF, queue)
      decreases |PowerSet(U)| - |dfaK|, |queue|
    {
      ghost var K0 := dfaK;
      dfaK, dfaD, dfaF, queue := ProcessState(nfa, dfaQ0, dfaK, dfaD, dfaF, queue);
      SubsetNoLarger(dfaK, PowerSet(U));
      if dfaK != K0 {
        ProperSubsetSmaller(K0, dfaK);
      }
    }
    dfa := Dfa(dfaS, dfaK, dfaQ0, dfaD, dfaF);
    SubsetDfaFromLoop(nfa, dfa);
  }

  /** What the exhausted worklist leaves behind is the subset-construction DFA. */
  lemma SubsetDfaFromLoop<St(!new)>(nfa: Nfa<St>, dfa: Dfa<set<St>>)
    requires dfa.S == nfa.S && dfa.q0 == EpsClosure(nfa, nfa.q0) && dfa.q0 in dfa.K
    requires EntriesCorrect(nfa, dfa.K, dfa.d)
    requires forall X :: X in dfa.K ==> Expanded(nfa, dfa.d, X)
    requires forall X :: X in dfa.F ==> X in dfa.K && X * nfa.F != {}
    requires forall X :: X in dfa.K ==> X * nfa.F == {} || X in dfa.F
    ensures SubsetDfa(nfa, dfa)
  {
    TransitionsTotal(nfa, dfa);
    KeysInRange(nfa, dfa);
    FinalsExact(nfa, dfa);
  }

  lemma TransitionsTotal<St(!new)>(nfa: Nfa<St>, dfa: Dfa<set<St>>)
    requires dfa.S == nfa.S
    requires EntriesCorrect(nfa, dfa.K, dfa.d)
    requires forall X :: X in dfa.K ==> Expanded(nfa, dfa.d, X)
    ensures forall X, c :: X in dfa.K && c in dfa.S ==>
          (X, c) in dfa.d && dfa.d[(X, c)] == DStep(nfa, X, c) && dfa.d[(X, c)] in dfa.K
  {
  }

  lemma KeysInRange<St(!new)>(nfa: Nfa<St>, dfa: Dfa<set<St>>)
    requires dfa.S == nfa.S
    requires EntriesCorrect(nfa, dfa.K, dfa.d)
    ensures forall k :: k in dfa.d ==> k.0 in dfa.K && k.1 in dfa.S
  {
  }

  lemma FinalsExact<St(!new)>(nfa: Nfa<St>, dfa: Dfa<set<St>>)
    requires forall X :: X in dfa.F ==> X in dfa.K && X * nfa.F != {}
    requires forall X :: X in dfa.K ==> X * nfa.F == {} || X in dfa.F
    ensures forall X :: X in dfa.F <==> X in dfa.K && X * nfa.F != {}
  {
  }
}
