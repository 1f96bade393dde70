/**
 * Epsilon closure (src/NFA.py:19-50): the states reachable from a state by Eps-edges only,
 * computed by a breadth-first worklist.
 */
module Closure {
  import opened Wrappers
  import opened Automata

  /** t is reachable from s by exactly n Eps-edges. */
  ghost predicate ReachIn<St(!new)>(nfa: Nfa<St>, s: St, t: St, n: nat)
    decreases n
  {
    if n == 0 then s == t
    else exists m :: t in EpsSucc(nfa, m) && ReachIn(nfa, s, m, n - 1)
  }

  /** t is reachable from s by Eps-edges only. */
  ghost predicate Reach<St(!new)>(nfa: Nfa<St>, s: St, t: St)
  {
    exists n: nat :: ReachIn(nfa, s, t, n)
  }

  /** A set that every Eps-edge leaving one of its members leads back into. */
  ghost predicate EpsClosed<St(!new)>(nfa: Nfa<St>, R: set<St>)
  {
    forall x :: x in R ==> EpsSucc(nfa, x) <= R
  }

  /** Only s itself and targets of transitions can be reached from s. */
  lemma ReachBounded<St(!new)>(nfa: Nfa<St>, s: St, t: St, n: nat)
    requires ReachIn(nfa, s, t, n)
    ensures t in {s} + Targets(nfa.d)
  {
    if n > 0 {
      var m :| t in EpsSucc(nfa, m) && ReachIn(nfa, s, m, n - 1);
    }
  }

  /** The epsilon closure of s: every state reachable from s by Eps-edges. */
  ghost function EpsClosure<St(!new)>(nfa: Nfa<St>, s: St): (r: set<St>)
    ensures s in r
    ensures r <= {s} + Targets(nfa.d)
    ensures forall t :: t in r <==> Reach(nfa, s, t)
  {
    assert ReachIn(nfa, s, s, 0);
    forall t | Reach(nfa, s, t) ensures t in {s} + Targets(nfa.d) {
      var n: nat :| ReachIn(nfa, s, t, n);
      ReachBounded(nfa, s, t, n);
    }
    set t | t in {s} + Targets(nfa.d) && Reach(nfa, s, t)
  }

  /** The closure holds exactly the states reachable from s. */
  lemma ClosureMembers<St(!new)>(nfa: Nfa<St>, s: St, t: St)
    ensures t in EpsClosure(nfa, s) <==> Reach(nfa, s, t)
  {
    if Reach(nfa, s, t) {
      var n: nat :| ReachIn(nfa, s, t, n);
      ReachBounded(nfa, s, t, n);
    }
  }

  /** One more Eps-edge extends a reachability path. */
  lemma ReachStep<St(!new)>(nfa: Nfa<St>, s: St, m: St, t: St)
    requires Reach(nfa, s, m) && t in EpsSucc(nfa, m)
    ensures Reach(nfa, s, t)
  {
    var n: nat :| ReachIn(nfa, s, m, n);
    assert ReachIn(nfa, s, t, n + 1);
  }

  /** A closed set that contains s contains everything reachable from s in n steps. */
  lemma {:induction false} ClosedContainsReachIn<St(!new)>(nfa: Nfa<St>, R: set<St>, s: St, t: St, n: nat)
    requires s in R && EpsClosed(nfa, R)
    requires ReachIn(nfa, s, t, n)
    ensures t in R
    decreases n
  {
    if n > 0 {
      var m :| t in EpsSucc(nfa, m) && ReachIn(nfa, s, m, n - 1);
      ClosedContainsReachIn(nfa, R, s, m, n - 1);
    }
  }

  /** The closure is the least Eps-closed set containing s. */
  lemma ClosureIsLeast<St(!new)>(nfa: Nfa<St>, R: set<St>, s: St)
    requires s in R && EpsClosed(nfa, R)
    ensures EpsClosure(nfa, s) <= R
  {
    forall t | t in EpsClosure(nfa, s) ensures t in R {
      ClosureMembers(nfa, s, t);
      var n: nat :| ReachIn(nfa, s, t, n);
      ClosedContainsReachIn(nfa, R, s, t, n);
    }
  }

  /** The closure is itself closed under Eps-edges. */
  lemma ClosureIsClosed<St(!new)>(nfa: Nfa<St>, s: St)
    ensures EpsClosed(nfa, EpsClosure(nfa, s))
  {
    forall x, t | x in EpsClosure(nfa, s) && t in EpsSucc(nfa, x)
      ensures t in EpsClosure(nfa, s)
    {
      ClosureStep(nfa, s, x, t);
    }
  }

  /** The closure absorbs the Eps-successors of its members. */
  lemma ClosureStep<St(!new)>(nfa: Nfa<St>, s: St, x: St, t: St)
    requires x in EpsClosure(nfa, s) && t in EpsSucc(nfa, x)
    ensures t in EpsClosure(nfa, s)
  {
    ClosureMembers(nfa, s, x);
    ReachStep(nfa, s, x, t);
    ClosureMembers(nfa, s, t);
  }

  /**
   * `epsilon_closure` with its helper `eps_helper`: a breadth-first search over Eps-edges
   * that enqueues a state only the first time it is seen. The recursion of the helper on the
   * queue is the loop here.
   */
  method EpsilonClosure<St(!new)>(nfa: Nfa<St>, state: St) returns (epsClosure: set<St>)
    ensures epsClosure == EpsClosure(nfa, state)
  {
    ghost var bound := EpsClosure(nfa, state);
    epsClosure := {state};
    var queue := [state];
    while queue != []
      invariant state in epsClosure && epsClosure <= bound
      invariant forall x :: x in queue ==> x in epsClosure
      invariant forall x :: x in epsClosure ==> x in queue || EpsSucc(nfa, x) <= epsClosure
      decreases |bound - epsClosure|, |queue|
    {
      var currentState := queue[0];
      queue := queue[1..];
      var nextStates := EpsSucc(nfa, currentState);
      var pending := nextStates;
      ghost var before := epsClosure;
      ghost var queue0 := queue;
      while pending != {}
        invariant before <= epsClosure <= bound
        invariant pending <= nextStates
        invariant nextStates - pending <= epsClosure
        invariant forall x :: x in queue ==> x in epsClosure
        invariant forall x :: x in epsClosure - before ==> x in queue
        invariant epsClosure == before ==> queue == queue0
        invariant forall x :: x in queue0 ==> x in queue
        decreases pending
      {
        var nextState :| nextState in pending;
        if nextState !in epsClosure {
          ClosureStep(nfa, state, currentState, nextState);
          queue := queue + [nextState];
          epsClosure := epsClosure + {nextState};
        }
        pending := pending - {nextState};
      }
      if epsClosure != before {
        ProperSubsetSmaller(bound - epsClosure, bound - before);
      }
    }
    ClosureIsLeast(nfa, epsClosure, state);
  }
}
