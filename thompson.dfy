/**
 * Thompson's construction as the `thompson()` methods of src/Regex.py build it: every tree
 * becomes an automaton over the states 0..n-1 with start 0 and exactly one final state, and
 * the operators wire renamed copies of their operands' automata together with Eps-edges.
 * The in-place updates of the freshly built automaton are reassignments of a local value.
 */
module Thompson {
  import opened Wrappers
  import opened Automata
  import opened Syntax

  /** Whether x is one of the integers lo..hi-1. */
  predicate InRange(lo: int, hi: int, x: int)
  {
    lo <= x < hi
  }

  /** The integers lo..hi-1. */
  function Interval(lo: int, hi: int): (r: set<int>)
  {
    set x: int | lo <= x < hi && InRange(lo, hi, x)
  }

  lemma {:induction false} IntervalSize(lo: int, hi: int)
    requires lo <= hi
    ensures |Interval(lo, hi)| == hi - lo
    decreases hi - lo
  {
    if lo < hi {
      IntervalSize(lo, hi - 1);
      assert Interval(lo, hi) == Interval(lo, hi - 1) + {hi - 1};
    }
  }

  /** Adjacent intervals join into one. */
  lemma IntervalSplit(lo: int, mid: int, hi: int)
    requires lo <= mid <= hi
    ensures Interval(lo, mid) + Interval(mid, hi) == Interval(lo, hi)
  {
  }

  /** Adding lo to the integers lo+1..hi-1 gives lo..hi-1. */
  lemma IntervalAddLow(lo: int, hi: int)
    requires lo < hi
    ensures Interval(lo + 1, hi) + {lo} == Interval(lo, hi)
  {
  }

  /** Adding hi to the integers lo..hi-1 gives lo..hi. */
  lemma IntervalAddHigh(lo: int, hi: int)
    requires lo <= hi
    ensures Interval(lo, hi) + {hi} == Interval(lo, hi + 1)
  {
  }

  /** The states of s moved up by k. */
  function ShiftSet(s: set<int>, k: int): set<int>
  {
    set x | x in s :: x + k
  }

  /** The key of a transition from the state q on the label l, moved up by k. */
  function ShiftKey(key: (int, Label), k: int): (int, Label)
  {
    (key.0 + k, key.1)
  }

  /** The transition table d with every state, source and target, moved up by k. */
  function ShiftTable(d: map<(int, Label), set<int>>, k: int): map<(int, Label), set<int>>
  {
    map key | key in d :: ShiftKey(key, k) := ShiftSet(d[key], k)
  }

  /**
   * `remap_states(lambda x: x + k)`: every state of the automaton moved up by k, in K, q0, F
   * and the transition table. ShiftedIsRemap shows it is RemapStates with that function.
   */
  function Shifted(nfa: Nfa<int>, k: int): Nfa<int>
  {
    Nfa(nfa.S, ShiftSet(nfa.K, k), nfa.q0 + k, ShiftTable(nfa.d, k), ShiftSet(nfa.F, k))
  }

  /** y is a moved state exactly when y-k was a state. */
  lemma ShiftSetMember(s: set<int>, k: int, y: int)
    ensures y in ShiftSet(s, k) <==> y - k in s
  {
    if y - k in s {
      assert (y - k) + k == y;
    }
  }

  /** A key of the moved table is a moved key of the table, carrying the moved targets. */
  lemma ShiftTableKey(d: map<(int, Label), set<int>>, k: int, key: (int, Label))
    ensures key in ShiftTable(d, k) <==> (key.0 - k, key.1) in d
    ensures key in ShiftTable(d, k) ==> ShiftTable(d, k)[key] == ShiftSet(d[(key.0 - k, key.1)], k)
  {
    var key0 := (key.0 - k, key.1);
    if key0 in d {
      assert ShiftKey(key0, k) == key;
    }
  }

  /**
   * A Thompson fragment over the states lo..lo+n-1: start lo, the single final state f, every
   * transition leaves and enters the fragment, and none leaves the final state.
   */
  ghost predicate Fragment(nfa: Nfa<int>, lo: int, n: nat, f: int)
  {
    && n >= 1 && nfa.q0 == lo && nfa.K == Interval(lo, lo + n)
    && nfa.F == {f} && lo <= f < lo + n
    && (forall k :: k in nfa.d ==> lo <= k.0 < lo + n && k.0 != f)
    && (forall k, y :: k in nfa.d && y in nfa.d[k] ==> lo <= y < lo + n)
  }

  /** Every state mentioned by a fragment is one of its states. */
  lemma FragmentStates(nfa: Nfa<int>, lo: int, n: nat, f: int)
    requires Fragment(nfa, lo, n, f)
    ensures StatesOf(nfa) == Interval(lo, lo + n)
  {
    assert Targets(nfa.d) <= nfa.K;
  }

  /** Shifting the states lo..lo+n-1 by k gives the states lo+k..lo+k+n-1. */
  lemma ShiftInterval(lo: int, n: nat, k: int)
    ensures ShiftSet(Interval(lo, lo + n), k) == Interval(lo + k, lo + k + n)
  {
    var source, target := Interval(lo, lo + n), Interval(lo + k, lo + k + n);
    forall y | y in target ensures y in ShiftSet(source, k) {
      ShiftSetMember(source, k, y);
    }
  }

  /** `lambda x: x + k` of the source. */
  function Shift(k: int): int -> int
  {
    x => x + k
  }

  /** Moving states up by k never merges two of them. */
  lemma ShiftInjective(k: int, s: set<int>)
    ensures InjectiveOn(Shift(k), s)
  {
    forall x, y | x in s && y in s && Shift(k)(x) == Shift(k)(y) ensures x == y {
    }
  }

  /** Moving states up by k moves every set of states as the source's renaming does. */
  lemma ShiftSetIsImage(s: set<int>, k: int)
    ensures ShiftSet(s, k) == Image(s, Shift(k))
  {
    forall y | y in Image(s, Shift(k)) ensures y in ShiftSet(s, k) {
      var x :| x in s && y == Shift(k)(x);
    }
  }

  /** Applying the renaming `lambda x: x + k` to x. */
  lemma ShiftApply(k: int, x: int)
    ensures Shift(k)(x) == x + k
  {
  }

  /** A key moved up by k comes from the key moved back down by k. */
  lemma ShiftBack(k: int, key: (int, Label), k0: (int, Label))
    requires key == RemapKey(Shift(k), k0)
    ensures k0 == (key.0 - k, key.1)
  {
    ShiftApply(k, k0.0);
  }

  /** One key of the moved table against the table `remap_states` builds with the same move. */
  lemma ShiftRemapKey(nfa: Nfa<int>, k: int, key: (int, Label))
    requires InjectiveOn(Shift(k), StatesOf(nfa))
    ensures key in ShiftTable(nfa.d, k) <==> key in RemapStates(nfa, Shift(k)).d
    ensures key in ShiftTable(nfa.d, k) ==> ShiftTable(nfa.d, k)[key] == RemapStates(nfa, Shift(k)).d[key]
  {
    var r := RemapStates(nfa, Shift(k));
    var key0 := (key.0 - k, key.1);
    ShiftTableKey(nfa.d, k, key);
    if key in r.d {
      RemapKeyOrigin(nfa, Shift(k), key);
      var k0 :| k0 in nfa.d && key == RemapKey(Shift(k), k0);
      ShiftBack(k, key, k0);
    }
    if key0 in nfa.d {
      ShiftApply(k, key0.0);
      assert RemapKey(Shift(k), key0) == key;
      ShiftSetIsImage(nfa.d[key0], k);
    }
  }

  /** The moved table is the table `remap_states` builds with the same move. */
  lemma ShiftRemapTable(nfa: Nfa<int>, k: int)
    requires InjectiveOn(Shift(k), StatesOf(nfa))
    ensures ShiftTable(nfa.d, k) == RemapStates(nfa, Shift(k)).d
  {
    var t, e := ShiftTable(nfa.d, k), RemapStates(nfa, Shift(k)).d;
    forall key ensures key in t <==> key in e {
      ShiftRemapKey(nfa, k, key);
    }
    forall key | key in t ensures t[key] == e[key] {
      ShiftRemapKey(nfa, k, key);
    }
    TableExt(t, e);
  }

  /** The moved start is the start `remap_states` gives with the same move. */
  lemma ShiftRemapStart(nfa: Nfa<int>, k: int)
    requires InjectiveOn(Shift(k), StatesOf(nfa))
    ensures RemapStates(nfa, Shift(k)).q0 == nfa.q0 + k
  {
    ShiftApply(k, nfa.q0);
  }

  /** Shifted is `remap_states` with the renaming `lambda x: x + k`. */
  lemma ShiftedIsRemap(nfa: Nfa<int>, k: int)
    ensures InjectiveOn(Shift(k), StatesOf(nfa)) && Shifted(nfa, k) == RemapStates(nfa, Shift(k))
  {
    ShiftInjective(k, StatesOf(nfa));
    ShiftSetIsImage(nfa.K, k);
    ShiftSetIsImage(nfa.F, k);
    ShiftRemapTable(nfa, k);
    var s, r := Shifted(nfa, k), RemapStates(nfa, Shift(k));
    ShiftRemapStart(nfa, k);
    assert s.q0 == nfa.q0 + k;
    assert r.q0 == nfa.q0 + k;
    assert s.q0 == r.q0;
    NfaExt(s, r);
  }


  /** A transition of a shifted fragment is a shifted transition of the fragment. */
  lemma ShiftEntry(nfa: Nfa<int>, n: nat, f: int, k: int, key: (int, Label))
    requires Fragment(nfa, 0, n, f) && key in Shifted(nfa, k).d
    ensures k <= key.0 < k + n && key.0 != f + k
    ensures forall y :: y in Shifted(nfa, k).d[key] ==> k <= y < k + n
  {
    ShiftTableKey(nfa.d, k, key);
    var key0 := (key.0 - k, key.1);
    forall y | y in Shifted(nfa, k).d[key] ensures k <= y < k + n {
      ShiftSetMember(nfa.d[key0], k, y);
    }
  }

  /** The start, states, final states and alphabet of an automaton over 0..n-1, start 0 and final f, moved up by k. */
  lemma ShiftBasics(nfa: Nfa<int>, n: nat, f: int, k: int)
    requires nfa.q0 == 0 && nfa.K == Interval(0, n) && nfa.F == {f}
    ensures Shifted(nfa, k).q0 == k && Shifted(nfa, k).F == {f + k}
    ensures Shifted(nfa, k).K == Interval(k, k + n) && Shifted(nfa, k).S == nfa.S
  {
    ShiftInterval(0, n, k);
    forall y ensures y in ShiftSet({f}, k) <==> y == f + k {
      ShiftSetMember({f}, k, y);
    }
  }

  /** Every transition of a fragment moved up by k leaves and enters k..k+n-1, but not f+k. */
  lemma ShiftRange(nfa: Nfa<int>, n: nat, f: int, k: int)
    requires Fragment(nfa, 0, n, f)
    ensures forall key :: key in Shifted(nfa, k).d ==> k <= key.0 < k + n && key.0 != f + k
    ensures forall key, y :: key in Shifted(nfa, k).d && y in Shifted(nfa, k).d[key] ==> k <= y < k + n
  {
    forall key | key in Shifted(nfa, k).d
      ensures k <= key.0 < k + n && key.0 != f + k
      ensures forall y :: y in Shifted(nfa, k).d[key] ==> k <= y < k + n
    {
      ShiftEntry(nfa, n, f, k, key);
    }
  }

  /**
   * Moving a fragment over 0..n-1 up by k gives a fragment over k..k+n-1 with the same
   * alphabet.
   */
  lemma ShiftFragment(nfa: Nfa<int>, n: nat, f: int, k: int)
    requires Fragment(nfa, 0, n, f)
    ensures Fragment(Shifted(nfa, k), k, n, f + k) && Shifted(nfa, k).S == nfa.S
  {
    ShiftBasics(nfa, n, f, k);
    ShiftRange(nfa, n, f, k);
  }

  /** Moving states up keeps the characters on the transitions. */
  lemma ShiftLabels(nfa: Nfa<int>, k: int)
    ensures Labels(Shifted(nfa, k).d) == Labels(nfa.d)
  {
    var t := ShiftTable(nfa.d, k);
    forall c | c in Labels(t) ensures c in Labels(nfa.d) {
      var key :| key in t && key.1.Sym? && key.1.c == c;
      ShiftTableKey(nfa.d, k, key);
      assert (key.0 - k, key.1) in nfa.d;
    }
    forall c | c in Labels(nfa.d) ensures c in Labels(t) {
      var key :| key in nfa.d && key.1.Sym? && key.1.c == c;
      ShiftTableKey(nfa.d, k, (key.0 + k, key.1));
      assert (key.0 + k, key.1) in t;
    }
  }

  /** The states of s moved up by k, one state at a time. MoveSetIsShiftSet: it is ShiftSet. */
  ghost function MoveSet(s: set<int>, k: int): set<int>
    decreases |s|
  {
    if s == {} then {} else var x := Pick(s); MoveSet(s - {x}, k) + {x + k}
  }

  lemma {:induction false} MoveSetIsShiftSet(s: set<int>, k: int)
    ensures MoveSet(s, k) == ShiftSet(s, k)
    decreases |s|
  {
    if s != {} {
      var x := Pick(s);
      MoveSetIsShiftSet(s - {x}, k);
      forall y ensures y in ShiftSet(s, k) <==> y in ShiftSet(s - {x}, k) + {x + k} {
        ShiftSetMember(s, k, y);
        ShiftSetMember(s - {x}, k, y);
      }
    }
  }

  /** Some key of a non-empty table. */
  ghost function PickKey(d: map<(int, Label), set<int>>): (key: (int, Label))
    requires d != map[]
    ensures key in d
  {
    assert d.Keys != {} by { assert d == map q | q in d.Keys :: d[q]; }
    var key :| key in d.Keys; key
  }

  /** Removing a key makes a table smaller. */
  lemma RemoveKeySize(d: map<(int, Label), set<int>>, key: (int, Label))
    requires key in d
    ensures |d - {key}| < |d|
  {
    assert d.Keys == (d - {key}).Keys + {key};
  }

  /**
   * The transition table d with every state moved up by k, one key at a time.
   * MoveTableIsShiftTable: it is ShiftTable.
   */
  ghost function MoveTable(d: map<(int, Label), set<int>>, k: int): map<(int, Label), set<int>>
    decreases |d|
  {
    if d == map[] then map[]
    else
      var key := PickKey(d);
      RemoveKeySize(d, key);
      MoveTable(d - {key}, k)[ShiftKey(key, k) := MoveSet(d[key], k)]
  }

  /** Moving a table is moving it without one key and then adding that key moved. */
  lemma ShiftTableRemove(d: map<(int, Label), set<int>>, k: int, key: (int, Label))
    requires key in d
    ensures ShiftTable(d, k) == ShiftTable(d - {key}, k)[ShiftKey(key, k) := ShiftSet(d[key], k)]
  {
    var e := d - {key};
    var t, u := ShiftTable(d, k), ShiftTable(e, k)[ShiftKey(key, k) := ShiftSet(d[key], k)];
    forall q ensures q in t <==> q in u {
      ShiftTableKey(d, k, q);
      ShiftTableKey(e, k, q);
    }
    forall q | q in t ensures t[q] == u[q] {
      ShiftTableKey(d, k, q);
      ShiftTableKey(e, k, q);
    }
    TableExt(t, u);
  }

  lemma {:induction false} MoveTableIsShiftTable(d: map<(int, Label), set<int>>, k: int)
    ensures MoveTable(d, k) == ShiftTable(d, k)
    decreases |d|
  {
    if d != map[] {
      var key := PickKey(d);
      RemoveKeySize(d, key);
      MoveTableIsShiftTable(d - {key}, k);
      MoveSetIsShiftSet(d[key], k);
      ShiftTableRemove(d, k, key);
    }
  }

  /**
   * The automaton moved up by k, computed one state and one key at a time. It is the same
   * automaton as Shifted (MovedIsShifted), which the methods compute. The specification
   * functions below are written with Moved rather than Shifted only because the set and map
   * comprehensions of Shifted make every proof that mentions them much more expensive for the
   * verifier; MovedIsShifted is called where the two must meet.
   */
  ghost function Moved(nfa: Nfa<int>, k: int): Nfa<int>
  {
    Nfa(nfa.S, MoveSet(nfa.K, k), nfa.q0 + k, MoveTable(nfa.d, k), MoveSet(nfa.F, k))
  }

  lemma MovedIsShifted(nfa: Nfa<int>, k: int)
    ensures Moved(nfa, k) == Shifted(nfa, k)
  {
    MoveSetIsShiftSet(nfa.K, k);
    MoveSetIsShiftSet(nfa.F, k);
    MoveTableIsShiftTable(nfa.d, k);
  }

  /** A fragment over 0..n moved up by k is a fragment over k..k+n. */
  lemma MovedFragment(nfa: Nfa<int>, n: nat, f: int, k: int)
    requires Fragment(nfa, 0, n, f)
    ensures Fragment(Moved(nfa, k), k, n, f + k)
  {
    ShiftFragment(nfa, n, f, k);
    MovedIsShifted(nfa, k);
  }

  /** `Epsilon.thompson` (src/Regex.py:122-123): the single state 0, start and final. */
  function EpsilonNfa(): (nfa: Nfa<int>)
    ensures Fragment(nfa, 0, 1, 0) && nfa.S == {} && nfa.d == map[]
  {
    Nfa({}, {0}, 0, map[], {0})
  }

  /** `Character.thompson` (src/Regex.py:283-285): 0 --c--> 1, with 1 final. */
  function CharacterNfa(c: char): (nfa: Nfa<int>)
    ensures Fragment(nfa, 0, 2, 1) && nfa.S == {c}
    ensures nfa.d == map[(0, Sym(c)) := {1}]
  {
    assert Interval(0, 2) == {0, 1};
    Nfa({c}, {0, 1}, 0, map[(0, Sym(c)) := {1}], {1})
  }

  /** The operand moved up by one, with the new start 0, has n+1 states. */
  lemma StarSize(K: set<int>, n: nat)
    requires K == Interval(1, n + 1)
    ensures |K + {0}| == n + 1
  {
    IntervalAddLow(0, n + 1);
    IntervalSize(0, n + 1);
  }

  /**
   * The automaton Star wires around b, whose start is i and final o: a new start 0 and a new
   * final m, with Eps-edges from 0 and from o to i and m.
   */
  function StarBuild(b: Nfa<int>, i: int, o: int, m: int): Nfa<int>
  {
    Nfa(b.S, b.K + {0} + {m}, 0, b.d[(o, Eps) := {i, m}][(0, Eps) := {i, m}], b.F - {o} + {m})
  }

  /** Star's wiring around the operand moved up by one: old start 1, new final n+1. */
  function StarWire(b: Nfa<int>, n: int, f: int): Nfa<int>
  {
    StarBuild(b, 1, f + 1, n + 1)
  }

  lemma StarBuilt(b: Nfa<int>, n: int, f: int, i: int, o: int, m: int)
    requires i == 1 && o == f + 1 && m == n + 1
    ensures StarBuild(b, i, o, m) == StarWire(b, n, f)
  {
  }

  /** Star's wiring around a fragment over 1..n is a fragment over 0..n+1. */
  lemma StarWiring(b: Nfa<int>, n: nat, f: int)
    requires Fragment(b, 1, n, f + 1)
    ensures Fragment(StarWire(b, n, f), 0, n + 2, n + 1)
  {
    var r := StarWire(b, n, f);
    IntervalAddLow(0, n + 1);
    IntervalAddHigh(0, n + 1);
    assert r.K == Interval(0, n + 2);
    assert r.F == {n + 1};
  }

  /**
   * The automaton `Star.thompson` builds from the fragment a (src/Regex.py:129-158): a moved up
   * by one, a new start 0 and a new final n+1, with Eps-edges from the new start and from the
   * old final to the old start and the new final. StarTable gives the rest of its table.
   */
  ghost function StarOf(a: Nfa<int>, n: nat, f: int): (r: Nfa<int>)
    requires Fragment(a, 0, n, f)
    ensures Fragment(r, 0, n + 2, n + 1) && r.S == a.S
    ensures Get(r.d, (0, Eps)) == {1, n + 1} && Get(r.d, (f + 1, Eps)) == {1, n + 1}
  {
    MovedFragment(a, n, f, 1);
    StarWiring(Moved(a, 1), n, f);
    StarWire(Moved(a, 1), n, f)
  }

  /**
   * Star keeps every transition of its operand, moved up by one, and adds exactly the two
   * Eps-edges out of the new start and the old final.
   */
  lemma StarTable(a: Nfa<int>, n: nat, f: int)
    requires Fragment(a, 0, n, f)
    ensures Keeps(StarOf(a, n, f).d, Moved(a, 1).d)
    ensures StarOf(a, n, f).d.Keys == Moved(a, 1).d.Keys + {(0, Eps), (f + 1, Eps)}
  {
    MovedFragment(a, n, f, 1);
    StarWireTable(Moved(a, 1), n, f);
  }

  /** Star's wiring keeps b's table and adds the two Eps-keys. */
  lemma StarWireTable(b: Nfa<int>, n: nat, f: int)
    requires Fragment(b, 1, n, f + 1)
    ensures Keeps(StarWire(b, n, f).d, b.d)
    ensures StarWire(b, n, f).d.Keys == b.d.Keys + {(0, Eps), (f + 1, Eps)}
  {
  }

  /**
   * `Star.thompson` (src/Regex.py:129-158), updating the operand's automaton step by step: the
   * result is StarOf of the operand.
   */
  method StarNfa(a: Nfa<int>, ghost n: nat, ghost f: int) returns (nfa: Nfa<int>)
    requires Fragment(a, 0, n, f)
    ensures nfa == StarOf(a, n, f)
  {
    ShiftBasics(a, n, f, 1);
    nfa := Shifted(a, 1);
    ghost var b := nfa;
    var oldInitialState := nfa.q0;
    var oldFinalState :| oldFinalState in nfa.F;
    assert oldFinalState == f + 1;
    nfa := nfa.(F := nfa.F - {oldFinalState});
    nfa := nfa.(q0 := 0);
    nfa := nfa.(K := nfa.K + {nfa.q0});
    StarSize(b.K, n);
    var nrStatesNfa := |nfa.K|;
    nfa := nfa.(d := nfa.d[(oldFinalState, Eps) := {oldInitialState, nrStatesNfa}]);
    nfa := nfa.(K := nfa.K + {nrStatesNfa});
    nfa := nfa.(F := nfa.F + {nrStatesNfa});
    nfa := nfa.(d := nfa.d[(nfa.q0, Eps) := {oldInitialState, nrStatesNfa}]);
    assert nfa == StarBuild(b, oldInitialState, oldFinalState, nrStatesNfa);
    StarBuilt(b, n, f, oldInitialState, oldFinalState, nrStatesNfa);
    MovedIsShifted(a, 1);
  }

  /**
   * The automaton Concat wires from the left operand, whose final is o, and b, whose start is
   * i: an Eps-edge from o to i, and the finals of b as the only finals.
   */
  function ConcatBuild(left: Nfa<int>, b: Nfa<int>, o: int, i: int): Nfa<int>
  {
    Nfa(left.S + b.S, left.K + b.K, left.q0, (left.d + b.d)[(o, Eps) := {i}], left.F - {o} + b.F)
  }

  /** Concat's wiring of the left operand and b, the right one moved past it. */
  function ConcatWire(left: Nfa<int>, nl: int, fl: int, b: Nfa<int>): Nfa<int>
  {
    ConcatBuild(left, b, fl, nl)
  }

  lemma ConcatBuilt(left: Nfa<int>, nl: int, fl: int, b: Nfa<int>, o: int, i: int)
    requires o == fl && i == nl
    ensures ConcatBuild(left, b, o, i) == ConcatWire(left, nl, fl, b)
  {
  }

  /**
   * Concat's wiring of two adjacent fragments is a fragment over both blocks whose start keeps
   * the left start's Eps-edges unless the left start is its final.
   */
  lemma ConcatWiring(left: Nfa<int>, nl: nat, fl: int, b: Nfa<int>, nr: nat, fr: int)
    requires Fragment(left, 0, nl, fl) && Fragment(b, nl, nr, fr + nl)
    ensures Fragment(ConcatWire(left, nl, fl, b), 0, nl + nr, fr + nl)
    ensures fl != 0 ==> Get(ConcatWire(left, nl, fl, b).d, (0, Eps)) == Get(left.d, (0, Eps))
  {
    var r := ConcatWire(left, nl, fl, b);
    assert r.K == Interval(0, nl + nr);
    assert r.F == {fr + nl};
    assert (0, Eps) !in b.d;
  }

  /**
   * The automaton `Concat.thompson` builds (src/Regex.py:250-276): the left operand and the
   * right one moved past it, the right final as the only final, and an Eps-edge from the left
   * final to the right start. ConcatTable gives the rest of its table.
   */
  ghost function ConcatOf(left: Nfa<int>, nl: nat, fl: int, right: Nfa<int>, nr: nat, fr: int): (r: Nfa<int>)
    requires Fragment(left, 0, nl, fl) && Fragment(right, 0, nr, fr)
    ensures Fragment(r, 0, nl + nr, fr + nl) && r.S == left.S + right.S
    ensures Get(r.d, (fl, Eps)) == {nl}
    ensures fl != 0 ==> Get(r.d, (0, Eps)) == Get(left.d, (0, Eps))
  {
    MovedFragment(right, nr, fr, nl);
    ConcatWiring(left, nl, fl, Moved(right, nl), nr, fr);
    ConcatWire(left, nl, fl, Moved(right, nl))
  }

  /**
   * Concat keeps every transition of both operands, the right one moved past the left one,
   * and adds exactly the Eps-edge out of the left final.
   */
  lemma ConcatTable(left: Nfa<int>, nl: nat, fl: int, right: Nfa<int>, nr: nat, fr: int)
    requires Fragment(left, 0, nl, fl) && Fragment(right, 0, nr, fr)
    ensures Keeps(ConcatOf(left, nl, fl, right, nr, fr).d, left.d)
    ensures Keeps(ConcatOf(left, nl, fl, right, nr, fr).d, Moved(right, nl).d)
    ensures ConcatOf(left, nl, fl, right, nr, fr).d.Keys == left.d.Keys + Moved(right, nl).d.Keys + {(fl, Eps)}
  {
    MovedFragment(right, nr, fr, nl);
    ConcatWireTable(left, nl, fl, Moved(right, nl), nr, fr);
  }

  /** Concat's wiring keeps both tables and adds the Eps-key of the left final. */
  lemma ConcatWireTable(left: Nfa<int>, nl: nat, fl: int, b: Nfa<int>, nr: nat, fr: int)
    requires Fragment(left, 0, nl, fl) && Fragment(b, nl, nr, fr + nl)
    ensures Keeps(ConcatWire(left, nl, fl, b).d, left.d) && Keeps(ConcatWire(left, nl, fl, b).d, b.d)
    ensures ConcatWire(left, nl, fl, b).d.Keys == left.d.Keys + b.d.Keys + {(fl, Eps)}
  {
  }

  /**
   * `Concat.thompson` (src/Regex.py:250-276), updating the left operand's automaton step by
   * step: the result is ConcatOf of the operands.
   */
  method ConcatNfa(left: Nfa<int>, ghost nl: nat, ghost fl: int,
                   right: Nfa<int>, ghost nr: nat, ghost fr: int)
    returns (nfa: Nfa<int>)
    requires Fragment(left, 0, nl, fl) && Fragment(right, 0, nr, fr)
    ensures nfa == ConcatOf(left, nl, fl, right, nr, fr)
  {
    nfa := left;
    IntervalSize(0, nl);
    var nrStatesNfaLeft := |nfa.K|;
    ShiftBasics(right, nr, fr, nrStatesNfaLeft);
    var nfaRight := Shifted(right, nrStatesNfaLeft);
    nfa := nfa.(d := nfa.d + nfaRight.d);
    nfa := nfa.(S := nfa.S + nfaRight.S);
    nfa := nfa.(K := nfa.K + nfaRight.K);
    var leftFinal :| leftFinal in nfa.F;
    assert leftFinal == fl;
    nfa := nfa.(F := nfa.F - {leftFinal});
    nfa := nfa.(d := nfa.d[(leftFinal, Eps) := {nfaRight.q0}]);
    nfa := nfa.(F := nfa.F + nfaRight.F);
    assert nfa == ConcatBuild(left, nfaRight, leftFinal, nfaRight.q0);
    ConcatBuilt(left, nl, fl, nfaRight, leftFinal, nfaRight.q0);
    MovedIsShifted(right, nl);
  }

  /** The start of a fragment fans out: it has Eps-edges, and none of them to the final state. */
  predicate FansOutAt(nfa: Nfa<int>, f: int)
  {
    Get(nfa.d, (0, Eps)) != {} && f !in Get(nfa.d, (0, Eps))
  }

  /**
   * The automaton Union wires when the first operand a fans out, from a and b, whose start is
   * i and final o: i becomes one more Eps-successor of the start of a, and o gets an Eps-edge
   * to f, the final of a.
   */
  function JoinBuild(a: Nfa<int>, b: Nfa<int>, i: int, o: int, f: int): Nfa<int>
  {
    Nfa(a.S + b.S, a.K + b.K, a.q0, a.d[(a.q0, Eps) := Get(a.d, (a.q0, Eps)) + {i}][(o, Eps) := {f}] + b.d, a.F)
  }

  /** Joining a and b, the second operand moved past the first. */
  function JoinWire(a: Nfa<int>, n1: int, f1: int, b: Nfa<int>, f2: int): Nfa<int>
  {
    JoinBuild(a, b, n1, f2 + n1, f1)
  }

  lemma JoinBuilt(a: Nfa<int>, n1: int, f1: int, b: Nfa<int>, f2: int, i: int, o: int)
    requires i == n1 && o == f2 + n1
    ensures JoinBuild(a, b, i, o, f1) == JoinWire(a, n1, f1, b, f2)
  {
  }

  /**
   * Joining two adjacent fragments, the first fanning out, gives a fragment over both blocks
   * whose start still fans out.
   */
  lemma JoinWiring(a: Nfa<int>, n1: nat, f1: int, b: Nfa<int>, n2: nat, f2: int)
    requires Fragment(a, 0, n1, f1) && Fragment(b, n1, n2, f2 + n1) && FansOutAt(a, f1)
    ensures Fragment(JoinWire(a, n1, f1, b, f2), 0, n1 + n2, f1)
    ensures f1 != 0 && FansOutAt(JoinWire(a, n1, f1, b, f2), f1)
    ensures Get(JoinWire(a, n1, f1, b, f2).d, (0, Eps)) == Get(a.d, (0, Eps)) + {n1}
    ensures Get(JoinWire(a, n1, f1, b, f2).d, (f2 + n1, Eps)) == {f1}
  {
    var r := JoinWire(a, n1, f1, b, f2);
    assert r.K == Interval(0, n1 + n2);
    assert (0, Eps) !in b.d && (f2 + n1, Eps) !in b.d;
    assert (0, Eps) in a.d;
  }

  /**
   * The automaton of the branch of `Union.thompson` taken when the first operand fans out
   * (src/Regex.py:176-204): the second operand moved past the first, no state added, the start
   * of the second one more Eps-successor of the start of the first, and an Eps-edge from the
   * second final to the first final, which stays the only final. JoinTable gives the rest of
   * its table.
   */
  ghost function JoinOf(a: Nfa<int>, n1: nat, f1: int, c: Nfa<int>, n2: nat, f2: int): (r: Nfa<int>)
    requires Fragment(a, 0, n1, f1) && Fragment(c, 0, n2, f2) && FansOutAt(a, f1)
    ensures Fragment(r, 0, n1 + n2, f1) && r.S == a.S + c.S
    ensures f1 != 0 && FansOutAt(r, f1)
    ensures Get(r.d, (0, Eps)) == Get(a.d, (0, Eps)) + {n1}
    ensures Get(r.d, (f2 + n1, Eps)) == {f1}
  {
    MovedFragment(c, n2, f2, n1);
    JoinWiring(a, n1, f1, Moved(c, n1), n2, f2);
    JoinWire(a, n1, f1, Moved(c, n1), f2)
  }

  /**
   * Joining keeps every transition of both operands, the second moved past the first, except
   * that the start's Eps-successors grow, and adds exactly the Eps-edge out of the second final.
   */
  lemma JoinTable(a: Nfa<int>, n1: nat, f1: int, c: Nfa<int>, n2: nat, f2: int)
    requires Fragment(a, 0, n1, f1) && Fragment(c, 0, n2, f2) && FansOutAt(a, f1)
    ensures Keeps(JoinOf(a, n1, f1, c, n2, f2).d, a.d - {(0, Eps)})
    ensures Keeps(JoinOf(a, n1, f1, c, n2, f2).d, Moved(c, n1).d)
    ensures JoinOf(a, n1, f1, c, n2, f2).d.Keys == a.d.Keys + Moved(c, n1).d.Keys + {(f2 + n1, Eps)}
  {
    MovedFragment(c, n2, f2, n1);
    JoinWireTable(a, n1, f1, Moved(c, n1), n2, f2);
  }

  /** Joining keeps both tables except the first start's Eps-key, and adds one Eps-key. */
  lemma JoinWireTable(a: Nfa<int>, n1: nat, f1: int, b: Nfa<int>, n2: nat, f2: int)
    requires Fragment(a, 0, n1, f1) && Fragment(b, n1, n2, f2 + n1) && FansOutAt(a, f1)
    ensures Keeps(JoinWire(a, n1, f1, b, f2).d, a.d - {(0, Eps)})
    ensures Keeps(JoinWire(a, n1, f1, b, f2).d, b.d)
    ensures JoinWire(a, n1, f1, b, f2).d.Keys == a.d.Keys + b.d.Keys + {(f2 + n1, Eps)}
  {
    assert (0, Eps) in a.d;
  }

  /**
   * The branch of `Union.thompson` taken when the first operand fans out (src/Regex.py:176-204),
   * updating the first operand's automaton step by step: the result is JoinOf of the operands.
   */
  method JoinNfa(nfa1: Nfa<int>, ghost n1: nat, f1: int,
                 nfa2: Nfa<int>, ghost n2: nat, ghost f2: int)
    returns (nfa: Nfa<int>)
    requires Fragment(nfa1, 0, n1, f1) && Fragment(nfa2, 0, n2, f2) && FansOutAt(nfa1, f1)
    ensures nfa == JoinOf(nfa1, n1, f1, nfa2, n2, f2)
  {
    var a := nfa1;
    IntervalSize(0, n1);
    ShiftBasics(nfa2, n2, f2, |a.K|);
    var b := Shifted(nfa2, |a.K|);
    ghost var b0 := b;
    var oldInitialStateNfa2 := b.q0;
    var oldFinalStateNfa2 :| oldFinalStateNfa2 in b.F;
    assert oldFinalStateNfa2 == f2 + n1;
    b := b.(F := b.F - {oldFinalStateNfa2});
    var oldValueD := Get(a.d, (a.q0, Eps));
    oldValueD := oldValueD + {oldInitialStateNfa2};
    a := a.(d := a.d[(a.q0, Eps) := oldValueD]);
    a := a.(d := a.d[(oldFinalStateNfa2, Eps) := {f1}]);
    a := a.(S := a.S + b.S);
    a := a.(K := a.K + b.K);
    a := a.(d := a.d + b.d);
    nfa := a;
    assert nfa == JoinBuild(nfa1, b0, oldInitialStateNfa2, oldFinalStateNfa2, f1);
    JoinBuilt(nfa1, n1, f1, b0, f2, oldInitialStateNfa2, oldFinalStateNfa2);
    MovedIsShifted(nfa2, n1);
  }

  /** The operands moved up, with the new start 0, have n1+n2+1 states. */
  lemma FreshSize(K1: set<int>, n1: nat, K2: set<int>, n2: nat)
    requires K1 == Interval(1, 1 + n1) && K2 == Interval(n1 + 1, n1 + 1 + n2)
    ensures |K1 + K2 + {0}| == n1 + n2 + 1
  {
    assert 1 + n1 == n1 + 1;
    var m := n1 + 1 + n2;
    IntervalSplit(1, n1 + 1, m);
    assert K1 + K2 == Interval(1, m);
    IntervalAddLow(0, m);
    assert K1 + K2 + {0} == Interval(0, m);
    IntervalSize(0, m);
  }



  /**
   * The automaton Union wires otherwise, around a and b with starts i1, i2 and finals o1, o2:
   * a new start 0 with Eps-edges to i1 and i2, and a new final m with Eps-edges from o1 and o2.
   */
  function FreshBuild(a: Nfa<int>, b: Nfa<int>, i1: int, i2: int, o1: int, o2: int, m: int): Nfa<int>
  {
    Nfa(a.S + b.S, a.K + b.K + {0} + {m}, 0,
        (a.d + b.d)[(0, Eps) := {i1, i2}][(o1, Eps) := {m}][(o2, Eps) := {m}], a.F - {o1} + {m})
  }

  /** The fresh wiring of the operands moved up, a by one and b past a: new final n1+n2+1. */
  function FreshWire(a: Nfa<int>, n1: int, f1: int, b: Nfa<int>, n2: int, f2: int): Nfa<int>
  {
    FreshBuild(a, b, 1, n1 + 1, f1 + 1, f2 + n1 + 1, n1 + n2 + 1)
  }

  lemma FreshBuilt(a: Nfa<int>, n1: int, f1: int, b: Nfa<int>, n2: int, f2: int,
                   i1: int, i2: int, o1: int, o2: int, m: int)
    requires i1 == 1 && i2 == n1 + 1 && o1 == f1 + 1 && o2 == f2 + n1 + 1 && m == n1 + n2 + 1
    ensures FreshBuild(a, b, i1, i2, o1, o2, m) == FreshWire(a, n1, f1, b, n2, f2)
  {
  }

  /** The fresh wiring of two adjacent fragments is a fragment over 0..m whose start fans out. */
  lemma FreshWiring(a: Nfa<int>, n1: nat, f1: int, b: Nfa<int>, n2: nat, f2: int)
    requires Fragment(a, 1, n1, f1 + 1) && Fragment(b, n1 + 1, n2, f2 + (n1 + 1))
    ensures Fragment(FreshWire(a, n1, f1, b, n2, f2), 0, n1 + n2 + 2, n1 + n2 + 1)
    ensures FansOutAt(FreshWire(a, n1, f1, b, n2, f2), n1 + n2 + 1)
  {
    var r := FreshWire(a, n1, f1, b, n2, f2);
    assert r.K == Interval(0, n1 + n2 + 2);
    assert r.F == {n1 + n2 + 1};
  }

  /**
   * The automaton of the other branch of `Union.thompson` (src/Regex.py:206-242): both
   * operands moved up, a new start 0 and a new final, with Eps-edges from 0 to both starts and
   * from both finals to the new final. FreshTable gives the rest of its table.
   */
  ghost function FreshOf(c1: Nfa<int>, n1: nat, f1: int, c2: Nfa<int>, n2: nat, f2: int): (r: Nfa<int>)
    requires Fragment(c1, 0, n1, f1) && Fragment(c2, 0, n2, f2)
    ensures Fragment(r, 0, n1 + n2 + 2, n1 + n2 + 1) && r.S == c1.S + c2.S
    ensures FansOutAt(r, n1 + n2 + 1)
    ensures Get(r.d, (0, Eps)) == {1, n1 + 1}
    ensures Get(r.d, (f1 + 1, Eps)) == {n1 + n2 + 1} && Get(r.d, (f2 + n1 + 1, Eps)) == {n1 + n2 + 1}
  {
    FreshMoved(c1, n1, f1, c2, n2, f2);
    FreshEdges(Moved(c1, 1), n1, f1, Moved(c2, n1 + 1), n2, f2);
    FreshWire(Moved(c1, 1), n1, f1, Moved(c2, n1 + 1), n2, f2)
  }

  /** The fresh wiring of the two operands, moved into place, is a fragment whose start fans out. */
  lemma FreshMoved(c1: Nfa<int>, n1: nat, f1: int, c2: Nfa<int>, n2: nat, f2: int)
    requires Fragment(c1, 0, n1, f1) && Fragment(c2, 0, n2, f2)
    ensures var w := FreshWire(Moved(c1, 1), n1, f1, Moved(c2, n1 + 1), n2, f2);
            Fragment(w, 0, n1 + n2 + 2, n1 + n2 + 1) && FansOutAt(w, n1 + n2 + 1)
  {
    MovedFragment(c1, n1, f1, 1);
    MovedFragment(c2, n2, f2, n1 + 1);
    FreshWiring(Moved(c1, 1), n1, f1, Moved(c2, n1 + 1), n2, f2);
  }

  /** The three Eps-edges the fresh wiring adds: out of the new start and out of both old finals. */
  lemma FreshEdges(a: Nfa<int>, n1: int, f1: int, b: Nfa<int>, n2: int, f2: int)
    requires 0 <= f1 < n1 && 0 <= f2
    ensures var w := FreshWire(a, n1, f1, b, n2, f2);
            && Get(w.d, (0, Eps)) == {1, n1 + 1}
            && Get(w.d, (f1 + 1, Eps)) == {n1 + n2 + 1} && Get(w.d, (f2 + n1 + 1, Eps)) == {n1 + n2 + 1}
  {
  }

  /**
   * The fresh union keeps every transition of both operands, moved up, and adds exactly the
   * three Eps-edges out of the new start and the two old finals.
   */
  lemma FreshTable(c1: Nfa<int>, n1: nat, f1: int, c2: Nfa<int>, n2: nat, f2: int)
    requires Fragment(c1, 0, n1, f1) && Fragment(c2, 0, n2, f2)
    ensures Keeps(FreshOf(c1, n1, f1, c2, n2, f2).d, Moved(c1, 1).d)
    ensures Keeps(FreshOf(c1, n1, f1, c2, n2, f2).d, Moved(c2, n1 + 1).d)
    ensures FreshOf(c1, n1, f1, c2, n2, f2).d.Keys
              == Moved(c1, 1).d.Keys + Moved(c2, n1 + 1).d.Keys + {(0, Eps), (f1 + 1, Eps), (f2 + n1 + 1, Eps)}
  {
    MovedFragment(c1, n1, f1, 1);
    MovedFragment(c2, n2, f2, n1 + 1);
    FreshWireTable(Moved(c1, 1), n1, f1, Moved(c2, n1 + 1), n2, f2);
  }

  /** The fresh wiring keeps both tables and adds three Eps-keys. */
  lemma FreshWireTable(a: Nfa<int>, n1: nat, f1: int, b: Nfa<int>, n2: nat, f2: int)
    requires Fragment(a, 1, n1, f1 + 1) && Fragment(b, n1 + 1, n2, f2 + (n1 + 1))
    ensures Keeps(FreshWire(a, n1, f1, b, n2, f2).d, a.d) && Keeps(FreshWire(a, n1, f1, b, n2, f2).d, b.d)
    ensures FreshWire(a, n1, f1, b, n2, f2).d.Keys
              == a.d.Keys + b.d.Keys + {(0, Eps), (f1 + 1, Eps), (f2 + n1 + 1, Eps)}
  {
  }

  /** The step-by-step wiring of the two moved operands is FreshOf of the operands. */
  lemma FreshOfBuilt(nfa1: Nfa<int>, n1: nat, f1: int, nfa2: Nfa<int>, n2: nat, f2: int,
                     a: Nfa<int>, b: Nfa<int>, i1: int, i2: int, o1: int, o2: int, m: int)
    requires Fragment(nfa1, 0, n1, f1) && Fragment(nfa2, 0, n2, f2)
    requires a == Shifted(nfa1, 1) && b == Shifted(nfa2, n1 + 1)
    requires i1 == 1 && i2 == n1 + 1 && o1 == f1 + 1 && o2 == f2 + n1 + 1 && m == n1 + n2 + 1
    ensures FreshBuild(a, b, i1, i2, o1, o2, m) == FreshOf(nfa1, n1, f1, nfa2, n2, f2)
  {
    BuildIsMovedWire(nfa1, n1, f1, nfa2, n2, f2, a, b, i1, i2, o1, o2, m);
  }

  /** Wiring the two shifted operands step by step gives the fresh wiring of the moved operands. */
  lemma BuildIsMovedWire(nfa1: Nfa<int>, n1: nat, f1: int, nfa2: Nfa<int>, n2: nat, f2: int,
                         a: Nfa<int>, b: Nfa<int>, i1: int, i2: int, o1: int, o2: int, m: int)
    requires a == Shifted(nfa1, 1) && b == Shifted(nfa2, n1 + 1)
    requires i1 == 1 && i2 == n1 + 1 && o1 == f1 + 1 && o2 == f2 + n1 + 1 && m == n1 + n2 + 1
    ensures FreshBuild(a, b, i1, i2, o1, o2, m) == FreshWire(Moved(nfa1, 1), n1, f1, Moved(nfa2, n1 + 1), n2, f2)
  {
    FreshBuilt(a, n1, f1, b, n2, f2, i1, i2, o1, o2, m);
    MovedIsShifted(nfa1, 1);
    MovedIsShifted(nfa2, n1 + 1);
  }

  /**
   * The other branch of `Union.thompson` (src/Regex.py:206-242), updating the automata step by
   * step: the result is FreshOf of the operands.
   */
  method FreshNfa(nfa1: Nfa<int>, ghost n1: nat, ghost f1: int,
                  nfa2: Nfa<int>, ghost n2: nat, ghost f2: int)
    returns (nfa: Nfa<int>)
    requires Fragment(nfa1, 0, n1, f1) && Fragment(nfa2, 0, n2, f2)
    ensures nfa == FreshOf(nfa1, n1, f1, nfa2, n2, f2)
  {
    ShiftBasics(nfa1, n1, f1, 1);
    var a := Shifted(nfa1, 1);
    ghost var a0 := a;
    IntervalSize(1, 1 + n1);
    assert |a.K| == n1;
    ShiftBasics(nfa2, n2, f2, n1 + 1);
    var b := Shifted(nfa2, |a.K| + 1);
    ghost var b0 := b;
    assert b0 == Shifted(nfa2, n1 + 1);
    var oldInitialStateNfa1 := a.q0;
    var oldInitialStateNfa2 := b.q0;
    var oldFinalStateNfa1 :| oldFinalStateNfa1 in a.F;
    var oldFinalStateNfa2 :| oldFinalStateNfa2 in b.F;
    assert oldFinalStateNfa1 == f1 + 1 && oldFinalStateNfa2 == f2 + n1 + 1;
    a := a.(F := a.F - {oldFinalStateNfa1});
    b := b.(F := b.F - {oldFinalStateNfa2});
    a := a.(S := a.S + b.S);
    a := a.(K := a.K + b.K);
    a := a.(d := a.d + b.d);
    a := a.(q0 := 0);
    a := a.(K := a.K + {a.q0});
    FreshSize(a0.K, n1, b0.K, n2);
    var newFinalState := |a.K|;
    assert newFinalState == n1 + n2 + 1;
    a := a.(K := a.K + {newFinalState});
    a := a.(F := a.F + {newFinalState});
    a := a.(d := a.d[(a.q0, Eps) := {oldInitialStateNfa1, oldInitialStateNfa2}]);
    a := a.(d := a.d[(oldFinalStateNfa1, Eps) := {newFinalState}]);
    a := a.(d := a.d[(oldFinalStateNfa2, Eps) := {newFinalState}]);
    nfa := a;
    assert nfa == FreshBuild(a0, b0, oldInitialStateNfa1, oldInitialStateNfa2, oldFinalStateNfa1,
                             oldFinalStateNfa2, newFinalState);
    FreshOfBuilt(nfa1, n1, f1, nfa2, n2, f2, a0, b0, oldInitialStateNfa1, oldInitialStateNfa2,
                 oldFinalStateNfa1, oldFinalStateNfa2, newFinalState);
  }

  /**
   * The automaton `Union.thompson` builds (src/Regex.py:166-242): JoinOf when the first
   * operand's start fans out, FreshOf otherwise. Either way it is a fragment over the states of
   * both operands, plus two new ones in the second case, whose start fans out and whose
   * alphabet is the union of the operands' alphabets.
   */
  ghost function UnionOf(c1: Nfa<int>, n1: nat, f1: int, c2: Nfa<int>, n2: nat, f2: int): (r: Nfa<int>)
    requires Fragment(c1, 0, n1, f1) && Fragment(c2, 0, n2, f2)
    ensures FansOutAt(c1, f1) ==> Fragment(r, 0, n1 + n2, f1) && FansOutAt(r, f1)
    ensures !FansOutAt(c1, f1) ==> Fragment(r, 0, n1 + n2 + 2, n1 + n2 + 1) && FansOutAt(r, n1 + n2 + 1)
    ensures r.S == c1.S + c2.S
  {
    if FansOutAt(c1, f1) then JoinOf(c1, n1, f1, c2, n2, f2) else FreshOf(c1, n1, f1, c2, n2, f2)
  }

  /**
   * `Union.thompson` (src/Regex.py:166-242). The final state of the first operand taken out
   * before the test is put back first thing in both branches, so the test only reads it. The
   * result is UnionOf of the operands, with n states and final f'.
   */
  method UnionNfa(nfa1: Nfa<int>, ghost n1: nat, ghost f1: int,
                  nfa2: Nfa<int>, ghost n2: nat, ghost f2: int)
    returns (nfa: Nfa<int>, ghost n: nat, ghost f': int)
    requires Fragment(nfa1, 0, n1, f1) && Fragment(nfa2, 0, n2, f2)
    ensures nfa == UnionOf(nfa1, n1, f1, nfa2, n2, f2)
    ensures n == n1 + n2 + (if FansOutAt(nfa1, f1) then 0 else 2)
    ensures f' == if FansOutAt(nfa1, f1) then f1 else n1 + n2 + 1
    ensures Fragment(nfa, 0, n, f') && nfa.S == nfa1.S + nfa2.S
  {
    var oldInitialStateNfa1 := nfa1.q0;
    var oldFinalStateNfa1 :| oldFinalStateNfa1 in nfa1.F;
    var isunion := Get(nfa1.d, (oldInitialStateNfa1, Eps));
    if isunion != {} && oldFinalStateNfa1 !in isunion {
      nfa := JoinNfa(nfa1, n1, oldFinalStateNfa1, nfa2, n2, f2);
      n, f' := n1 + n2, f1;
    } else {
      nfa := FreshNfa(nfa1, n1, f1, nfa2, n2, f2);
      n, f' := n1 + n2 + 2, n1 + n2 + 1;
    }
  }

  /** Whether the start of the Thompson automaton of r has Eps-edges. */
  predicate StartHasEps(r: Regex)
  {
    match r
    case Epsilon => false
    case Character(_) => false
    case Star(_) => true
    case Union(_, _) => true
    case Concat(a, _) => a == Epsilon || StartHasEps(a)
  }

  /**
   * Whether the start of the Thompson automaton of r fans out: it has Eps-edges and none reaches
   * the final state directly. A union with such a left operand is built without new states.
   */
  predicate FansOut(r: Regex)
  {
    match r
    case Union(_, _) => true
    case Concat(a, b) => if a == Epsilon then b != Epsilon else StartHasEps(a)
    case _ => false
  }

  /** The number of states of the Thompson automaton of r, by the syntax of r. */
  function StateCount(r: Regex): (n: nat)
    ensures n >= 1
  {
    match r
    case Epsilon => 1
    case Character(_) => 2
    case Concat(a, b) => StateCount(a) + StateCount(b)
    case Star(a) => StateCount(a) + 2
    case Union(a, b) => StateCount(a) + StateCount(b) + (if FansOut(a) then 0 else 2)
  }

  /** The final state of the Thompson automaton of r, by the syntax of r. */
  function FinalOf(r: Regex): nat
  {
    match r
    case Epsilon => 0
    case Character(_) => 1
    case Star(a) => StateCount(a) + 1
    case Concat(a, b) => FinalOf(b) + StateCount(a)
    case Union(a, b) => if FansOut(a) then FinalOf(a) else StateCount(a) + StateCount(b) + 1
  }

  /**
   * What the automaton nfa built for r looks like: a fragment over StateCount(r) states with
   * the final state FinalOf(r), whose alphabet is the characters of r. Its start is final
   * exactly for `Epsilon`, and the shape of its start agrees with StartHasEps and FansOut.
   */
  ghost predicate ThompsonShape(r: Regex, nfa: Nfa<int>)
  {
    && Fragment(nfa, 0, StateCount(r), FinalOf(r)) && nfa.S == Chars(r)
    && (FinalOf(r) == 0 <==> r == Epsilon)
    && (Get(nfa.d, (0, Eps)) != {} <==> StartHasEps(r))
    && (FansOutAt(nfa, FinalOf(r)) <==> FansOut(r))
  }

  lemma FragmentArgs(nfa: Nfa<int>, n: nat, f: int, n': nat, f': int)
    requires Fragment(nfa, 0, n, f) && n == n' && f == f'
    ensures Fragment(nfa, 0, n', f')
  {
  }

  /**
   * An automaton with the shape StarOf promises for the automaton of a, with n states, has the
   * shape of `Star(a)`.
   */
  lemma StarShape(a: Regex, n: nat, s: Nfa<int>)
    requires n == StateCount(a)
    requires Fragment(s, 0, n + 2, n + 1) && s.S == Chars(a) && Get(s.d, (0, Eps)) == {1, n + 1}
    ensures ThompsonShape(Star(a), s)
  {
    var r := Star(a);
    FragmentArgs(s, n + 2, n + 1, StateCount(r), FinalOf(r));
  }

  /**
   * An automaton with the shape ConcatOf promises for the automata t of a and u of b, with na
   * and nb states and the finals fa and fb, has the shape of `Concat(a, b)`.
   */
  lemma ConcatShape(a: Regex, t: Nfa<int>, na: nat, fa: int, b: Regex, u: Nfa<int>, nb: nat, fb: int, s: Nfa<int>)
    requires na == StateCount(a) && fa == FinalOf(a) && nb == StateCount(b) && fb == FinalOf(b)
    requires ThompsonShape(a, t) && ThompsonShape(b, u)
    requires Fragment(s, 0, na + nb, fb + na) && s.S == t.S + u.S && Get(s.d, (fa, Eps)) == {na}
    requires fa != 0 ==> Get(s.d, (0, Eps)) == Get(t.d, (0, Eps))
    ensures ThompsonShape(Concat(a, b), s)
  {
    ConcatStartEps(a, t, na, fa, b, s);
    ConcatFansOut(a, t, na, fa, b, u, fb, s);
    var r := Concat(a, b);
    FragmentArgs(s, na + nb, fb + na, StateCount(r), FinalOf(r));
  }

  /** The start of the concatenation has Eps-edges exactly when StartHasEps says so. */
  lemma ConcatStartEps(a: Regex, t: Nfa<int>, na: nat, fa: int, b: Regex, s: Nfa<int>)
    requires na == StateCount(a) && fa == FinalOf(a) && ThompsonShape(a, t)
    requires Get(s.d, (fa, Eps)) == {na}
    requires fa != 0 ==> Get(s.d, (0, Eps)) == Get(t.d, (0, Eps))
    ensures Get(s.d, (0, Eps)) != {} <==> StartHasEps(Concat(a, b))
  {
  }

  /** The start of the concatenation fans out exactly when FansOut says so. */
  lemma ConcatFansOut(a: Regex, t: Nfa<int>, na: nat, fa: int, b: Regex, u: Nfa<int>, fb: int, s: Nfa<int>)
    requires na == StateCount(a) && fa == FinalOf(a) && fb == FinalOf(b)
    requires ThompsonShape(a, t) && ThompsonShape(b, u)
    requires Get(s.d, (fa, Eps)) == {na}
    requires fa != 0 ==> Get(s.d, (0, Eps)) == Get(t.d, (0, Eps))
    ensures FansOutAt(s, fb + na) <==> FansOut(Concat(a, b))
  {
    if fa != 0 {
      assert forall y :: y in Get(t.d, (0, Eps)) ==> y < na;
    }
  }

  /**
   * An automaton with the shape JoinOf promises for the automata of a, which fans out, and of b
   * has the shape of `Union(a, b)`.
   */
  lemma JoinShape(a: Regex, na: nat, fa: int, b: Regex, nb: nat, s: Nfa<int>)
    requires na == StateCount(a) && fa == FinalOf(a) && nb == StateCount(b) && FansOut(a)
    requires Fragment(s, 0, na + nb, fa) && s.S == Chars(a) + Chars(b) && fa != 0 && FansOutAt(s, fa)
    ensures ThompsonShape(Union(a, b), s)
  {
    var r := Union(a, b);
    FragmentArgs(s, na + nb, fa, StateCount(r), FinalOf(r));
  }

  /**
   * An automaton with the shape FreshOf promises for the automata of a, which does not fan out,
   * and of b has the shape of `Union(a, b)`.
   */
  lemma FreshShape(a: Regex, na: nat, b: Regex, nb: nat, s: Nfa<int>)
    requires na == StateCount(a) && nb == StateCount(b) && !FansOut(a)
    requires Fragment(s, 0, na + nb + 2, na + nb + 1) && s.S == Chars(a) + Chars(b)
    requires FansOutAt(s, na + nb + 1)
    ensures ThompsonShape(Union(a, b), s)
  {
    var r := Union(a, b);
    FragmentArgs(s, na + nb + 2, na + nb + 1, StateCount(r), FinalOf(r));
  }

  /** `Star.thompson` of the automaton t built for a. */
  ghost function StarThompson(a: Regex, t: Nfa<int>): (s: Nfa<int>)
    requires ThompsonShape(a, t)
    ensures ThompsonShape(Star(a), s)
  {
    var s := StarOf(t, StateCount(a), FinalOf(a));
    StarShape(a, StateCount(a), s);
    s
  }

  /** `Concat.thompson` of the automata t built for a and u built for b. */
  ghost function ConcatThompson(a: Regex, t: Nfa<int>, b: Regex, u: Nfa<int>): (s: Nfa<int>)
    requires ThompsonShape(a, t) && ThompsonShape(b, u)
    ensures ThompsonShape(Concat(a, b), s)
  {
    ConcatOfShape(a, t, StateCount(a), FinalOf(a), b, u, StateCount(b), FinalOf(b));
    ConcatOf(t, StateCount(a), FinalOf(a), u, StateCount(b), FinalOf(b))
  }

  /** `Union.thompson` of the automata t built for a, which fans out, and u built for b. */
  ghost function JoinThompson(a: Regex, t: Nfa<int>, b: Regex, u: Nfa<int>): (s: Nfa<int>)
    requires ThompsonShape(a, t) && ThompsonShape(b, u) && FansOut(a)
    ensures ThompsonShape(Union(a, b), s)
  {
    JoinOfShape(a, t, StateCount(a), FinalOf(a), b, u, StateCount(b), FinalOf(b));
    JoinOf(t, StateCount(a), FinalOf(a), u, StateCount(b), FinalOf(b))
  }

  /** The concatenation of the automata of a and b, with na and nb states, has the shape of `Concat(a, b)`. */
  lemma ConcatOfShape(a: Regex, t: Nfa<int>, na: nat, fa: int, b: Regex, u: Nfa<int>, nb: nat, fb: int)
    requires na == StateCount(a) && fa == FinalOf(a) && nb == StateCount(b) && fb == FinalOf(b)
    requires ThompsonShape(a, t) && ThompsonShape(b, u)
    ensures Fragment(t, 0, na, fa) && Fragment(u, 0, nb, fb)
    ensures ThompsonShape(Concat(a, b), ConcatOf(t, na, fa, u, nb, fb))
  {
    ConcatShape(a, t, na, fa, b, u, nb, fb, ConcatOf(t, na, fa, u, nb, fb));
  }

  /** The join of the automata of a, which fans out, and b has the shape of `Union(a, b)`. */
  lemma JoinOfShape(a: Regex, t: Nfa<int>, na: nat, fa: int, b: Regex, u: Nfa<int>, nb: nat, fb: int)
    requires na == StateCount(a) && fa == FinalOf(a) && nb == StateCount(b) && fb == FinalOf(b)
    requires ThompsonShape(a, t) && ThompsonShape(b, u) && FansOut(a)
    ensures Fragment(t, 0, na, fa) && Fragment(u, 0, nb, fb) && FansOutAt(t, fa)
    ensures ThompsonShape(Union(a, b), JoinOf(t, na, fa, u, nb, fb))
  {
    JoinShape(a, na, fa, b, nb, JoinOf(t, na, fa, u, nb, fb));
  }

  /** The fresh union of the automata of a and b, with na and nb states, has the shape of `Union(a, b)`. */
  lemma FreshOfShape(a: Regex, t: Nfa<int>, na: nat, fa: int, b: Regex, u: Nfa<int>, nb: nat, fb: int)
    requires na == StateCount(a) && fa == FinalOf(a) && nb == StateCount(b) && fb == FinalOf(b)
    requires ThompsonShape(a, t) && ThompsonShape(b, u) && !FansOut(a)
    ensures Fragment(t, 0, na, fa) && Fragment(u, 0, nb, fb)
    ensures ThompsonShape(Union(a, b), FreshOf(t, na, fa, u, nb, fb))
  {
    FreshShape(a, na, b, nb, FreshOf(t, na, fa, u, nb, fb));
  }

  /** `Union.thompson` of the automata t built for a, which does not fan out, and u built for b. */
  ghost function FreshThompson(a: Regex, t: Nfa<int>, b: Regex, u: Nfa<int>): (s: Nfa<int>)
    requires ThompsonShape(a, t) && ThompsonShape(b, u) && !FansOut(a)
    ensures ThompsonShape(Union(a, b), s)
  {
    FreshOfShape(a, t, StateCount(a), FinalOf(a), b, u, StateCount(b), FinalOf(b));
    FreshOf(t, StateCount(a), FinalOf(a), u, StateCount(b), FinalOf(b))
  }

  /** The automaton `thompson()` builds for r (src/Regex.py:122-285). */
  ghost function ThompsonNfa(r: Regex): (nfa: Nfa<int>)
    ensures ThompsonShape(r, nfa)
    decreases r
  {
    match r
    case Epsilon => EpsilonNfa()
    case Character(c) => CharacterNfa(c)
    case Star(a) => StarThompson(a, ThompsonNfa(a))
    case Concat(a, b) => ConcatThompson(a, ThompsonNfa(a), b, ThompsonNfa(b))
    case Union(a, b) =>
      if FansOut(a) then JoinThompson(a, ThompsonNfa(a), b, ThompsonNfa(b))
      else FreshThompson(a, ThompsonNfa(a), b, ThompsonNfa(b))
  }

  /** Moving the states leaves the labels alone. */
  lemma MovedLabels(nfa: Nfa<int>, k: int)
    ensures Labels(Moved(nfa, k).d) == Labels(nfa.d)
  {
    MovedIsShifted(nfa, k);
    ShiftLabels(nfa, k);
  }

  /** The star of a fragment is labelled exactly as the fragment: its two new edges are Eps. */
  lemma StarLabels(a: Nfa<int>, n: nat, f: int)
    requires Fragment(a, 0, n, f)
    ensures Labels(StarOf(a, n, f).d) == Labels(a.d)
  {
    StarTable(a, n, f);
    MovedLabels(a, 1);
    LabelsOfKeys(StarOf(a, n, f).d, Moved(a, 1).d, map[], {(0, Eps), (f + 1, Eps)});
  }

  /** A concatenation carries the labels of both operands. */
  lemma ConcatLabels(left: Nfa<int>, nl: nat, fl: int, right: Nfa<int>, nr: nat, fr: int)
    requires Fragment(left, 0, nl, fl) && Fragment(right, 0, nr, fr)
    ensures Labels(ConcatOf(left, nl, fl, right, nr, fr).d) == Labels(left.d) + Labels(right.d)
  {
    ConcatTable(left, nl, fl, right, nr, fr);
    MovedLabels(right, nl);
    LabelsOfKeys(ConcatOf(left, nl, fl, right, nr, fr).d, left.d, Moved(right, nl).d, {(fl, Eps)});
  }

  /** A union over the first operand's fan-out carries the labels of both operands. */
  lemma JoinLabels(a: Nfa<int>, n1: nat, f1: int, c: Nfa<int>, n2: nat, f2: int)
    requires Fragment(a, 0, n1, f1) && Fragment(c, 0, n2, f2) && FansOutAt(a, f1)
    ensures Labels(JoinOf(a, n1, f1, c, n2, f2).d) == Labels(a.d) + Labels(c.d)
  {
    JoinTable(a, n1, f1, c, n2, f2);
    MovedLabels(c, n1);
    LabelsOfKeys(JoinOf(a, n1, f1, c, n2, f2).d, a.d, Moved(c, n1).d, {(f2 + n1, Eps)});
  }

  /** The fresh wiring of two automata carries the labels of both: it adds only Eps-edges. */
  lemma FreshWireLabels(a: Nfa<int>, n1: int, f1: int, b: Nfa<int>, n2: int, f2: int)
    ensures Labels(FreshWire(a, n1, f1, b, n2, f2).d) == Labels(a.d) + Labels(b.d)
  {
    LabelsOfKeys(FreshWire(a, n1, f1, b, n2, f2).d, a.d, b.d, {(0, Eps), (f1 + 1, Eps), (f2 + n1 + 1, Eps)});
  }

  /** A union with fresh start and final states carries the labels of both operands. */
  lemma FreshLabels(c1: Nfa<int>, n1: nat, f1: int, c2: Nfa<int>, n2: nat, f2: int)
    requires Fragment(c1, 0, n1, f1) && Fragment(c2, 0, n2, f2)
    ensures Labels(FreshOf(c1, n1, f1, c2, n2, f2).d) == Labels(c1.d) + Labels(c2.d)
  {
    FreshOfIsWire(c1, n1, f1, c2, n2, f2);
    MovedWireLabels(c1, n1, f1, c2, n2, f2);
  }

  /** The fresh wiring of the two operands, moved into place, carries the labels of both. */
  lemma MovedWireLabels(c1: Nfa<int>, n1: nat, f1: int, c2: Nfa<int>, n2: nat, f2: int)
    ensures Labels(FreshWire(Moved(c1, 1), n1, f1, Moved(c2, n1 + 1), n2, f2).d) == Labels(c1.d) + Labels(c2.d)
  {
    FreshWireLabels(Moved(c1, 1), n1, f1, Moved(c2, n1 + 1), n2, f2);
    MovedLabels(c1, 1);
    MovedLabels(c2, n1 + 1);
  }

  /** FreshOf is the fresh wiring of the two moved operands. */
  lemma FreshOfIsWire(c1: Nfa<int>, n1: nat, f1: int, c2: Nfa<int>, n2: nat, f2: int)
    requires Fragment(c1, 0, n1, f1) && Fragment(c2, 0, n2, f2)
    ensures FreshOf(c1, n1, f1, c2, n2, f2) == FreshWire(Moved(c1, 1), n1, f1, Moved(c2, n1 + 1), n2, f2)
  {
  }

  /**
   * Every character of r labels a transition of its Thompson automaton and no other
   * character does: each `Character` leaf leaves its edge in the result.
   */
  lemma {:induction false} ThompsonLabels(r: Regex)
    ensures Labels(ThompsonNfa(r).d) == Chars(r)
    decreases r
  {
    match r
    case Epsilon =>
    case Character(c) =>
      assert Labels(ThompsonNfa(r).d) == {c} by {
        assert (0, Sym(c)) in ThompsonNfa(r).d;
      }
    case Star(a) =>
      ThompsonLabels(a);
      StarLabels(ThompsonNfa(a), StateCount(a), FinalOf(a));
    case Concat(a, b) =>
      ThompsonLabels(a);
      ThompsonLabels(b);
      ConcatLabels(ThompsonNfa(a), StateCount(a), FinalOf(a), ThompsonNfa(b), StateCount(b), FinalOf(b));
    case Union(a, b) =>
      ThompsonLabels(a);
      ThompsonLabels(b);
      if FansOut(a) {
        JoinLabels(ThompsonNfa(a), StateCount(a), FinalOf(a), ThompsonNfa(b), StateCount(b), FinalOf(b));
      } else {
        FreshLabels(ThompsonNfa(a), StateCount(a), FinalOf(a), ThompsonNfa(b), StateCount(b), FinalOf(b));
      }
  }

  /**
   * `thompson()` of every node (src/Regex.py:122-285), building its operands' automata first:
   * the result is ThompsonNfa(r), with final state FinalOf(r).
   */
  method Thompson(r: Regex) returns (nfa: Nfa<int>, ghost f: int)
    ensures nfa == ThompsonNfa(r) && f == FinalOf(r)
    decreases r
  {
    match r
    case Epsilon =>
      nfa, f := EpsilonNfa(), 0;
    case Character(c) =>
      nfa, f := CharacterNfa(c), 1;
    case Star(a) =>
      var inner, fa := Thompson(a);
      nfa := StarNfa(inner, StateCount(a), fa);
      f := StateCount(a) + 1;
    case Concat(a, b) =>
      var left, fl := Thompson(a);
      var right, fr := Thompson(b);
      nfa := ConcatNfa(left, StateCount(a), fl, right, StateCount(b), fr);
      f := fr + StateCount(a);
    case Union(a, b) =>
      var nfa1, f1 := Thompson(a);
      var nfa2, f2 := Thompson(b);
      ghost var n;
      nfa, n, f := UnionNfa(nfa1, StateCount(a), f1, nfa2, StateCount(b), f2);
  }
}
