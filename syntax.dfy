/**
 * Regular-expression syntax trees and the space-stripping pre-pass of the regex front end
 * (src/Regex.py).
 */
module Syntax {

  /** The five node kinds of the regex tree (src/Regex.py:119-285). */
  datatype Regex =
    | Epsilon
    | Character(c: char)
    | Concat(left: Regex, right: Regex)
    | Union(left: Regex, right: Regex)
    | Star(inner: Regex)

  /** The characters of a tree: the alphabet its Thompson automaton will have. */
  function Chars(r: Regex): set<char>
  {
    match r
    case Epsilon => {}
    case Character(c) => {c}
    case Concat(a, b) => Chars(a) + Chars(b)
    case Union(a, b) => Chars(a) + Chars(b)
    case Star(a) => Chars(a)
  }

  /**
   * Whether `thompson()` of r returns the alphabet object of an `Epsilon` leaf, the dict
   * literal `{}` of src/Regex.py:123: `remap_states` passes the alphabet object on
   * (src/NFA.py:146), and Star, Concat and Union keep that of their first operand.
   */
  predicate DictAlphabet(r: Regex)
  {
    match r
    case Epsilon => true
    case Character(_) => false
    case Star(a) => DictAlphabet(a)
    case Concat(a, _) => DictAlphabet(a)
    case Union(a, _) => DictAlphabet(a)
  }

  /**
   * Whether `thompson()` of r raises `ValueError`: merging the alphabets calls `dict.update` on
   * a dict alphabet with a non-empty set of one-character strings (src/Regex.py:197, 216, 261).
   * `Concat(Epsilon, Character('a'))` is the smallest such tree.
   */
  predicate ThompsonRaises(r: Regex)
  {
    match r
    case Epsilon => false
    case Character(_) => false
    case Star(a) => ThompsonRaises(a)
    case Concat(a, b) => ThompsonRaises(a) || ThompsonRaises(b) || (DictAlphabet(a) && Chars(b) != {})
    case Union(a, b) => ThompsonRaises(a) || ThompsonRaises(b) || (DictAlphabet(a) && Chars(b) != {})
  }

  /**
   * Where `thompson()` does not raise, a dict alphabet has stayed empty, so its keys are the
   * set Chars(r) the model uses.
   */
  lemma {:induction false} DictAlphabetEmpty(r: Regex)
    requires DictAlphabet(r) && !ThompsonRaises(r)
    ensures Chars(r) == {}
  {
    match r
    case Epsilon =>
    case Star(a) => DictAlphabetEmpty(a);
    case Concat(a, _) => DictAlphabetEmpty(a);
    case Union(a, _) => DictAlphabetEmpty(a);
  }

  /**
   * Python's `str.replace(pat, rep)` for a non-empty pattern: scans left to right and replaces
   * every non-overlapping occurrence, the leftmost first. A replacement no longer than the
   * pattern never lengthens the text, one as long keeps its length, and every character of the
   * result comes from the text or from the replacement.
   */
  function Replace(s: seq<char>, pat: seq<char>, rep: seq<char>): (r: seq<char>)
    requires |pat| > 0
    ensures |rep| <= |pat| ==> |r| <= |s|
    ensures |rep| == |pat| ==> |r| == |s|
    ensures forall c :: c in r ==> c in s || c in rep
    decreases |s|
  {
    if |s| < |pat| then s
    else if s[..|pat|] == pat then rep + Replace(s[|pat|..], pat, rep)
    else [s[0]] + Replace(s[1..], pat, rep)
  }

  /**
   * `eliminate_spaces` (src/Regex.py:114-117): escaped spaces are protected as `\s`, all
   * other spaces are dropped, and every `\s` becomes an escaped space again. The text never
   * grows, and every space left in it is escaped by a backslash.
   */
  function EliminateSpaces(s: seq<char>): (r: seq<char>)
    ensures |r| <= |s|
    ensures SpacesEscaped(r)
  {
    var a := Replace(s, "\\ ", "\\s");
    DropSpaces(a);
    RestoreSpacesEscaped(NoSpaces(a));
    Replace(Replace(a, " ", ""), "\\s", "\\ ")
  }

  /**
   * Reference definition of what `eliminate_spaces` keeps: a space survives exactly when the
   * character before it in the input is a backslash. `prev` is that preceding character
   * (any non-backslash at the start of the input).
   */
  function KeepEscapedSpaces(prev: char, s: seq<char>): (r: seq<char>)
    ensures |r| <= |s|
    decreases |s|
  {
    if s == [] then []
    else
      var rest := KeepEscapedSpaces(s[0], s[1..]);
      if s[0] == ' ' then (if prev == '\\' then [' '] + rest else rest)
      else [s[0]] + rest
  }

  /** The first step in the reference terms: an escaped space becomes `s`. */
  function MarkEscaped(prev: char, s: seq<char>): (r: seq<char>)
    ensures |r| == |s|
    decreases |s|
  {
    if s == [] then []
    else [if s[0] == ' ' && prev == '\\' then 's' else s[0]] + MarkEscaped(s[0], s[1..])
  }

  /** The characters of s other than spaces, in order. */
  function NoSpaces(s: seq<char>): (r: seq<char>)
    ensures ' ' !in r
    ensures forall c :: c in r ==> c in s
    decreases |s|
  {
    if s == [] then [] else (if s[0] == ' ' then [] else [s[0]]) + NoSpaces(s[1..])
  }

  lemma {:induction false} MarkEscapedStep(prev: char, s: seq<char>)
    requires prev == '\\' ==> s == [] || s[0] != ' '
    ensures Replace(s, "\\ ", "\\s") == MarkEscaped(prev, s)
    decreases |s|
  {
    if s == [] {
    } else if |s| == 1 {
      assert MarkEscaped(s[0], s[1..]) == [];
    } else if s[0] == '\\' && s[1] == ' ' {
      assert s[..2] == "\\ ";
      MarkEscapedStep(' ', s[2..]);
      assert s[1..][1..] == s[2..];
    } else {
      assert s[..2] != "\\ " by { assert s[..2][0] == s[0] && s[..2][1] == s[1]; }
      MarkEscapedStep(s[0], s[1..]);
    }
  }

  lemma {:induction false} DropSpaces(s: seq<char>)
    ensures Replace(s, " ", "") == NoSpaces(s)
    decreases |s|
  {
    if s != [] {
      DropSpaces(s[1..]);
      assert s[..1] == [s[0]];
    }
  }

  /** `NoSpaces` distributes over concatenation. */
  lemma {:induction false} NoSpacesAppend(a: seq<char>, b: seq<char>)
    ensures NoSpaces(a + b) == NoSpaces(a) + NoSpaces(b)
    decreases |a|
  {
    if a != [] {
      var h := if a[0] == ' ' then [] else [a[0]];
      assert (a + b)[0] == a[0];
      assert (a + b)[1..] == a[1..] + b;
      NoSpacesAppend(a[1..], b);
      calc {
        NoSpaces(a + b);
        h + NoSpaces(a[1..] + b);
        h + (NoSpaces(a[1..]) + NoSpaces(b));
        (h + NoSpaces(a[1..])) + NoSpaces(b);
        NoSpaces(a) + NoSpaces(b);
      }
    } else {
      assert a + b == b;
    }
  }

  /** NoSpaces of a text that starts with a given character. */
  lemma NoSpacesCons(c: char, m: seq<char>)
    ensures NoSpaces([c] + m) == (if c == ' ' then [] else [c]) + NoSpaces(m)
  {
    assert ([c] + m)[0] == c;
    assert ([c] + m)[1..] == m;
  }

  lemma {:induction false} RestoreStep(prev: char, s: seq<char>)
    requires 's' !in s
    requires prev == '\\' ==> s == [] || s[0] != ' '
    ensures Replace(NoSpaces(MarkEscaped(prev, s)), "\\s", "\\ ") == KeepEscapedSpaces(prev, s)
    decreases |s|, 1
  {
    if s == [] {
    } else if s[0] == ' ' {
      RestoreStep(' ', s[1..]);
      var m := MarkEscaped(' ', s[1..]);
      assert MarkEscaped(prev, s) == [' '] + m;
      NoSpacesCons(' ', m);
      assert [] + NoSpaces(m) == NoSpaces(m);
    } else if s[0] == '\\' && |s| > 1 && s[1] == ' ' {
      RestoreEscapedSpace(prev, s);
    } else {
      RestoreOther(prev, s);
    }
  }

  /** An escaped space is marked and survives space removal as the two characters `\s`. */
  lemma MarkedEscapedSpace(prev: char, s: seq<char>)
    requires |s| > 1 && s[0] == '\\' && s[1] == ' '
    ensures NoSpaces(MarkEscaped(prev, s)) == "\\s" + NoSpaces(MarkEscaped(' ', s[2..]))
  {
    var m := MarkEscaped(' ', s[2..]);
    assert s[1..][1..] == s[2..];
    assert MarkEscaped('\\', s[1..]) == ['s'] + m;
    assert MarkEscaped(prev, s) == ['\\'] + (['s'] + m);
    NoSpacesCons('\\', ['s'] + m);
    NoSpacesCons('s', m);
  }

  /** Replace on a text that starts with the pattern. */
  lemma ReplaceAtPattern(u: seq<char>, pat: seq<char>, rep: seq<char>)
    requires |pat| > 0 && |u| >= |pat| && u[..|pat|] == pat
    ensures Replace(u, pat, rep) == rep + Replace(u[|pat|..], pat, rep)
  {
  }

  lemma RestoredEscapedSpace(prev: char, s: seq<char>)
    requires |s| > 1 && s[0] == '\\' && s[1] == ' '
    ensures Replace(NoSpaces(MarkEscaped(prev, s)), "\\s", "\\ ")
         == "\\ " + Replace(NoSpaces(MarkEscaped(' ', s[2..])), "\\s", "\\ ")
  {
    var t := NoSpaces(MarkEscaped(' ', s[2..]));
    MarkedEscapedSpace(prev, s);
    assert ("\\s" + t)[..2] == "\\s";
    assert ("\\s" + t)[2..] == t;
    ReplaceAtPattern("\\s" + t, "\\s", "\\ ");
  }

  lemma KeptEscapedSpace(prev: char, s: seq<char>)
    requires |s| > 1 && s[0] == '\\' && s[1] == ' '
    ensures KeepEscapedSpaces(prev, s) == "\\ " + KeepEscapedSpaces(' ', s[2..])
  {
    assert s[1..][1..] == s[2..];
    assert KeepEscapedSpaces('\\', s[1..]) == [' '] + KeepEscapedSpaces(' ', s[2..]);
  }

  lemma {:induction false} RestoreEscapedSpace(prev: char, s: seq<char>)
    requires 's' !in s
    requires |s| > 1 && s[0] == '\\' && s[1] == ' '
    ensures Replace(NoSpaces(MarkEscaped(prev, s)), "\\s", "\\ ") == KeepEscapedSpaces(prev, s)
    decreases |s|, 0
  {
    RestoredEscapedSpace(prev, s);
    KeptEscapedSpace(prev, s);
    RestoreStep(' ', s[2..]);
  }

  lemma {:induction false} RestoreOther(prev: char, s: seq<char>)
    requires 's' !in s
    requires prev == '\\' ==> s == [] || s[0] != ' '
    requires s != [] && s[0] != ' ' && !(s[0] == '\\' && |s| > 1 && s[1] == ' ')
    ensures Replace(NoSpaces(MarkEscaped(prev, s)), "\\s", "\\ ") == KeepEscapedSpaces(prev, s)
    decreases |s|, 0
  {
    var m := MarkEscaped(s[0], s[1..]);
    var t := NoSpaces(m);
    assert MarkEscaped(prev, s) == [s[0]] + m;
    NoSpacesCons(s[0], m);
    RestoreStep(s[0], s[1..]);
    if |[s[0]] + t| >= 2 {
      if s[0] == '\\' {
        assert s[1] != ' ' && s[1] != 's' by { assert s[1] in s; }
        assert m == [s[1]] + MarkEscaped(s[1], s[2..]) by { assert s[1..][1..] == s[2..]; }
        NoSpacesCons(s[1], MarkEscaped(s[1], s[2..]));
        assert t[0] == s[1];
      }
      assert ([s[0]] + t)[..2] != "\\s" by {
        assert ([s[0]] + t)[..2][0] == s[0];
        assert s[0] == '\\' ==> ([s[0]] + t)[..2][1] == t[0];
      }
      assert ([s[0]] + t)[1..] == t;
    }
  }

  /**
   * For input without the letter `s`, `eliminate_spaces` keeps exactly the spaces that are
   * escaped by a backslash and drops every other space.
   */
  lemma EliminateSpacesKeepsEscaped(s: seq<char>)
    requires 's' !in s
    ensures EliminateSpaces(s) == KeepEscapedSpaces(' ', s)
  {
    MarkEscapedStep(' ', s);
    DropSpaces(MarkEscaped(' ', s));
    RestoreStep(' ', s);
  }

  /** Every space of r is immediately preceded by a backslash. */
  predicate SpacesEscaped(r: seq<char>)
  {
    forall i :: 0 <= i < |r| && r[i] == ' ' ==> i > 0 && r[i - 1] == '\\'
  }

  /** Prefixing a character other than a space keeps every space escaped. */
  lemma SpacesEscapedCons(c: char, r: seq<char>)
    requires c != ' ' && SpacesEscaped(r)
    ensures SpacesEscaped([c] + r)
  {
    var r' := [c] + r;
    forall i | 0 <= i < |r'| && r'[i] == ' ' ensures i > 0 && r'[i - 1] == '\\' {
      assert r'[i] == r[i - 1];
      assert r'[i - 1] == r[i - 2];
    }
  }

  /** Prefixing an escaped space keeps every space escaped. */
  lemma SpacesEscapedEscape(r: seq<char>)
    requires SpacesEscaped(r)
    ensures SpacesEscaped("\\ " + r)
  {
    var r' := "\\ " + r;
    forall i | 0 <= i < |r'| && r'[i] == ' ' ensures i > 0 && r'[i - 1] == '\\' {
      if i > 1 {
        assert r'[i] == r[i - 2];
        assert r'[i - 1] == r[i - 3];
      }
    }
  }

  /** A space produced by replacing `\s` with `\ ` in a space-free text follows a backslash. */
  lemma {:induction false} RestoreSpacesEscaped(t: seq<char>)
    requires ' ' !in t
    ensures SpacesEscaped(Replace(t, "\\s", "\\ "))
    decreases |t|
  {
    if |t| >= 2 {
      if t[..2] == "\\s" {
        RestoreSpacesEscaped(t[2..]);
        SpacesEscapedEscape(Replace(t[2..], "\\s", "\\ "));
      } else {
        RestoreSpacesEscaped(t[1..]);
        assert t[0] in t;
        SpacesEscapedCons(t[0], Replace(t[1..], "\\s", "\\ "));
      }
    } else {
      assert forall i :: 0 <= i < |t| ==> t[i] in t;
    }
  }

  /** Text without spaces passes through the reference filter unchanged. */
  lemma {:induction false} KeepEscapedSpacesNoSpaces(prev: char, s: seq<char>)
    requires ' ' !in s
    ensures KeepEscapedSpaces(prev, s) == s
    decreases |s|
  {
    if s != [] {
      KeepEscapedSpacesNoSpaces(s[0], s[1..]);
    }
  }
}
