/**
 * A printer for regex trees and the proof that the parser of src/Regex.py reads every printed
 * tree back. The printer only inserts the parentheses the grammar needs, so the round trip
 * pins down the parser's precedence (postfix over concatenation over union), its left
 * associativity, the escape `\c`, and the desugaring of `*` and `?`.
 */
module RegexPrinter {
  import opened Wrappers
  import opened Syntax
  import opened RegexParser

  /** Trees a parse can produce: `Epsilon` occurs only as the right operand made by `?`. */
  predicate Printable(r: Regex)
  {
    match r
    case Epsilon => false
    case Character(_) => true
    case Concat(a, b) => Printable(a) && Printable(b)
    case Union(a, b) => Printable(a) && (b == Epsilon || Printable(b))
    case Star(a) => Printable(a)
  }

  /**
   * The printing level at which a tree is printed without parentheses: 0 atom, 1 postfix,
   * 2 concatenation, 3 union.
   */
  function Home(r: Regex): nat
  {
    match r
    case Epsilon => 0
    case Character(_) => 0
    case Star(_) => 1
    case Union(_, Epsilon) => 1
    case Concat(_, _) => 2
    case Union(_, _) => 3
  }

  /** How many levels Show still descends before it reaches the home level of r. */
  function Distance(r: Regex, level: nat): nat
    requires level <= 3
  {
    (level + 4 - Home(r)) % 4
  }

  /** The text of r at a printing level; every character is printed escaped. */
  function Show(r: Regex, level: nat): (t: seq<char>)
    requires level <= 3
    decreases r, Distance(r, level)
  {
    if level == 0 then
      if r.Character? then ['\\', r.c]
      else if r.Epsilon? then []
      else ['('] + Show(r, 3) + [')']
    else if level == 1 then
      if r.Star? then Show(r.inner, 0) + ['*']
      else if r.Union? && r.right == Epsilon then Show(r.left, 0) + ['?']
      else Show(r, 0)
    else if level == 2 then
      if r.Concat? then Show(r.left, 2) + Show(r.right, 1)
      else Show(r, 1)
    else
      if r.Union? && r.right != Epsilon then Show(r.left, 3) + ['|'] + Show(r.right, 2)
      else Show(r, 2)
  }

  /** A printed tree starts with an escape or an opening parenthesis. */
  lemma {:induction false} ShowStart(r: Regex, level: nat)
    requires level <= 3 && Printable(r)
    ensures |Show(r, level)| > 0 && Show(r, level)[0] in {'\\', '('}
    decreases r, Distance(r, level)
  {
    if level == 1 {
      if r.Star? {
        ShowStart(r.inner, 0);
      } else if r.Union? && r.right == Epsilon {
        ShowStart(r.left, 0);
      } else {
        ShowStart(r, 0);
      }
    } else if level == 2 {
      if r.Concat? {
        ShowStart(r.left, 2);
      } else {
        ShowStart(r, 1);
      }
    } else if level == 3 {
      if r.Union? && r.right != Epsilon {
        ShowStart(r.left, 3);
      } else {
        ShowStart(r, 2);
      }
    }
  }

  /** The printed text uses the tree's characters and the operator characters only. */
  lemma {:induction false} ShowChars(r: Regex, level: nat)
    requires level <= 3
    ensures forall c :: c in Show(r, level) ==> c in Chars(r) || c in "\\()|*?"
    decreases r, Distance(r, level)
  {
    if level == 0 {
      if !r.Character? && !r.Epsilon? {
        ShowChars(r, 3);
      }
    } else if level == 1 {
      if r.Star? {
        ShowChars(r.inner, 0);
      } else if r.Union? && r.right == Epsilon {
        ShowChars(r.left, 0);
      } else {
        ShowChars(r, 0);
      }
    } else if level == 2 {
      if r.Concat? {
        ShowChars(r.left, 2);
        ShowChars(r.right, 1);
      } else {
        ShowChars(r, 1);
      }
    } else {
      if r.Union? && r.right != Epsilon {
        ShowChars(r.left, 3);
        ShowChars(r.right, 2);
      } else {
        ShowChars(r, 2);
      }
    }
  }

  /** The text after an operand does not start with a postfix operator. */
  predicate NoOperator(rest: seq<char>)
  {
    rest == [] || rest[0] !in {'*', '+', '?'}
  }

  /** The text after a union ends it: nothing, another `|`, or a closing parenthesis. */
  predicate EndsUnion(rest: seq<char>)
  {
    rest == [] || rest[0] == '|' || rest[0] == ')'
  }

  /** An atom parses back as itself, whatever follows it. */
  lemma {:induction false} RoundTripAtom(r: Regex, rest: seq<char>)
    requires Printable(r)
    ensures PartsSpec(Show(r, 0) + rest) == Some(Parsed(r, rest))
    decreases r, Distance(r, 0)
  {
    var s := Show(r, 0) + rest;
    if r.Character? {
      assert s[0] == '\\' && s[1] == r.c && s[2..] == rest;
    } else {
      var inner := Show(r, 3) + ([')'] + rest);
      assert s == ['('] + inner;
      assert s[1..] == inner;
      RoundTripUnion(r, [')'] + rest);
      assert ([')'] + rest)[1..] == rest;
    }
  }

  /** An operand with its postfix operator parses back as itself. */
  lemma {:induction false} RoundTripPostfix(r: Regex, rest: seq<char>)
    requires Printable(r) && NoOperator(rest)
    ensures PostfixSpec(Show(r, 1) + rest) == Some(Parsed(r, rest))
    decreases r, Distance(r, 1)
  {
    if r.Star? {
      assert Show(r, 1) + rest == Show(r.inner, 0) + (['*'] + rest);
      RoundTripAtom(r.inner, ['*'] + rest);
      assert (['*'] + rest)[1..] == rest;
    } else if r.Union? && r.right == Epsilon {
      assert Show(r, 1) + rest == Show(r.left, 0) + (['?'] + rest);
      RoundTripAtom(r.left, ['?'] + rest);
      assert (['?'] + rest)[1..] == rest;
    } else {
      RoundTripAtom(r, rest);
    }
  }

  /** A concatenation parses back as itself, continuing with whatever operands follow. */
  lemma {:induction false} RoundTripConcat(r: Regex, rest: seq<char>)
    requires Printable(r) && NoOperator(rest)
    ensures ConcatSpec(Show(r, 2) + rest) == ConcatTailSpec(r, rest)
    decreases r, Distance(r, 2)
  {
    if r.Concat? {
      var tail := Show(r.right, 1) + rest;
      assert Show(r, 2) + rest == Show(r.left, 2) + tail;
      ShowStart(r.right, 1);
      assert tail[0] == Show(r.right, 1)[0];
      RoundTripConcat(r.left, tail);
      RoundTripPostfix(r.right, rest);
    } else {
      RoundTripPostfix(r, rest);
    }
  }

  /** A union parses back as itself, continuing with whatever alternatives follow. */
  lemma {:induction false} RoundTripUnion(r: Regex, rest: seq<char>)
    requires Printable(r) && EndsUnion(rest)
    ensures UnionSpec(Show(r, 3) + rest) == UnionTailSpec(r, rest)
    decreases r, Distance(r, 3)
  {
    if r.Union? && r.right != Epsilon {
      var alt := Show(r.right, 2) + rest;
      var tail := ['|'] + alt;
      assert Show(r, 3) + rest == Show(r.left, 3) + tail;
      RoundTripUnion(r.left, tail);
      assert tail[1..] == alt;
      RoundTripConcat(r.right, rest);
    } else {
      RoundTripConcat(r, rest);
    }
  }

  /** Every printable tree is read back from its printed text by `parse_union`. */
  lemma ParseShow(r: Regex)
    requires Printable(r)
    ensures UnionSpec(Show(r, 3)) == Some(Parsed(r, []))
  {
    RoundTripUnion(r, []);
    assert Show(r, 3) + [] == Show(r, 3);
  }

  /**
   * `parse_regex` reads a printed tree back when the tree has no space and no letter `s`
   * (for those, `eliminate_spaces` rewrites the escapes `\ ` and `\s`).
   */
  lemma ParseRegexShow(r: Regex)
    requires Printable(r) && ' ' !in Chars(r) && 's' !in Chars(r)
    ensures ParseRegexSpec(Show(r, 3)) == Some(r)
  {
    var t := Show(r, 3);
    ShowChars(r, 3);
    EliminateSpacesKeepsEscaped(t);
    KeepEscapedSpacesNoSpaces(' ', t);
    ParseShow(r);
  }
}
