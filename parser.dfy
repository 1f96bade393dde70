/**
 * The recursive-descent regex parser of src/Regex.py. The functions ending in `Spec` say what
 * each parser method computes on the remaining input; the class `Parser` consumes its input
 * front to back as the original does with its deque, and each of its methods is proved to
 * agree with the corresponding function. A Python exception (an `IndexError` on an exhausted
 * deque, or the unbound `set_char` of an unsupported bracket class) is the result `None`.
 */
module RegexParser {
  import opened Wrappers
  import opened Syntax

  /** A parsed tree and the input left after it. */
  datatype Parsed = Parsed(tree: Regex, rest: seq<char>)

  const Lowercase: seq<char> := "abcdefghijklmnopqrstuvwxyz"
  const Uppercase: seq<char> := "ABCDEFGHIJKLMNOPQRSTUVWXYZ"
  const Digits: seq<char> := "0123456789"

  /** `str.isalpha`, `str.islower` and `str.isdigit`, restricted to ASCII. */
  predicate IsAlpha(c: char) { 'a' <= c <= 'z' || 'A' <= c <= 'Z' }
  predicate IsLower(c: char) { 'a' <= c <= 'z' }
  predicate IsDigit(c: char) { '0' <= c <= '9' }

  /** The left-nested union of the characters of cs, in order (src/Regex.py:17-25). */
  function SugarUnion(cs: seq<char>): (r: Regex)
    requires |cs| >= 2
    ensures r.Union? && r.right == Character(cs[|cs| - 1])
    decreases |cs|
  {
    if |cs| == 2 then Union(Character(cs[0]), Character(cs[1]))
    else Union(SugarUnion(cs[..|cs| - 1]), Character(cs[|cs| - 1]))
  }

  /** The alternatives along the left spine of a union, leftmost first. */
  function Alternatives(r: Regex): (alts: seq<Regex>)
    ensures |alts| >= 1
  {
    match r
    case Union(a, b) => Alternatives(a) + [b]
    case _ => [r]
  }

  /** The `Character` node of every character of cs, in order. */
  function Characters(cs: seq<char>): (rs: seq<Regex>)
    ensures |rs| == |cs| && forall i :: 0 <= i < |cs| ==> rs[i] == Character(cs[i])
  {
    seq(|cs|, i requires 0 <= i < |cs| => Character(cs[i]))
  }

  /** A bracket class desugars to the union of its characters, one alternative each, in order. */
  lemma {:induction false} SugarAlternatives(cs: seq<char>)
    requires |cs| >= 2
    ensures Alternatives(SugarUnion(cs)) == Characters(cs)
    decreases |cs|
  {
    if |cs| > 2 {
      SugarAlternatives(cs[..|cs| - 1]);
    }
  }

  /** `parse_square_brackets` (src/Regex.py:34-52). */
  function SquareSpec(s: seq<char>): (r: Option<Parsed>)
    ensures r.Some? ==> |r.value.rest| < |s|
  {
    if |s| < 5 then None
    else if IsAlpha(s[1]) then
      (if IsLower(s[1]) then Some(Parsed(SugarUnion(Lowercase), s[5..]))
       else Some(Parsed(SugarUnion(Uppercase), s[5..])))
    else if IsDigit(s[1]) then Some(Parsed(SugarUnion(Digits), s[5..]))
    else None
  }

  /**
   * `parse_operations` (src/Regex.py:68-88): at most one postfix operator. It consumes at most
   * one character, and leaves the tree alone when it consumes none.
   */
  function OperationsSpec(e: Regex, s: seq<char>): (r: Parsed)
    ensures |r.rest| <= |s|
    ensures r.rest == s || (s != [] && r.rest == s[1..])
    ensures r.rest == s ==> r.tree == e
  {
    if s == [] then Parsed(e, s)
    else if s[0] == '*' then Parsed(Star(e), s[1..])
    else if s[0] == '+' then Parsed(Concat(e, Star(e)), s[1..])
    else if s[0] == '?' then Parsed(Union(e, Epsilon), s[1..])
    else Parsed(e, s)
  }

  /** `parse_round_brackets` (src/Regex.py:27-32). */
  function RoundSpec(s: seq<char>): (r: Option<Parsed>)
    ensures r.Some? ==> |r.value.rest| < |s|
    decreases |s|, 1
  {
    if s == [] then None
    else
      match UnionSpec(s[1..])
      case None => None
      case Some(p) => if p.rest == [] then None else Some(Parsed(p.tree, p.rest[1..]))
  }

  /** `parse_concat_parts` (src/Regex.py:54-65). */
  function PartsSpec(s: seq<char>): (r: Option<Parsed>)
    ensures r.Some? ==> |r.value.rest| < |s|
    decreases |s|, 2
  {
    if s == [] then None
    else if s[0] == '(' then RoundSpec(s)
    else if s[0] == '[' then SquareSpec(s)
    else if s[0] == '\\' then (if |s| < 2 then None else Some(Parsed(Character(s[1]), s[2..])))
    else Some(Parsed(Character(s[0]), s[1..]))
  }

  /** One operand of a concatenation: a part and its postfix operator (src/Regex.py:91-92). */
  function PostfixSpec(s: seq<char>): (r: Option<Parsed>)
    ensures r.Some? ==> |r.value.rest| < |s|
    decreases |s|, 3
  {
    match PartsSpec(s)
    case None => None
    case Some(p) => Some(OperationsSpec(p.tree, p.rest))
  }

  /** `parse_concat` (src/Regex.py:90-98). */
  function ConcatSpec(s: seq<char>): (r: Option<Parsed>)
    ensures r.Some? ==> |r.value.rest| < |s|
    decreases |s|, 4
  {
    match PostfixSpec(s)
    case None => None
    case Some(p) => ConcatTailSpec(p.tree, p.rest)
  }

  /** The loop of `parse_concat` (src/Regex.py:93-96), with `acc` the tree built so far. */
  function ConcatTailSpec(acc: Regex, s: seq<char>): (r: Option<Parsed>)
    ensures r.Some? ==> |r.value.rest| <= |s|
    decreases |s|, 4
  {
    if s == [] || s[0] == '|' || s[0] == ')' then Some(Parsed(acc, s))
    else
      match PostfixSpec(s)
      case None => None
      case Some(p) => ConcatTailSpec(Concat(acc, p.tree), p.rest)
  }

  /** `parse_union` (src/Regex.py:102-112). */
  function UnionSpec(s: seq<char>): (r: Option<Parsed>)
    ensures r.Some? ==> |r.value.rest| < |s|
    decreases |s|, 5
  {
    match ConcatSpec(s)
    case None => None
    case Some(p) => UnionTailSpec(p.tree, p.rest)
  }

  /** The loop of `parse_union` (src/Regex.py:106-111), with `acc` the tree built so far. */
  function UnionTailSpec(acc: Regex, s: seq<char>): (r: Option<Parsed>)
    ensures r.Some? ==> |r.value.rest| <= |s|
    decreases |s|, 5
  {
    if s == [] || s[0] != '|' then Some(Parsed(acc, s))
    else
      match ConcatSpec(s[1..])
      case None => None
      case Some(p) => UnionTailSpec(Union(acc, p.tree), p.rest)
  }

  /**
   * `parse_regex` (src/Regex.py:288-292): strip the spaces, then parse a union. Input left
   * over after the union (an unmatched `)`) is ignored.
   */
  function ParseRegexSpec(s: seq<char>): Option<Regex>
  {
    match UnionSpec(EliminateSpaces(s))
    case None => None
    case Some(p) => Some(p.tree)
  }

  /**
   * A tree whose `thompson()` neither raises nor returns Epsilon's dict alphabet. Every tree the
   * parser builds is one: `Epsilon` only ever appears as the right operand of `?`'s union.
   */
  predicate SafeTree(r: Regex)
  {
    !DictAlphabet(r) && !ThompsonRaises(r)
  }

  lemma {:induction false} SugarSafe(cs: seq<char>)
    requires |cs| >= 2
    ensures SafeTree(SugarUnion(cs))
    decreases |cs|
  {
    if |cs| > 2 {
      SugarSafe(cs[..|cs| - 1]);
    }
  }

  lemma SquareSafe(s: seq<char>)
    ensures var r := SquareSpec(s); r.Some? ==> SafeTree(r.value.tree)
  {
    SugarSafe(Lowercase);
    SugarSafe(Uppercase);
    SugarSafe(Digits);
  }

  lemma {:induction false} RoundSafe(s: seq<char>)
    ensures var r := RoundSpec(s); r.Some? ==> SafeTree(r.value.tree)
    decreases |s|, 1
  {
    if s != [] {
      UnionSafe(s[1..]);
    }
  }

  lemma {:induction false} PartsSafe(s: seq<char>)
    ensures var r := PartsSpec(s); r.Some? ==> SafeTree(r.value.tree)
    decreases |s|, 2
  {
    if s != [] && s[0] == '(' {
      RoundSafe(s);
    } else if s != [] && s[0] == '[' {
      SquareSafe(s);
    }
  }

  lemma {:induction false} PostfixSafe(s: seq<char>)
    ensures var r := PostfixSpec(s); r.Some? ==> SafeTree(r.value.tree)
    decreases |s|, 3
  {
    PartsSafe(s);
  }

  lemma {:induction false} ConcatSafe(s: seq<char>)
    ensures var r := ConcatSpec(s); r.Some? ==> SafeTree(r.value.tree)
    decreases |s|, 4
  {
    PostfixSafe(s);
    if PostfixSpec(s).Some? {
      var p := PostfixSpec(s).value;
      ConcatTailSafe(p.tree, p.rest);
    }
  }

  lemma {:induction false} ConcatTailSafe(acc: Regex, s: seq<char>)
    requires SafeTree(acc)
    ensures var r := ConcatTailSpec(acc, s); r.Some? ==> SafeTree(r.value.tree)
    decreases |s|, 4
  {
    if !(s == [] || s[0] == '|' || s[0] == ')') {
      PostfixSafe(s);
      if PostfixSpec(s).Some? {
        var p := PostfixSpec(s).value;
        ConcatTailSafe(Concat(acc, p.tree), p.rest);
      }
    }
  }

  lemma {:induction false} UnionSafe(s: seq<char>)
    ensures var r := UnionSpec(s); r.Some? ==> SafeTree(r.value.tree)
    decreases |s|, 5
  {
    ConcatSafe(s);
    if ConcatSpec(s).Some? {
      var p := ConcatSpec(s).value;
      UnionTailSafe(p.tree, p.rest);
    }
  }

  lemma {:induction false} UnionTailSafe(acc: Regex, s: seq<char>)
    requires SafeTree(acc)
    ensures var r := UnionTailSpec(acc, s); r.Some? ==> SafeTree(r.value.tree)
    decreases |s|, 5
  {
    if s != [] && s[0] == '|' {
      ConcatSafe(s[1..]);
      if ConcatSpec(s[1..]).Some? {
        var p := ConcatSpec(s[1..]).value;
        UnionTailSafe(Union(acc, p.tree), p.rest);
      }
    }
  }

  /**
   * `thompson()` never raises on a tree `parse_regex` builds, and such a tree's alphabet is a
   * set: `Epsilon` only arises from `?` as the right operand of a union (src/Regex.py:83-87).
   */
  lemma ParsedTreesSafe(s: seq<char>)
    ensures var r := ParseRegexSpec(s); r.Some? ==> SafeTree(r.value)
  {
    UnionSafe(EliminateSpaces(s));
  }

  /** A bracket class is decided by its first character alone and always consumes five. */
  lemma SquareConsumesFive(s: seq<char>, t: seq<char>)
    requires |s| >= 5 && |t| >= 5 && s[1] == t[1] && s[5..] == t[5..]
    ensures SquareSpec(s) == SquareSpec(t)
    ensures SquareSpec(s).Some? ==> SquareSpec(s).value.rest == s[5..]
    ensures SquareSpec(s).Some? <==> IsAlpha(s[1]) || IsDigit(s[1])
  {
  }

  /** The method result `r` with the input left behind agrees with the parse `p`. */
  predicate Agrees(r: Option<Regex>, rest: seq<char>, p: Option<Parsed>)
  {
    match p
    case None => r.None?
    case Some(q) => r == Some(q.tree) && rest == q.rest
  }

  /** The parser state of src/Regex.py:7-9: the characters not consumed yet. */
  class Parser {
    var regex: seq<char>

    constructor (regex: seq<char>)
      ensures this.regex == regex
    {
      this.regex := regex;
    }

    /** `parse_syntactic_sugar` (src/Regex.py:17-25). */
    method ParseSyntacticSugar(sugar: seq<char>) returns (union: Regex)
      requires |sugar| >= 2
      ensures union == SugarUnion(sugar)
    {
      var i := 0;
      union := Union(Character(sugar[i]), Character(sugar[i + 1]));
      i := i + 2;
      while i < |sugar|
        invariant 2 <= i <= |sugar|
        invariant union == SugarUnion(sugar[..i])
      {
        assert sugar[..i + 1][..i] == sugar[..i];
        union := Union(union, Character(sugar[i]));
        i := i + 1;
      }
      assert sugar[..i] == sugar;
    }

    /** `parse_round_brackets` (src/Regex.py:27-32). */
    method ParseRoundBrackets() returns (r: Option<Regex>)
      modifies this
      ensures Agrees(r, regex, RoundSpec(old(regex)))
      decreases |regex|, 1
    {
      if regex == [] {
        return None;
      }
      regex := regex[1..];
      var parsed := ParseUnion();
      if parsed.None? || regex == [] {
        return None;
      }
      regex := regex[1..];
      r := parsed;
    }

    /** `parse_square_brackets` (src/Regex.py:34-52). */
    method ParseSquareBrackets() returns (r: Option<Regex>)
      modifies this
      ensures Agrees(r, regex, SquareSpec(old(regex)))
    {
      ghost var s := regex;
      if regex == [] {
        return None;
      }
      regex := regex[1..];
      if regex == [] {
        return None;
      }
      var charStart := regex[0];
      regex := regex[1..];
      var i := 0;
      while i < 3
        invariant 0 <= i <= 3 && |s| >= 2 + i && regex == s[2 + i..]
      {
        if regex == [] {
          return None;
        }
        regex := regex[1..];
        i := i + 1;
      }
      var setChar: seq<char>;
      if IsAlpha(charStart) {
        if IsLower(charStart) {
          setChar := Lowercase;
        } else {
          setChar := Uppercase;
        }
      } else if IsDigit(charStart) {
        setChar := Digits;
      } else {
        return None;
      }
      var union := ParseSyntacticSugar(setChar);
      r := Some(union);
    }

    /** `parse_concat_parts` (src/Regex.py:54-65). */
    method ParseConcatParts() returns (r: Option<Regex>)
      modifies this
      ensures Agrees(r, regex, PartsSpec(old(regex)))
      decreases |regex|, 2
    {
      if regex == [] {
        return None;
      }
      if regex[0] == '(' {
        r := ParseRoundBrackets();
      } else if regex[0] == '[' {
        r := ParseSquareBrackets();
      } else if regex[0] == '\\' {
        regex := regex[1..];
        if regex == [] {
          return None;
        }
        r := Some(Character(regex[0]));
        regex := regex[1..];
      } else {
        r := Some(Character(regex[0]));
        regex := regex[1..];
      }
    }

    /** `parse_operations` (src/Regex.py:68-88). */
    method ParseOperations(opOnRegex: Regex) returns (r: Regex)
      modifies this
      ensures Parsed(r, regex) == OperationsSpec(opOnRegex, old(regex))
    {
      if regex == [] {
        r := opOnRegex;
      } else if regex[0] == '*' {
        regex := regex[1..];
        r := Star(opOnRegex);
      } else if regex[0] == '+' {
        regex := regex[1..];
        r := Concat(opOnRegex, Star(opOnRegex));
      } else if regex[0] == '?' {
        regex := regex[1..];
        r := Union(opOnRegex, Epsilon);
      } else {
        r := opOnRegex;
      }
    }

    /** `parse_concat` (src/Regex.py:90-98). */
    method ParseConcat() returns (r: Option<Regex>)
      modifies this
      ensures Agrees(r, regex, ConcatSpec(old(regex)))
      decreases |regex|, 4
    {
      ghost var s := regex;
      var left := ParseConcatParts();
      if left.None? {
        return None;
      }
      var leftPart := ParseOperations(left.value);
      while regex != [] && regex[0] !in {'|', ')'}
        invariant |regex| < |s|
        invariant ConcatTailSpec(leftPart, regex) == ConcatSpec(s)
        decreases |regex|
      {
        var right := ParseConcatParts();
        if right.None? {
          return None;
        }
        var rightPart := ParseOperations(right.value);
        leftPart := Concat(leftPart, rightPart);
      }
      r := Some(leftPart);
    }

    /** `parse_union` (src/Regex.py:102-112). */
    method ParseUnion() returns (r: Option<Regex>)
      modifies this
      ensures Agrees(r, regex, UnionSpec(old(regex)))
      decreases |regex|, 5
    {
      ghost var s := regex;
      var left := ParseConcat();
      if left.None? {
        return None;
      }
      var leftPart := left.value;
      while regex != [] && regex[0] == '|'
        invariant |regex| < |s|
        invariant UnionTailSpec(leftPart, regex) == UnionSpec(s)
        decreases |regex|
      {
        regex := regex[1..];
        var right := ParseConcat();
        if right.None? {
          return None;
        }
        leftPart := Union(leftPart, right.value);
      }
      r := Some(leftPart);
    }
  }

  /** `parse_regex` (src/Regex.py:288-292). */
  method ParseRegex(regex: seq<char>) returns (r: Option<Regex>)
    ensures r == ParseRegexSpec(regex)
  {
    var cleaned := EliminateSpaces(regex);
    var parser := new Parser(cleaned);
    var parsed := parser.ParseUnion();
    r := parsed;
  }
}
