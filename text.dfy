/**
 * The string helpers the lexer uses to report an error position (src/Lexer.py:59-84): counting
 * newlines, finding the n-th newline, and Python's `str` of an integer.
 */
module Text {

  /** `s.count(c)` for a single character c. */
  function Count(s: string, c: char): nat
  {
    if s == [] then 0 else Count(s[..|s| - 1], c) + (if s[|s| - 1] == c then 1 else 0)
  }

  /** Counting distributes over concatenation. */
  lemma {:induction false} CountAppend(a: string, b: string, c: char)
    ensures Count(a + b, c) == Count(a, c) + Count(b, c)
    decreases |b|
  {
    if b == [] {
      assert a + b == a;
    } else {
      var b' := b[..|b| - 1];
      assert (a + b)[..|a + b| - 1] == a + b';
      CountAppend(a, b', c);
    }
  }

  /** A text without c counts no c. */
  lemma {:induction false} CountNone(s: string, c: char)
    requires forall i :: 0 <= i < |s| ==> s[i] != c
    ensures Count(s, c) == 0
    decreases |s|
  {
    if s != [] {
      CountNone(s[..|s| - 1], c);
    }
  }

  /** Splitting a text at k splits its count. */
  lemma CountSplit(s: string, k: nat, c: char)
    requires k <= |s|
    ensures Count(s, c) == Count(s[..k], c) + Count(s[k..], c)
  {
    assert s == s[..k] + s[k..];
    CountAppend(s[..k], s[k..], c);
  }

  /** One more character adds one to the count exactly when it is c. */
  lemma CountStep(s: string, k: nat, c: char)
    requires k < |s|
    ensures Count(s[..k + 1], c) == Count(s[..k], c) + (if s[k] == c then 1 else 0)
  {
    assert s[..k + 1][..k] == s[..k];
  }

  /** `s.find(c, start)`: the first index at or after start holding c, or -1. */
  function Find(s: string, c: char, start: nat): (r: int)
    ensures r == -1 || (start <= r < |s| && s[r] == c)
    ensures forall i :: start <= i < |s| && (r == -1 || i < r) ==> s[i] != c
    decreases |s| - start
  {
    if start >= |s| then -1 else if s[start] == c then start else Find(s, c, start + 1)
  }

  /**
   * The index of the n-th occurrence of c in s (the first one when n < 1), or -1 when s has
   * fewer occurrences: the index r holding c with n-1 occurrences before it.
   */
  function NthIndex(s: string, c: char, n: int): (r: int)
    ensures r == -1 <==> Count(s, c) < (if n < 1 then 1 else n)
    ensures r != -1 ==> 0 <= r < |s| && s[r] == c && Count(s[..r], c) == (if n < 1 then 1 else n) - 1
    decreases |s|
  {
    if s == [] then -1
    else
      var s' := s[..|s| - 1];
      var r' := NthIndex(s', c, n);
      assert s'[..|s'|] == s';
      if r' != -1 then
        assert s[..r'] == s'[..r'];
        r'
      else if s[|s| - 1] == c && Count(s', c) == (if n < 1 then 1 else n) - 1 then |s| - 1
      else -1
  }

  /** A prefix of a prefix is a prefix. */
  lemma PrefixOfPrefix(s: string, k: nat, j: nat)
    requires j <= k <= |s|
    ensures s[..k][..j] == s[..j]
  {
  }

  /** Only one index holds the n-th occurrence. */
  lemma NthUnique(s: string, c: char, n: int, r: nat)
    requires r < |s| && s[r] == c && Count(s[..r], c) == (if n < 1 then 1 else n) - 1
    ensures NthIndex(s, c, n) == r
  {
    var m := if n < 1 then 1 else n;
    CountSplit(s, r, c);
    CountSplit(s[r..], 1, c);
    assert s[r..][..1] == [c];
    assert Count([c], c) == 1 by {
      assert [c][..0] == [];
    }
    var q := NthIndex(s, c, n);
    if q == -1 {
      assert false;
    } else if q < r {
      CountStep(s, q, c);
      CountSplit(s[..r], q + 1, c);
      PrefixOfPrefix(s, r, q + 1);
      assert false;
    } else if q > r {
      CountStep(s, r, c);
      CountSplit(s[..q], r + 1, c);
      PrefixOfPrefix(s, q, r + 1);
      assert false;
    }
  }

  /** The occurrence after the j-th one is the first c after it. */
  lemma NthNext(s: string, c: char, j: nat)
    requires j >= 1 && NthIndex(s, c, j) != -1
    ensures NthIndex(s, c, j + 1) == Find(s, c, NthIndex(s, c, j) + 1)
  {
    var r := NthIndex(s, c, j);
    var r2 := Find(s, c, r + 1);
    CountStep(s, r, c);
    if r2 == -1 {
      CountSplit(s, r + 1, c);
      CountNone(s[r + 1..], c);
    } else {
      CountSplit(s[..r2], r + 1, c);
      assert s[..r2][..r + 1] == s[..r + 1];
      CountNone(s[..r2][r + 1..], c);
      NthUnique(s, c, j + 1, r2);
    }
  }

  /**
   * `find_nth` (src/Lexer.py:78-84): the first occurrence, then the next one after it, n-1
   * times over, stopping at -1.
   */
  method FindNth(s: string, c: char, n: int) returns (start: int)
    ensures start == NthIndex(s, c, n)
  {
    start := Find(s, c, 0);
    var k := n - 1;
    ghost var j: nat := 1;
    assert start == NthIndex(s, c, 1) by {
      if start != -1 {
        CountNone(s[..start], c);
        NthUnique(s, c, 1, start);
      } else {
        CountNone(s, c);
      }
    }
    while start >= 0 && k > 0
      invariant 1 <= j <= (if n < 1 then 1 else n) && k == n - j
      invariant start == NthIndex(s, c, j)
      decreases k
    {
      NthNext(s, c, j);
      start := Find(s, c, start + 1);
      k := k - 1;
      j := j + 1;
    }
    if n < 1 && start != -1 {
      NthUnique(s, c, n, start);
    }
  }

  /** The index of the last c in s, or -1. */
  function LastIndex(s: string, c: char): (r: int)
    ensures r == -1 || (0 <= r < |s| && s[r] == c)
    ensures forall i :: r < i < |s| ==> s[i] != c
    decreases |s|
  {
    if s == [] then -1 else if s[|s| - 1] == c then |s| - 1 else LastIndex(s[..|s| - 1], c)
  }

  /** The line of position p: the number of newlines before it. */
  function Line(word: string, p: nat): nat
    requires p <= |word|
  {
    Count(word[..p], '\n')
  }

  /** The column of position p: its distance from the last newline before it, or p itself. */
  function Column(word: string, p: nat): nat
    requires p <= |word|
  {
    p - 1 - LastIndex(word[..p], '\n')
  }

  /** The last newline before p is the Line(word, p)-th newline of word. */
  lemma LastNewlineIsNth(word: string, p: nat)
    requires p <= |word| && Line(word, p) >= 1
    ensures NthIndex(word, '\n', Line(word, p)) == LastIndex(word[..p], '\n')
  {
    var r := LastIndex(word[..p], '\n');
    if r == -1 {
      CountNone(word[..p], '\n');
    } else {
      CountStep(word[..p], r, '\n');
      CountSplit(word[..p], r + 1, '\n');
      CountNone(word[..p][r + 1..], '\n');
      assert word[..p][..r] == word[..r];
      NthUnique(word, '\n', Line(word, p), r);
    }
  }

  /** Without a newline before p there is no last newline. */
  lemma NoNewlineBefore(word: string, p: nat)
    requires p <= |word| && Line(word, p) == 0
    ensures LastIndex(word[..p], '\n') == -1
  {
    var r := LastIndex(word[..p], '\n');
    if r != -1 {
      CountStep(word[..p], r, '\n');
      CountSplit(word[..p], r + 1, '\n');
    }
  }

  /** The newlines of the word less those from p on are the line of p. */
  lemma LinesBefore(word: string, p: nat)
    requires p <= |word|
    ensures Count(word, '\n') - Count(word[p..], '\n') == Line(word, p)
  {
    CountSplit(word, p, '\n');
  }

  /** The column of p is its distance past the Line(word, p)-th newline, or p before the first. */
  lemma ColumnFromNth(word: string, p: nat)
    requires p <= |word|
    ensures var n := Line(word, p);
            var pos := if n != 0 then NthIndex(word, '\n', n) else -1;
            Column(word, p) == if pos != -1 then p - pos - 1 else p
  {
    if Line(word, p) >= 1 {
      LastNewlineIsNth(word, p);
    } else {
      NoNewlineBefore(word, p);
    }
  }

  /** The character of a decimal digit. */
  function DigitChar(d: nat): (ch: char)
    requires d < 10
    ensures '0' <= ch <= '9'
  {
    "0123456789"[d]
  }

  /** The value of a decimal digit character. */
  function DigitValue(ch: char): nat
    requires '0' <= ch <= '9'
  {
    ch as int - '0' as int
  }

  /** `str(n)` for a natural number: its decimal digits, without leading zeros. */
  function NatToString(n: nat): (s: string)
    ensures |s| >= 1 && (forall i :: 0 <= i < |s| ==> '0' <= s[i] <= '9')
    ensures s[0] == '0' ==> n == 0
    decreases n
  {
    if n < 10 then [DigitChar(n)] else NatToString(n / 10) + [DigitChar(n % 10)]
  }

  /** The value of a string of decimal digits. */
  function ParseNat(s: string): nat
    requires forall i :: 0 <= i < |s| ==> '0' <= s[i] <= '9'
  {
    if s == [] then 0 else 10 * ParseNat(s[..|s| - 1]) + DigitValue(s[|s| - 1])
  }

  /** Reading the digits back gives the number: `str` of a natural number loses nothing. */
  lemma {:induction false} NatToStringRoundTrip(n: nat)
    ensures ParseNat(NatToString(n)) == n
    decreases n
  {
    var s := NatToString(n);
    if n < 10 {
      assert s[..0] == [];
    } else {
      NatToStringRoundTrip(n / 10);
      assert s[..|s| - 1] == NatToString(n / 10);
    }
  }
}
