/**
  The few operations on Python `str` values that the scripts rely on,
  written out with Python's semantics: strip/lstrip/rstrip, split on one
  character, partition, replace, `in` between strings, slicing a prefix,
  and the decimal conversions int() and str() restricted to natural numbers.
 */
module PyStr {
  import opened Results

  /** The characters for which Python's str.isspace() holds; str.strip() with no argument removes these. */
  const Whitespace: set<char> := {
    '\t', '\n', '\U{0B}', '\U{0C}', '\r', '\U{1C}', '\U{1D}', '\U{1E}', '\U{1F}', ' ',
    '\U{85}', '\U{A0}', '\U{1680}',
    '\U{2000}', '\U{2001}', '\U{2002}', '\U{2003}', '\U{2004}', '\U{2005}', '\U{2006}',
    '\U{2007}', '\U{2008}', '\U{2009}', '\U{200A}',
    '\U{2028}', '\U{2029}', '\U{202F}', '\U{205F}', '\U{3000}'
  }

  /** s.lstrip(chars): drops the characters of chars from the front of s. */
  function LStrip(s: string, chars: set<char>): string
  {
    if |s| > 0 && s[0] in chars then LStrip(s[1..], chars) else s
  }

  /** lstrip leaves the longest suffix of s that does not start with a character of chars. */
  lemma {:induction false} LStripMeaning(s: string, chars: set<char>)
    ensures var r := LStrip(s, chars);
      && |r| <= |s| && r == s[|s| - |r|..]
      && (forall i :: 0 <= i < |s| - |r| ==> s[i] in chars)
      && (r == [] || r[0] !in chars)
    decreases |s|
  {
    if |s| > 0 && s[0] in chars {
      LStripMeaning(s[1..], chars);
      var r := LStrip(s, chars);
      assert s[1..][|s| - 1 - |r|..] == s[|s| - |r|..];
      forall i | 0 <= i < |s| - |r|
        ensures s[i] in chars
      {
        if i > 0 { assert s[i] == s[1..][i - 1]; }
      }
    }
  }

  /** s.rstrip(chars): drops the characters of chars from the back of s. */
  function RStrip(s: string, chars: set<char>): string
  {
    if |s| > 0 && s[|s| - 1] in chars then RStrip(s[..|s| - 1], chars) else s
  }

  /** rstrip leaves the longest prefix of s that does not end with a character of chars. */
  lemma {:induction false} RStripMeaning(s: string, chars: set<char>)
    ensures var r := RStrip(s, chars);
      && |r| <= |s| && r == s[..|r|]
      && (forall i :: |r| <= i < |s| ==> s[i] in chars)
      && (r == [] || r[|r| - 1] !in chars)
    decreases |s|
  {
    if |s| > 0 && s[|s| - 1] in chars {
      RStripMeaning(s[..|s| - 1], chars);
      var r := RStrip(s, chars);
      assert s[..|s| - 1][..|r|] == s[..|r|];
      forall i | |r| <= i < |s|
        ensures s[i] in chars
      {
        if i < |s| - 1 { assert s[i] == s[..|s| - 1][i]; }
      }
    }
  }

  /** s.strip(chars) */
  function StripChars(s: string, chars: set<char>): string
  {
    RStrip(LStrip(s, chars), chars)
  }

  /** s.strip() */
  function Strip(s: string): string
  {
    StripChars(s, Whitespace)
  }

  /** sep.join(items) */
  function Join(items: seq<string>, sep: string): string
  {
    if |items| == 0 then ""
    else if |items| == 1 then items[0]
    else items[0] + sep + Join(items[1..], sep)
  }

  /** A join whose first and last items are non-empty starts with the first item's first character and ends with the last item's last. */
  lemma JoinEnds(items: seq<string>, sep: string)
    requires |items| >= 1 && items[0] != [] && items[|items| - 1] != []
    ensures var s := Join(items, sep);
      |s| > 0 && s[0] == items[0][0] && s[|s| - 1] == items[|items| - 1][|items[|items| - 1]| - 1]
  {
    JoinLast(items, sep);
  }

  /** A join whose last item is non-empty ends with that item's last character. */
  lemma {:induction false} JoinLast(items: seq<string>, sep: string)
    requires |items| >= 1 && items[|items| - 1] != []
    ensures var s := Join(items, sep);
      |s| > 0 && s[|s| - 1] == items[|items| - 1][|items[|items| - 1]| - 1]
    decreases |items|
  {
    if |items| > 1 {
      JoinLast(items[1..], sep);
    }
  }

  /**
    s.split(sep) for a one-character separator: the pieces between the
    separators, at least one, none containing sep.
   */
  function Split(s: string, sep: char): (r: seq<string>)
    ensures |r| >= 1
    ensures forall i :: 0 <= i < |r| ==> sep !in r[i]
  {
    if s == [] then [""]
    else
      var rest := Split(s[1..], sep);
      if s[0] == sep then [""] + rest
      else [[s[0]] + rest[0]] + rest[1..]
  }

  /** The pieces of s joined by the separator give s back. */
  lemma {:induction false} SplitJoinsBack(s: string, sep: char)
    ensures Join(Split(s, sep), [sep]) == s
    decreases |s|
  {
    if s != [] {
      SplitJoinsBack(s[1..], sep);
      var rest := Split(s[1..], sep);
      if s[0] == sep {
        assert ([""] + rest)[1..] == rest;
      } else {
        var r := [[s[0]] + rest[0]] + rest[1..];
        assert r[1..] == rest[1..];
        assert s == [s[0]] + s[1..];
      }
    }
  }

  /** A piece without the separator, followed by the separator and more text, splits off as the first field. */
  lemma {:induction false} SplitAfter(a: string, sep: char, b: string)
    requires sep !in a
    ensures Split(a + [sep] + b, sep) == [a] + Split(b, sep)
    ensures Split(a, sep) == [a]
    decreases |a|
  {
    if a != [] {
      SplitAfter(a[1..], sep, b);
      assert (a + [sep] + b)[1..] == a[1..] + [sep] + b;
      assert [a[0]] + a[1..] == a;
    } else {
      assert a + [sep] + b == [sep] + b;
    }
  }

  /** Splitting pieces joined by a separator none of them contains gives the pieces back. */
  lemma {:induction false} SplitJoin(parts: seq<string>, sep: char)
    requires |parts| >= 1
    requires forall i :: 0 <= i < |parts| ==> sep !in parts[i]
    ensures Split(Join(parts, [sep]), sep) == parts
    decreases |parts|
  {
    if |parts| == 1 {
      SplitAfter(parts[0], sep, "");
    } else {
      SplitJoin(parts[1..], sep);
      SplitAfter(parts[0], sep, Join(parts[1..], [sep]));
      assert [parts[0]] + parts[1..] == parts;
    }
  }

  /** s.partition(sep): the text before the first sep, the separator itself (or nothing), and the rest. */
  function Partition(s: string, sep: char): (r: (string, string, string))
    ensures r.0 + r.1 + r.2 == s
    ensures sep !in r.0
    ensures r.1 == [sep] || (r.1 == [] && r.2 == [] && sep !in s)
  {
    if s == [] then ("", "", "")
    else if s[0] == sep then ("", [sep], s[1..])
    else
      var p := Partition(s[1..], sep);
      assert s == [s[0]] + s[1..];
      ([s[0]] + p.0, p.1, p.2)
  }

  /** True when the two characters x, y stand next to each other somewhere in s. */
  predicate HasPair(s: string, x: char, y: char)
  {
    exists i :: 0 <= i < |s| - 1 && s[i] == x && s[i + 1] == y
  }

  /**
    s.replace(old, new) for a two-character old = [a, b] and a one-character
    new = [c]: occurrences are found left to right and do not overlap.
   */
  function ReplacePair(s: string, a: char, b: char, c: char): string
  {
    if |s| < 2 then s
    else if s[0] == a && s[1] == b then [c] + ReplacePair(s[2..], a, b, c)
    else [s[0]] + ReplacePair(s[1..], a, b, c)
  }

  /** The first character of ReplacePair(s, …) is the replacement or the first character of s. */
  lemma {:induction false} ReplacePairHead(s: string, a: char, b: char, c: char)
    requires |s| > 0
    ensures |ReplacePair(s, a, b, c)| > 0
    ensures ReplacePair(s, a, b, c)[0] == c || ReplacePair(s, a, b, c)[0] == s[0]
  {
  }

  /**
    After the replacement no occurrence of the pattern is left, and no pair of
    characters that s did not contain is created, when the replacement
    character is neither of the pair's characters.
   */
  lemma {:induction false} ReplacePairNoNewPair(s: string, a: char, b: char, c: char, x: char, y: char)
    requires c != x && c != y
    requires !HasPair(s, x, y) || (x == a && y == b)
    ensures !HasPair(ReplacePair(s, a, b, c), x, y)
    decreases |s|
  {
    var r := ReplacePair(s, a, b, c);
    if |s| >= 2 {
      var n := if s[0] == a && s[1] == b then 2 else 1;
      var t := s[n..];
      assert !HasPair(t, x, y) || (x == a && y == b) by {
        forall i | 0 <= i < |t| - 1 && !(x == a && y == b)
          ensures !(t[i] == x && t[i + 1] == y)
        {
          assert t[i] == s[i + n] && t[i + 1] == s[i + n + 1];
        }
      }
      ReplacePairNoNewPair(t, a, b, c, x, y);
      var rt := ReplacePair(t, a, b, c);
      var head := if n == 2 then c else s[0];
      assert r == [head] + rt;
      if |t| > 0 { ReplacePairHead(t, a, b, c); }
      forall i | 0 <= i < |r| - 1
        ensures !(r[i] == x && r[i + 1] == y)
      {
        if i > 0 {
          assert r[i] == rt[i - 1] && r[i + 1] == rt[i];
        } else if n == 1 && r[1] == y {
          assert rt[0] == y && rt[0] == t[0] == s[1];
        }
      }
    }
  }

  /** A string without the character a is left unchanged by replacing a pattern that starts with a. */
  lemma {:induction false} ReplacePairAbsent(s: string, a: char, b: char, c: char)
    requires a !in s
    ensures ReplacePair(s, a, b, c) == s
    decreases |s|
  {
    if |s| >= 2 {
      ReplacePairAbsent(s[1..], a, b, c);
      assert s == [s[0]] + s[1..];
    }
  }

  /** word[0:k]: the first k characters of s, or all of s when it is shorter. */
  function Prefix(s: string, k: nat): (r: string)
    ensures |r| == if k <= |s| then k else |s|
    ensures r <= s
  {
    if k <= |s| then s[..k] else s
  }

  /** a in b for strings: a occurs in b as a contiguous part (the empty string occurs in every string). */
  predicate IsSubstring(a: string, b: string)
  {
    exists i :: 0 <= i <= |b| && a <= b[i..]
  }

  /** Code-point lexicographic order on strings, Python's < on str. */
  predicate StrLess(a: string, b: string)
  {
    if a == [] then b != []
    else if b == [] then false
    else a[0] < b[0] || (a[0] == b[0] && StrLess(a[1..], b[1..]))
  }

  lemma {:induction false} StrLessIrreflexive(a: string)
    ensures !StrLess(a, a)
  {
    if a != [] { StrLessIrreflexive(a[1..]); }
  }

  lemma {:induction false} StrLessTransitive(a: string, b: string, c: string)
    requires StrLess(a, b) && StrLess(b, c)
    ensures StrLess(a, c)
  {
    if a != [] && b != [] && c != [] && a[0] == b[0] == c[0] {
      StrLessTransitive(a[1..], b[1..], c[1..]);
    }
  }

  /** Any two different strings are ordered one way or the other. */
  lemma {:induction false} StrLessTotal(a: string, b: string)
    requires a != b
    ensures StrLess(a, b) || StrLess(b, a)
  {
    if a != [] && b != [] && a[0] == b[0] {
      assert a == [a[0]] + a[1..] && b == [b[0]] + b[1..];
      StrLessTotal(a[1..], b[1..]);
    }
  }

  lemma {:induction false} StrLessAsymmetric(a: string, b: string)
    requires StrLess(a, b)
    ensures !StrLess(b, a)
  {
    if StrLess(b, a) {
      StrLessTransitive(a, b, a);
      StrLessIrreflexive(a);
    }
  }

  predicate IsDigit(c: char)
  {
    '0' <= c <= '9'
  }

  function DigitValue(c: char): nat
    requires IsDigit(c)
  {
    c as int - '0' as int
  }

  function DigitChar(d: nat): (c: char)
    requires d < 10
    ensures IsDigit(c) && DigitValue(c) == d
  {
    ('0' as int + d) as char
  }

  predicate AllDigits(s: string)
  {
    forall i :: 0 <= i < |s| ==> IsDigit(s[i])
  }

  /** str(n): the decimal numeral of n, without leading zeros. */
  function NatToString(n: nat): (s: string)
    ensures |s| >= 1 && AllDigits(s)
    ensures |s| > 1 ==> s[0] != '0'
    decreases n
  {
    if n < 10 then [DigitChar(n)] else NatToString(n / 10) + [DigitChar(n % 10)]
  }

  /**
    int(s) for a numeral of ASCII decimal digits (leading zeros allowed);
    any other string is a ValueError.
   */
  function ParseNat(s: string): (r: Result<nat>)
    ensures r.Ok? <==> |s| > 0 && AllDigits(s)
    ensures r.Err? ==> r.error == ValueError
  {
    if |s| == 0 || !IsDigit(s[|s| - 1]) then Err(ValueError)
    else if |s| == 1 then Ok(DigitValue(s[0]))
    else
      match ParseNat(s[..|s| - 1])
      case Ok(v) => Ok(v * 10 + DigitValue(s[|s| - 1]))
      case Err(e) => Err(e)
  }

  /** int(str(n)) == n */
  lemma {:induction false} ParseNatToString(n: nat)
    ensures ParseNat(NatToString(n)) == Ok(n)
    decreases n
  {
    if n >= 10 {
      var s := NatToString(n);
      ParseNatToString(n / 10);
      assert s[..|s| - 1] == NatToString(n / 10);
    }
  }

  /** Different numbers have different numerals. */
  lemma NatToStringInjective(m: nat, n: nat)
    requires NatToString(m) == NatToString(n)
    ensures m == n
  {
    ParseNatToString(m);
    ParseNatToString(n);
  }
}
