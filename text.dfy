/**
 * String helpers shared by the score engine and the validator: decimal
 * printing and parsing, splitting and joining on a separator, prefixes,
 * ASCII lower-casing and substring search.
 */
module Text {
  import opened Wrappers

  predicate IsDigit(c: char) {
    '0' <= c <= '9'
  }

  predicate AllDigits(s: string) {
    forall i :: 0 <= i < |s| ==> IsDigit(s[i])
  }

  function DigitChar(d: nat): (c: char)
    requires d < 10
    ensures IsDigit(c) && (c as int) - ('0' as int) == d
  {
    ('0' as int + d) as char
  }

  /** Decimal rendering of a natural number, without leading zeros. */
  function NatToString(n: nat): (s: string)
    ensures |s| >= 1 && AllDigits(s)
    ensures |s| > 1 ==> s[0] != '0'
  {
    if n < 10 then [DigitChar(n)] else NatToString(n / 10) + [DigitChar(n % 10)]
  }

  /** Decimal rendering of an integer: a minus sign before the digits of a negative one. */
  function IntToString(i: int): (s: string)
    ensures i >= 0 ==> AllDigits(s)
    ensures i < 0 ==> |s| >= 2 && s[0] == '-' && AllDigits(s[1..])
  {
    if i < 0 then "-" + NatToString(-i) else NatToString(i)
  }

  /** The value of a string of decimal digits; the empty string has value 0. */
  function DigitsValue(s: string): nat
    requires AllDigits(s)
  {
    if s == [] then 0
    else DigitsValue(s[..|s| - 1]) * 10 + ((s[|s| - 1] as int) - ('0' as int))
  }

  /**
   * Parses a run of decimal digits. As with JavaScript's `Number`, the empty
   * string reads as 0; anything that is not a digit makes the parse fail.
   */
  function ParseDecimal(s: string): (r: Option<nat>)
    ensures r.Some? <==> AllDigits(s)
    ensures s == [] ==> r == Some(0)
  {
    if AllDigits(s) then Some(DigitsValue(s)) else None
  }

  lemma {:induction false} DigitsValueOfNatToString(n: nat)
    ensures DigitsValue(NatToString(n)) == n
  {
    var s := NatToString(n);
    if n >= 10 {
      DigitsValueOfNatToString(n / 10);
      assert s[..|s| - 1] == NatToString(n / 10);
    }
  }

  /** Printing then parsing a natural number gives it back. */
  lemma ParseDecimalOfNatToString(n: nat)
    ensures ParseDecimal(NatToString(n)) == Some(n)
  {
    DigitsValueOfNatToString(n);
  }

  // ---------------------------------------------------------------- split / join

  /** `s.split(sep)` for a one-character separator: always at least one part, none containing `sep`. */
  function Split(s: string, sep: char): (parts: seq<string>)
    ensures |parts| >= 1
    ensures forall k :: 0 <= k < |parts| ==> sep !in parts[k]
  {
    if s == [] then [""]
    else
      var rest := Split(s[1..], sep);
      if s[0] == sep then [""] + rest
      else [[s[0]] + rest[0]] + rest[1..]
  }

  /** `parts.join(sep)`. */
  function Join(parts: seq<string>, sep: string): string
  {
    if parts == [] then ""
    else if |parts| == 1 then parts[0]
    else parts[0] + sep + Join(parts[1..], sep)
  }

  /** Joining two non-empty runs of parts puts one separator between them. */
  lemma {:induction false} JoinConcat(a: seq<string>, b: seq<string>, sep: string)
    requires |a| >= 1 && |b| >= 1
    ensures Join(a + b, sep) == Join(a, sep) + sep + Join(b, sep)
  {
    if |a| == 1 {
      assert (a + b)[1..] == b;
    } else {
      JoinConcat(a[1..], b, sep);
      assert (a + b)[1..] == a[1..] + b;
    }
  }

  lemma {:induction false} SplitNoSeparator(s: string, sep: char)
    requires sep !in s
    ensures Split(s, sep) == [s]
  {
    if s != [] {
      SplitNoSeparator(s[1..], sep);
      assert [s[0]] + s[1..] == s;
    }
  }

  lemma {:induction false} SplitAfterPart(x: string, sep: char, t: string)
    requires sep !in x
    ensures Split(x + [sep] + t, sep) == [x] + Split(t, sep)
  {
    if x == [] {
      assert x + [sep] + t == [sep] + t;
      assert ([sep] + t)[1..] == t;
    } else {
      var u := x + [sep] + t;
      assert u[0] == x[0];
      assert u[1..] == x[1..] + [sep] + t;
      SplitAfterPart(x[1..], sep, t);
      assert [x[0]] + x[1..] == x;
    }
  }

  /** Splitting what was joined gives back the parts, when no part holds the separator. */
  lemma {:induction false} SplitJoin(parts: seq<string>, sep: char)
    requires |parts| >= 1
    requires forall k :: 0 <= k < |parts| ==> sep !in parts[k]
    ensures Split(Join(parts, [sep]), sep) == parts
  {
    if |parts| == 1 {
      SplitNoSeparator(parts[0], sep);
    } else {
      SplitJoin(parts[1..], sep);
      SplitAfterPart(parts[0], sep, Join(parts[1..], [sep]));
      assert [parts[0]] + parts[1..] == parts;
    }
  }

  /** Joining what was split gives back the string. */
  lemma {:induction false} JoinSplit(s: string, sep: char)
    ensures Join(Split(s, sep), [sep]) == s
  {
    if s != [] {
      JoinSplit(s[1..], sep);
      var rest := Split(s[1..], sep);
      if s[0] == sep {
        assert Split(s, sep)[1..] == rest;
      } else {
        var parts := Split(s, sep);
        assert parts[1..] == rest[1..];
        if |rest| == 1 {
          assert Join(parts, [sep]) == [s[0]] + rest[0];
        } else {
          assert Join(parts, [sep]) == [s[0]] + rest[0] + [sep] + Join(rest[1..], [sep]);
        }
      }
    }
  }

  // ---------------------------------------------------------------- search

  predicate StartsWith(s: string, prefix: string) {
    |prefix| <= |s| && s[..|prefix|] == prefix
  }

  /** `word` occurs in `s` at position `i`, compared from character `j` on. */
  predicate MatchAt(s: string, word: string, i: nat, j: nat)
    requires i + |word| <= |s| && j <= |word|
    decreases |word| - j
  {
    j == |word| || (s[i + j] == word[j] && MatchAt(s, word, i, j + 1))
  }

  /** `word` occurs in `s` at some position `i` or later. */
  predicate ContainsFrom(s: string, word: string, i: nat)
    decreases |s| - i
  {
    i + |word| <= |s| && (MatchAt(s, word, i, 0) || ContainsFrom(s, word, i + 1))
  }

  /** `s.includes(word)`. */
  predicate Contains(s: string, word: string) {
    ContainsFrom(s, word, 0)
  }

  lemma {:induction false} MatchAtIsSlice(s: string, word: string, i: nat, j: nat)
    requires i + |word| <= |s| && j <= |word|
    ensures MatchAt(s, word, i, j) <==> s[i + j..i + |word|] == word[j..]
    decreases |word| - j
  {
    if j < |word| {
      MatchAtIsSlice(s, word, i, j + 1);
      assert s[i + j..i + |word|] == [s[i + j]] + s[i + j + 1..i + |word|];
      assert word[j..] == [word[j]] + word[j + 1..];
    }
  }

  /** `word` occurs in `s` starting at position `k`. */
  predicate OccursAt(s: string, word: string, k: nat) {
    k + |word| <= |s| && s[k..k + |word|] == word
  }

  lemma {:induction false} ContainsFromIsSlice(s: string, word: string, i: nat)
    ensures ContainsFrom(s, word, i) <==> exists k: nat :: i <= k && OccursAt(s, word, k)
    decreases |s| - i
  {
    if i + |word| <= |s| {
      ContainsFromIsSlice(s, word, i + 1);
      MatchAtIsSlice(s, word, i, 0);
      if MatchAt(s, word, i, 0) {
        assert OccursAt(s, word, i);
      }
      if exists k: nat :: i <= k && OccursAt(s, word, k) {
        var k: nat :| i <= k && OccursAt(s, word, k);
        if k > i {
          assert i + 1 <= k && OccursAt(s, word, k);
        }
      }
    }
  }

  /** The search agrees with the plain definition of a substring occurrence. */
  lemma ContainsIsSubstring(s: string, word: string)
    ensures Contains(s, word) <==> exists k: nat :: OccursAt(s, word, k)
  {
    ContainsFromIsSlice(s, word, 0);
  }

  lemma OccursInMiddle(a: string, b: string, c: string)
    ensures OccursAt(a + b + c, b, |a|)
  {
    assert (a + b + c)[|a|..|a| + |b|] == b;
  }

  // ---------------------------------------------------------------- case

  function LowerChar(c: char): (d: char)
    ensures 'A' <= c <= 'Z' ==> d as int == c as int + 32
    ensures !('A' <= c <= 'Z') ==> d == c
  {
    if 'A' <= c <= 'Z' then (c as int + 32) as char else c
  }

  /** `toLowerCase` restricted to ASCII letters: every other character is kept. */
  function ToLowerAscii(s: string): (r: string)
    ensures |r| == |s|
    ensures forall i :: 0 <= i < |s| ==> r[i] == LowerChar(s[i])
  {
    seq(|s|, i requires 0 <= i < |s| => LowerChar(s[i]))
  }

  /** Lower-casing keeps every occurrence of a word that is already lower case. */
  lemma LowerKeepsOccurrence(s: string, word: string, k: nat)
    requires OccursAt(s, word, k) && ToLowerAscii(word) == word
    ensures OccursAt(ToLowerAscii(s), word, k)
  {
    var t := ToLowerAscii(s);
    forall i | 0 <= i < |word| ensures t[k..k + |word|][i] == word[i] {
      assert s[k + i] == s[k..k + |word|][i] == word[i];
      assert LowerChar(word[i]) == ToLowerAscii(word)[i];
    }
  }
}
