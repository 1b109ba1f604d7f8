/** Strings as Python compares and splits them: code-point lexicographic
    order, suffix test, `str.split` on one character, an ASCII
    `str.isidentifier` and decimal `int()` of a digit string. */
module Text {

  /** Python's `a < b` on `str`: lexicographic by code point, a proper
      prefix sorting first. (Dafny's own `<` on sequences is the prefix test.) */
  predicate Less(a: string, b: string)
    decreases |a|
  {
    if |b| == 0 then false
    else if |a| == 0 then true
    else if a[0] != b[0] then a[0] < b[0]
    else Less(a[1..], b[1..])
  }

  lemma {:induction false} LessIrreflexive(a: string)
    ensures !Less(a, a)
    decreases |a|
  {
    if |a| > 0 { LessIrreflexive(a[1..]); }
  }

  lemma {:induction false} LessTransitive(a: string, b: string, c: string)
    requires Less(a, b) && Less(b, c)
    ensures Less(a, c)
    decreases |a|
  {
    if |a| > 0 && a[0] == b[0] && b[0] == c[0] {
      LessTransitive(a[1..], b[1..], c[1..]);
    }
  }

  lemma {:induction false} LessTotal(a: string, b: string)
    requires a != b
    ensures Less(a, b) || Less(b, a)
    decreases |a|
  {
    if |a| > 0 && |b| > 0 && a[0] == b[0] {
      assert a == [a[0]] + a[1..] && b == [b[0]] + b[1..];
      LessTotal(a[1..], b[1..]);
    }
  }

  lemma {:induction false} LessAsymmetric(a: string, b: string)
    requires Less(a, b)
    ensures !Less(b, a)
    decreases |a|
  {
    if |a| > 0 && a[0] == b[0] { LessAsymmetric(a[1..], b[1..]); }
  }

  predicate IsDigit(c: char) { '0' <= c <= '9' }

  predicate IsDigits(s: string) { |s| > 0 && forall i :: 0 <= i < |s| ==> IsDigit(s[i]) }

  /** The status key "default" sorts after every numeric status code,
      because every digit precedes the letter 'd'. */
  lemma DigitsBeforeDefault(s: string)
    requires IsDigits(s)
    ensures Less(s, "default")
  {
    assert s[0] < 'd';
  }

  /** In an ascending list of status keys ("default" or decimal codes),
      "default" can only be the last. */
  lemma DefaultLast(keys: seq<string>)
    requires forall i, j :: 0 <= i < j < |keys| ==> Less(keys[i], keys[j])
    requires forall i :: 0 <= i < |keys| ==> keys[i] == "default" || IsDigits(keys[i])
    ensures forall i :: 0 <= i < |keys| && keys[i] == "default" ==> i == |keys| - 1
  {
    forall i | 0 <= i < |keys| && keys[i] == "default" ensures i == |keys| - 1 {
      if i < |keys| - 1 {
        var last := keys[|keys| - 1];
        LessIrreflexive("default");
        if last != "default" {
          DigitsBeforeDefault(last);
          LessAsymmetric(keys[i], last);
        }
      }
    }
  }

  /** `int(s)` for a string of decimal digits. */
  function DecimalValue(s: string): (n: nat)
    requires forall i :: 0 <= i < |s| ==> IsDigit(s[i])
    decreases |s|
  {
    if s == [] then 0
    else
      assert IsDigit(s[|s| - 1]);
      10 * DecimalValue(s[..|s| - 1]) + (s[|s| - 1] as int - '0' as int)
  }

  /** A three-digit status lies in [200, 300) exactly when its first digit is '2'. */
  lemma ThreeDigitRange(s: string)
    requires |s| == 3 && IsDigits(s)
    ensures 200 <= DecimalValue(s) < 300 <==> s[0] == '2'
  {
    var d0, d1, d2 := s[0] as int - '0' as int, s[1] as int - '0' as int, s[2] as int - '0' as int;
    assert s[..2][..1] == s[..1];
    assert DecimalValue(s[..1]) == d0 by { assert s[..1][..0] == []; }
    assert DecimalValue(s) == 100 * d0 + 10 * d1 + d2;
  }

  predicate EndsWith(s: string, suffix: string)
  {
    |suffix| <= |s| && s[|s| - |suffix|..] == suffix
  }

  /** Python's `s.split(sep)` for a one-character separator: always at least
      one part, empty parts kept. */
  function Split(s: string, sep: char): (parts: seq<string>)
    ensures |parts| >= 1
    decreases |s|
  {
    if s == [] then [[]]
    else
      var rest := Split(s[1..], sep);
      if s[0] == sep then [[]] + rest else [[s[0]] + rest[0]] + rest[1..]
  }

  /** `sep.join(parts)`, the inverse of Split. */
  function Join(parts: seq<string>, sep: char): string
    requires |parts| >= 1
    decreases |parts|
  {
    if |parts| == 1 then parts[0] else parts[0] + [sep] + Join(parts[1..], sep)
  }

  lemma {:induction false} SplitJoin(s: string, sep: char)
    ensures Join(Split(s, sep), sep) == s
    ensures forall k :: 0 <= k < |Split(s, sep)| ==> sep !in Split(s, sep)[k]
    decreases |s|
  {
    if s != [] {
      var rest := Split(s[1..], sep);
      SplitJoin(s[1..], sep);
      if s[0] == sep {
        assert Split(s, sep)[1..] == rest;
      } else {
        var parts := Split(s, sep);
        assert parts[0] == [s[0]] + rest[0];
        if |rest| == 1 {
          assert Join(parts, sep) == [s[0]] + rest[0];
        } else {
          assert parts[1..] == rest[1..];
          assert Join(parts, sep) == [s[0]] + rest[0] + [sep] + Join(rest[1..], sep);
        }
        assert s == [s[0]] + s[1..];
        forall k | 0 <= k < |parts| ensures sep !in parts[k] {
          if k > 0 { assert parts[k] == rest[k]; }
        }
      }
    }
  }

  /** Two adjacent separators leave an empty part (never the first one). */
  lemma {:induction false} AdjacentSeparatorsSplitEmpty(s: string, sep: char, i: nat)
    requires i + 1 < |s| && s[i] == sep && s[i + 1] == sep
    ensures exists m :: 1 <= m < |Split(s, sep)| && Split(s, sep)[m] == []
    decreases |s|
  {
    var rest := Split(s[1..], sep);
    if i == 0 {
      assert s[1..][0] == sep && rest[0] == [];
      assert Split(s, sep)[1] == rest[0];
    } else {
      AdjacentSeparatorsSplitEmpty(s[1..], sep, i - 1);
      var m :| 1 <= m < |rest| && rest[m] == [];
      if s[0] == sep {
        assert Split(s, sep)[m + 1] == [];
      } else {
        assert Split(s, sep)[m] == [];
      }
    }
  }

  predicate IsAsciiLetter(c: char) { 'a' <= c <= 'z' || 'A' <= c <= 'Z' }

  /** ASCII version of Python's `str.isidentifier`: non-empty, a letter or
      underscore first, letters, digits or underscores after. */
  predicate IsIdentifier(s: string)
  {
    |s| > 0 && (IsAsciiLetter(s[0]) || s[0] == '_') &&
    forall i :: 1 <= i < |s| ==> IsAsciiLetter(s[i]) || IsDigit(s[i]) || s[i] == '_'
  }
}
