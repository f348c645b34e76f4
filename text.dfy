/**
 * The pieces of Go's string handling the core relies on: substring search
 * (the model of `ILIKE '%s%'`), `strings.Split`, `strings.Join`,
 * `strconv.Itoa` and `strconv.Atoi`.
 */
module Text {
  import opened Common

  /**
   * `pattern` occurs somewhere in `text`. This stands for
   * `text ILIKE '%' || pattern || '%'`; the database's case folding and the
   * `%`/`_` wildcards inside `pattern` are not part of this model.
   */
  predicate Contains(text: string, pattern: string)
    decreases |text|
  {
    (|pattern| <= |text| && text[..|pattern|] == pattern)
    || (|text| > 0 && Contains(text[1..], pattern))
  }

  lemma {:induction false} ContainsSuffix(text: string, pattern: string, k: nat)
    requires k <= |text| && Contains(text[k..], pattern)
    ensures Contains(text, pattern)
    decreases k
  {
    if k > 0 {
      assert text[1..][k - 1..] == text[k..];
      ContainsSuffix(text[1..], pattern, k - 1);
    }
  }

  /** `pattern` found at position `k` of `text` means `text` contains it. */
  lemma {:induction false} ContainsAt(text: string, pattern: string, k: nat)
    requires k + |pattern| <= |text| && text[k..k + |pattern|] == pattern
    ensures Contains(text, pattern)
  {
    assert text[k..][..|pattern|] == pattern;
    ContainsSuffix(text, pattern, k);
  }

  /** `strings.Join(parts, sep)`. */
  function Join(parts: seq<string>, sep: string): string
  {
    if |parts| == 0 then ""
    else if |parts| == 1 then parts[0]
    else parts[0] + sep + Join(parts[1..], sep)
  }

  /** A join starts where its first part starts. */
  lemma JoinStartsWithFirst(parts: seq<string>, sep: string)
    requires |parts| > 0 && |parts[0]| > 0
    ensures |Join(parts, sep)| > 0 && Join(parts, sep)[0] == parts[0][0]
  {
  }

  /**
   * `strings.Split(s, string(sep))`: the pieces between the separators, so
   * that there is always one more piece than separators.
   */
  function Split(s: string, sep: char): (parts: seq<string>)
    ensures |parts| >= 1
    ensures forall i :: 0 <= i < |parts| ==> sep !in parts[i]
  {
    if s == [] then [""]
    else if s[0] == sep then [""] + Split(s[1..], sep)
    else
      var rest := Split(s[1..], sep);
      [[s[0]] + rest[0]] + rest[1..]
  }

  function Count(s: string, c: char): nat
  {
    if s == [] then 0 else (if s[0] == c then 1 else 0) + Count(s[1..], c)
  }

  /** Splitting and joining with the same separator gives back the text. */
  lemma {:induction false} JoinSplit(s: string, sep: char)
    ensures Join(Split(s, sep), [sep]) == s
  {
    if s == [] {
    } else if s[0] == sep {
      JoinSplit(s[1..], sep);
      var rest := Split(s[1..], sep);
      if |rest| == 1 {
        assert Join([""] + rest, [sep]) == "" + [sep] + Join(rest, [sep]);
      } else {
        assert ([""] + rest)[1..] == rest;
      }
    } else {
      JoinSplit(s[1..], sep);
      var rest := Split(s[1..], sep);
      var parts := [[s[0]] + rest[0]] + rest[1..];
      if |rest| == 1 {
      } else {
        assert parts[1..] == rest[1..];
        assert Join(rest, [sep]) == rest[0] + [sep] + Join(rest[1..], [sep]);
      }
    }
  }

  /** One piece per separator, plus one. */
  lemma {:induction false} SplitLength(s: string, sep: char)
    ensures |Split(s, sep)| == Count(s, sep) + 1
  {
    if s != [] {
      SplitLength(s[1..], sep);
    }
  }

  /** Text with no separator in it is a single piece. */
  lemma {:induction false} SplitNoSeparator(a: string, sep: char)
    requires sep !in a
    ensures Split(a, sep) == [a]
  {
    if a != [] {
      SplitNoSeparator(a[1..], sep);
      assert [a[0]] + a[1..] == a;
    }
  }

  /** Two separator-free texts around one separator split back into those two. */
  lemma {:induction false} SplitPair(a: string, b: string, sep: char)
    requires sep !in a && sep !in b
    ensures Split(a + [sep] + b, sep) == [a, b]
  {
    if a == [] {
      assert (a + [sep] + b)[1..] == b;
      SplitNoSeparator(b, sep);
    } else {
      assert (a + [sep] + b)[1..] == a[1..] + [sep] + b;
      SplitPair(a[1..], b, sep);
      assert [a[0]] + a[1..] == a;
    }
  }

  predicate IsDigit(c: char)
  {
    '0' <= c <= '9'
  }

  function DigitChar(d: int): (c: char)
    requires 0 <= d < 10
    ensures IsDigit(c) && DigitValue(c) == d
  {
    "0123456789"[d]
  }

  function DigitValue(c: char): int
    requires IsDigit(c)
  {
    c as int - '0' as int
  }

  predicate AllDigits(s: string)
  {
    forall i :: 0 <= i < |s| ==> IsDigit(s[i])
  }

  /** Decimal digits of a natural number, most significant first. */
  function NatToString(n: nat): (s: string)
    ensures |s| >= 1 && AllDigits(s)
    decreases n
  {
    if n < 10 then [DigitChar(n)] else NatToString(n / 10) + [DigitChar(n % 10)]
  }

  /** The value of a string of decimal digits. */
  function ParseDigits(s: string): nat
    requires AllDigits(s)
  {
    if s == [] then 0 else ParseDigits(s[..|s| - 1]) * 10 + DigitValue(s[|s| - 1])
  }

  /** `strconv.Itoa`. */
  function IntToString(n: int): (s: string)
    ensures |s| >= 1
  {
    if n < 0 then "-" + NatToString(-n) else NatToString(n)
  }

  /**
   * `strconv.Atoi`: an optional sign followed by at least one decimal digit.
   * Go's 64-bit range check is not part of this model.
   */
  function Atoi(s: string): (r: Option<int>)
    ensures r.Some? ==> |s| >= 1 && (IsDigit(s[0]) || s[0] == '+' || s[0] == '-')
    ensures r.Some? && r.value < 0 ==> s[0] == '-'
  {
    if |s| > 0 && (s[0] == '+' || s[0] == '-') then
      if |s| > 1 && AllDigits(s[1..]) then
        var magnitude: int := ParseDigits(s[1..]);
        Some(if s[0] == '-' then -magnitude else magnitude)
      else None
    else if |s| > 0 && AllDigits(s) then Some(ParseDigits(s))
    else None
  }

  /** `n, _ := strconv.Atoi(s)`: a failed parse leaves 0. */
  function AtoiOrZero(s: string): (n: int)
    ensures n != 0 ==> Atoi(s) == Some(n)
    ensures Atoi(s).None? ==> n == 0
  {
    match Atoi(s)
    case Some(n) => n
    case None => 0
  }

  lemma {:induction false} ParseNatToString(n: nat)
    ensures ParseDigits(NatToString(n)) == n
    decreases n
  {
    if n >= 10 {
      ParseNatToString(n / 10);
      var s := NatToString(n / 10) + [DigitChar(n % 10)];
      assert s[..|s| - 1] == NatToString(n / 10);
    }
  }

  /** A plain run of digits parses to its value. */
  lemma AtoiOfDigits(s: string)
    requires |s| >= 1 && AllDigits(s)
    ensures Atoi(s) == Some(ParseDigits(s))
  {
    assert IsDigit(s[0]);
  }

  /** A minus sign followed by a run of digits parses to the negated value. */
  lemma AtoiOfNegated(s: string)
    requires |s| >= 1 && AllDigits(s)
    ensures Atoi("-" + s) == Some(-(ParseDigits(s) as int))
  {
    assert ("-" + s)[1..] == s;
  }

  /** `strconv.Atoi(strconv.Itoa(n))` gives back `n`. */
  lemma AtoiOfIntToString(n: int)
    ensures Atoi(IntToString(n)) == Some(n)
  {
    if n < 0 {
      AtoiOfNegativeText(n);
    } else {
      AtoiOfNatText(n);
    }
  }

  /** The text of a negative integer parses back to it. */
  lemma AtoiOfNegativeText(n: int)
    requires n < 0
    ensures Atoi(IntToString(n)) == Some(n)
  {
    var m: nat := -n;
    AtoiOfNegatedNat(m);
  }

  /** A minus sign before the digits of `m` parses to `-m`. */
  lemma AtoiOfNegatedNat(m: nat)
    ensures Atoi("-" + NatToString(m)) == Some(-(m as int))
  {
    ParseNatToString(m);
    AtoiOfNegated(NatToString(m));
  }

  /** The text of a natural number parses back to it. */
  lemma AtoiOfNatText(n: nat)
    ensures Atoi(IntToString(n)) == Some(n)
  {
    var digits := NatToString(n);
    assert IntToString(n) == digits;
    ParseNatToString(n);
    AtoiOfDigits(digits);
  }
}
