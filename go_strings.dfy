/** The pieces of Go's standard library that the core relies on for strings: the `<` operator on
    strings, strings.SplitN with a limit of 2, strconv.Itoa and strings.ToLower. */
module GoStrings {
  import opened Common

  /** Go's `a < b` on strings: lexicographic on the bytes of the UTF-8 encodings. UTF-8 preserves the
      order of code points, so comparing the characters one by one gives the same answer. */
  function StringLess(a: string, b: string): (r: bool)
    ensures r ==> |b| > 0
    ensures a < b ==> r
    decreases |a|
  {
    if |a| == 0 then |b| > 0
    else if |b| == 0 then false
    else if a[0] < b[0] then true
    else if a[0] > b[0] then false
    else StringLess(a[1..], b[1..])
  }

  lemma {:induction false} StringLessIrreflexive(a: string)
    ensures !StringLess(a, a)
    decreases |a|
  {
    if |a| > 0 {
      StringLessIrreflexive(a[1..]);
    }
  }

  lemma {:induction false} StringLessTransitive(a: string, b: string, c: string)
    requires StringLess(a, b) && StringLess(b, c)
    ensures StringLess(a, c)
    decreases |a|
  {
    if |a| > 0 && a[0] == b[0] && b[0] == c[0] {
      StringLessTransitive(a[1..], b[1..], c[1..]);
    }
  }

  /** Two different strings are always ordered one way or the other. */
  lemma {:induction false} StringLessTotal(a: string, b: string)
    requires a != b
    ensures StringLess(a, b) || StringLess(b, a)
    decreases |a|
  {
    if |a| > 0 && |b| > 0 && a[0] == b[0] {
      assert a == [a[0]] + a[1..] && b == [b[0]] + b[1..];
      StringLessTotal(a[1..], b[1..]);
    }
  }

  lemma {:induction false} StringLessAsymmetric(a: string, b: string)
    requires StringLess(a, b)
    ensures !StringLess(b, a)
  {
    if StringLess(b, a) {
      StringLessTransitive(a, b, a);
      StringLessIrreflexive(a);
    }
  }

  /** strings.SplitN(s, sep, 2) for a one-character separator: the whole string when the separator
      does not occur, otherwise the part before its first occurrence and everything after it. */
  function SplitN2(s: string, sep: char): (parts: seq<string>)
    ensures |parts| == 1 || |parts| == 2
    decreases |s|
  {
    if |s| == 0 then [s]
    else if s[0] == sep then ["", s[1..]]
    else
      var rest := SplitN2(s[1..], sep);
      if |rest| == 1 then [s] else [[s[0]] + rest[0], rest[1]]
  }

  /** SplitN2 yields one part exactly when the separator is absent, and then the part is the input. */
  lemma {:induction false} SplitN2Whole(s: string, sep: char)
    ensures |SplitN2(s, sep)| == 1 <==> sep !in s
    ensures |SplitN2(s, sep)| == 1 ==> SplitN2(s, sep) == [s]
    decreases |s|
  {
    if |s| > 0 && s[0] != sep {
      SplitN2Whole(s[1..], sep);
      assert s == [s[0]] + s[1..];
    }
  }

  /** Two parts put back together with the separator give the input, and the first part is free of
      the separator (the split happens at the FIRST occurrence). */
  lemma {:induction false} SplitN2Parts(s: string, sep: char)
    requires |SplitN2(s, sep)| == 2
    ensures s == SplitN2(s, sep)[0] + [sep] + SplitN2(s, sep)[1]
    ensures sep !in SplitN2(s, sep)[0]
    decreases |s|
  {
    if s[0] != sep {
      SplitN2Parts(s[1..], sep);
      assert s == [s[0]] + s[1..];
    }
  }

  /** The other direction: splitting `a + sep + b` with `sep` absent from `a` gives back `a` and `b`. */
  lemma {:induction false} SplitN2Join(a: string, sep: char, b: string)
    requires sep !in a
    ensures SplitN2(a + [sep] + b, sep) == [a, b]
    decreases |a|
  {
    var s := a + [sep] + b;
    if |a| > 0 {
      assert s[1..] == a[1..] + [sep] + b;
      SplitN2Join(a[1..], sep, b);
      assert [a[0]] + a[1..] == a;
    } else {
      assert s[1..] == b;
    }
  }

  function DigitChar(d: nat): char
    requires d < 10
  {
    "0123456789"[d]
  }

  predicate IsDigit(c: char) {
    '0' <= c <= '9'
  }

  /** The decimal digits of a natural number, most significant first, without leading zeros. */
  function Digits(n: nat): (s: string)
    ensures |s| > 0 && forall i :: 0 <= i < |s| ==> IsDigit(s[i])
  {
    if n < 10 then [DigitChar(n)] else Digits(n / 10) + [DigitChar(n % 10)]
  }

  /** strconv.Itoa, and the `%d` verb of fmt: a minus sign for negative numbers, then the digits. */
  function Itoa(n: int): (r: string)
    ensures |r| > 0
    ensures r[0] == '-' <==> n < 0
  {
    if n < 0 then "-" + Digits(-n) else Digits(n)
  }

  /** The value of a string of decimal digits, read from left to right. */
  function DigitsValue(s: string): int
    requires forall i :: 0 <= i < |s| ==> IsDigit(s[i])
  {
    if s == [] then 0 else 10 * DigitsValue(s[..|s| - 1]) + (s[|s| - 1] as int - '0' as int)
  }

  /** Reads back a decimal rendering with an optional leading minus sign. */
  function ParseInt(s: string): (r: Option<int>)
    ensures r.Some? ==> |s| > 0 && (s[0] == '-' || IsDigit(s[0]))
    ensures r.Some? ==> forall i :: 1 <= i < |s| ==> IsDigit(s[i])
  {
    if |s| > 1 && s[0] == '-' && forall i :: 1 <= i < |s| ==> IsDigit(s[i]) then Some(-DigitsValue(s[1..]))
    else if |s| > 0 && forall i :: 0 <= i < |s| ==> IsDigit(s[i]) then Some(DigitsValue(s))
    else None
  }

  lemma {:induction false} DigitsRoundTrip(n: nat)
    ensures DigitsValue(Digits(n)) == n
  {
    if n >= 10 {
      DigitsRoundTrip(n / 10);
      var s := Digits(n);
      assert s[..|s| - 1] == Digits(n / 10);
    }
  }

  /** Reading back what Itoa renders gives the number again. */
  lemma ItoaRoundTrip(n: int)
    ensures ParseInt(Itoa(n)) == Some(n)
  {
    if n < 0 {
      var m: nat := -n;
      var d := Digits(m);
      DigitsRoundTrip(m);
      ParseNegative(d);
      assert Itoa(n) == "-" + d;
    } else {
      var d := Digits(n);
      DigitsRoundTrip(n);
      ParseDigits(d);
      assert Itoa(n) == d;
    }
  }

  lemma ParseNegative(d: string)
    requires |d| > 0 && forall i :: 0 <= i < |d| ==> IsDigit(d[i])
    ensures ParseInt("-" + d) == Some(-DigitsValue(d))
  {
    var s := "-" + d;
    assert s[1..] == d;
    assert forall i :: 1 <= i < |s| ==> s[i] == d[i - 1];
  }

  lemma ParseDigits(d: string)
    requires |d| > 0 && forall i :: 0 <= i < |d| ==> IsDigit(d[i])
    ensures ParseInt(d) == Some(DigitsValue(d))
  {
    assert IsDigit(d[0]);
  }

  /** A decimal rendering never contains a colon, so it can stand after the last ':' of a URL. */
  lemma ItoaHasNoColon(n: int)
    ensures ':' !in Itoa(n)
  {
  }

  function LowerChar(c: char): char {
    if 'A' <= c <= 'Z' then (c as int - 'A' as int + 'a' as int) as char else c
  }

  /** strings.ToLower, for ASCII letters. */
  function ToLower(s: string): (r: string)
    ensures |r| == |s|
    ensures forall i :: 0 <= i < |s| ==> r[i] == LowerChar(s[i])
  {
    if s == [] then [] else [LowerChar(s[0])] + ToLower(s[1..])
  }

  /** The part of `s` after the last occurrence of `c`, or all of `s` when `c` does not occur. */
  function AfterLast(s: string, c: char): (r: string)
    ensures c !in r
    decreases |s|
  {
    if s == [] then []
    else if s[|s| - 1] == c then []
    else AfterLast(s[..|s| - 1], c) + [s[|s| - 1]]
  }

  /** A string is a prefix of itself followed by anything. */
  lemma PrefixOfConcat(a: string, b: string, c: string, d: string)
    ensures a <= a + b + c + d
  {
    assert (a + b + c + d)[..|a|] == a;
  }

  lemma {:induction false} AfterLastSuffix(prefix: string, c: char, tail: string)
    requires c !in tail
    ensures AfterLast(prefix + [c] + tail, c) == tail
    decreases |tail|
  {
    var s := prefix + [c] + tail;
    if tail != [] {
      assert s[..|s| - 1] == prefix + [c] + tail[..|tail| - 1];
      AfterLastSuffix(prefix, c, tail[..|tail| - 1]);
      assert tail == tail[..|tail| - 1] + [tail[|tail| - 1]];
    }
  }
}
