/**
 * Character and string helpers standing in for the Python string operations
 * the webhook receiver and the dashboard use: decimal digits, `str(n)`,
 * zero-padded `strftime` fields, `str.startswith` and `str.replace`.
 */
module Text {

  predicate IsDigit(c: char) {
    '0' <= c <= '9'
  }

  predicate AllDigits(s: string) {
    forall i :: 0 <= i < |s| ==> IsDigit(s[i])
  }

  function DigitChar(d: nat): (c: char)
    requires d < 10
    ensures IsDigit(c)
  {
    (48 + d) as char
  }

  function DigitValue(c: char): (d: nat)
    requires IsDigit(c)
    ensures d < 10 && DigitChar(d) == c
  {
    c as int - 48
  }

  lemma DigitRoundTrip(d: nat)
    requires d < 10
    ensures DigitValue(DigitChar(d)) == d
  {
  }

  /** The last decimal digit of `n` as a character. */
  function LastDigit(n: nat): (c: char)
    ensures IsDigit(c) && DigitValue(c) == n % 10
  {
    DigitChar(n % 10)
  }

  /** A two-digit zero-padded field, as `%m`, `%d`, `%H`, `%M`, `%S` print it. */
  function Pad2(n: nat): (r: string)
    ensures |r| == 2 && AllDigits(r)
    ensures 10 * DigitValue(r[0]) + DigitValue(r[1]) == n % 100
  {
    [LastDigit(n / 10), LastDigit(n)]
  }

  /** A four-digit zero-padded field, as `%Y` prints a year. */
  function Pad4(n: nat): (r: string)
    ensures |r| == 4 && AllDigits(r)
    ensures 1000 * DigitValue(r[0]) + 100 * DigitValue(r[1]) + 10 * DigitValue(r[2]) + DigitValue(r[3]) == n % 10000
  {
    var high, low := Pad2(n / 100), Pad2(n);
    assert (n / 100) % 100 * 100 + n % 100 == n % 10000;
    high + low
  }

  lemma SmallMod(n: nat, m: nat)
    requires n < m
    ensures n % m == n
  {
  }

  /** The number a string of decimal digits denotes. */
  function DecimalValue(s: string): nat
    requires AllDigits(s)
  {
    if s == [] then 0 else 10 * DecimalValue(s[..|s| - 1]) + DigitValue(s[|s| - 1])
  }

  /** `str(n)` for a natural number: its decimal digits, without leading zeros. */
  function Decimal(n: nat): (r: string)
    ensures 1 <= |r| && AllDigits(r)
    ensures DecimalValue(r) == n
    ensures r[0] == '0' <==> n == 0
  {
    if n < 10 then
      [DigitChar(n)]
    else
      var r := Decimal(n / 10) + [LastDigit(n)];
      assert r[..|r| - 1] == Decimal(n / 10);
      r
  }

  /** `s.startswith(p)` */
  predicate StartsWith(s: string, p: string) {
    |p| <= |s| && s[..|p|] == p
  }

  /** `p` occurs in `s` starting at index `i`. */
  predicate OccursAt(s: string, p: string, i: nat) {
    i + |p| <= |s| && s[i..i + |p|] == p
  }

  /** `p in s` */
  ghost predicate Occurs(s: string, p: string) {
    exists i: nat :: i <= |s| && OccursAt(s, p, i)
  }

  /**
   * `s.replace(pat, rep)`: every non-overlapping occurrence of `pat`, found
   * from left to right, is replaced by `rep`.
   */
  function ReplaceAll(s: string, pat: string, rep: string): (r: string)
    requires pat != ""
    ensures |rep| <= |pat| ==> |r| <= |s|
    ensures |pat| <= |rep| ==> |s| <= |r|
    decreases |s|
  {
    if |s| < |pat| then s
    else if s[..|pat|] == pat then rep + ReplaceAll(s[|pat|..], pat, rep)
    else [s[0]] + ReplaceAll(s[1..], pat, rep)
  }

  /** A string in which the pattern does not occur is left as it is. */
  lemma {:induction false} ReplaceAllAbsent(s: string, pat: string, rep: string)
    requires pat != "" && !Occurs(s, pat)
    ensures ReplaceAll(s, pat, rep) == s
    decreases |s|
  {
    if |s| >= |pat| {
      assert !OccursAt(s, pat, 0);
      assert s[..|pat|] != pat;
      forall i: nat
        ensures !OccursAt(s[1..], pat, i)
      {
        if OccursAt(s[1..], pat, i) {
          assert s[1..][i..i + |pat|] == s[i + 1..i + 1 + |pat|];
          assert OccursAt(s, pat, i + 1);
        }
      }
      ReplaceAllAbsent(s[1..], pat, rep);
      assert [s[0]] + s[1..] == s;
    }
  }

  /** Replacing a single character distributes over concatenation. */
  lemma {:induction false} ReplaceCharAppend(s: string, t: string, c: char, rep: string)
    ensures ReplaceAll(s + t, [c], rep) == ReplaceAll(s, [c], rep) + ReplaceAll(t, [c], rep)
    decreases |s|
  {
    if s != [] {
      assert (s + t)[1..] == s[1..] + t;
      assert (s + t)[..1] == s[..1];
      ReplaceCharAppend(s[1..], t, c, rep);
    } else {
      assert s + t == t;
    }
  }

  /** Replacing a character that does not occur leaves the string unchanged. */
  lemma {:induction false} ReplaceCharAbsent(s: string, c: char, rep: string)
    requires forall i :: 0 <= i < |s| ==> s[i] != c
    ensures ReplaceAll(s, [c], rep) == s
    decreases |s|
  {
    if s != [] {
      assert s[..1] != [c] by { assert s[..1][0] == s[0]; }
      ReplaceCharAbsent(s[1..], c, rep);
      assert [s[0]] + s[1..] == s;
    }
  }
}
