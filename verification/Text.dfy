/** Searching in byte strings, and decimal numerals as `std::to_string` writes and `std::from_chars` reads them. */
module Text {
  import opened Bits

  const CRLF: string := "\r\n"

  predicate At(s: string, pat: string, i: nat) { i + |pat| <= |s| && s[i..i + |pat|] == pat }

  /** The first occurrence of `pat` from `i` on, or -1. */
  function Find(s: string, pat: string, i: nat): (r: int)
    requires i <= |s|
    ensures r == -1 || i <= r <= |s|
    ensures r >= 0 ==> At(s, pat, r) && forall k: nat :: i <= k < r ==> !At(s, pat, k)
    ensures r == -1 ==> forall k: nat :: i <= k <= |s| ==> !At(s, pat, k)
    decreases |s| - i
  {
    if At(s, pat, i) then i else if i == |s| then -1 else Find(s, pat, i + 1)
  }

  predicate Contains(s: string, pat: string) { exists i: nat :: i <= |s| && At(s, pat, i) }

  lemma ConcatAssoc(a: string, b: string, c: string)
    ensures a + (b + c) == a + b + c
  {
  }

  /** The first occurrence is the only one `Find` can return. */
  lemma FindUnique(s: string, pat: string, r: nat)
    requires At(s, pat, r) && forall k: nat :: k < r ==> !At(s, pat, k)
    ensures Find(s, pat, 0) == r
  {
  }

  /** Text appended after an occurrence does not move the first occurrence. */
  lemma FindInPrefix(a: string, b: string, pat: string)
    requires Find(a, pat, 0) >= 0
    ensures Find(a + b, pat, 0) == Find(a, pat, 0)
  {
    var r := Find(a, pat, 0);
    assert (a + b)[r..r + |pat|] == a[r..r + |pat|];
    forall k: nat | k < r ensures !At(a + b, pat, k) {
      assert !At(a, pat, k);
      assert (a + b)[k..k + |pat|] == a[k..k + |pat|];
    }
    FindUnique(a + b, pat, r);
  }

  /** A line without CRLF ends at the first CRLF after it. */
  lemma FindEndOfLine(line: string, rest: string)
    requires !Contains(line, CRLF)
    ensures Find(line + CRLF + rest, CRLF, 0) == |line|
  {
    var s := line + CRLF + rest;
    assert s[|line|..|line| + 2] == CRLF;
    forall k: nat | k < |line| ensures !At(s, CRLF, k) {
      if k + 1 < |line| {
        assert !At(line, CRLF, k);
        assert s[k..k + 2] == line[k..k + 2];
      } else {
        assert s[k..k + 2][1] == '\r';
      }
    }
    FindUnique(s, CRLF, |line|);
  }

  // ----- Characters

  function FindChar(s: string, c: char): (r: int)
    ensures -1 <= r < |s|
    ensures r >= 0 ==> s[r] == c && forall k :: 0 <= k < r ==> s[k] != c
    ensures r == -1 ==> forall k :: 0 <= k < |s| ==> s[k] != c
  {
    if s == "" then -1 else if s[0] == c then 0 else
      var r := FindChar(s[1..], c);
      assert forall k :: 0 < k < |s| ==> s[k] == s[1..][k - 1];
      if r < 0 then -1 else r + 1
  }

  /** A string is split at the first occurrence of a character. */
  lemma SplitAtChar(a: string, c: char, b: string)
    requires c !in a
    ensures var s := a + [c] + b; FindChar(s, c) == |a| && s[..|a|] == a && s[|a| + 1..] == b
  {
    var s := a + [c] + b;
    assert s[|a|] == c && forall k :: 0 <= k < |a| ==> s[k] == a[k];
  }

  function RFindChar(s: string, c: char): (r: int)
    ensures -1 <= r < |s|
    ensures r >= 0 ==> s[r] == c && forall k :: r < k < |s| ==> s[k] != c
    ensures r == -1 ==> forall k :: 0 <= k < |s| ==> s[k] != c
  {
    if s == "" then -1 else if s[|s| - 1] == c then |s| - 1 else RFindChar(s[..|s| - 1], c)
  }

  // ----- Decimal numerals

  predicate IsDigit(c: char) { '0' <= c <= '9' }

  function DigitValue(c: char): nat
    requires IsDigit(c)
  {
    c as int - '0' as int
  }

  function Digit(d: nat): (c: char)
    requires d < 10
    ensures IsDigit(c) && DigitValue(c) == d
  {
    ('0' as int + d) as char
  }

  predicate Digits(s: string) { forall i :: 0 <= i < |s| ==> IsDigit(s[i]) }

  predicate Numeral(s: string) { s != "" && Digits(s) }

  function ToString(n: nat): (s: string)
    ensures Numeral(s)
  {
    if n < 10 then [Digit(n)] else ToString(n / 10) + [Digit(n % 10)]
  }

  function DigitCount(s: string): (n: nat)
    ensures n <= |s| && (forall i :: 0 <= i < n ==> IsDigit(s[i])) && (n < |s| ==> !IsDigit(s[n]))
  {
    if s == "" || !IsDigit(s[0]) then 0 else 1 + DigitCount(s[1..])
  }

  function Value(s: string): nat
    requires Digits(s)
  {
    if s == "" then 0 else 10 * Value(s[..|s| - 1]) + DigitValue(s[|s| - 1])
  }

  /** `std::from_chars` into an unsigned 64-bit variable that holds `prev`: reads the longest run of digits, and leaves
      the variable alone when there is none or the value does not fit. */
  function FromChars(s: string, prev: nat): nat {
    var n := DigitCount(s);
    if n == 0 || Value(s[..n]) >= WORD then prev else Value(s[..n])
  }

  lemma {:induction false} ValueOfToString(n: nat)
    ensures Value(ToString(n)) == n
  {
    if n >= 10 {
      ValueOfToString(n / 10);
      var s := ToString(n);
      assert s[..|s| - 1] == ToString(n / 10);
    } else {
      assert [Digit(n)][..0] == "";
    }
  }

  lemma {:induction false} DigitCountStops(a: string, b: string)
    requires Digits(a) && (b == "" || !IsDigit(b[0]))
    ensures DigitCount(a + b) == |a|
    decreases |a|
  {
    if a == "" {
      assert a + b == b;
    } else {
      assert (a + b)[1..] == a[1..] + b;
      DigitCountStops(a[1..], b);
    }
  }

  /** A numeral that fits in 64 bits is read, whatever follows it; one that does not leaves the variable alone. */
  lemma FromCharsOfNumeral(s: string, rest: string, prev: nat)
    requires Numeral(s) && (rest == "" || !IsDigit(rest[0]))
    ensures FromChars(s + rest, prev) == if Value(s) < WORD then Value(s) else prev
  {
    DigitCountStops(s, rest);
    assert (s + rest)[..|s|] == s;
  }

  lemma FromCharsAlone(s: string, prev: nat)
    requires Numeral(s)
    ensures FromChars(s, prev) == if Value(s) < WORD then Value(s) else prev
  {
    FromCharsOfNumeral(s, "", prev);
    assert s + "" == s;
  }

  /** A printed number that fits in 64 bits reads back as itself. */
  lemma FromCharsOfToString(n: nat, rest: string, prev: nat)
    requires rest == "" || !IsDigit(rest[0])
    ensures FromChars(ToString(n) + rest, prev) == if n < WORD then n else prev
  {
    FromCharsOfNumeral(ToString(n), rest, prev);
    ValueOfToString(n);
  }

  /** Without a digit at the beginning the variable is left alone. */
  lemma FromCharsOfOther(s: string, prev: nat)
    requires s == "" || !IsDigit(s[0])
    ensures FromChars(s, prev) == prev
  {
  }
}
