/** The two regular expressions the sheet validators test cells against:
    `^[0-9]{9,10}$` for phone numbers and `^[^\s@]+@[^\s@]+\.[^\s@]+$` for
    e-mail addresses. */
module Patterns {
  import opened SheetText

  /** `^[0-9]{9,10}$`. */
  predicate IsPhone(s: string) {
    9 <= |s| <= 10 && AllDigits(s)
  }

  function Pow10(k: nat): (p: nat)
    ensures p >= 1
  {
    if k == 0 then 1 else 10 * Pow10(k - 1)
  }

  /** A whole number has `k` digits exactly when it lies in
      `[10^(k-1), 10^k)`. */
  lemma {:induction false} NatTextLength(n: nat)
    ensures n < Pow10(|NatText(n)|)
    ensures n >= 10 ==> Pow10(|NatText(n)| - 1) <= n
    decreases n
  {
    if n >= 10 {
      NatTextLength(n / 10);
      assert |NatText(n)| == |NatText(n / 10)| + 1;
    }
  }

  /** A phone number typed into a numeric cell loses its leading zero; the
      pattern still accepts it when nine or ten digits remain. */
  lemma NumericPhoneCell(n: int)
    ensures IsPhone(DecimalText(n)) <==> 100_000_000 <= n < 10_000_000_000
  {
    if n >= 0 {
      NatTextLength(n);
      var k := |NatText(n)|;
      assert Pow10(8) == 100_000_000 && Pow10(9) == 1_000_000_000 && Pow10(10) == 10_000_000_000;
      if k <= 8 {
        PowMonotone(k, 8);
      } else if k >= 11 {
        PowMonotone(10, k - 1);
      }
    } else {
      assert DecimalText(n)[0] == '-';
    }
  }

  lemma {:induction false} PowMonotone(a: nat, b: nat)
    requires a <= b
    ensures Pow10(a) <= Pow10(b)
    decreases b
  {
    if a < b {
      PowMonotone(a, b - 1);
    }
  }

  /** A character the classes `[^\s@]` admit. */
  predicate IsPlainChar(c: char) {
    !IsSpace(c) && c != '@'
  }

  /** `[^\s@]+`. */
  predicate IsPlain(s: string) {
    s != [] && forall k :: 0 <= k < |s| ==> IsPlainChar(s[k])
  }

  /** What the e-mail pattern matches: plain text, `@`, plain text, a dot,
      plain text. */
  ghost predicate EmailPattern(s: string) {
    exists i, j :: 0 < i < j < |s| && EmailSplit(s, i, j)
  }

  /** The index of the first `@`, or the length when there is none. */
  function AtIndex(s: string): (i: nat)
    ensures i <= |s|
    ensures forall k :: 0 <= k < i ==> s[k] != '@'
    ensures i < |s| ==> s[i] == '@'
    decreases |s|
  {
    if |s| == 0 || s[0] == '@' then 0 else 1 + AtIndex(s[1..])
  }

  /** The e-mail test as a scan: exactly one `@`, not first, no white space,
      and a dot strictly inside the part after the `@`. */
  predicate IsEmail(s: string) {
    var i := AtIndex(s);
    && 0 < i < |s|
    && (forall k :: 0 <= k < |s| ==> !IsSpace(s[k]) && (s[k] == '@' ==> k == i))
    && var domain := s[i + 1..];
       |domain| >= 3 && '.' in domain[1..|domain| - 1]
  }

  /** A slice is plain when every character in its range is. */
  lemma PlainSlice(s: string, a: int, b: int)
    requires 0 <= a < b <= |s|
    requires forall k :: a <= k < b ==> IsPlainChar(s[k])
    ensures IsPlain(s[a..b])
  {
    forall t | 0 <= t < b - a
      ensures IsPlainChar(s[a..b][t])
    {
      assert s[a..b][t] == s[a + t];
    }
  }

  /** Every character in the range of a plain slice is plain. */
  lemma PlainSliceChars(s: string, a: int, b: int)
    requires 0 <= a <= b <= |s|
    requires IsPlain(s[a..b])
    ensures forall k :: a <= k < b ==> IsPlainChar(s[k])
  {
    forall k | a <= k < b
      ensures IsPlainChar(s[k])
    {
      assert s[a..b][k - a] == s[k];
    }
  }

  /** The scan accepts exactly what the pattern matches. */
  lemma IsEmailMatchesPattern(s: string)
    ensures IsEmail(s) <==> EmailPattern(s)
  {
    if IsEmail(s) {
      ScanMatchesPattern(s);
    }
    if EmailPattern(s) {
      var i, j :| EmailSplit(s, i, j);
      PatternPassesScan(s, i, j);
    }
  }

  /** The pattern's match of `s` with the `@` at `i` and the dot at `j`. */
  predicate EmailSplit(s: string, i: int, j: int) {
    0 < i && i + 1 < j < |s| - 1 && s[i] == '@' && s[j] == '.'
    && IsPlain(s[..i]) && IsPlain(s[i + 1..j]) && IsPlain(s[j + 1..])
  }

  lemma ScanMatchesPattern(s: string)
    requires IsEmail(s)
    ensures EmailPattern(s)
  {
    var i := AtIndex(s);
    var domain := s[i + 1..];
    var inner := domain[1..|domain| - 1];
    var m :| 0 <= m < |inner| && inner[m] == '.';
    var j := i + 2 + m;
    assert s[j] == '.';
    PlainSlice(s, 0, i);
    PlainSlice(s, i + 1, j);
    PlainSlice(s, j + 1, |s|);
    assert s[j + 1..|s|] == s[j + 1..];
    assert s[0..i] == s[..i];
    assert EmailSplit(s, i, j);
  }

  lemma PatternPassesScan(s: string, i: int, j: int)
    requires EmailSplit(s, i, j)
    ensures IsEmail(s)
  {
    assert s[..i] == s[0..i] && s[j + 1..] == s[j + 1..|s|];
    PlainSliceChars(s, 0, i);
    PlainSliceChars(s, i + 1, j);
    PlainSliceChars(s, j + 1, |s|);
    assert AtIndex(s) == i;
    var domain := s[i + 1..];
    assert domain[1..|domain| - 1][j - i - 2] == '.';
  }
}
