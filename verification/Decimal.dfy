/** Decimal text: what "%d" prints for a non-negative number, and how the digits are read back. */
module Decimal {
  predicate IsDigit(c: char) {
    '0' <= c <= '9'
  }

  predicate AllDigits(s: string) {
    forall i :: 0 <= i < |s| ==> IsDigit(s[i])
  }

  function DigitChar(d: nat): (c: char)
    requires d < 10
    ensures IsDigit(c)
  {
    '0' + d as char
  }

  function DigitValue(c: char): (d: nat)
    requires IsDigit(c)
    ensures d < 10 && DigitChar(d) == c
  {
    (c - '0') as int
  }

  function Format(n: nat): (s: string)
    ensures |s| > 0 && AllDigits(s)
  {
    if n < 10 then [DigitChar(n)] else Format(n / 10) + [DigitChar(n % 10)]
  }

  function Value(s: string): nat
    requires AllDigits(s)
  {
    if s == [] then 0 else Value(s[..|s| - 1]) * 10 + DigitValue(s[|s| - 1])
  }

  function Pow10(k: nat): (p: nat)
    ensures p > 0
  {
    if k == 0 then 1 else 10 * Pow10(k - 1)
  }

  /** How many digits s starts with. */
  function DigitRun(s: string): (k: nat)
    ensures k <= |s| && AllDigits(s[..k])
    ensures k < |s| ==> !IsDigit(s[k])
  {
    if s == [] || !IsDigit(s[0]) then 0 else 1 + DigitRun(s[1..])
  }

  /** Reading back what was printed gives the number printed. */
  lemma {:induction false} FormatRoundTrip(n: nat)
    ensures Value(Format(n)) == n
  {
    if n >= 10 {
      FormatRoundTrip(n / 10);
      var s := Format(n);
      assert s[..|s| - 1] == Format(n / 10);
    }
  }

  /** The number of digits printed is the decimal length of the number. */
  lemma {:induction false} FormatLength(n: nat, k: nat)
    requires k > 0
    ensures |Format(n)| <= k <==> n < Pow10(k)
  {
    if n < 10 {
      assert Pow10(1) == 10;
      Pow10Monotone(1, k);
    } else if k > 1 {
      FormatLength(n / 10, k - 1);
    } else {
      assert Pow10(1) == 10;
    }
  }

  lemma {:induction false} Pow10Monotone(j: nat, k: nat)
    requires j <= k
    ensures Pow10(j) <= Pow10(k)
  {
    if j < k {
      Pow10Monotone(j, k - 1);
    }
  }

  lemma {:induction false} ValueBound(s: string)
    requires AllDigits(s)
    ensures Value(s) < Pow10(|s|)
  {
    if s != [] {
      ValueBound(s[..|s| - 1]);
    }
  }

  /** Digits whose value needs them all are exactly the printed form of that value. */
  lemma {:induction false} ValueRoundTrip(s: string)
    requires AllDigits(s) && |s| > 0
    requires |s| > 1 ==> Value(s) >= Pow10(|s| - 1)
    ensures Format(Value(s)) == s
  {
    var head := s[..|s| - 1];
    assert s == head + [s[|s| - 1]];
    if |s| > 1 {
      assert Pow10(|s| - 1) == 10 * Pow10(|s| - 2);
      assert Value(s) == Value(head) * 10 + DigitValue(s[|s| - 1]);
      assert Value(head) >= Pow10(|s| - 2);
      ValueRoundTrip(head);
      assert Value(s) / 10 == Value(head);
      assert Value(s) >= 10;
    } else {
      assert head == [];
    }
  }

  /** A printed number followed by a non-digit is delimited by that non-digit. */
  lemma {:induction false} DigitRunDelimited(s: string, rest: string)
    requires AllDigits(s)
    requires rest == [] || !IsDigit(rest[0])
    ensures DigitRun(s + rest) == |s|
  {
    if s == [] {
      assert s + rest == rest;
    } else {
      assert (s + rest)[1..] == s[1..] + rest;
      DigitRunDelimited(s[1..], rest);
    }
  }

  // ----- Digits in character order -----

  /** s comes before t: they first differ at a place where s has the smaller character. */
  predicate ComesBefore(s: string, t: string)
    requires |s| == |t|
  {
    exists k :: 0 <= k < |s| && s[..k] == t[..k] && s[k] < t[k]
  }

  lemma DigitOrder(c: char, d: char)
    requires IsDigit(c) && IsDigit(d)
    ensures DigitValue(c) < DigitValue(d) <==> c < d
  {
  }

  /** Digit texts of one length are ordered by value as they are by character: '0' is 0 and '9' is 9. */
  lemma {:induction false} ValueOrder(s: string, t: string)
    requires AllDigits(s) && AllDigits(t) && |s| == |t|
    ensures Value(s) < Value(t) <==> ComesBefore(s, t)
    ensures Value(s) == Value(t) <==> s == t
  {
    hide DigitValue;
    if s != [] {
      var n := |s| - 1;
      ValueOrder(s[..n], t[..n]);
      DigitOrder(s[n], t[n]);
      DigitOrder(t[n], s[n]);
      assert s == s[..n] + [s[n]] && t == t[..n] + [t[n]];
      FrontComesBefore(s, t);
    }
  }

  lemma FrontComesBefore(s: string, t: string)
    requires |s| == |t| > 0
    ensures var n := |s| - 1;
            ComesBefore(s, t) <==> ComesBefore(s[..n], t[..n]) || (s[..n] == t[..n] && s[n] < t[n])
  {
    var n := |s| - 1;
    forall k | 0 <= k < n
      ensures s[..n][..k] == s[..k] && t[..n][..k] == t[..k]
    {
    }
    if ComesBefore(s[..n], t[..n]) {
      var k :| 0 <= k < n && s[..n][..k] == t[..n][..k] && s[..n][k] < t[..n][k];
      assert s[..k] == t[..k] && s[k] < t[k];
    }
    if ComesBefore(s, t) {
      var k :| 0 <= k < |s| && s[..k] == t[..k] && s[k] < t[k];
      if k < n {
        assert s[..n][..k] == t[..n][..k] && s[..n][k] < t[..n][k];
      }
    }
  }
}
