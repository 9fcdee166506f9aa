/** Decimal text of the numbers carried by records and IRC lines. */
module Numbers {
  import opened Text

  predicate IsDigit(c: char) {
    '0' <= c <= '9'
  }

  /** Only digits, and at least one. */
  predicate Digits(s: string) {
    s != "" && forall i :: 0 <= i < |s| ==> IsDigit(s[i])
  }

  function Digit(d: nat): (c: char)
    requires d < 10
    ensures IsDigit(c) && c as int - '0' as int == d
  {
    ('0' as int + d) as char
  }

  function DigitVal(c: char): (d: nat)
    requires IsDigit(c)
    ensures d < 10 && Digit(d) == c
  {
    c as int - '0' as int
  }

  /** The number a run of digits stands for. */
  function Val(s: string): nat
    requires forall i :: 0 <= i < |s| ==> IsDigit(s[i])
  {
    if s == "" then 0 else 10 * Val(s[..|s| - 1]) + DigitVal(s[|s| - 1])
  }

  /** A number as text, without leading zeros. */
  function Dec(n: nat): (s: string)
    ensures Digits(s)
  {
    if n < 10 then [Digit(n)] else Dec(n / 10) + [Digit(n % 10)]
  }

  lemma {:induction false} DecRoundTrip(n: nat)
    ensures Val(Dec(n)) == n
  {
    if n < 10 {
      assert Dec(n)[..0] == "";
    } else {
      DecRoundTrip(n / 10);
      assert Dec(n)[..|Dec(n)| - 1] == Dec(n / 10);
    }
  }

  function Pow10(k: nat): (p: nat)
    ensures p >= 1
  {
    if k == 0 then 1 else 10 * Pow10(k - 1)
  }

  lemma {:induction false} DecLength(n: nat, k: nat)
    requires k >= 1
    ensures n < Pow10(k) <==> |Dec(n)| <= k
  {
    assert Pow10(1) == 10 * Pow10(0);
    if k == 1 {
      if n >= 10 {
        assert |Dec(n)| == |Dec(n / 10)| + 1;
      }
    } else {
      DecLength(n / 10, k - 1);
      assert n < 10 ==> n < 10 * Pow10(k - 1);
    }
  }

  lemma {:induction false} ValBound(s: string)
    requires forall i :: 0 <= i < |s| ==> IsDigit(s[i])
    ensures Val(s) < Pow10(|s|)
  {
    if s != "" {
      ValBound(s[..|s| - 1]);
    }
  }

  /** parse_ll: 1 to 18 digits. */
  function ParseLL(s: string): Option<nat> {
    if Digits(s) && |s| <= 18 then Some(Val(s)) else None
  }

  /** A text stands for a number: one to 18 digits. */
  predicate Denotes(s: string, n: int) {
    Digits(s) && |s| <= 18 && Val(s) == n
  }

  lemma ParseDec(n: nat)
    requires n < Pow10(18)
    ensures ParseLL(Dec(n)) == Some(n)
  {
    DecRoundTrip(n);
    DecLength(n, 18);
  }

  lemma {:induction false} PowRises(j: nat, k: nat)
    requires j <= k
    ensures Pow10(j) <= Pow10(k)
  {
    if j < k {
      PowRises(j, k - 1);
    }
  }

  lemma ParsedBound(s: string)
    requires ParseLL(s).Some?
    ensures ParseLL(s).value < Pow10(18)
  {
    ValBound(s);
    PowRises(|s|, 18);
  }
}
