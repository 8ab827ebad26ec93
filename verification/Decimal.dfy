/** What printf writes for `%d` on a non-negative number. */
module Decimal {
  import opened CText

  predicate Digits(s: string) {
    forall i :: 0 <= i < |s| ==> Digit(s[i])
  }

  function Dec(n: nat): (r: string)
    ensures r != "" && Digits(r)
  {
    var digit := ['0' + (n % 10) as char];
    if n < 10 then digit else Dec(n / 10) + digit
  }

  /** Digits read in base ten. */
  function Value(s: string): nat
    requires Digits(s)
  {
    if s == "" then 0 else
    var n := |s| - 1;
    Value(s[..n]) * 10 + (s[n] as int - '0' as int)
  }

  /** The numeral of `n` reads as `n` and has no leading zero. */
  lemma {:induction false} DecReads(n: nat)
    ensures Value(Dec(n)) == n && (Dec(n)[0] == '0' <==> n == 0)
  {
    var digit := '0' + (n % 10) as char;
    if n < 10 {
      assert [digit][..0] == "";
    } else {
      DecReads(n / 10);
      var front := Dec(n / 10);
      assert Dec(n) == front + [digit] && Dec(n)[..|front|] == front;
    }
  }

  /** So no two numbers have the same numeral. */
  lemma DecDiffers(m: nat, n: nat)
    requires Dec(m) == Dec(n)
    ensures m == n
  {
    DecReads(m);
    DecReads(n);
  }
}
