/** Numbers written in decimal, and read back. */
module Decimals {
  import opened LexSpec
  import opened Wrappers

  /** A number in decimal digits, without leading zeros. */
  function Decimal(v: nat): (s: string)
    ensures |s| > 0
  {
    if v < 10 then ["0123456789"[v]] else Decimal(v / 10) + ["0123456789"[v % 10]]
  }

  lemma DigitOf(d: nat)
    requires d < 10
    ensures IsDigit("0123456789"[d]) && DigitVal("0123456789"[d]) == d
  {}

  lemma {:induction false} DecimalValue(v: nat)
    ensures Digits(Decimal(v)) && DecVal(Decimal(v)) == v
  {
    var s := Decimal(v);
    DigitOf(v % 10);
    if v < 10 {
      assert s[..0] == "";
    } else {
      DecimalValue(v / 10);
      assert s[..|s| - 1] == Decimal(v / 10);
    }
  }

  // ---------- Reading from left to right ----------

  predicate StartsWithDigit(s: string) {
    |s| > 0 && '0' <= s[0] <= '9'
  }

  /** The digits at the front of the text continue the number `n`. */
  function TakeDigits(s: string, n: nat): (r: (nat, string))
    ensures |r.1| <= |s|
  {
    if StartsWithDigit(s) then TakeDigits(s[1..], 10 * n + (s[0] as int - '0' as int)) else (n, s)
  }

  /** The number at the front of the text: one digit, or several of which the first is not 0. */
  function TakeNumber(s: string): (r: Option<(nat, string)>)
    ensures r.Some? ==> |r.value.1| < |s|
  {
    if !StartsWithDigit(s) then None
    else if s[0] == '0' then if StartsWithDigit(s[1..]) then None else Some((0, s[1..]))
    else Some(TakeDigits(s[1..], s[0] as int - '0' as int))
  }

  lemma {:induction false} DigitsTaken(v: nat, k: string)
    ensures TakeDigits(Decimal(v) + k, 0) == TakeDigits(k, v)
    decreases v
  {
    var d := ["0123456789"[v % 10]];
    assert (d + k)[1..] == k;
    if v >= 10 {
      assert Decimal(v) + k == Decimal(v / 10) + (d + k);
      DigitsTaken(v / 10, d + k);
    }
  }

  lemma {:induction false} NoLeadingZero(v: nat)
    ensures '0' <= Decimal(v)[0] <= '9' && (Decimal(v)[0] == '0' <==> v == 0)
  {
    if v >= 10 {
      NoLeadingZero(v / 10);
    }
  }

  /** A number is read back from its decimal form, whatever follows that is not a digit. */
  lemma NumberTaken(v: nat, k: string)
    requires !StartsWithDigit(k)
    ensures TakeNumber(Decimal(v) + k) == Some((v, k))
  {
    NoLeadingZero(v);
    DigitsTaken(v, k);
    if v == 0 {
      assert ("0" + k)[1..] == k;
    } else {
      hide Decimal;
      assert (Decimal(v) + k)[0] == Decimal(v)[0];
    }
  }
}
