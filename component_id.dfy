/**
 * Per-instance ids of sl-dialog: a process-wide counter, incremented before use, gives each
 * new dialog the id "dialog-" followed by the new counter value written in decimal.
 */
module ComponentIds {

  /** The character of one decimal digit. */
  function DigitChar(d: nat): char
    requires d < 10
  {
    (d + 48) as char
  }

  predicate IsDigit(c: char) {
    '0' <= c <= '9'
  }

  predicate IsDecimal(s: string) {
    forall i :: 0 <= i < |s| ==> IsDigit(s[i])
  }

  /** The decimal spelling of n, as a JavaScript template literal renders a non-negative integer. */
  function Decimal(n: nat): (s: string)
    decreases n
    ensures |s| >= 1 && IsDecimal(s)
    ensures (s[0] == '0') == (n == 0)
  {
    if n < 10 then [DigitChar(n)] else Decimal(n / 10) + [DigitChar(n % 10)]
  }

  /** The value of a string of decimal digits (the inverse of Decimal). */
  function DecimalValue(s: string): nat
    requires IsDecimal(s)
  {
    if s == [] then 0 else DecimalValue(s[..|s| - 1]) * 10 + (s[|s| - 1] as int - 48)
  }

  lemma {:induction false} DecimalRoundTrip(n: nat)
    ensures DecimalValue(Decimal(n)) == n
    decreases n
  {
    var s := Decimal(n);
    if n >= 10 {
      DecimalRoundTrip(n / 10);
      assert s[..|s| - 1] == Decimal(n / 10);
    }
  }

  /** The id of the dialog created when the counter reaches n. */
  function ComponentId(n: nat): string {
    "dialog-" + Decimal(n)
  }

  /** Two counter values give the same id only if they are equal. */
  lemma ComponentIdInjective(m: nat, n: nat)
    ensures ComponentId(m) == ComponentId(n) <==> m == n
  {
    if ComponentId(m) == ComponentId(n) {
      assert Decimal(m) == ComponentId(m)[7..];
      assert Decimal(n) == ComponentId(n)[7..];
      DecimalRoundTrip(m);
      DecimalRoundTrip(n);
    }
  }

  /** The module-level `id` counter, shared by every dialog of the page. */
  class IdCounter {
    var last: nat

    constructor ()
      ensures last == 0
    {
      last := 0;
    }

    /** `++id`: increments the counter and yields the new value. */
    method Next() returns (n: nat)
      modifies this
      ensures last == old(last) + 1 && n == last
    {
      last := last + 1;
      n := last;
    }
  }
}
