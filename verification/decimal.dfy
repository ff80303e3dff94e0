/** Decimal numbers as strconv prints and parses them. */
module Decimal {
  import opened Wrappers

  predicate IsDigit(c: char) {
    '0' <= c <= '9'
  }

  predicate AllDigits(s: string) {
    forall i | 0 <= i < |s| :: IsDigit(s[i])
  }

  function DigitOf(d: nat): (c: char)
    requires d < 10
    ensures IsDigit(c) && ValueOf(c) == d
  {
    '0' + d as char
  }

  function ValueOf(c: char): nat
    requires IsDigit(c)
  {
    (c - '0') as nat
  }

  /** strconv.Itoa of a number that is not negative. */
  function Itoa(n: nat): (s: string)
    ensures |s| > 0 && AllDigits(s)
  {
    if n < 10 then [DigitOf(n)] else Itoa(n / 10) + [DigitOf(n % 10)]
  }

  /** The number a string of digits stands for; leading zeros do not matter. */
  function Value(s: string): nat
    requires AllDigits(s)
  {
    if s == [] then 0 else 10 * Value(s[..|s| - 1]) + ValueOf(s[|s| - 1])
  }

  /** strconv.ParseUint(s, 10, _) with the largest number that fits. */
  function ParseUint(s: string, max: nat): Option<nat> {
    if s == [] || !AllDigits(s) || Value(s) > max then None else Some(Value(s))
  }

  lemma {:induction false} ValueOfItoa(n: nat)
    ensures Value(Itoa(n)) == n
  {
    if n < 10 {
      assert Itoa(n)[..0] == [];
    } else {
      ValueOfItoa(n / 10);
      var s := Itoa(n);
      assert s[..|s| - 1] == Itoa(n / 10) && s[|s| - 1] == DigitOf(n % 10);
    }
  }

  /** Printing a number and parsing the text gives the number, or an error when it does not fit. */
  lemma ParseUndoesItoa(n: nat, max: nat)
    ensures ParseUint(Itoa(n), max) == if n <= max then Some(n) else None
  {
    ValueOfItoa(n);
  }

  lemma ItoaInjective(n: nat, m: nat)
    requires Itoa(n) == Itoa(m)
    ensures n == m
  {
    ValueOfItoa(n);
    ValueOfItoa(m);
  }

  /** Port numbers take at most five digits. */
  lemma PortLength(n: nat)
    requires n <= 65535
    ensures |Itoa(n)| <= 5
  {
    assert n / 10 / 10 / 10 / 10 < 10;
    assert |Itoa(n)| <= 1 + |Itoa(n / 10)|;
    assert |Itoa(n / 10)| <= 1 + |Itoa(n / 10 / 10)|;
    assert |Itoa(n / 10 / 10)| <= 1 + |Itoa(n / 10 / 10 / 10)|;
    assert |Itoa(n / 10 / 10 / 10)| <= 1 + |Itoa(n / 10 / 10 / 10 / 10)|;
  }
}
