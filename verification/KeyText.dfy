/** Composite string keys: what a colon-separated key tells apart. */
module KeyText {

  predicate Has(s: string, c: char) {
    exists i :: 0 <= i < |s| && s[i] == c
  }

  /** The part after the last separator is decided by the whole string. */
  lemma LastPartUnique(a: string, x: string, b: string, y: string, sep: char)
    requires !Has(x, sep) && !Has(y, sep)
    requires a + [sep] + x == b + [sep] + y
    ensures a == b && x == y
  {
    var s := a + [sep] + x;
    assert s[|a|] == sep && (b + [sep] + y)[|b|] == sep;
    assert forall k :: |a| < k < |s| ==> s[k] == x[k - |a| - 1];
    assert forall k :: |b| < k < |s| ==> s[k] == (b + [sep] + y)[k] == y[k - |b| - 1];
    assert a == s[..|a|] && b == (b + [sep] + y)[..|b|];
    assert x == s[|a| + 1..] && y == (b + [sep] + y)[|b| + 1..];
  }

  const DIGITS := ['0', '1', '2', '3', '4', '5', '6', '7', '8', '9']

  function DigitChar(d: nat): char
    requires d < 10
  {
    DIGITS[d]
  }

  function DecimalNat(n: nat): string {
    if n < 10 then [DigitChar(n)] else DecimalNat(n / 10) + [DigitChar(n % 10)]
  }

  /** Python's `str(int)`. */
  function Decimal(n: int): string {
    if n < 0 then ['-'] + DecimalNat(-n) else DecimalNat(n)
  }

  lemma {:induction false} DecimalNatPlain(n: nat)
    ensures DecimalNat(n) != [] && forall i :: 0 <= i < |DecimalNat(n)| ==> DecimalNat(n)[i] in DIGITS
  {
    if n >= 10 {
      DecimalNatPlain(n / 10);
    }
  }

  lemma DecimalHasNoColon(n: int)
    ensures !Has(Decimal(n), ':')
  {
    DecimalNatPlain(if n < 0 then -n else n);
  }

  lemma DigitInjective(a: nat, b: nat)
    requires a < 10 && b < 10 && DigitChar(a) == DigitChar(b)
    ensures a == b
  {
  }

  lemma {:induction false} DecimalNatInjective(a: nat, b: nat)
    requires DecimalNat(a) == DecimalNat(b)
    ensures a == b
  {
    DecimalNatPlain(a / 10);
    DecimalNatPlain(b / 10);
    var s := DecimalNat(a);
    assert s[|s| - 1] == DigitChar(a % 10) && DecimalNat(b)[|s| - 1] == DigitChar(b % 10);
    DigitInjective(a % 10, b % 10);
    if a >= 10 && b >= 10 {
      assert s[..|s| - 1] == DecimalNat(a / 10) && DecimalNat(b)[..|s| - 1] == DecimalNat(b / 10);
      DecimalNatInjective(a / 10, b / 10);
    }
  }

  lemma DecimalInjective(a: int, b: int)
    requires Decimal(a) == Decimal(b)
    ensures a == b
  {
    DecimalNatPlain(if a < 0 then -a else a);
    DecimalNatPlain(if b < 0 then -b else b);
    assert (Decimal(a)[0] == '-' <==> a < 0) && (Decimal(b)[0] == '-' <==> b < 0);
    if a < 0 && b < 0 {
      assert Decimal(a)[1..] == DecimalNat(-a) && Decimal(b)[1..] == DecimalNat(-b);
      DecimalNatInjective(-a, -b);
    } else if a >= 0 && b >= 0 {
      DecimalNatInjective(a, b);
    }
  }
}
