/** Decimal notation, as strconv reads and writes it. */
module Decimal {

  type Text = seq<char>

  predicate IsDigit(c: char) {
    '0' <= c <= '9'
  }

  predicate AllDigits(s: Text) {
    s != [] && forall i :: 0 <= i < |s| ==> IsDigit(s[i])
  }

  function DigitValue(c: char): (d: int)
    requires IsDigit(c)
    ensures 0 <= d < 10
  {
    c as int - '0' as int
  }

  function DecimalValue(s: Text): nat
    requires forall i :: 0 <= i < |s| ==> IsDigit(s[i])
  {
    if s == [] then 0 else 10 * DecimalValue(s[..|s| - 1]) + DigitValue(s[|s| - 1])
  }

  function Itoa(n: nat): Text {
    (if n < 10 then [] else Itoa(n / 10)) + ['0' + (n % 10) as char]
  }

  lemma {:induction false} ItoaDigits(n: nat)
    ensures AllDigits(Itoa(n)) && DecimalValue(Itoa(n)) == n
  {
    if n >= 10 {
      ItoaDigits(n / 10);
      assert Itoa(n)[..|Itoa(n)| - 1] == Itoa(n / 10);
    }
  }

  function Magnitude(n: int): nat {
    if n < 0 then -n else n
  }

  function FormatInt(n: int): Text {
    (if n < 0 then ['-'] else []) + Itoa(Magnitude(n))
  }

  lemma FormatIntInjective(a: int, b: int)
    ensures FormatInt(a) == FormatInt(b) ==> a == b
  {
    ItoaDigits(Magnitude(a));
    ItoaDigits(Magnitude(b));
    if FormatInt(a) == FormatInt(b) {
      assert a < 0 <==> FormatInt(a)[0] == '-';
      assert b < 0 <==> FormatInt(b)[0] == '-';
      var sign := if a < 0 then 1 else 0;
      assert FormatInt(a)[sign..] == Itoa(Magnitude(a));
      assert FormatInt(b)[sign..] == Itoa(Magnitude(b));
    }
  }

  lemma {:induction false} ItoaShort(n: nat)
    ensures |Itoa(n)| <= n / 10 + 2
  {
    if n >= 10 {
      ItoaShort(n / 10);
    }
  }
}
