/** Decimal texts of integers, as `str` writes them. */
module Decimals {

  function Digits(n: nat): string {
    if n < 10 then [('0' as int + n) as char] else Digits(n / 10) + [('0' as int + n % 10) as char]
  }

  /** `str(n)`. */
  function IntText(n: int): string {
    if n < 0 then "-" + Digits(-n) else Digits(n)
  }

  predicate IsDigit(c: char) { '0' <= c <= '9' }

  predicate AllDigits(s: string) {
    forall c | c in s :: IsDigit(c)
  }

  /** `int(s)` of a text of digits, with the empty text read as 0. */
  function ValueOf(s: string): int
    decreases |s|
  {
    if s == "" then 0 else ValueOf(s[..|s| - 1]) * 10 + (s[|s| - 1] as int - '0' as int)
  }

  lemma {:induction false} DigitsAreDigits(n: nat)
    ensures Digits(n) != "" && AllDigits(Digits(n))
  {
    if n >= 10 { DigitsAreDigits(n / 10); }
  }

  lemma {:induction false} DigitsReadBack(n: nat)
    ensures ValueOf(Digits(n)) == n
  {
    var d := Digits(n);
    if n < 10 {
      assert d[..0] == "";
    } else {
      DigitsReadBack(n / 10);
      assert d[..|d| - 1] == Digits(n / 10);
    }
  }

  lemma IntTextInjective(a: int, b: int)
    ensures IntText(a) == IntText(b) ==> a == b
    ensures IntText(a) != ""
  {
    var p, q := if a < 0 then -a else a, if b < 0 then -b else b;
    DigitsReadBack(p);
    DigitsReadBack(q);
    DigitsAreDigits(p);
    DigitsAreDigits(q);
    assert Digits(p)[0] in Digits(p) && Digits(q)[0] in Digits(q);
    assert ("-" + Digits(p))[0] == '-' && ("-" + Digits(q))[0] == '-';
    assert ("-" + Digits(p))[1..] == Digits(p) && ("-" + Digits(q))[1..] == Digits(q);
  }
}
