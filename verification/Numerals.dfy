/** Decimal numerals, printed and read. */
module Numerals {
  import opened Text

  function Digit(d: nat): char
    requires d < 10
  {
    '0' + d as char
  }

  function Decimal(n: nat): string {
    (if n < 10 then "" else Decimal(n / 10)) + [Digit(n % 10)]
  }

  predicate AllDigits(s: string) { forall c :: c in s ==> IsDigit(c) }

  /** Number(s) for a run of digits. */
  function Value(s: string): nat
    requires AllDigits(s)
  {
    if s == "" then 0
    else
      assert s[|s| - 1] in s;
      Value(s[..|s| - 1]) * 10 + (s[|s| - 1] - '0') as nat
  }

  lemma {:induction false} ValueOfDecimal(n: nat)
    ensures Decimal(n) != "" && AllDigits(Decimal(n)) && Value(Decimal(n)) == n
    ensures Decimal(n)[0] == '0' ==> n == 0
  {
    var s := Decimal(n);
    if n >= 10 {
      ValueOfDecimal(n / 10);
      assert s[..|s| - 1] == Decimal(n / 10);
    }
  }

  /** One more digit, printed and read. */
  lemma DecimalSnoc(front: nat, c: char)
    requires IsDigit(c)
    ensures Decimal(front * 10 + (c - '0') as nat) == (if front == 0 then "" else Decimal(front)) + [c]
  {
    var n := front * 10 + (c - '0') as nat;
    assert n / 10 == front && n % 10 == (c - '0') as nat;
    assert Digit(n % 10) == c;
  }

  lemma ValueSnoc(front: string, c: char)
    requires AllDigits(front) && IsDigit(c)
    ensures AllDigits(front + [c]) && Value(front + [c]) == Value(front) * 10 + (c - '0') as nat
  {
    assert (front + [c])[..|front|] == front;
  }

  /** A padding-free run of digits is the print of its value. */
  lemma {:induction false} DecimalOfValue(s: string)
    requires s != "" && AllDigits(s) && (|s| > 1 ==> s[0] != '0')
    ensures Decimal(Value(s)) == s && (s[0] != '0' ==> Value(s) >= 1)
  {
    hide Decimal, Value;
    var front, c := s[..|s| - 1], s[|s| - 1];
    assert c in s && s == front + [c];
    assert AllDigits(front) by { assert forall d :: d in front ==> d in s; }
    ValueSnoc(front, c);
    DecimalSnoc(Value(front), c);
    if front != "" {
      assert front[0] == s[0];
      DecimalOfValue(front);
    } else {
      ValueOfNothing();
    }
  }

  lemma ValueOfNothing()
    ensures Value("") == 0
  {}

  lemma DecimalLength(n: nat)
    requires n < 256
    ensures |Decimal(n)| <= 3
  {
    var tens, hundreds := n / 10, n / 10 / 10;
    assert hundreds < 3 && |Decimal(hundreds)| == 1;
    assert |Decimal(tens)| <= 2;
  }
}
