// 64-bit numbers travel as canonical decimal text.
module Numerals {
  import opened Commons

  predicate Digit(c: char) { '0' <= c <= '9' }

  // str(n).
  function Decimal(n: nat): (s: string)
    ensures s != ""
  {
    (if n < 10 then "" else Decimal(n / 10)) + [('0' as int + n % 10) as char]
  }

  // "0", or digits that do not start with one.
  predicate Numeral(s: string) {
    s == "0" || (s != "" && s[0] != '0' && forall c <- s :: Digit(c))
  }

  function Value(s: string): nat
    requires forall c <- s :: Digit(c)
  {
    if s == "" then 0
    else
      var last := s[|s| - 1];
      assert Digit(last);
      10 * Value(s[..|s| - 1]) + (last as int - '0' as int)
  }

  function ParseInterruptDeadline(text: string): Option<nat> {
    if |text| > 20 || !Numeral(text) then None
    else if 0 < Value(text) < TWO_64 then Some(Value(text)) else None
  }

  // The invalid-handle value is all ones in the pointer width.
  function ParseNativeHandle(text: string, limit: nat): Option<nat> {
    if !Numeral(text) || |text| > 20 then None
    else if !(0 < Value(text) < limit) || Value(text) == limit - 1 then None
    else Some(Value(text))
  }

  lemma {:induction false} ValueOfDecimal(n: nat)
    ensures Numeral(Decimal(n)) && Value(Decimal(n)) == n
    ensures n > 0 ==> Decimal(n)[0] != '0'
  {
    var s := Decimal(n);
    if n >= 10 {
      ValueOfDecimal(n / 10);
      var front := Decimal(n / 10);
      assert s[..|s| - 1] == front && s[0] == front[0] && front[0] != '0';
      DecimalExtends(front, n);
    } else {
      assert s[..0] == "";
    }
  }

  // One digit more.
  lemma DecimalExtends(front: string, n: nat)
    requires Numeral(front) && front[0] != '0' && Value(front) == n / 10
    ensures var s := front + [('0' as int + n % 10) as char];
      Numeral(s) && Value(s) == n && s[0] != '0'
  {
    var s := front + [('0' as int + n % 10) as char];
    assert s[..|s| - 1] == front && Digit(s[|s| - 1]);
  }

  lemma {:induction false} DecimalOfValue(s: string)
    requires Numeral(s)
    ensures Decimal(Value(s)) == s
  {
    var front := s[..|s| - 1];
    if |s| == 1 {
      assert Value(front) == 0;
      assert s[0] in s && Value(s) == s[0] as int - '0' as int;
      assert Decimal(Value(s)) == "" + [s[0]];
    } else {
      assert Numeral(front);
      DecimalOfValue(front);
      assert front[0] != '0';
      PositiveValue(front);
      LastDigit(s);
      assert s == front + [s[|s| - 1]];
    }
  }

  lemma LastDigit(s: string)
    requires s != "" && forall c <- s :: Digit(c)
    ensures Value(s) / 10 == Value(s[..|s| - 1]) && Value(s) % 10 == s[|s| - 1] as int - '0' as int
  {
    assert s[|s| - 1] in s;
  }

  lemma {:induction false} PositiveValue(s: string)
    requires Numeral(s) && s != "0"
    ensures Value(s) > 0
  {
    if |s| > 1 {
      assert s[..|s| - 1][0] == s[0] && Numeral(s[..|s| - 1]);
      PositiveValue(s[..|s| - 1]);
      assert s[|s| - 1] in s;
    } else {
      assert s[0] in s && s == [s[0]];
    }
  }

  function Pow10(k: nat): nat {
    if k == 0 then 1 else 10 * Pow10(k - 1)
  }

  lemma {:induction false} DecimalLength(n: nat, k: nat)
    requires k >= 1 && n < Pow10(k)
    ensures |Decimal(n)| <= k
  {
    if n >= 10 {
      DecimalLength(n / 10, k - 1);
    }
  }

  lemma TwentyDigits(n: nat)
    requires n < TWO_64
    ensures |Decimal(n)| <= 20
  {
    assert Pow10(5) == 100000;
    assert Pow10(10) == 100000 * 100000;
    assert Pow10(15) == 100000 * 100000 * 100000;
    assert Pow10(20) == 100000 * 100000 * 100000 * 100000;
    DecimalLength(n, 20);
  }

  // Exactly one text is accepted for each number in range, and nothing else.
  lemma DeadlineTextIsUnique(text: string, n: nat)
    ensures ParseInterruptDeadline(text) == Some(n) <==> text == Decimal(n) && 0 < n < TWO_64
  {
    if Numeral(text) { DecimalOfValue(text); }
    ValueOfDecimal(n);
    if n < TWO_64 { TwentyDigits(n); }
  }

  lemma HandleTextIsUnique(text: string, limit: nat, n: nat)
    requires limit <= TWO_64
    ensures ParseNativeHandle(text, limit) == Some(n) <==> text == Decimal(n) && 0 < n < limit - 1
  {
    if Numeral(text) { DecimalOfValue(text); }
    ValueOfDecimal(n);
    if n < TWO_64 { TwentyDigits(n); }
  }
}
