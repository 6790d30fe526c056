/** Decimal numbers as user/lib/stdio.c prints and reads them. */
module Numbers {

  const INT_BOUND: int := 0x8000_0000

  predicate IsInt(x: int) {
    -INT_BOUND <= x < INT_BOUND
  }

  /** The value of a 32-bit `int` after an operation with result `x`, if overflow wraps around. The C
      standard leaves that open: `InRangeIff` tells for which inputs it matters. */
  function Wrap(x: int): (r: int)
    ensures IsInt(r) && (IsInt(x) ==> r == x)
  {
    (x + INT_BOUND) % 0x1_0000_0000 - INT_BOUND
  }

  /** Division of C, towards zero. */
  function Quotient(a: int, b: int): int
    requires b > 0
  {
    if a >= 0 then a / b else -((-a) / b)
  }

  predicate IsDigit(c: char) {
    '0' <= c <= '9'
  }

  function Digit(d: nat): (c: char)
    requires d < 10
    ensures IsDigit(c)
  {
    ['0', '1', '2', '3', '4', '5', '6', '7', '8', '9'][d]
  }

  function DigitValue(c: char): (d: nat)
    requires IsDigit(c)
    ensures d < 10
  {
    (c as int) - ('0' as int)
  }

  ghost predicate AllDigits(s: seq<char>) {
    forall i | 0 <= i < |s| :: IsDigit(s[i])
  }

  // ----- Printing -----

  function Digits(n: nat): (s: seq<char>)
    ensures |s| > 0 && AllDigits(s)
  {
    if n < 10 then [Digit(n)] else Digits(n / 10) + [Digit(n % 10)]
  }

  /** What `%d` prints. */
  function Decimal(i: int): (s: seq<char>)
    ensures |s| > 0
  {
    if i < 0 then ['-'] + Digits(-i) else Digits(i)
  }

  // ----- Reading -----

  /** The loop of `%d` in `vsscanf`, from the last digit to the first: the value so far and the weight `j`. */
  function ReadDigits(s: seq<char>): (pj: (int, int))
    requires AllDigits(s)
  {
    if s == [] then (0, 1)
    else
      var (p, j) := ReadDigits(s[1..]);
      var j' := Wrap(j * 10);
      (Wrap(p + DigitValue(s[0]) * Quotient(j', 10)), j')
  }

  /** What the digits mean. */
  function Number(s: seq<char>): nat
    requires AllDigits(s)
  {
    if s == [] then 0 else Number(s[..|s| - 1]) * 10 + DigitValue(s[|s| - 1])
  }

  function Pow10(k: nat): (p: nat)
    ensures p > 0
  {
    if k == 0 then 1 else 10 * Pow10(k - 1)
  }

  lemma {:induction false} NumberOfDigits(n: nat)
    ensures Number(Digits(n)) == n
  {
    if n >= 10 {
      NumberOfDigits(n / 10);
      assert Digits(n)[..|Digits(n)| - 1] == Digits(n / 10);
    } else {
      assert Digits(n)[..0] == [];
    }
  }

  lemma TenTimesProduct(d: nat, w: nat)
    ensures d * (10 * w) == 10 * (d * w)
  {
  }

  /** The first digit weighs ten to the number of the others. */
  lemma {:induction false} NumberFromFront(s: seq<char>)
    requires AllDigits(s) && s != []
    ensures Number(s) == DigitValue(s[0]) * Pow10(|s| - 1) + Number(s[1..])
    decreases |s|
  {
    if |s| > 1 {
      var t := s[..|s| - 1];
      NumberFromFront(t);
      assert s[1..][..|s| - 2] == t[1..];
      TenTimesProduct(DigitValue(s[0]), Pow10(|t| - 1));
    } else {
      assert s[..0] == [] && s[1..] == [];
    }
  }

  lemma {:induction false} NumberBound(s: seq<char>)
    requires AllDigits(s)
    ensures Number(s) < Pow10(|s|)
  {
    if s != [] {
      NumberBound(s[..|s| - 1]);
    }
  }

  lemma {:induction false} Pow10Monotone(a: nat, b: nat)
    requires a <= b
    ensures Pow10(a) <= Pow10(b)
  {
    if a < b {
      Pow10Monotone(a, b - 1);
    }
  }

  lemma TenTimes(x: nat)
    ensures Quotient(x * 10, 10) == x
  {
  }

  /** Up to nine digits are read as what they mean, with no overflow. */
  lemma {:induction false} NineDigitsRead(s: seq<char>)
    requires AllDigits(s) && |s| <= 9
    ensures ReadDigits(s) == (Number(s), Pow10(|s|))
  {
    assert Pow10(9) == 1000000000;
    if s != [] {
      var rest := s[1..];
      NineDigitsRead(rest);
      NumberFromFront(s);
      NumberBound(s);
      Pow10Monotone(|s|, 9);
      var w := Pow10(|rest|);
      assert Pow10(|s|) == w * 10;
      TenTimes(w);
    }
  }

  /** Reading these digits never leaves the range of `int`. */
  predicate StaysInRange(s: seq<char>)
    requires AllDigits(s)
  {
    s == [] ||
    (StaysInRange(s[1..]) &&
     var (p, j) := ReadDigits(s[1..]);
     IsInt(j * 10) && IsInt(DigitValue(s[0]) * Quotient(j * 10, 10)) && IsInt(p + DigitValue(s[0]) * Quotient(j * 10, 10)))
  }

  /** What `%d` reads is defined by the C standard for nine digits and fewer only, leading zeros included. */
  lemma {:induction false} InRangeIff(s: seq<char>)
    requires AllDigits(s)
    ensures StaysInRange(s) <==> |s| <= 9
  {
    if s != [] {
      InRangeIff(s[1..]);
      if |s| <= 9 {
        NineDigitsRead(s[1..]);
        NumberFromFront(s);
        NumberBound(s);
        Pow10Monotone(|s|, 9);
        assert Pow10(9) == 1000000000 && Pow10(|s|) == Pow10(|s| - 1) * 10;
        TenTimes(Pow10(|s| - 1));
      } else if |s| == 10 {
        NineDigitsRead(s[1..]);
        assert Pow10(9) == 1000000000;
      }
    }
  }

  lemma {:induction false} LengthOfDigits(n: nat, k: nat)
    requires k > 0
    ensures |Digits(n)| <= k <==> n < Pow10(k)
  {
    if n < 10 {
      Pow10Monotone(1, k);
    } else if k > 1 {
      LengthOfDigits(n / 10, k - 1);
    } else {
      assert Pow10(1) == 10;
    }
  }

  /** If overflow wraps around, a tenth digit from the end gets the wrong weight: 10^10 does not fit `j`. */
  lemma TenthDigitWeight(s: seq<char>)
    requires AllDigits(s) && |s| == 10
    ensures ReadDigits(s).0 == Wrap(Number(s[1..]) + DigitValue(s[0]) * 141006540)
  {
    NineDigitsRead(s[1..]);
    assert Pow10(9) == 1000000000;
    assert Quotient(Wrap(1000000000 * 10), 10) == 141006540;
  }

  lemma WrongWeight(d: nat, m: nat)
    requires 0 < d && m < 1000000000 && d * 1000000000 + m < INT_BOUND
    ensures Wrap(m + d * 141006540) != d * 1000000000 + m
  {
    assert d == 1 || d == 2;
  }

  /** If overflow wraps around, no number of ten digits is read back. */
  lemma TenDigitsMisread(n: nat)
    requires 1000000000 <= n < INT_BOUND
    ensures ReadDigits(Digits(n)).0 != n
  {
    var s := Digits(n);
    TenDigitsLong(n);
    NumberFromFront(s);
    NumberOfDigits(n);
    NumberBound(s[1..]);
    TenthDigitWeight(s);
    WrongWeight(DigitValue(s[0]), Number(s[1..]));
  }

  lemma TenDigitsLong(n: nat)
    requires 1000000000 <= n < INT_BOUND
    ensures |Digits(n)| == 10 && Pow10(9) == 1000000000
  {
    assert Pow10(9) == 1000000000 && Pow10(10) == 10000000000;
    LengthOfDigits(n, 9);
    LengthOfDigits(n, 10);
  }

  /** If overflow wraps around, printing a number and reading its digits gives the number exactly if it
      has at most nine digits. */
  lemma DigitsRoundTripIff(n: nat)
    requires n < INT_BOUND
    ensures ReadDigits(Digits(n)).0 == n <==> n < 1000000000
  {
    assert Pow10(9) == 1000000000;
    LengthOfDigits(n, 9);
    if n < 1000000000 {
      NineDigitsRead(Digits(n));
      NumberOfDigits(n);
    } else {
      TenDigitsMisread(n);
    }
  }
}
