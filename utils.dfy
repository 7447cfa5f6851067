/**
 * utils/errors.go: `ErrorPanic` and `GetNumberFirstDigits`, together with the
 * two pieces of `strconv` the latter is built from (`Itoa` and `Atoi`).
 *
 * A Go panic is modelled in two ways.  `ErrorPanic` returns a `Control` value
 * that says whether it panics.  `GetNumberFirstDigits` is only defined where
 * it does not panic: its precondition is exactly "the slice is in bounds and
 * the `ErrorPanic` call after `Atoi` continues".
 */
module Utils {
  import opened Errors

  /** What a call that may panic does. */
  datatype Control = Continue | Panic(value: Error)

  /** ErrorPanic: panics with `err` if and only if `err` is non-nil. */
  function ErrorPanic(err: Option<Error>): (c: Control)
    ensures c.Panic? <==> err.Some?
    ensures c.Panic? ==> c.value == err.value
  {
    if err.Some? then Panic(err.value) else Continue
  }

  function Pow10(e: nat): (p: nat)
    ensures p >= 1
  {
    if e == 0 then 1 else 10 * Pow10(e - 1)
  }

  predicate IsDigit(c: char) {
    '0' <= c <= '9'
  }

  predicate AllDigits(s: string) {
    forall i :: 0 <= i < |s| ==> IsDigit(s[i])
  }

  function DigitChar(d: nat): (c: char)
    requires d < 10
    ensures IsDigit(c)
  {
    ('0' as int + d) as char
  }

  function DigitValue(c: char): (d: nat)
    requires IsDigit(c)
    ensures d < 10
  {
    c as int - '0' as int
  }

  /** The decimal digits of a natural number, most significant first, without leading zeros. */
  function Decimal(n: nat): (s: string)
    ensures |s| >= 1 && AllDigits(s)
  {
    if n < 10 then [DigitChar(n)] else Decimal(n / 10) + [DigitChar(n % 10)]
  }

  /** strconv.Itoa: an optional minus sign followed by the decimal digits. */
  function Itoa(n: int): (s: string)
    ensures n >= 0 ==> s == Decimal(n)
    ensures n < 0 ==> s == "-" + Decimal(-n)
  {
    if n < 0 then "-" + Decimal(-n) else Decimal(n)
  }

  /** The value of a non-empty string of decimal digits. */
  function ParseDigits(s: string): (n: nat)
    requires AllDigits(s)
  {
    if s == [] then 0 else ParseDigits(s[..|s| - 1]) * 10 + DigitValue(s[|s| - 1])
  }

  /**
   * strconv.Atoi in base 10: an optional sign ('+' or '-') followed by at
   * least one decimal digit; anything else is a syntax error.
   */
  function Atoi(s: string): (r: Result<int>)
    ensures r.Ok? <==> var body := if |s| > 0 && (s[0] == '-' || s[0] == '+') then s[1..] else s;
                        body != [] && AllDigits(body)
  {
    var signed := |s| > 0 && (s[0] == '-' || s[0] == '+');
    var body := if signed then s[1..] else s;
    if body == [] || !AllDigits(body) then
      Err(Internal("strconv.Atoi: parsing \"" + s + "\": invalid syntax"))
    else if s[0] == '-' then
      Ok(0 - ParseDigits(body))
    else
      Ok(ParseDigits(body))
  }

  /** The slice in GetNumberFirstDigits is in bounds and ErrorPanic does not panic. */
  predicate TakesFirstDigits(number: int, digitsAmount: int) {
    && 0 <= digitsAmount <= |Itoa(number)|
    && ErrorPanic(Atoi(Itoa(number)[..digitsAmount]).ErrorOrNil()).Continue?
  }

  /**
   * GetNumberFirstDigits: the number written by the first `digitsAmount`
   * characters of the decimal form of `number`, i.e. `number` with all but
   * its leading digits cut off.
   */
  function GetNumberFirstDigits(number: int, digitsAmount: int): (r: int)
    requires TakesFirstDigits(number, digitsAmount)
    ensures number >= 0 ==> r == number / Pow10(|Itoa(number)| - digitsAmount)
    ensures number < 0 ==> r == -((-number) / Pow10(|Itoa(number)| - digitsAmount))
  {
    var prefix := Itoa(number)[..digitsAmount];
    FirstDigitsValue(number, digitsAmount);
    Atoi(prefix).value
  }

  // ---------------------------------------------------------------------
  // Lemmas about the decimal form
  // ---------------------------------------------------------------------

  lemma MulAtLeast(d: int, x: int)
    requires d > 0 && x >= 1
    ensures d * x >= d
  {
    assert d * x == d * (x - 1) + d;
  }
  lemma DivUnique(n: int, d: int, q: int, r: int)
    requires d > 0 && 0 <= r < d && n == d * q + r
    ensures n / d == q && n % d == r
  {
    var q', r' := n / d, n % d;
    assert n == d * q' + r';
    assert d * (q' - q) == r - r' by {
      assert d * q' + r' == d * q + r;
    }
    if q' > q {
      MulAtLeast(d, q' - q);
    } else if q' < q {
      MulAtLeast(d, q - q');
    }
  }

  /** n with its last e decimal digits cut off. */
  function Cut(n: nat, e: nat): (m: nat)
    ensures m == n / Pow10(e)
  {
    var p := Pow10(e);
    DivNonnegative(n, p);
    n / p
  }

  lemma DivNonnegative(n: nat, d: int)
    requires d > 0
    ensures n / d >= 0
  {
  }

  /** Cutting one digit, then e more, is cutting e + 1 digits. */
  lemma CutTen(n: nat, e: nat)
    ensures Cut(n / 10, e) == Cut(n, e + 1)
  {
    var b := Pow10(e);
    var q, r := n / 10, n % 10;
    var q2, r2 := q / b, q % b;
    var bq := b * q2;
    assert q == bq + r2;
    assert n == 10 * bq + (10 * r2 + r);
    assert Pow10(e + 1) == 10 * b;
    assert (10 * b) * q2 == 10 * bq;
    DivUnique(n, 10 * b, q2, 10 * r2 + r);
  }

  /** Parsing the decimal form gives the number back. */
  lemma {:induction false} ParseDecimal(n: nat)
    ensures ParseDigits(Decimal(n)) == n
  {
    if n >= 10 {
      var s := Decimal(n);
      assert s[..|s| - 1] == Decimal(n / 10);
      ParseDecimal(n / 10);
    }
  }

  /** Itoa and Atoi are inverse: Atoi(Itoa(n)) is n, with no error. */
  lemma AtoiItoa(n: int)
    ensures Atoi(Itoa(n)) == Ok(n)
  {
    if n < 0 {
      assert ("-" + Decimal(-n))[1..] == Decimal(-n);
      ParseDecimal(-n);
    } else {
      assert Decimal(n)[0] != '-' && Decimal(n)[0] != '+';
      ParseDecimal(n);
    }
  }

  /** The leading digit of a positive number is not '0'. */
  lemma {:induction false} LeadingDigit(n: nat)
    requires n >= 1
    ensures Decimal(n)[0] != '0'
  {
    if n >= 10 {
      LeadingDigit(n / 10);
    }
  }

  /** The first k digits of n are the decimal form of n with its last |Decimal(n)| - k digits cut off. */
  lemma {:induction false} DecimalPrefix(n: nat, k: nat)
    requires 1 <= k <= |Decimal(n)|
    ensures Decimal(n)[..k] == Decimal(Cut(n, |Decimal(n)| - k))
  {
    if k < |Decimal(n)| {
      var q := n / 10;
      var m := |Decimal(q)|;
      assert n >= 10;
      assert |Decimal(n)| == m + 1;
      assert Decimal(n)[..k] == Decimal(q)[..k];
      DecimalPrefix(q, k);
      CutTen(n, m - k);
    }
  }

  /** The first k digits of a natural number, parsed. */
  lemma FirstDigitsOfNat(n: nat, k: nat)
    requires 1 <= k <= |Decimal(n)|
    ensures Atoi(Decimal(n)[..k]) == Ok(n / Pow10(|Decimal(n)| - k))
  {
    var e := |Decimal(n)| - k;
    var m := Cut(n, e);
    var x := Decimal(n)[..k];
    DecimalPrefix(n, k);
    assert x == Itoa(m);
    AtoiItoa(m);
    assert Atoi(x) == Ok(m);
  }

  /** The minus sign and the first k - 1 digits of a negative number are the decimal form of a negative number. */
  lemma NegativePrefix(n: int, k: nat)
    requires n < 0 && 2 <= k <= |Itoa(n)|
    ensures Itoa(n)[..k] == Itoa(-((-n) / Pow10(|Itoa(n)| - k)))
  {
    var a: nat := -n;
    var m := Cut(a, |Decimal(a)| - (k - 1));
    assert Itoa(n)[..k] == "-" + Decimal(a)[..k - 1];
    DecimalPrefix(a, k - 1);
    assert Decimal(a)[..k - 1] == Decimal(m);
    LeadingDigit(a);
    assert Decimal(m)[0] != '0';
    assert Decimal(0) == "0";
  }

  /** The minus sign and the first k - 1 digits of a negative number, parsed. */
  lemma FirstDigitsOfNegative(n: int, k: nat)
    requires n < 0 && 2 <= k <= |Itoa(n)|
    ensures Atoi(Itoa(n)[..k]) == Ok(-((-n) / Pow10(|Itoa(n)| - k)))
  {
    var e := |Itoa(n)| - k;
    var r := -((-n) / Pow10(e));
    var x := Itoa(n)[..k];
    NegativePrefix(n, k);
    assert x == Itoa(r);
    AtoiItoa(r);
    assert Atoi(x) == Ok(r);
  }

  /** The value of the first digitsAmount characters of Itoa(number), when Atoi accepts them. */
  lemma FirstDigitsValue(number: int, digitsAmount: int)
    requires TakesFirstDigits(number, digitsAmount)
    ensures number >= 0 ==> Atoi(Itoa(number)[..digitsAmount]) == Ok(number / Pow10(|Itoa(number)| - digitsAmount))
    ensures number < 0 ==> Atoi(Itoa(number)[..digitsAmount]) == Ok(-((-number) / Pow10(|Itoa(number)| - digitsAmount)))
  {
    var k := digitsAmount;
    if number >= 0 {
      FirstDigitsOfNat(number, k);
    } else {
      FirstDigitsOfNegative(number, k);
    }
  }

  /** A number's decimal form has as many digits as its magnitude says. */
  lemma {:induction false} DecimalBounds(n: nat)
    ensures n < Pow10(|Decimal(n)|)
    ensures n >= 1 ==> Pow10(|Decimal(n)| - 1) <= n
  {
    if n >= 10 {
      DecimalBounds(n / 10);
    }
  }

  /** GetNumberFirstDigits panics exactly when fewer than one digit (two characters, for a negative number) is taken, or more characters than Itoa(number) has. */
  lemma FirstDigitsDefinedIff(number: int, digitsAmount: int)
    ensures TakesFirstDigits(number, digitsAmount) <==>
              digitsAmount <= |Itoa(number)| && (if number >= 0 then 1 <= digitsAmount else 2 <= digitsAmount)
  {
    var k := digitsAmount;
    if 0 <= k <= |Itoa(number)| {
      var prefix := Itoa(number)[..k];
      if number >= 0 && k >= 1 {
        FirstDigitsOfNat(number, k);
      } else if number < 0 && k >= 2 {
        FirstDigitsOfNegative(number, k);
      } else if k == 1 {
        assert prefix == "-";
      } else {
        assert prefix == [];
      }
    }
  }

  /**
   * For a positive number with at least k digits, GetNumberFirstDigits(n, k)
   * is a k-digit number; when n has exactly k digits it is n itself.
   */
  lemma FirstDigitsOfPositive(n: int, k: int)
    requires n >= 1 && 1 <= k <= |Itoa(n)|
    ensures TakesFirstDigits(n, k)
    ensures Pow10(k - 1) <= GetNumberFirstDigits(n, k) < Pow10(k)
    ensures k == |Itoa(n)| ==> GetNumberFirstDigits(n, k) == n
  {
    assert TakesFirstDigits(n, k) by {
      FirstDigitsDefinedIff(n, k);
    }
    var e := |Decimal(n)| - k;
    var r := GetNumberFirstDigits(n, k);
    assert r == Cut(n, e);
    assert Pow10(k - 1) <= r < Pow10(k) by {
      CutLeading(n, k);
    }
    if e == 0 {
      CutNothing(n);
    }
  }

  lemma CutNothing(n: nat)
    ensures Cut(n, 0) == n
  {
    assert Pow10(0) == 1;
  }

  /** Cutting all but k digits of a positive number leaves a k-digit number. */
  lemma CutLeading(n: nat, k: nat)
    requires n >= 1 && 1 <= k <= |Decimal(n)|
    ensures Pow10(k - 1) <= Cut(n, |Decimal(n)| - k) < Pow10(k)
  {
    var r := Cut(n, |Decimal(n)| - k);
    DecimalPrefix(n, k);
    assert |Decimal(r)| == k;
    LeadingDigit(n);
    assert Decimal(r)[0] != '0';
    assert Decimal(0) == "0";
    DecimalBounds(r);
  }

  lemma {:induction false} Pow10Monotone(a: nat, b: nat)
    requires a <= b
    ensures Pow10(a) <= Pow10(b)
  {
    if a < b {
      Pow10Monotone(a, b - 1);
    }
  }

  /** A number between 10^(d-1) and 10^d has d digits. */
  lemma DecimalLength(n: nat, d: nat)
    requires 1 <= d && Pow10(d - 1) <= n < Pow10(d)
    ensures |Decimal(n)| == d
  {
    var len := |Decimal(n)|;
    DecimalBounds(n);
    if len < d {
      Pow10Monotone(len, d - 1);
    } else if len > d {
      Pow10Monotone(d, len - 1);
    }
  }

  /** The status of a five-digit error code is the code divided by 100. */
  lemma FiveDigitStatus(code: int)
    requires 10000 <= code < 100000
    ensures TakesFirstDigits(code, 3) && GetNumberFirstDigits(code, 3) == code / 100
  {
    assert Pow10(4) == 10000 && Pow10(5) == 100000;
    DecimalLength(code, 5);
    FirstDigitsDefinedIff(code, 3);
    assert Pow10(2) == 100;
  }

  /** The examples in the comment of server/errors.go. */
  lemma DocumentedStatuses()
    ensures TakesFirstDigits(40401, 3) && GetNumberFirstDigits(40401, 3) == 404
    ensures TakesFirstDigits(50001, 3) && GetNumberFirstDigits(50001, 3) == 500
  {
    FiveDigitStatus(40401);
    FiveDigitStatus(50001);
  }

  /** The two codes the core constructs stand for 400 Bad Request and 404 Not Found. */
  lemma CoreStatuses()
    ensures TakesFirstDigits(40000, 3) && GetNumberFirstDigits(40000, 3) == 400
    ensures TakesFirstDigits(40400, 3) && GetNumberFirstDigits(40400, 3) == 404
  {
    FiveDigitStatus(40000);
    FiveDigitStatus(40400);
  }
}
