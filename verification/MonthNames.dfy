/** Names of monthly audit partitions, and reading the month back out of a name. */
module MonthNames {
  import opened Common

  function Digit(n: nat): char
    requires n < 10
  {
    '0' + n as char
  }

  predicate IsDigit(c: char) { '0' <= c <= '9' }

  function DigitValue(c: char): nat
    requires IsDigit(c)
  {
    (c - '0') as nat
  }

  function Decimal(n: nat): (s: string)
    ensures |s| >= 1
  {
    if n < 10 then [Digit(n)] else Decimal(n / 10) + [Digit(n % 10)]
  }

  /** Value of a string of digits. */
  function Number(s: string): nat
    requires forall c :: c in s ==> IsDigit(c)
  {
    if s == [] then 0 else Number(s[..|s| - 1]) * 10 + DigitValue(s[|s| - 1])
  }

  /** `y2026m10` for the month counted as `year * 12 + (month - 1)`. */
  function MonthSuffix(month: nat): string {
    "y" + Decimal(month / 12) + "m" + [Digit((month % 12 + 1) / 10), Digit((month % 12 + 1) % 10)]
  }

  /** Exactly four digits for the year and two for the month; years 0 to 99 become 1900 to 1999. */
  function ParseSuffix(s: string): Option<int> {
    if |s| == 8 && s[0] == 'y' && s[5] == 'm' && (forall c :: c in s[1..5] ==> IsDigit(c)) && (forall c :: c in s[6..8] ==> IsDigit(c)) then
      var year, month := Number(s[1..5]), Number(s[6..8]);
      Some((if year < 100 then year + 1900 else year) * 12 + (month - 1))
    else None
  }

  lemma {:induction false} DecimalDigits(n: nat)
    ensures forall c :: c in Decimal(n) ==> IsDigit(c)
    ensures Number(Decimal(n)) == n
    ensures n < 10 <==> |Decimal(n)| == 1
  {
    if n >= 10 {
      DecimalDigits(n / 10);
      assert Decimal(n)[..|Decimal(n)| - 1] == Decimal(n / 10);
    }
  }

  lemma FourDigits(n: nat)
    ensures |Decimal(n)| == 4 <==> 1000 <= n <= 9999
  {
    DecimalDigits(n);
    DecimalDigits(n / 10);
    DecimalDigits(n / 10 / 10);
    DecimalDigits(n / 10 / 10 / 10);
  }

  /** A partition's own name leads back to its month exactly for years 1000 to 9999. */
  lemma SuffixRoundTripIff(month: nat)
    ensures ParseSuffix(MonthSuffix(month)) == Some(month) <==> 1000 <= month / 12 <= 9999
  {
    var s, year, mm := MonthSuffix(month), Decimal(month / 12), month % 12 + 1;
    FourDigits(month / 12);
    DecimalDigits(month / 12);
    if |year| == 4 {
      assert s[1..5] == year;
      var two := [Digit(mm / 10), Digit(mm % 10)];
      assert s[6..8] == two;
      assert two[..1] == [Digit(mm / 10)] && two[..1][..0] == [];
      assert Number(two[..1]) == mm / 10;
      assert Number(two) == mm;
    }
  }

  /** If it can be read at all. */
  lemma OwnNameReads(month: nat)
    ensures ParseSuffix(MonthSuffix(month)).Some? ==> ParseSuffix(MonthSuffix(month)) == Some(month)
  {
    SuffixRoundTripIff(month);
    FourDigits(month / 12);
  }

  /** Different months have different names. */
  lemma SuffixInjective(a: nat, b: nat)
    requires MonthSuffix(a) == MonthSuffix(b)
    ensures a == b
  {
    var s, n := MonthSuffix(a), |MonthSuffix(a)|;
    assert s[1..n - 3] == Decimal(a / 12) && s[1..n - 3] == Decimal(b / 12);
    DecimalDigits(a / 12);
    DecimalDigits(b / 12);
    var p, q := a % 12 + 1, b % 12 + 1;
    assert s[n - 2] == Digit(p / 10) == Digit(q / 10) && s[n - 1] == Digit(p % 10) == Digit(q % 10);
    assert p / 10 == q / 10 && p % 10 == q % 10;
  }

  /** Digits without a leading zero are the decimal form of their value. */
  lemma {:induction false} DecimalOfNumber(s: string)
    requires s != "" && (forall c :: c in s ==> IsDigit(c)) && (|s| > 1 ==> s[0] != '0')
    ensures Decimal(Number(s)) == s && (s[0] != '0' ==> Number(s) >= 1)
  {
    var init, last := s[..|s| - 1], s[|s| - 1];
    assert last in s && Digit(DigitValue(last)) == last;
    if |s| == 1 {
      assert s == [last] && init == "";
    } else {
      assert forall c :: c in init ==> c in s;
      assert init[0] == s[0];
      DecimalOfNumber(init);
      var n := Number(init);
      assert Number(s) == n * 10 + DigitValue(last) && n >= 1;
      assert Number(s) / 10 == n && Number(s) % 10 == DigitValue(last);
      assert s == init + [last];
    }
  }

  lemma FourDigitYear(s: string)
    requires |s| == 4 && forall c :: c in s ==> IsDigit(c)
    ensures Number(s) >= 1000 <==> s[0] != '0'
    ensures Number(s) <= 9999 && (Number(s) >= 1000 ==> Decimal(Number(s)) == s)
  {
    assert s[..3][..2] == s[..2] && s[..3][..2][..1] == s[..1] && s[..1][..0] == "";
    assert s[0] in s && s[1] in s && s[2] in s && s[3] in s;
    assert Number(s[..1]) == DigitValue(s[0]);
    assert Number(s[..2]) == Number(s[..1]) * 10 + DigitValue(s[1]);
    assert Number(s[..3]) == Number(s[..2]) * 10 + DigitValue(s[2]);
    if s[0] != '0' { DecimalOfNumber(s); }
  }

  lemma TwoDigitMonth(s: string)
    requires |s| == 2 && forall c :: c in s ==> IsDigit(c)
    ensures Number(s) <= 99 && s == [Digit(Number(s) / 10), Digit(Number(s) % 10)]
  {
    assert s[0] in s && s[1] in s && s[..1] == [s[0]] && s[..1][..0] == "";
    assert Number(s[..1]) == DigitValue(s[0]);
    assert Digit(DigitValue(s[0])) == s[0] && Digit(DigitValue(s[1])) == s[1];
  }

  /**
   * A name that is read as a month is that month's own name if and only if its
   * month is 01 to 12 and its year has no leading zero; every other name is an alias.
   */
  lemma OwnNameIff(s: string)
    requires ParseSuffix(s).Some?
    ensures ParseSuffix(s).value >= 0
    ensures MonthSuffix(ParseSuffix(s).value) == s <==> 1 <= Number(s[6..8]) <= 12 && Number(s[1..5]) >= 1000
  {
    var year, month := Number(s[1..5]), Number(s[6..8]);
    var k := ParseSuffix(s).value;
    FourDigitYear(s[1..5]);
    TwoDigitMonth(s[6..8]);
    if 1 <= month <= 12 && year >= 1000 {
      assert k / 12 == year && k % 12 == month - 1;
      assert s == "y" + s[1..5] + "m" + s[6..8];
    } else if MonthSuffix(k) == s {
      SuffixParts(k, s);
    }
  }

  /** Year and month digits of a month's own name, when the year has four. */
  lemma SuffixParts(k: nat, s: string)
    requires MonthSuffix(k) == s && |s| == 8 && s[5] == 'm'
    ensures s[1..5] == Decimal(k / 12) && s[6..8] == [Digit((k % 12 + 1) / 10), Digit((k % 12 + 1) % 10)]
    ensures 1000 <= k / 12 <= 9999
    ensures (forall c :: c in s[6..8] ==> IsDigit(c)) && 1 <= Number(s[6..8]) <= 12
    ensures (forall c :: c in s[1..5] ==> IsDigit(c)) && Number(s[1..5]) == k / 12
  {
    DecimalDigits(k / 12);
    FourDigits(k / 12);
    var mm := k % 12 + 1;
    var two := [Digit(mm / 10), Digit(mm % 10)];
    assert |Decimal(k / 12)| == 4;
    assert s[1..5] == Decimal(k / 12) && s[6..8] == two;
    assert two[..1] == [Digit(mm / 10)] && two[..1][..0] == [];
    assert Number(two[..1]) == mm / 10;
    assert Number(two) == mm;
  }

  /** So month 13 is read as the next January, whose own name is another. */
  lemma OutOfRangeMonthIsAliased(y: nat)
    requires 1000 <= y <= 9998
    ensures ParseSuffix("y" + Decimal(y) + "m13") == ParseSuffix(MonthSuffix((y + 1) * 12)) == Some((y + 1) * 12)
  {
    hide MonthSuffix, Decimal;
    SuffixRoundTripIff((y + 1) * 12);
    FourDigits(y);
    DecimalDigits(y);
    var s := "y" + Decimal(y) + "m13";
    assert s[1..5] == Decimal(y) && s[6..8] == "13" && "13"[..1] == "1" && "1"[..0] == "";
    assert Number("1") == 1;
    assert Number("13") == 13;
  }
}
