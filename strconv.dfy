/**
 * Decimal digits, and strconv.Atoi as the workout handlers use it to read an
 * id from a query parameter: an optional sign, then one or more decimal
 * digits, nothing else, within the range of a 64-bit int.
 */
module Strconv {
  import opened Wrappers

  const MinInt64: int := -0x8000_0000_0000_0000
  const MaxInt64: int := 0x7fff_ffff_ffff_ffff

  predicate IsDigit(c: char) {
    '0' <= c <= '9'
  }

  predicate AllDigits(s: string) {
    forall i :: 0 <= i < |s| ==> IsDigit(s[i])
  }

  /** The value of a string of decimal digits, most significant first. */
  function Num(s: string): nat
    requires AllDigits(s)
  {
    if s == [] then 0 else Num(s[..|s| - 1]) * 10 + (s[|s| - 1] as int - '0' as int)
  }

  function DigitChar(n: int): (c: char)
    requires 0 <= n < 10
    ensures IsDigit(c) && c as int - '0' as int == n
  {
    ('0' as int + n) as char
  }

  /** The part of s after one optional leading sign. */
  function Unsigned(s: string): (u: string)
    ensures |s| > 0 && (s[0] == '+' || s[0] == '-') ==> u == s[1..]
    ensures !(|s| > 0 && (s[0] == '+' || s[0] == '-')) ==> u == s
  {
    if |s| > 0 && (s[0] == '+' || s[0] == '-') then s[1..] else s
  }

  /** The number an optional sign and a string of digits spell. */
  function Signed(s: string): int
    requires AllDigits(Unsigned(s))
  {
    if |s| > 0 && s[0] == '-' then -(Num(Unsigned(s)) as int) else Num(Unsigned(s))
  }

  /**
   * Atoi: None stands for the syntax and range errors. A string is accepted
   * exactly when it is an optional sign followed by at least one digit and
   * nothing else, and the number it spells fits in 64 bits; the result is
   * that number.
   */
  function Atoi(s: string): (r: Option<int>)
    ensures r.Some? <==> Unsigned(s) != [] && AllDigits(Unsigned(s)) && MinInt64 <= Signed(s) <= MaxInt64
    ensures r.Some? ==> r.value == Signed(s)
    ensures r.Some? ==> MinInt64 <= r.value <= MaxInt64
    ensures r.Some? ==> |s| > 0 && (IsDigit(s[0]) || s[0] == '+' || s[0] == '-')
    ensures r.Some? ==> forall i :: 0 < i < |s| ==> IsDigit(s[i])
    ensures r.Some? ==> (r.value < 0 ==> s[0] == '-')
  {
    var negative := |s| > 0 && s[0] == '-';
    var digits := if |s| > 0 && (s[0] == '+' || s[0] == '-') then s[1..] else s;
    if digits == [] || !AllDigits(digits) then None
    else
      var n: int := if negative then -(Num(digits) as int) else Num(digits);
      if MinInt64 <= n <= MaxInt64 then Some(n) else None
  }

  /** The shortest decimal spelling of a natural number. */
  function Decimal(n: nat): (s: string)
    ensures s != [] && AllDigits(s)
  {
    if n < 10 then [DigitChar(n)] else Decimal(n / 10) + [DigitChar(n % 10)]
  }

  /** strconv.Itoa: the decimal spelling, with '-' in front of a negative number. */
  function Itoa(n: int): string {
    if n < 0 then "-" + Decimal(-n) else Decimal(n)
  }

  lemma {:induction false} NumDecimal(n: nat)
    ensures Num(Decimal(n)) == n
  {
    if n >= 10 {
      var s := Decimal(n);
      assert s[..|s| - 1] == Decimal(n / 10);
      NumDecimal(n / 10);
    }
  }

  /** Atoi reads back every 64-bit int that Itoa writes. */
  lemma AtoiItoa(n: int)
    requires MinInt64 <= n <= MaxInt64
    ensures Atoi(Itoa(n)) == Some(n)
  {
    if n < 0 {
      var d := Decimal(-n);
      var s := "-" + d;
      assert s[0] == '-' && s[1..] == d;
      NumDecimal(-n);
      assert Itoa(n) == s;
    } else {
      var d := Decimal(n);
      assert d[0] != '+' && d[0] != '-';
      NumDecimal(n);
    }
  }

  /** Leading zeros do not change the value of a digit string. */
  lemma {:induction false} NumLeadingZero(d: string)
    requires AllDigits(d)
    ensures AllDigits("0" + d) && Num("0" + d) == Num(d)
  {
    if d != [] {
      var z := "0" + d;
      assert z[..|z| - 1] == "0" + d[..|d| - 1];
      NumLeadingZero(d[..|d| - 1]);
    }
  }

  /** A leading zero or a leading '+' is accepted and changes nothing: "007" and "+7" both read as 7. */
  lemma AtoiLeadingZero(d: string)
    requires d != [] && AllDigits(d)
    ensures Atoi("0" + d) == Atoi(d)
    ensures Atoi("+" + d) == Atoi(d)
  {
    NumLeadingZero(d);
    assert d[0] != '+' && d[0] != '-';
    assert ("+" + d)[1..] == d;
  }

  /** A sign on its own is a syntax error. */
  lemma AtoiLoneSign()
    ensures Atoi("+") == None && Atoi("-") == None
  {
    assert "+"[1..] == [];
    assert "-"[1..] == [];
  }

  /** A digit string whose value does not fit in 64 bits is a range error, with or without a sign. */
  lemma AtoiOutOfRange(d: string)
    requires d != [] && AllDigits(d)
    ensures Num(d) > MaxInt64 ==> Atoi(d) == None && Atoi("+" + d) == None
    ensures Num(d) > -MinInt64 ==> Atoi("-" + d) == None
    ensures Num(d) == -MinInt64 ==> Atoi("-" + d) == Some(MinInt64)
  {
    assert d[0] != '+' && d[0] != '-';
    assert ("+" + d)[1..] == d;
    assert ("-" + d)[1..] == d;
  }

  /** Atoi fails on the empty string and on any string holding a character other than a sign or a digit. */
  lemma AtoiRejects(s: string)
    requires s == [] || exists i :: 0 <= i < |s| && !IsDigit(s[i]) && s[i] != '+' && s[i] != '-'
    ensures Atoi(s) == None
  {
    if s != [] {
      var i :| 0 <= i < |s| && !IsDigit(s[i]) && s[i] != '+' && s[i] != '-';
      var digits := if s[0] == '+' || s[0] == '-' then s[1..] else s;
      if s[0] == '+' || s[0] == '-' {
        assert i > 0 && digits[i - 1] == s[i];
      } else {
        assert digits[i] == s[i];
      }
    }
  }
}
