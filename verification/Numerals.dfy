// fmt's %d and %x verbs: positional numerals, and the reader that undoes them.
module Numerals {

  function DigitChar(d: nat): char
    requires d < 16
  {
    if d < 10 then ('0' as int + d) as char else ('a' as int + d - 10) as char
  }

  function Digits(n: nat, base: nat): (s: string)
    requires base == 10 || base == 16
    ensures |s| > 0
  {
    if n < base then [DigitChar(n)] else Digits(n / base, base) + [DigitChar(n % base)]
  }

  function Decimal(n: int): string {
    if n < 0 then "-" + Digits(-n, 10) else Digits(n, 10)
  }

  function Hex(n: nat): string {
    Digits(n, 16)
  }

  function DigitValue(c: char): nat {
    if '0' <= c <= '9' then c as int - '0' as int
    else if 'a' <= c <= 'f' then c as int - 'a' as int + 10
    else 0
  }

  function Value(s: string, base: nat): nat {
    if s == [] then 0 else Value(s[..|s| - 1], base) * base + DigitValue(s[|s| - 1])
  }

  function ReadDecimal(s: string): int {
    if s != [] && s[0] == '-' then -(Value(s[1..], 10) as int) else Value(s, 10)
  }

  lemma {:induction false} ValueAppend(s: string, c: char, base: nat)
    ensures Value(s + [c], base) == Value(s, base) * base + DigitValue(c)
  {
    assert (s + [c])[..|s|] == s;
  }

  lemma {:induction false} DigitReadsBack(d: nat)
    requires d < 16
    ensures DigitValue(DigitChar(d)) == d && IsDigit(DigitChar(d))
  {
  }

  lemma {:induction false} ValueOfDigits(n: nat, base: nat)
    requires base == 10 || base == 16
    ensures Value(Digits(n, base), base) == n
  {
    if n < base {
      ValueAppend([], DigitChar(n), base);
      assert [] + [DigitChar(n)] == Digits(n, base);
      DigitReadsBack(n);
    } else {
      var q, r := n / base, n % base;
      ValueOfDigits(q, base);
      ValueAppend(Digits(q, base), DigitChar(r), base);
      DigitReadsBack(r);
    }
  }

  predicate IsDigit(c: char) {
    '0' <= c <= '9' || 'a' <= c <= 'f'
  }

  lemma {:induction false} DigitsAreDigits(n: nat, base: nat)
    requires base == 10 || base == 16
    ensures forall c :: c in Digits(n, base) ==> IsDigit(c)
    ensures base == 10 ==> forall c :: c in Digits(n, base) ==> '0' <= c <= '9'
  {
    if n >= base {
      DigitsAreDigits(n / base, base);
    }
  }

  // Printing an integer in decimal loses nothing.
  lemma {:induction false} DecimalReadsBack(n: int)
    ensures ReadDecimal(Decimal(n)) == n
  {
    var magnitude: nat := if n < 0 then -n else n;
    var s := Digits(magnitude, 10);
    ValueOfDigits(magnitude, 10);
    if n < 0 {
      assert ("-" + s)[1..] == s;
    } else {
      DigitsAreDigits(magnitude, 10);
      assert s[0] in s;
    }
  }

  lemma {:induction false} DecimalIsPlain(n: int)
    ensures forall c :: c in Decimal(n) ==> '0' <= c <= '9' || c == '-'
  {
    DigitsAreDigits(if n < 0 then -n else n, 10);
  }

  // A 32-bit value needs at most eight hexadecimal digits.
  lemma {:induction false} HexLength(n: nat)
    requires n < 0x1_0000_0000
    ensures 1 <= |Hex(n)| <= 8
  {
    DigitsLength(n, 8);
  }

  lemma {:induction false} DigitsLength(n: nat, k: nat)
    requires 1 <= k <= 8
    requires n < [1, 0x10, 0x100, 0x1000, 0x1_0000, 0x10_0000, 0x100_0000, 0x1000_0000, 0x1_0000_0000][k]
    ensures |Hex(n)| <= k
  {
    if n >= 16 {
      DigitsLength(n / 16, k - 1);
    }
  }

  lemma {:induction false} NoLeadingZero(n: nat, base: nat)
    requires base == 10 || base == 16
    ensures |Digits(n, base)| > 1 ==> Digits(n, base)[0] != '0'
    ensures n > 0 ==> Digits(n, base)[0] != '0'
  {
    if n >= base {
      NoLeadingZero(n / base, base);
    }
  }

  // An integer in decimal: a sign only below zero, ASCII digits, no padding.
  lemma {:induction false} DecimalText(n: int)
    ensures Decimal(n) != [] && ((Decimal(n)[0] == '-') <==> n < 0)
    ensures var digits := if n < 0 then Decimal(n)[1..] else Decimal(n);
            && digits != [] && (forall c :: c in digits ==> '0' <= c <= '9')
            && (digits[0] == '0' ==> digits == "0")
            && Value(digits, 10) == if n < 0 then -n else n
  {
    var magnitude: nat := if n < 0 then -n else n;
    var digits := Digits(magnitude, 10);
    ValueOfDigits(magnitude, 10);
    DigitsAreDigits(magnitude, 10);
    NoLeadingZero(magnitude, 10);
    assert digits[0] in digits;
    if n < 0 {
      assert Decimal(n)[1..] == digits;
    }
  }
}
