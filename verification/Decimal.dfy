/** Decimal numerals, as std::to_string writes them, and reading them back. */
module Decimal {
  import opened Common

  predicate IsDigit(c: char) { '0' <= c <= '9' }

  function DigitChar(d: nat): (c: char)
    requires d < 10
    ensures IsDigit(c) && (c as int) - ('0' as int) == d
  {
    ('0' as int + d) as char
  }

  function DigitValue(c: char): (d: nat)
    requires IsDigit(c)
    ensures d < 10 && DigitChar(d) == c
  {
    (c as int) - ('0' as int)
  }

  /** std::to_string of an unsigned number. */
  function Numeral(n: nat): (s: string)
    ensures |s| > 0 && forall i :: 0 <= i < |s| ==> IsDigit(s[i])
  {
    if n < 10 then [DigitChar(n)] else Numeral(n / 10) + [DigitChar(n % 10)]
  }

  /** std::to_string of a signed number. */
  function ToString(n: int): string {
    if n < 0 then "-" + Numeral(-n) else Numeral(n)
  }

  /** The number of leading digits of a text. */
  function DigitRun(s: string): (n: nat)
    ensures n <= |s| && (forall i :: 0 <= i < n ==> IsDigit(s[i])) && (n < |s| ==> !IsDigit(s[n]))
  {
    if s == "" || !IsDigit(s[0]) then 0 else 1 + DigitRun(s[1..])
  }

  function Value(s: string): nat
    requires forall i :: 0 <= i < |s| ==> IsDigit(s[i])
  {
    if s == "" then 0 else 10 * Value(s[..|s| - 1]) + DigitValue(s[|s| - 1])
  }

  lemma {:induction false} ValueOfNumeral(n: nat)
    ensures Value(Numeral(n)) == n
  {
    if n >= 10 {
      ValueOfNumeral(n / 10);
      assert Numeral(n)[..|Numeral(n)| - 1] == Numeral(n / 10);
    } else {
      assert Numeral(n)[..0] == "";
    }
  }

  /** Digits without a leading zero. */
  predicate IsNumeral(s: string) {
    s != "" && (forall i :: 0 <= i < |s| ==> IsDigit(s[i])) && (s[0] == '0' ==> s == "0")
  }

  /** A text that is a number as std::to_string writes it, read as that number. */
  function FromText(s: string): Option<int> {
    if IsNumeral(s) then Some(Value(s))
    else if s != "" && s[0] == '-' && IsNumeral(s[1..]) && s[1..] != "0" then
      var n: int := Value(s[1..]);
      Some(-n)
    else None
  }

  lemma {:induction false} NumeralIsNumeral(n: nat)
    ensures IsNumeral(Numeral(n)) && (n > 0 ==> Numeral(n)[0] != '0')
  {
    if n >= 10 { NumeralIsNumeral(n / 10); }
  }

  lemma {:induction false} NumeralOfValue(s: string)
    requires IsNumeral(s)
    ensures Numeral(Value(s)) == s
  {
    if |s| == 1 {
      assert s[..0] == "";
    } else {
      var init := s[..|s| - 1];
      assert init[0] == s[0];
      NumeralOfValue(init);
      assert Numeral(0) == "0";
    }
  }

  /** Reading inverts writing, and only what is written reads. */
  lemma ReadsWhatIsWritten(s: string, n: int)
    ensures FromText(s) == Some(n) <==> s == ToString(n)
  {
    hide Numeral, Value, IsNumeral;
    WrittenReads(n);
    if FromText(s) == Some(n) {
      if IsNumeral(s) {
        NumeralOfValue(s);
      } else {
        NumeralOfValue(s[1..]);
        assert s == "-" + s[1..];
        PositiveValue(s[1..]);
      }
    }
  }

  lemma PositiveValue(s: string)
    requires IsNumeral(s) && s != "0"
    ensures Value(s) > 0
  {
    NumeralOfValue(s);
    assert Numeral(0) == "0";
  }

  lemma WrittenReads(n: int)
    ensures FromText(ToString(n)) == Some(n)
  {
    hide Numeral, Value;
    var m := if n < 0 then -n else n;
    NumeralIsNumeral(m);
    ValueOfNumeral(m);
    if n < 0 { assert ("-" + Numeral(m))[1..] == Numeral(m); }
  }

  /** A numeral followed by anything but a digit is exactly the digit run of the text. */
  lemma {:induction false} RunOfDigits(digits: string, rest: string)
    requires forall i :: 0 <= i < |digits| ==> IsDigit(digits[i])
    requires rest == "" || !IsDigit(rest[0])
    ensures DigitRun(digits + rest) == |digits|
  {
    if digits != "" {
      assert (digits + rest)[1..] == digits[1..] + rest;
      RunOfDigits(digits[1..], rest);
    } else {
      assert digits + rest == rest;
    }
  }
}
