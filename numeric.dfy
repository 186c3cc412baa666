/**
  Cell coercion as `pd.to_numeric(column, errors="coerce")` applies it to a
  single token: a token in plain decimal notation becomes its exact value,
  anything else becomes missing (`None`, pandas' NaN).
*/
module Numeric {
  import opened Wrappers
  import opened Text

  /** The characters a decimal number is written with. */
  predicate IsNumeralChar(c: char) {
    IsDigit(c) || c == '.' || c == '-' || c == '+'
  }

  predicate AllDigits(s: string) {
    forall k :: 0 <= k < |s| ==> IsDigit(s[k])
  }

  function DigitValue(c: char): (d: nat)
    requires IsDigit(c)
    ensures d < 10
  {
    (c as int - '0' as int) as nat
  }

  /** The value of a string of decimal digits, most significant first. */
  function DigitsValue(ds: string): nat
    requires AllDigits(ds)
  {
    if ds == [] then 0 else DigitsValue(ds[..|ds| - 1]) * 10 + DigitValue(ds[|ds| - 1])
  }

  function Pow10(n: nat): (p: nat)
    ensures p >= 1
  {
    if n == 0 then 1 else 10 * Pow10(n - 1)
  }

  /** The position of the first '.', or |s| when there is none. */
  function DotIndex(s: string): (i: nat)
    ensures i <= |s|
    ensures i < |s| ==> s[i] == '.'
    ensures forall k :: 0 <= k < i ==> s[k] != '.'
  {
    if s == [] || s[0] == '.' then 0 else 1 + DotIndex(s[1..])
  }

  /** An unsigned decimal: digits, optionally a point and more digits, with
      at least one digit in all ("5", "5.", ".5", "12.30"). */
  function ParseUnsigned(s: string): (r: Option<real>)
    ensures r.Some? ==> r.value >= 0.0
    ensures r.Some? ==> forall k :: 0 <= k < |s| ==> IsDigit(s[k]) || s[k] == '.'
    ensures r.Some? ==> HasDigit(s)
  {
    var i := DotIndex(s);
    var whole := s[..i];
    var fraction := if i < |s| then s[i + 1..] else [];
    if AllDigits(whole) && AllDigits(fraction) && |whole| + |fraction| > 0 then
      assert forall k :: 0 <= k < |s| ==> IsDigit(s[k]) || s[k] == '.' by {
        forall k | 0 <= k < |s| ensures IsDigit(s[k]) || s[k] == '.' {
          if k < i { assert s[k] == whole[k]; }
          else if k > i { assert s[k] == fraction[k - i - 1]; }
        }
      }
      assert HasDigit(s) by {
        if |whole| > 0 { assert IsDigit(s[0]) by { assert s[0] == whole[0]; } }
        else { assert IsDigit(s[i + 1]) by { assert s[i + 1] == fraction[0]; } }
      }
      Some(DigitsValue(whole) as real + DigitsValue(fraction) as real / Pow10(|fraction|) as real)
    else
      None
  }

  /** The value of one cell after coercion: an optionally signed decimal,
      or missing. */
  function ParseNumber(token: string): (r: Option<real>)
    ensures r.Some? ==> forall k :: 0 <= k < |token| ==> IsNumeralChar(token[k])
    ensures r.Some? ==> HasDigit(token)
  {
    if |token| > 0 && (token[0] == '-' || token[0] == '+') then
      var u := ParseUnsigned(token[1..]);
      if u.None? then None
      else
        assert forall k :: 0 <= k < |token| ==> IsNumeralChar(token[k]) by {
          forall k | 0 <= k < |token| ensures IsNumeralChar(token[k]) {
            if k > 0 { assert token[k] == token[1..][k - 1]; }
          }
        }
        assert HasDigit(token) by {
          var j :| 0 <= j < |token[1..]| && IsDigit(token[1..][j]);
          assert token[j + 1] == token[1..][j];
        }
        Some(if token[0] == '-' then -u.value else u.value)
    else
      ParseUnsigned(token)
  }

  // ---------------------------------------------------------------------
  // A reference formatter: numbers written with one decimal, as the
  // bulletins print them, are read back exactly.
  // ---------------------------------------------------------------------

  function DigitChar(d: nat): (c: char)
    requires d < 10
    ensures IsDigit(c) && DigitValue(c) == d
  {
    ('0' as int + d) as char
  }

  /** The decimal numeral of n, without leading zeros. */
  function Numeral(n: nat): (s: string)
    ensures |s| > 0 && AllDigits(s)
  {
    if n < 10 then [DigitChar(n)] else Numeral(n / 10) + [DigitChar(n % 10)]
  }

  /** n tenths written with one decimal: 1234 is "123.4", 7 is "0.7". */
  function Tenths(n: nat): string {
    Numeral(n / 10) + "." + [DigitChar(n % 10)]
  }

  lemma {:induction false} DigitsValueOfNumeral(n: nat)
    ensures DigitsValue(Numeral(n)) == n
  {
    var s := Numeral(n);
    if n < 10 {
      assert s[..0] == [];
    } else {
      DigitsValueOfNumeral(n / 10);
      assert s[..|s| - 1] == Numeral(n / 10);
    }
  }

  lemma UnsignedTenths(n: nat)
    ensures |Tenths(n)| > 0 && IsDigit(Tenths(n)[0])
    ensures ParseUnsigned(Tenths(n)) == Some(n as real / 10.0)
  {
    var w := Numeral(n / 10);
    var d := DigitChar(n % 10);
    var s := Tenths(n);
    assert s == w + ['.'] + [d];
    assert s[0] == w[0];
    assert s[|w|] == '.';
    assert forall k :: 0 <= k < |w| ==> s[k] == w[k];
    assert DotIndex(s) == |w|;
    assert s[..|w|] == w;
    assert s[|w| + 1..] == [d];
    DigitsValueOfNumeral(n / 10);
    assert DigitsValue([d]) == n % 10 by { assert [d][..0] == []; }
    assert n == 10 * (n / 10) + n % 10;
    assert (n / 10) as real + (n % 10) as real / 10.0 == n as real / 10.0;
  }

  /** Coercion reads a one-decimal rainfall figure back as exactly n / 10. */
  lemma ParseTenths(n: nat)
    ensures ParseNumber(Tenths(n)) == Some(n as real / 10.0)
  {
    UnsignedTenths(n);
  }

  /** A negative one-decimal figure is read back as exactly -n / 10. */
  lemma ParseNegativeTenths(n: nat)
    ensures ParseNumber("-" + Tenths(n)) == Some(-(n as real / 10.0))
  {
    var s := "-" + Tenths(n);
    assert s[0] == '-';
    assert s[1..] == Tenths(n);
    UnsignedTenths(n);
  }

  /** The worked example of a clean token: "123.4" is 123.4. */
  lemma ParseExample()
    ensures ParseNumber("123.4") == Some(123.4)
  {
    assert DigitChar(1) == '1' && DigitChar(2) == '2';
    assert DigitChar(3) == '3' && DigitChar(4) == '4';
    assert Numeral(1) == "1";
    assert Numeral(12) == "12";
    assert Numeral(123) == "123";
    assert Tenths(1234) == "123.4";
    ParseTenths(1234);
  }

  /** A placeholder such as "N/D" is missing, not an error. */
  lemma ParseRejectsPlaceholder()
    ensures ParseNumber("N/D") == None
  {
    assert !IsNumeralChar("N/D"[0]);
  }
}
