/**
 * Single cells of a survey table and the numeric coercions that the cleaning
 * code applies to them (`pd.to_numeric(..., errors="coerce")`, `astype("float")`,
 * `astype("Int64")`).
 */
module Cells {
  import opened Wrappers

  /** A present cell holds either a label (text) or a number. */
  datatype Value = Str(s: string) | Num(x: real)

  /** A cell; `None` is a missing value. */
  type Cell = Option<Value>

  predicate IsDigit(ch: char) {
    '0' <= ch <= '9'
  }

  predicate AllDigits(s: string) {
    forall i :: 0 <= i < |s| ==> IsDigit(s[i])
  }

  function DigitValue(ch: char): (d: nat)
    requires IsDigit(ch)
    ensures d < 10
  {
    (ch as int) - ('0' as int)
  }

  function DigitChar(d: nat): (ch: char)
    requires d < 10
    ensures IsDigit(ch) && DigitValue(ch) == d
  {
    (('0' as int) + d) as char
  }

  /** The value of a string of decimal digits, most significant digit first. */
  function DigitsValue(s: string): nat
    requires AllDigits(s)
  {
    if s == [] then 0 else DigitsValue(s[..|s| - 1]) * 10 + DigitValue(s[|s| - 1])
  }

  function Pow10(k: nat): (p: nat)
    ensures p >= 1
  {
    if k == 0 then 1 else 10 * Pow10(k - 1)
  }

  /** A string of `k` digits is worth less than 10^k, so a decimal fraction stays below 1. */
  lemma {:induction false} DigitsBelowPow10(s: string)
    requires AllDigits(s)
    ensures DigitsValue(s) < Pow10(|s|)
  {
    if s != [] {
      var init := s[..|s| - 1];
      assert AllDigits(init);
      DigitsBelowPow10(init);
      assert DigitValue(s[|s| - 1]) < 10;
    }
  }

  /** The index of the first occurrence of `ch` in `s`, or `|s|` when there is none. */
  function IndexOf(s: string, ch: char): (k: nat)
    ensures k <= |s|
    ensures k < |s| ==> s[k] == ch
    ensures forall i :: 0 <= i < k ==> s[i] != ch
  {
    if s == [] then 0
    else if s[0] == ch then 0
    else 1 + IndexOf(s[1..], ch)
  }

  /**
   * An unsigned decimal: digits, optionally followed by a point and more
   * digits, with at least one digit in all ("7", "7.0", ".5", "5.").
   */
  function ParseUnsigned(s: string): Option<real> {
    var p := IndexOf(s, '.');
    var whole := s[..p];
    var frac := if p < |s| then s[p + 1..] else [];
    if |whole| + |frac| == 0 || !AllDigits(whole) || !AllDigits(frac) then None
    else Some(DigitsValue(whole) as real + DigitsValue(frac) as real / Pow10(|frac|) as real)
  }

  /** The number a text cell denotes, with an optional sign; `None` when it is not a number. */
  function ParseNumber(s: string): (r: Option<real>)
    ensures r.Some? ==> exists i :: 0 <= i < |s| && IsDigit(s[i])
  {
    if |s| > 0 && s[0] == '-' then
      match ParseUnsigned(s[1..])
      case Some(x) => Some(-x)
      case None => None
    else if |s| > 0 && s[0] == '+' then ParseUnsigned(s[1..])
    else ParseUnsigned(s)
  }

  /** Decimal digits of a natural number, most significant first, without leading zeros. */
  function ShowNat(n: nat): (s: string)
    ensures |s| > 0 && AllDigits(s)
  {
    if n < 10 then [DigitChar(n)] else ShowNat(n / 10) + [DigitChar(n % 10)]
  }

  /** The text of an integer as it is written in the survey extracts and the label tables. */
  function ShowInt(i: int): string {
    if i < 0 then "-" + ShowNat(-i) else ShowNat(i)
  }

  lemma {:induction false} DigitsValueShowNat(n: nat)
    ensures DigitsValue(ShowNat(n)) == n
  {
    if n >= 10 {
      var s := ShowNat(n);
      assert s[..|s| - 1] == ShowNat(n / 10);
      DigitsValueShowNat(n / 10);
    }
  }

  lemma ParseUnsignedShowNat(n: nat)
    ensures ParseUnsigned(ShowNat(n)) == Some(n as real)
  {
    var s := ShowNat(n);
    var p := IndexOf(s, '.');
    assert p == |s| by {
      assert forall i :: 0 <= i < |s| ==> s[i] != '.';
    }
    assert s[..p] == s;
    DigitsValueShowNat(n);
  }

  /** Reading back the text of an integer gives the integer. */
  lemma ParseShowInt(i: int)
    ensures ParseNumber(ShowInt(i)) == Some(i as real)
  {
    if i < 0 {
      var s := ShowInt(i);
      assert s == "-" + ShowNat(-i);
      assert s[0] == '-' && s[1..] == ShowNat(-i);
      ParseUnsignedShowNat(-i);
      assert ParseNumber(s) == Some(-((-i) as real));
    } else {
      var s := ShowNat(i);
      assert ShowInt(i) == s;
      assert IsDigit(s[0]);
      assert s[0] != '-' && s[0] != '+';
      ParseUnsignedShowNat(i);
      assert ParseNumber(s) == ParseUnsigned(s);
    }
  }

  /** A bracketed survey label such as "[1] Sehr gut" is never read as a number. */
  lemma LabelIsNotNumber(s: string)
    requires |s| > 0 && s[0] == '['
    ensures ParseNumber(s) == None
  {
    var p := IndexOf(s, '.');
    if p > 0 {
      assert s[..p][0] == '[';
    }
  }

  /** `pd.to_numeric(..., errors="coerce")` on one cell: text that is not a number becomes missing. */
  function ToNumeric(c: Cell): (r: Cell)
    ensures r.None? || r.value.Num?
    ensures c.Some? && c.value.Num? ==> r == c
    ensures c.Some? && c.value.Str? ==> (r.Some? <==> ParseNumber(c.value.s).Some?)
    ensures c.Some? && c.value.Str? && r.Some? ==> r.value == Num(ParseNumber(c.value.s).value)
    ensures c.None? ==> r.None?
  {
    match c
    case None => None
    case Some(Num(x)) => c
    case Some(Str(s)) =>
      match ParseNumber(s)
      case Some(x) => Some(Num(x))
      case None => None
  }

  predicate IsIntegral(x: real) {
    x == x.Floor as real
  }

  /**
   * `astype("Int64")` after `to_numeric`: `None` when the cast raises, because
   * a number is not a whole number.
   */
  function ToInt64(c: Cell): (r: Option<Cell>)
    ensures r.Some? <==> (ToNumeric(c).None? || IsIntegral(ToNumeric(c).value.x))
    ensures r.Some? ==> r.value == ToNumeric(c)
  {
    var n := ToNumeric(c);
    if n.Some? && !IsIntegral(n.value.x) then None else Some(n)
  }

  /**
   * `astype("float")` on one cell: missing and numbers stay, numeric text is
   * read, and any other text makes the cast raise (`None`).
   */
  function AsFloat(c: Cell): (r: Option<Cell>)
    ensures (c.None? || c.value.Num?) ==> r == Some(c)
    ensures c.Some? && c.value.Str? ==> (r.Some? <==> ParseNumber(c.value.s).Some?)
    ensures r.Some? && c.Some? && c.value.Str? ==> r.value == Some(Num(ParseNumber(c.value.s).value))
  {
    match c
    case None => Some(None)
    case Some(Num(x)) => Some(c)
    case Some(Str(s)) =>
      match ParseNumber(s)
      case Some(x) => Some(Some(Num(x)))
      case None => None
  }
}
