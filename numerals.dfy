/** Decimal numerals: Python's str() of a non-negative int (used when a slug
    gets a numeric suffix) and Python's int() of a string in base 10 (used by
    the template-tag nodes). Only ASCII digits and ASCII whitespace are
    modelled. */
module Numerals {
  import opened Results

  predicate IsDigit(c: char) {
    '0' <= c <= '9'
  }

  function DigitValue(c: char): (d: nat)
    requires IsDigit(c)
    ensures d < 10
  {
    c as int - '0' as int
  }

  function DigitChar(d: nat): (c: char)
    requires d < 10
    ensures IsDigit(c) && DigitValue(c) == d
  {
    ('0' as int + d) as char
  }

  /** str(n): the shortest decimal numeral of n. */
  function Decimal(n: nat): (s: string)
    ensures |s| > 0
    ensures forall i :: 0 <= i < |s| ==> IsDigit(s[i])
  {
    if n < 10 then [DigitChar(n)] else Decimal(n / 10) + [DigitChar(n % 10)]
  }

  /** The characters int() strips from both ends of its argument
      (the ASCII ones: space, \t \n \v \f \r and the separators 0x1c-0x1f). */
  predicate IsSpace(c: char) {
    c == ' ' || (9 <= c as int <= 13) || (28 <= c as int <= 31)
  }

  function TrimStart(s: string): (r: string)
    ensures |r| <= |s| && r == s[|s| - |r|..]
    ensures r != [] ==> !IsSpace(r[0])
  {
    if |s| > 0 && IsSpace(s[0]) then TrimStart(s[1..]) else s
  }

  function TrimEnd(s: string): (r: string)
    ensures |r| <= |s| && r == s[..|r|]
    ensures r != [] ==> !IsSpace(r[|r| - 1])
  {
    if |s| > 0 && IsSpace(s[|s| - 1]) then TrimEnd(s[..|s| - 1]) else s
  }

  function Strip(s: string): string {
    TrimEnd(TrimStart(s))
  }

  /** Digits, with single underscores allowed between two digits. */
  predicate IsDigitGroup(s: string) {
    && |s| > 0
    && IsDigit(s[0])
    && IsDigit(s[|s| - 1])
    && (forall i :: 0 <= i < |s| ==> IsDigit(s[i]) || s[i] == '_')
    && (forall i :: 0 <= i < |s| - 1 ==> !(s[i] == '_' && s[i + 1] == '_'))
  }

  /** The value of a run of digits and underscores; underscores are skipped. */
  function DigitsValue(s: string): nat
    requires forall i :: 0 <= i < |s| ==> IsDigit(s[i]) || s[i] == '_'
  {
    if s == [] then 0
    else
      var init := s[..|s| - 1];
      assert forall i :: 0 <= i < |init| ==> init[i] == s[i];
      if s[|s| - 1] == '_' then DigitsValue(init)
      else 10 * DigitsValue(init) + DigitValue(s[|s| - 1])
  }

  /** ValueError("invalid literal for int() with base 10"). */
  datatype IntError = InvalidLiteral

  /** A base-10 int() literal: an optional sign, then a digit group. */
  predicate IsIntLiteral(t: string) {
    IsDigitGroup(t) || (|t| > 0 && (t[0] == '+' || t[0] == '-') && IsDigitGroup(t[1..]))
  }

  /** int(s) for a str argument: accepted exactly when what remains after
      stripping whitespace is a literal; only a '-' sign gives a negative value. */
  function ParseInt(s: string): (r: Result<int, IntError>)
    ensures r.Ok? <==> IsIntLiteral(Strip(s))
    ensures r.Ok? && r.value < 0 ==> Strip(s)[0] == '-'
  {
    ParseStripped(Strip(s))
  }

  /** What int() makes of its argument once the surrounding whitespace is gone:
      an optional sign, then a digit group. */
  function ParseStripped(t: string): Result<int, IntError> {
    if |t| > 0 && (t[0] == '+' || t[0] == '-') then
      if IsDigitGroup(t[1..]) then
        var v: int := DigitsValue(t[1..]);
        Ok(if t[0] == '-' then -v else v)
      else Err(InvalidLiteral)
    else if IsDigitGroup(t) then Ok(DigitsValue(t))
    else Err(InvalidLiteral)
  }

  /** str(i) for any int: a '-' exactly for a negative number, then digits only. */
  function IntToString(i: int): (r: string)
    ensures |r| > 0 && (r[0] == '-' <==> i < 0)
    ensures forall k :: (if i < 0 then 1 else 0) <= k < |r| ==> IsDigit(r[k])
  {
    if i < 0 then "-" + Decimal(-i) else Decimal(i)
  }

  lemma {:induction false} DecimalValue(n: nat)
    ensures DigitsValue(Decimal(n)) == n
  {
    if n >= 10 {
      var s := Decimal(n);
      assert s[..|s| - 1] == Decimal(n / 10);
      DecimalValue(n / 10);
    }
  }

  lemma StripOfUnpadded(s: string)
    requires s != [] && !IsSpace(s[0]) && !IsSpace(s[|s| - 1])
    ensures Strip(s) == s
  {
  }

  lemma DecimalIsDigitGroup(n: nat)
    ensures IsDigitGroup(Decimal(n))
  {
    var d := Decimal(n);
    assert forall i :: 0 <= i < |d| - 1 ==> d[i] != '_';
  }

  lemma ParseStrippedOfDecimal(n: nat)
    ensures ParseStripped(Decimal(n)) == Ok(n)
  {
    var d := Decimal(n);
    DecimalValue(n);
    DecimalIsDigitGroup(n);
    assert d[0] != '+' && d[0] != '-';
  }

  lemma ParseStrippedOfNegatedDecimal(n: nat)
    ensures ParseStripped("-" + Decimal(n)) == Ok(-(n as int))
  {
    var d := Decimal(n);
    var s := "-" + d;
    DecimalValue(n);
    DecimalIsDigitGroup(n);
    assert s[1..] == d;
  }

  /** int(str(i)) == i: the numeral str() writes reads back as the same number. */
  lemma ParseIntOfIntToString(i: int)
    ensures ParseInt(IntToString(i)) == Ok(i)
  {
    var s := IntToString(i);
    if i < 0 {
      assert s == "-" + Decimal(-i);
      StripOfUnpadded(s);
      ParseStrippedOfNegatedDecimal(-i);
    } else {
      assert s == Decimal(i);
      StripOfUnpadded(s);
      ParseStrippedOfDecimal(i);
    }
  }

  /** Different numbers have different numerals. */
  lemma DecimalInjective(m: nat, n: nat)
    ensures Decimal(m) == Decimal(n) ==> m == n
  {
    ParseIntOfIntToString(m);
    ParseIntOfIntToString(n);
  }

  lemma {:induction false} TrimStartAppend(s: string, t: string)
    ensures TrimStart(s + t) == if TrimStart(s) == [] then TrimStart(t) else TrimStart(s) + t
  {
    if |s| > 0 && IsSpace(s[0]) {
      assert (s + t)[1..] == s[1..] + t;
      TrimStartAppend(s[1..], t);
    } else if s == [] {
      assert s + t == t;
    }
  }

  lemma StripLeadingSpace(s: string, c: char)
    requires IsSpace(c)
    ensures Strip([c] + s) == Strip(s)
  {
    assert ([c] + s)[1..] == s;
  }

  lemma StripTrailingSpace(s: string, c: char)
    requires IsSpace(c)
    ensures Strip(s + [c]) == Strip(s)
  {
    TrimStartAppend(s, [c]);
    if TrimStart(s) != [] {
      var x := TrimStart(s) + [c];
      assert x[..|x| - 1] == TrimStart(s);
    }
  }

  /** int() ignores whitespace on either side of the numeral. */
  lemma ParseIntIgnoresSurroundingSpace(s: string, c: char)
    requires IsSpace(c)
    ensures ParseInt([c] + s) == ParseInt(s)
    ensures ParseInt(s + [c]) == ParseInt(s)
  {
    StripLeadingSpace(s, c);
    StripTrailingSpace(s, c);
  }

  // The examples below take their input as a parameter fixed by `requires`:
  // with the literal written into the ensures, the verifier unrolls the
  // recursive definitions on it without bound and runs out of resource.

  /** int(" 5\n") == 5: whitespace around the numeral is dropped. */
  lemma ParseIntReadsPaddedNumeral(s: string)
    requires s == " 5\n"
    ensures ParseInt(s) == Ok(5)
  {
    assert s == [' '] + ("5" + ['\n']);
    StripLeadingSpace("5" + ['\n'], ' ');
    StripTrailingSpace("5", '\n');
    StripOfUnpadded("5");
  }

  /** int("-12") == -12 */
  lemma ParseIntReadsSignedNumeral(s: string)
    requires s == "-12"
    ensures ParseInt(s) == Ok(-12)
  {
    StripOfUnpadded(s);
    var d := s[1..];
    assert d == "12";
    var one := d[..1];
    assert one == "1" && one[..0] == [];
    assert DigitsValue(one) == 1;
    assert IsDigitGroup(d);
    assert DigitsValue(d) == 12;
  }

  /** int("five") raises ValueError. */
  lemma ParseIntRejectsWord(s: string)
    requires s == "five"
    ensures ParseInt(s) == Err(InvalidLiteral)
  {
    StripOfUnpadded(s);
    assert !IsDigit(s[0]);
  }

  /** int("1__0") raises ValueError: underscores come one at a time. */
  lemma ParseIntRejectsDoubleUnderscore(s: string)
    requires s == "1__0"
    ensures ParseInt(s) == Err(InvalidLiteral)
  {
    StripOfUnpadded(s);
    assert s[1] == '_' && s[2] == '_';
  }
}
