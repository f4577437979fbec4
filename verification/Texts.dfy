/** Which texts std::stoi, std::stof and std::stod take for which numbers, written out. */
module Texts {
  import opened Prelude
  import opened Rounding
  import opened Numerals

  /** The characters isspace accepts. */
  predicate Blank(s: string) { forall i | 0 <= i < |s| :: s[i] as int in {9, 10, 11, 12, 13, 32} }

  predicate Sign(s: string) { s == "" || s == "+" || s == "-" }

  /** Nothing that would be taken for a blank or a sign. */
  predicate Starts(s: string) { s != "" && s[0] as int !in {9, 10, 11, 12, 13, 32} && s[0] != '+' && s[0] != '-' }

  lemma {:induction false} BlanksSkipped(blanks: string, s: string)
    requires Blank(blanks) && (s != "" ==> s[0] as int !in {9, 10, 11, 12, 13, 32})
    ensures SkipSpaces(blanks + s) == s
    decreases |blanks|
  {
    if blanks == "" {
      assert blanks + s == s;
    } else {
      assert (blanks + s)[0] == blanks[0] && (blanks + s)[1..] == blanks[1..] + s;
      BlanksSkipped(blanks[1..], s);
    }
  }

  lemma SignSkipped(sign: string, u: string)
    requires Sign(sign) && Starts(u)
    ensures SkipSign(sign + u) == u && (IsNegative(sign + u) <==> sign == "-")
    ensures (sign + u)[0] as int !in {9, 10, 11, 12, 13, 32}
  {
    assert (sign + u)[|sign|..] == u;
  }

  // ----- Integers ---------------------------------------------------------------------------------

  /** stoi: blanks, a sign, digits; the rest does not matter. */
  lemma StoiReads(blanks: string, sign: string, digits: string, rest: string)
    requires Blank(blanks) && Sign(sign) && digits != "" && AllDigits(digits) && (rest != "" ==> !IsDigit(rest[0]))
    ensures var v := if sign == "-" then -(NatOf(digits) as int) else NatOf(digits);
      Stoi(blanks + sign + digits + rest) == if -0x8000_0000 <= v <= 0x7FFF_FFFF then Number(v) else OutOfRange
  {
    hide NatOf, SkipSpaces, SkipSign, IsNegative, DigitSpan;
    var u := digits + rest;
    assert IsDigit(digits[0]) && u[..|digits|] == digits;
    SignSkipped(sign, u);
    BlanksSkipped(blanks, sign + u);
    assert blanks + sign + digits + rest == blanks + (sign + u);
    DigitSpanIs(u, |digits|);
  }

  /** Without a digit there it throws. */
  lemma StoiRejects(blanks: string, sign: string, rest: string)
    requires Blank(blanks) && Sign(sign) && (rest != "" ==> Starts(rest) && !IsDigit(rest[0]))
    ensures Stoi(blanks + sign + rest) == InvalidArgument
  {
    hide NatOf, SkipSpaces;
    assert blanks + sign + rest == blanks + (sign + rest);
    if rest != "" {
      SignSkipped(sign, rest);
    }
    BlanksSkipped(blanks, sign + rest);
    assert (sign + rest)[|sign|..] == rest;
    DigitSpanIs(rest, 0);
  }

  // ----- Decimals ---------------------------------------------------------------------------------

  /** An exponent, or nothing. */
  datatype Exp = NoExp | Exp(e: char, sign: string, digits: string)

  predicate IsExp(x: Exp) {
    match x
    case NoExp => true
    case Exp(e, sign, digits) => (e == 'e' || e == 'E') && Sign(sign) && digits != "" && AllDigits(digits)
  }

  function ExpText(x: Exp): string {
    match x case NoExp => "" case Exp(e, sign, digits) => [e] + sign + digits
  }

  function ExpPower(x: Exp): (p: real)
    requires IsExp(x)
    ensures p > 0.0
  {
    match x
    case NoExp => 1.0
    case Exp(_, sign, digits) =>
      if sign == "-" then 1.0 / Pow10(NatOf(digits)) as real else Pow10(NatOf(digits)) as real
  }

  /** The digits with the point moved over the places and the exponent applied. */
  function Shifted(digits: nat, places: nat, power: real): real
  {
    digits as real / Pow10(places) as real * power
  }

  lemma ExponentReads(x: Exp, rest: string)
    requires IsExp(x) && (rest != "" ==> !IsDigit(rest[0]) && (x.NoExp? ==> rest[0] != 'e' && rest[0] != 'E'))
    ensures Exponent(ExpText(x) + rest) == ExpPower(x)
  {
    hide NatOf, Pow10, SkipSign, DigitSpan, IsNegative;
    match x {
      case NoExp =>
        assert "" + rest == rest;
      case Exp(e, sign, digits) =>
        var u := digits + rest;
        assert ExpText(x) + rest == [e] + (sign + u) && IsDigit(digits[0]) && u[..|digits|] == digits;
        SignSkipped(sign, u);
        DigitSpanIs(u, |digits|);
    }
  }

  /** The digits around the point; point says whether there is one. */
  lemma DigitsRead(neg: bool, whole: string, point: bool, frac: string, x: Exp, rest: string)
    requires AllDigits(whole) && AllDigits(frac) && whole + frac != "" && (!point ==> frac == "")
    requires IsExp(x) && (rest != "" ==> !IsDigit(rest[0]) && (!point && x.NoExp? ==> rest[0] != '.'))
    requires rest != "" && x.NoExp? ==> rest[0] != 'e' && rest[0] != 'E'
    ensures AllDigits(whole + frac)
    ensures StodDigits(neg, whole + (if point then "." else "") + frac + (ExpText(x) + rest))
         == Some(Finite(neg, Decimal(NatOf(whole + frac), |frac|, ExpPower(x))))
  {
    hide NatOf, Pow10, DigitSpan, Decimal, Exponent, ExpPower, ExpText, AllDigits;
    var tail := ExpText(x) + rest;
    ExponentReads(x, rest);
    NatOfConcat(whole, frac);
    TailStarts(x, rest);
    if point {
      PartsOfFixed(whole, frac, tail);
    } else {
      WholeRead(whole, frac, tail);
    }
  }

  lemma TailStarts(x: Exp, rest: string)
    requires IsExp(x) && (rest != "" ==> !IsDigit(rest[0]))
    ensures var tail := ExpText(x) + rest;
      tail != "" ==> !IsDigit(tail[0]) && (tail[0] == '.' ==> x.NoExp? && rest != "" && rest[0] == '.')
  {
  }

  lemma WholeRead(whole: string, frac: string, tail: string)
    requires AllDigits(whole) && frac == "" && (tail != "" ==> !IsDigit(tail[0]) && tail[0] != '.')
    ensures var u := whole + "" + frac + tail;
      && DigitSpan(u) == |whole| && u[..|whole|] == whole && (|whole| < |u| ==> u[|whole|] != '.')
      && u[|whole|..] == tail && DigitSpan([]) == 0 && whole + [][..0] == whole + frac
  {
    hide DigitSpan;
    var u := whole + "" + frac + tail;
    assert u == whole + tail && u[..|whole|] == whole && u[|whole|..] == tail;
    DigitSpanIs(u, |whole|);
    DigitSpanIs([], 0);
    assert whole + [][..0] == whole && whole + frac == whole;
  }

  /** stof and stod read blanks, a sign, digits with at most one point, and an exponent; the rest
      does not matter. */
  lemma DecimalReads(blanks: string, sign: string, whole: string, point: bool, frac: string, x: Exp, rest: string)
    requires Blank(blanks) && Sign(sign) && AllDigits(whole) && AllDigits(frac)
    requires whole + frac != "" && (!point ==> frac == "") && IsExp(x)
    requires rest != "" ==> !IsDigit(rest[0]) && rest[0] != '.' && rest[0] !in ['e', 'E', 'x', 'X']
    ensures AllDigits(whole + frac)
    ensures Denoted(blanks + sign + (whole + (if point then "." else "") + frac + (ExpText(x) + rest)))
         == Some(Finite(sign == "-", Shifted(NatOf(whole + frac), |frac|, ExpPower(x))))
  {
    hide NatOf, Pow10, StodDigits, Denoted, ExpPower, Decimal, Shifted, DigitSpan;
    DigitsRead(sign == "-", whole, point, frac, x, rest);
    var tail := ExpText(x) + rest;
    var u := whole + (if point then "." else "") + frac + tail;
    assert u[0] == if whole != "" then whole[0] else '.';
    if |u| > 1 {
      assert u[1] ==
        if |whole| > 1 then whole[1] else if !point then tail[0] else if whole != "" then '.' else frac[0];
    }
    DigitsDenoted(blanks, sign, u);
    DecimalIs(NatOf(whole + frac), |frac|, ExpPower(x));
    assert u == whole + (if point then "." else "") + frac + (ExpText(x) + rest);
  }

  /** Text that starts with a digit or a point, and not as hexadecimal text does, is read as digits. */
  lemma DigitsDenoted(blanks: string, sign: string, u: string)
    requires Blank(blanks) && Sign(sign) && u != "" && (IsDigit(u[0]) || u[0] == '.')
    requires |u| > 1 ==> IsDigit(u[1]) || Lower(u[1]) != 'x'
    ensures Denoted(blanks + sign + u) == StodDigits(sign == "-", u)
  {
    hide StodDigits, SkipSpaces, SkipSign, IsNegative, HexDigits, IsHex;
    SignSkipped(sign, u);
    BlanksSkipped(blanks, sign + u);
    assert blanks + sign + u == blanks + (sign + u);
    NotHex(u);
    assert Lower(u[0]) == u[0] && !HasWord(u, "inf") && !HasWord(u, "nan");
  }

  lemma DecimalIs(digits: nat, places: nat, power: real)
    requires power > 0.0
    ensures Decimal(digits, places, power) == Shifted(digits, places, power)
  {
  }

  /** They read "inf" and "nan" in any case of letters, as the specials. */
  lemma WordsRead(blanks: string, sign: string, word: string, rest: string)
    requires Blank(blanks) && Sign(sign) && |word| == 3
    ensures word[0] in ['i', 'I'] && word[1] in ['n', 'N'] && word[2] in ['f', 'F'] ==>
      Denoted(blanks + sign + (word + rest)) == Some(Infinite(sign == "-"))
    ensures word[0] in ['n', 'N'] && word[1] in ['a', 'A'] && word[2] in ['n', 'N'] ==>
      Denoted(blanks + sign + (word + rest)) == Some(NaN)
  {
    hide StodDigits, SkipSpaces, SkipSign, IsNegative, HexDigits, IsHex;
    var u := word + rest;
    if word[0] in ['i', 'I', 'n', 'N'] {
      assert Starts(u) && u[0] == word[0] && u[1] == word[1] && u[2] == word[2];
      SignSkipped(sign, u);
      BlanksSkipped(blanks, sign + u);
      assert blanks + sign + u == blanks + (sign + u);
    }
  }

  /** Anything else throws. */
  lemma NothingReads(blanks: string, sign: string, rest: string)
    requires Blank(blanks) && Sign(sign)
    requires rest != "" ==> Starts(rest) && !IsDigit(rest[0]) && rest[0] !in ['.', 'i', 'I', 'n', 'N']
    ensures Stof(blanks + sign + rest) == InvalidArgument && Stod(blanks + sign + rest) == InvalidArgument
  {
    hide SkipSpaces, SkipSign, IsNegative, HexDigits, IsHex, StodDigits, OutOf, Rounded;
    assert blanks + sign + rest == blanks + (sign + rest);
    if rest != "" {
      SignSkipped(sign, rest);
    } else {
      SignAlone(sign);
    }
    BlanksSkipped(blanks, sign + rest);
    NoDigitNoHex(rest);
    NoDigits(sign == "-", rest);
    assert !HasWord(rest, "inf") && !HasWord(rest, "nan");
  }

  lemma SignAlone(sign: string)
    requires Sign(sign)
    ensures SkipSign(sign + "") == "" && (IsNegative(sign + "") <==> sign == "-")
  {
  }

  lemma NoDigits(neg: bool, u: string)
    requires u != "" ==> !IsDigit(u[0]) && u[0] != '.'
    ensures StodDigits(neg, u).None?
  {
    hide NatOf, Exponent, Decimal, DigitSpan;
    DigitSpanIs(u, 0);
    DigitSpanIs([], 0);
  }

  lemma NoDigitNoHex(u: string)
    requires u != "" ==> !IsDigit(u[0])
    ensures !IsHex(u)
  {
    hide HexDigits;
    if u != "" {
      assert Lower(u[0]) != '0';
    }
  }

  // ----- Hexadecimal text -------------------------------------------------------------------------

  predicate AllHex(s: string) { forall i | 0 <= i < |s| :: IsHexDigit(s[i]) }

  /** What the digits are worth, small and capital. */
  lemma HexDigitsAre(i: nat)
    requires i < 16
    ensures var c, d := "0123456789abcdef"[i], "0123456789ABCDEF"[i];
      IsHexDigit(c) && HexValue(c) == i && IsHexDigit(d) && HexValue(d) == i
  {
  }

  lemma {:induction false} HexSpanIs(s: string, n: nat)
    requires n <= |s| && AllHex(s[..n]) && (n < |s| ==> !IsHexDigit(s[n]))
    ensures HexSpan(s) == n
    decreases n
  {
    if n > 0 {
      assert IsHexDigit(s[..n][0]) && s[1..][..n - 1] == s[..n][1..];
      HexSpanIs(s[1..], n - 1);
    }
  }

  predicate IsBinaryExp(x: Exp) {
    match x
    case NoExp => true
    case Exp(e, sign, digits) => (e == 'p' || e == 'P') && Sign(sign) && digits != "" && AllDigits(digits)
  }

  function BinaryPower(x: Exp): (p: real)
    requires IsBinaryExp(x)
    ensures p > 0.0
  {
    match x
    case NoExp => 1.0
    case Exp(_, sign, digits) =>
      if sign == "-" then 1.0 / Pow2(NatOf(digits)) as real else Pow2(NatOf(digits)) as real
  }

  /** The digits with the point moved over the places, four bits each, and the exponent applied. */
  function ShiftedBits(digits: nat, places: nat, power: real): real
  {
    digits as real / Pow2(4 * places) as real * power
  }

  lemma BinaryExponentReads(x: Exp, rest: string)
    requires IsBinaryExp(x) && (rest != "" ==> !IsDigit(rest[0]) && (x.NoExp? ==> rest[0] != 'p' && rest[0] != 'P'))
    ensures BinaryExponent(ExpText(x) + rest) == BinaryPower(x)
  {
    hide NatOf, Pow2, SkipSign, DigitSpan, IsNegative;
    match x {
      case NoExp =>
        assert "" + rest == rest;
      case Exp(e, sign, digits) =>
        var u := digits + rest;
        assert ExpText(x) + rest == [e] + (sign + u) && IsDigit(digits[0]) && u[..|digits|] == digits;
        SignSkipped(sign, u);
        DigitSpanIs(u, |digits|);
    }
  }

  /** After "0x", digits around an optional point and a power of two after "p". */
  lemma HexReads(blanks: string, sign: string, zero: string, whole: string, frac: string, x: Exp, rest: string)
    requires Blank(blanks) && Sign(sign) && (zero == "0x" || zero == "0X") && AllHex(whole) && AllHex(frac)
    requires whole != "" && IsBinaryExp(x)
    requires rest != "" ==> !IsHexDigit(rest[0]) && rest[0] !in ['p', 'P']
    ensures AllHex(whole + frac)
    ensures Denoted(blanks + sign + (zero + (whole + "." + frac + (ExpText(x) + rest))))
         == Some(Finite(sign == "-", ShiftedBits(HexNat(whole + frac), |frac|, BinaryPower(x))))
  {
    hide NatOf, HexNat, Pow2, Denoted, BinaryPower, ShiftedBits, HexDigits, HexSpan, Binary;
    HexDigitsRead(false, whole, frac, x, rest);
    HexDigitsRead(sign == "-", whole, frac, x, rest);
    HexDenoted(blanks, sign, zero, whole + "." + frac + (ExpText(x) + rest));
  }

  lemma HexDigitsRead(neg: bool, whole: string, frac: string, x: Exp, rest: string)
    requires AllHex(whole) && AllHex(frac) && whole != "" && IsBinaryExp(x)
    requires rest != "" ==> !IsHexDigit(rest[0]) && rest[0] !in ['p', 'P']
    ensures AllHex(whole + frac)
    ensures HexDigits(neg, whole + "." + frac + (ExpText(x) + rest))
         == Some(Finite(neg, ShiftedBits(HexNat(whole + frac), |frac|, BinaryPower(x))))
  {
    hide HexNat, BinaryPower, BinaryExponent, ShiftedBits, HexSpan, Binary, ExpText, AllHex, IsHexDigit;
    var tail := ExpText(x) + rest;
    TailIsNoHex(x, rest);
    PartsOfHex(whole, frac, tail);
    BinaryExponentReads(x, rest);
    BinaryIs(HexNat(whole + frac), |frac|, BinaryPower(x));
  }

  lemma TailIsNoHex(x: Exp, rest: string)
    requires IsBinaryExp(x) && (rest != "" ==> !IsHexDigit(rest[0]))
    ensures var tail := ExpText(x) + rest; tail != "" ==> !IsHexDigit(tail[0])
    ensures rest != "" ==> !IsDigit(rest[0])
  {
  }

  lemma PartsOfHex(whole: string, frac: string, tail: string)
    requires AllHex(whole) && AllHex(frac) && (tail != "" ==> !IsHexDigit(tail[0]))
    ensures AllHex(whole + frac)
    ensures var u := whole + "." + frac + tail;
      && HexSpan(u) == |whole| && u[..|whole|] == whole && u[|whole|] == '.'
      && var after := u[|whole| + 1..];
      HexSpan(after) == |frac| && after[..|frac|] == frac && after[|frac|..] == tail
  {
    hide HexSpan;
    var u := whole + "." + frac + tail;
    assert u[..|whole|] == whole && u[|whole|] == '.';
    HexSpanIs(u, |whole|);
    var after := u[|whole| + 1..];
    assert after == frac + tail && after[..|frac|] == frac && after[|frac|..] == tail;
    HexSpanIs(after, |frac|);
  }

  lemma BinaryIs(digits: nat, places: nat, power: real)
    requires power > 0.0
    ensures Binary(digits, 4 * places, power) == ShiftedBits(digits, places, power)
  {
  }

  lemma HexDenoted(blanks: string, sign: string, zero: string, u: string)
    requires Blank(blanks) && Sign(sign) && (zero == "0x" || zero == "0X") && HexDigits(false, u).Some?
    ensures Denoted(blanks + sign + (zero + u)) == HexDigits(sign == "-", u)
  {
    hide StodDigits, SkipSpaces, SkipSign, IsNegative, HexDigits;
    var t := zero + u;
    assert t[0] == '0' && Lower(t[1]) == 'x' && t[2..] == u;
    SignSkipped(sign, t);
    BlanksSkipped(blanks, sign + t);
    assert blanks + sign + t == blanks + (sign + t);
    assert HasWord(t, "0x") && !HasWord(t, "inf") && !HasWord(t, "nan") by { assert Lower(t[0]) == '0'; }
  }

  // ----- Specials ---------------------------------------------------------------------------------

  /** Infinities and NaN print as words, and are read back from them. */
  lemma SpecialsReturn(f: Format)
    ensures PrintDouble(Infinite(false)) == "inf" && Sto(f, "inf") == Number(Infinite(false))
    ensures PrintDouble(Infinite(true)) == "-inf" && Sto(f, "-inf") == Number(Infinite(true))
    ensures PrintDouble(NaN) == "nan" && Sto(f, "nan") == Number(NaN)
  {
    hide Denoted;
    WordsRead("", "", "inf", "");
    WordsRead("", "-", "inf", "");
    WordsRead("", "", "nan", "");
    assert "" + "" + ("inf" + "") == "inf" && "" + "-" + ("inf" + "") == "-inf" && "" + "" + ("nan" + "") == "nan";
  }

  /** Where a product or a quotient is no number or infinite, for finite operands. */
  lemma SpecialResults(f: Format, a: bool, x: real, b: bool, y: real)
    requires x > 0.0 && y > 0.0
    ensures Mul(f, Infinite(a), Finite(b, y)) == Infinite(a != b)
    ensures Mul(f, Finite(a, x), Infinite(b)) == Infinite(a != b)
    ensures Mul(f, Infinite(a), Finite(b, 0.0)) == NaN && Mul(f, Finite(a, 0.0), Infinite(b)) == NaN
    ensures Mul(f, Infinite(a), Infinite(b)) == Infinite(a != b)
    ensures Div(f, Finite(a, x), Finite(b, 0.0)) == Infinite(a != b) && Div(f, Finite(a, 0.0), Finite(b, 0.0)) == NaN
    ensures Div(f, Infinite(a), Finite(b, y)) == Infinite(a != b) && Div(f, Infinite(a), Infinite(b)) == NaN
    ensures 0.0 < Limit(f) ==> Div(f, Finite(a, x), Infinite(b)) == Finite(a != b, 0.0)
    ensures forall d: Double :: Mul(f, NaN, d) == Mul(f, d, NaN) == Div(f, NaN, d) == Div(f, d, NaN) == NaN
  {
    hide Limit, Nearest;
    ZeroStays(f);
  }

  // ----- Rounding ---------------------------------------------------------------------------------

  /** Half way between two values, the even one is taken. */
  lemma TiesToEven(f: Format, x: real)
    requires x >= 0.0 && Gap(Nearest(f, x), x) == Spacing(f, x) / 2.0
    ensures exists n: nat :: n % 2 == 0 && Nearest(f, x) == n as real * Spacing(f, x)
  {
    hide Spacing;
    var u := Spacing(f, x);
    var n := Round(x / u);
    HalfIsTie(n, x, u);
    assert n % 2 == 0 && Nearest(f, x) == n as real * u;
  }

  lemma HalfIsTie(n: nat, x: real, u: real)
    requires u > 0.0 && x >= 0.0 && Gap(n as real * u, x) == u / 2.0
    ensures x / u == n as real + 0.5 || x / u == n as real - 0.5
  {
    if x >= n as real * u {
      ExactHalf(x, u, n as real + 0.5);
    } else {
      ExactHalf(x, u, n as real - 0.5);
    }
  }

  lemma ExactHalf(x: real, u: real, t: real)
    requires u > 0.0 && x == t * u
    ensures x / u == t
  {
  }

  /** A magnitude below half the smallest value rounds to zero. */
  lemma TinyIsLost(f: Format, x: real)
    requires 0.0 < x < Unit(f, 0) / 2.0
    ensures Nearest(f, x) == 0.0
  {
    hide Unit, Span;
    var u := Unit(f, 0);
    TimesGrows(1.0, Span(f), u);
    assert Span(f) * u == u * Span(f);
    assert x < u * Span(f);
    assert Spacing(f, x) == u;
    LessThanHalf(x, u);
    assert Round(x / u) == 0;
  }

  lemma LessThanHalf(x: real, u: real)
    requires u > 0.0 && 0.0 < x < u / 2.0
    ensures 0.0 <= x / u < 0.5
  {
    var t := x / u;
    assert t * u == x;
    if t >= 0.5 {
      TimesGrows(0.5, t, u);
    }
  }

  /** So stof and stod throw for it too. */
  lemma TinyIsOutOfRange()
    ensures Stod("1e-999") == OutOfRange && Stof("1e-999") == OutOfRange
  {
    hide Denoted, Nearest, Limit, Unit, Pow2, Pow10, NatOf;
    var x := 1.0 / Pow10(999) as real;
    TinyIsRead();
    Pow10AtLeast(999);
    forall f | Usual(f)
      ensures Nearest(f, x) == 0.0 && x < Limit(f)
    {
      Pow2Grows(f.low + 2, 3 * 999);
      TinyUnit(f, Pow10(999));
      LimitIs(f);
      TinyIsLost(f, x);
    }
  }

  lemma TinyUnit(f: Format, p: nat)
    requires Usual(f) && p >= Pow2(f.low + 2)
    ensures 0.0 < 1.0 / p as real < Unit(f, 0) / 2.0 && 1.0 / p as real < 1.0
  {
    hide Pow2;
    var u := Pow2(f.low);
    Pow2Sum(f.low, 2);
    assert Pow2(2) == 4 && Pow2(0) == 1 by { Pow2Sum(0, 0); Pow2Next(0); Pow2Next(1); }
    SmallUnit(f, f.low);
    Reciprocals(u, p);
  }

  lemma Reciprocals(u: nat, p: nat)
    requires u >= 1 && p >= 4 * u
    ensures 0.0 < 1.0 / p as real < 1.0 / u as real / 2.0 && 1.0 / p as real < 1.0
  {
    OverInverse(u as real, p as real, 1.0 / u as real, 1.0 / p as real);
  }

  lemma OverInverse(u: real, p: real, b: real, a: real)
    requires u >= 1.0 && p >= 4.0 * u && a * p == 1.0 && b * u == 1.0 && b > 0.0
    ensures 0.0 < a < b / 2.0 && a < 1.0
  {
    if a >= b / 2.0 {
      TimesGrows(b / 2.0, a, p);
      TimesGrows(4.0 * u, p, b / 2.0);
    }
    if a >= 1.0 {
      TimesGrows(1.0, a, p);
    }
  }

  lemma TinyIsRead()
    ensures Denoted("1e-999") == Some(Finite(false, 1.0 / Pow10(999) as real))
  {
    hide Denoted, Pow10, NatOf, Shifted, ExpPower;
    var x := Exp('e', "-", "999");
    assert PrintNat(1) == "1" && PrintNat(999) == "999";
    NatOfPrintNat(1);
    NegativePower(x, 999);
    DecimalReads("", "", "1", false, "", x, "");
    assert "1" + "" == "1" && ExpText(x) == "e-999";
    assert "" + "" + ("1" + "" + "" + (ExpText(x) + "")) == "1e-999";
    OneShifted(ExpPower(x));
  }

  lemma NegativePower(x: Exp, n: nat)
    requires x == Exp('e', "-", PrintNat(n))
    ensures IsExp(x) && ExpPower(x) == 1.0 / Pow10(n) as real
  {
    hide NatOf, Pow10;
    NatOfPrintNat(n);
  }

  lemma OneShifted(power: real)
    ensures Shifted(1, 0, power) == power
  {
    OneTimes(Pow10(0), power);
  }

  lemma OneTimes(one: nat, power: real)
    requires one == 1
    ensures 1.0 / one as real * power == power
  {
    assert one as real == 1.0;
  }
}
