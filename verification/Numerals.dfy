/** Numbers as text: std::to_string, std::stoi and std::stod.
    Integers are 32 bits wide where the source makes them so. A double is a sign and a
    magnitude, or one of the IEEE specials; text and arithmetic are rounded to the float or
    double that results, and printing to six decimals. */
module Numerals {
  import opened Prelude
  import opened Rounding

  // ----- 32-bit integers ---------------------------------------------------------

  const TWO_31: int := 0x8000_0000
  const TWO_32: int := 0x1_0000_0000

  predicate InInt32(n: int) { -TWO_31 <= n < TWO_31 }

  /** Conversion to a 32-bit int, two's complement. */
  function Wrap(n: int): (r: int)
    ensures InInt32(r)
    ensures InInt32(n) ==> r == n
    ensures (n - r) % TWO_32 == 0
  {
    (n + TWO_31) % TWO_32 - TWO_31
  }

  function Abs(n: int): nat { if n < 0 then -n else n }

  /** C++ integer division: the quotient is truncated toward zero. */
  function TruncDiv(a: int, b: int): int
    requires b != 0
  {
    if (a < 0) == (b < 0) then Abs(a) / Abs(b) else -(Abs(a) / Abs(b))
  }

  function TruncRem(a: int, b: int): int
    requires b != 0
  {
    a - TruncDiv(a, b) * b
  }

  lemma NegProduct(x: int, y: int)
    ensures (-x) * y == -(x * y) && x * (-y) == -(x * y) && (-x) * (-y) == x * y
  {
  }

  lemma QuotientTimesDivisor(a: int, b: int)
    requires b != 0
    ensures TruncDiv(a, b) * b == var p := (Abs(a) / Abs(b)) * Abs(b); if a < 0 then -p else p
  {
    NegProduct(Abs(a) / Abs(b), Abs(b));
  }

  lemma QuotientBounds(m: nat, n: nat)
    requires n > 0
    ensures 0 <= (m / n) * n <= m < (m / n) * n + n
  {
    assert m == (m / n) * n + m % n;
  }

  lemma TruncDivBounds(a: int, b: int)
    requires b != 0
    ensures Abs(TruncRem(a, b)) < Abs(b)
    ensures TruncRem(a, b) != 0 ==> (TruncRem(a, b) < 0) == (a < 0)
    ensures Abs(TruncDiv(a, b) * b) <= Abs(a)
  {
    hide TruncDiv;
    QuotientTimesDivisor(a, b);
    QuotientBounds(Abs(a), Abs(b));
  }

  lemma ProductAtLeast(d: int, b: int)
    requires d != 0
    ensures Abs(d * b) >= Abs(b)
  {
    var e, m := Abs(d), Abs(b);
    NegProduct(d, b);
    assert e * m == m + (e - 1) * m && (e - 1) * m >= 0;
    assert Abs(d * b) == e * m;
  }

  lemma RemainderUnique(a: int, b: int, t: int, q: int)
    requires Abs(a - t * b) < Abs(b) && Abs(a - q * b) < Abs(b)
    requires a - t * b != 0 ==> (a - t * b < 0) == (a < 0)
    requires a - q * b != 0 ==> (a - q * b < 0) == (a < 0)
    ensures t == q
  {
    assert (t - q) * b == t * b - q * b;
    if t != q {
      ProductAtLeast(t - q, b);
    }
  }

  /** The truncated quotient is the only q whose remainder is smaller than the divisor
      and has the sign of the dividend. */
  lemma TruncDivUnique(a: int, b: int, q: int)
    requires b != 0
    requires Abs(a - q * b) < Abs(b)
    requires a - q * b != 0 ==> (a - q * b < 0) == (a < 0)
    ensures TruncDiv(a, b) == q
  {
    TruncDivBounds(a, b);
    RemainderUnique(a, b, TruncDiv(a, b), q);
  }

  // ----- Decimal digits ------------------------------------------------------------

  predicate IsDigit(c: char) { '0' <= c <= '9' }

  predicate AllDigits(s: string) { forall i | 0 <= i < |s| :: IsDigit(s[i]) }

  function DigitChar(d: nat): (c: char)
    requires d < 10
    ensures IsDigit(c)
  {
    '0' + d as char
  }

  /** The number a digit string denotes. */
  function NatOf(s: string): nat
    requires AllDigits(s)
  {
    if s == [] then 0 else 10 * NatOf(s[..|s| - 1]) + (s[|s| - 1] - '0') as nat
  }

  function Pow10(n: nat): (p: nat)
    ensures p >= 1
  {
    if n == 0 then 1 else 10 * Pow10(n - 1)
  }

  /** One more digit after the ones p counts. */
  lemma TimesTen(x: nat, p: nat, q: nat, n: nat, d: nat, sum: nat)
    requires q == 10 * p && sum == x * p + n
    ensures 10 * sum + d == x * q + (10 * n + d)
  {
    assert x * (10 * p) == 10 * (x * p);
  }

  lemma LastDigit(s: string)
    requires s != [] && AllDigits(s)
    ensures AllDigits(s[..|s| - 1])
    ensures NatOf(s) == 10 * NatOf(s[..|s| - 1]) + (s[|s| - 1] - '0') as nat
    ensures Pow10(|s|) == 10 * Pow10(|s| - 1)
  {
  }

  lemma {:induction false} NatOfConcat(a: string, b: string)
    requires AllDigits(a) && AllDigits(b)
    ensures AllDigits(a + b)
    ensures NatOf(a + b) == NatOf(a) * Pow10(|b|) + NatOf(b)
  {
    if b == [] {
      assert a + b == a;
    } else {
      hide NatOf, Pow10;
      var init := b[..|b| - 1];
      NatOfConcat(a, init);
      assert (a + b)[..|a + b| - 1] == a + init;
      LastDigit(b);
      LastDigit(a + b);
      TimesTen(NatOf(a), Pow10(|init|), Pow10(|b|), NatOf(init), (b[|init|] - '0') as nat, NatOf(a + init));
    }
  }

  function PrintNat(n: nat): (s: string)
    ensures s != [] && AllDigits(s)
  {
    if n < 10 then [DigitChar(n)] else PrintNat(n / 10) + [DigitChar(n % 10)]
  }

  lemma {:induction false} NatOfPrintNat(n: nat)
    ensures NatOf(PrintNat(n)) == n
  {
    if n < 10 {
      assert PrintNat(n)[..0] == [];
    } else {
      NatOfPrintNat(n / 10);
      var s := PrintNat(n / 10);
      assert (s + [DigitChar(n % 10)])[..|s|] == s;
    }
  }

  /** The last k decimal digits of n, with leading zeros. */
  function PadNat(n: nat, k: nat): (s: string)
    ensures |s| == k && AllDigits(s)
  {
    if k == 0 then [] else PadNat(n / 10, k - 1) + [DigitChar(n % 10)]
  }

  lemma {:induction false} NatOfPadNat(n: nat, k: nat)
    requires n < Pow10(k)
    ensures NatOf(PadNat(n, k)) == n
  {
    if k > 0 {
      NatOfPadNat(n / 10, k - 1);
      var s := PadNat(n / 10, k - 1);
      assert (s + [DigitChar(n % 10)])[..|s|] == s;
    }
  }

  // ----- Scanning ------------------------------------------------------------------

  /** What a std::sto* function does: a value, or one of its two exceptions. */
  datatype Scan<+T> = Number(value: T) | InvalidArgument | OutOfRange

  predicate IsSpace(c: char) { c == ' ' || '\t' <= c <= '\r' }

  function SkipSpaces(s: string): string {
    if s != [] && IsSpace(s[0]) then SkipSpaces(s[1..]) else s
  }

  /** How many leading characters of s are digits. */
  function DigitSpan(s: string): (n: nat)
    ensures n <= |s| && AllDigits(s[..n])
    ensures n < |s| ==> !IsDigit(s[n])
  {
    if s != [] && IsDigit(s[0]) then
      var n := DigitSpan(s[1..]);
      assert s[..n + 1] == [s[0]] + s[1..][..n];
      n + 1
    else 0
  }

  lemma {:induction false} DigitSpanIs(s: string, n: nat)
    requires n <= |s| && AllDigits(s[..n]) && (n < |s| ==> !IsDigit(s[n]))
    ensures DigitSpan(s) == n
  {
    if n > 0 {
      assert IsDigit(s[..n][0]);
      assert s[1..][..n - 1] == s[..n][1..];
      DigitSpanIs(s[1..], n - 1);
    }
  }

  predicate IsNegative(s: string) { s != [] && s[0] == '-' }

  function SkipSign(s: string): string {
    if s != [] && (s[0] == '-' || s[0] == '+') then s[1..] else s
  }

  /** std::stoi in base ten: blanks, an optional sign, the longest run of digits; what
      follows is ignored. */
  function Stoi(text: string): (r: Scan<int>)
    ensures r.Number? ==> InInt32(r.value)
  {
    var s := SkipSpaces(text);
    var u := SkipSign(s);
    var n := DigitSpan(u);
    if n == 0 then InvalidArgument else
      var v: int := if IsNegative(s) then -(NatOf(u[..n]) as int) else NatOf(u[..n]);
      if InInt32(v) then Number(v) else OutOfRange
  }

  /** std::to_string(int) and std::to_string(unsigned). */
  function PrintInt(n: int): string {
    if n < 0 then "-" + PrintNat(-n) else PrintNat(n)
  }

  /** Printing and parsing undo each other. */
  lemma StoiPrintInt(n: int)
    ensures Stoi(PrintInt(n)) == if InInt32(n) then Number(n) else OutOfRange
  {
    var digits := PrintNat(Abs(n));
    NatOfPrintNat(Abs(n));
    assert IsDigit(digits[0]);
    var s := PrintInt(n);
    assert SkipSpaces(s) == s;
    assert SkipSign(s) == digits;
    assert digits[..|digits|] == digits;
    DigitSpanIs(digits, |digits|);
  }

  // ----- Doubles ---------------------------------------------------------------------

  datatype RawDouble = Finite(neg: bool, mag: real) | Infinite(minus: bool) | NaN {
    predicate IsDouble() { Finite? ==> mag >= 0.0 }
  }

  type Double = d: RawDouble | d.IsDouble() witness Finite(false, 0.0)

  const ZERO: Double := Finite(false, 0.0)

  function SignOf(d: Double): bool {
    match d case Finite(s, _) => s case Infinite(s) => s case NaN => false
  }

  /** The exact product and quotient, or the special the operation gives. */
  function Product(a: Double, b: Double): Double {
    var s := SignOf(a) != SignOf(b);
    if a.NaN? || b.NaN? then NaN
    else if a.Finite? && b.Finite? then Finite(s, a.mag * b.mag)
    else if a == Finite(a.Finite? && a.neg, 0.0) || b == Finite(b.Finite? && b.neg, 0.0) then NaN
    else Infinite(s)
  }

  function Quotient(a: Double, b: Double): Double {
    var s := SignOf(a) != SignOf(b);
    if a.NaN? || b.NaN? then NaN
    else if a.Infinite? then (if b.Infinite? then NaN else Infinite(s))
    else if b.Infinite? then Finite(s, 0.0)
    else if b.mag == 0.0 then (if a.mag == 0.0 then NaN else Infinite(s))
    else Finite(s, a.mag / b.mag)
  }

  /** The value of a format that an exact result becomes. */
  function Rounded(f: Format, d: Double): Double {
    match d
    case Finite(neg, mag) => if mag >= Limit(f) then Infinite(neg) else Finite(neg, Nearest(f, mag))
    case _ => d
  }

  function Mul(f: Format, a: Double, b: Double): Double { Rounded(f, Product(a, b)) }

  function Div(f: Format, a: Double, b: Double): Double { Rounded(f, Quotient(a, b)) }

  /** Conversion to float. */
  function Narrow(d: Double): Double { Rounded(SINGLE, d) }

  const MILLION: nat := 1_000_000

  /** q millionths with a sign, in fixed notation. */
  function Fixed(neg: bool, q: nat): string {
    (if neg then "-" else "") + (PrintNat(q / MILLION) + "." + PadNat(q % MILLION, 6))
  }

  function Millionths(d: Double): nat
    requires d.Finite?
  {
    Round(d.mag * 1000000.0)
  }

  /** std::to_string(double): printf's "%f". */
  function PrintDouble(d: Double): string {
    match d
    case Finite(neg, mag) => Fixed(neg, Millionths(d))
    case Infinite(minus) => if minus then "-inf" else "inf"
    case NaN => "nan"
  }

  function Lower(c: char): char { if 'A' <= c <= 'Z' then 'a' + (c - 'A') else c }

  predicate HasWord(s: string, word: string) {
    |word| <= |s| && forall i | 0 <= i < |word| :: Lower(s[i]) == word[i]
  }

  /** The power of ten a trailing exponent multiplies by; 1 when there is none. */
  function Exponent(s: string): (e: real)
    ensures e > 0.0
  {
    if s == [] || Lower(s[0]) != 'e' then 1.0 else
      var u := SkipSign(s[1..]);
      var n := DigitSpan(u);
      var p := Pow10(NatOf(u[..n])) as real;
      if n == 0 then 1.0 else if IsNegative(s[1..]) then 1.0 / p else p
  }

  /** digits x 10^-places x scale. */
  function Decimal(digits: nat, places: nat, scale: real): (x: real)
    requires scale > 0.0
    ensures x >= 0.0
  {
    digits as real / Pow10(places) as real * scale
  }

  /** Digits with an optional fraction and exponent; what follows is ignored. */
  function StodDigits(neg: bool, u: string): Option<Double> {
    var n := DigitSpan(u);
    var dot := n < |u| && u[n] == '.';
    var rest := if dot then u[n + 1..] else [];
    var m := DigitSpan(rest);
    if n + m == 0 then None else
      NatOfConcat(u[..n], rest[..m]);
      Some(Finite(neg, Decimal(NatOf(u[..n] + rest[..m]), m, Exponent(if dot then rest[m..] else u[n..]))))
  }

  // Hexadecimal text: "0x", digits with an optional point, and a power of two after "p".

  predicate IsHexDigit(c: char) { IsDigit(c) || 'a' <= Lower(c) <= 'f' }

  function HexValue(c: char): nat
    requires IsHexDigit(c)
  {
    if IsDigit(c) then (c - '0') as nat else 10 + (Lower(c) - 'a') as nat
  }

  function HexSpan(s: string): (n: nat)
    ensures n <= |s| && forall i | 0 <= i < n :: IsHexDigit(s[i])
  {
    if s != [] && IsHexDigit(s[0]) then 1 + HexSpan(s[1..]) else 0
  }

  function HexNat(s: string): nat
    requires forall i | 0 <= i < |s| :: IsHexDigit(s[i])
  {
    if s == [] then 0 else 16 * HexNat(s[..|s| - 1]) + HexValue(s[|s| - 1])
  }

  function BinaryExponent(s: string): (e: real)
    ensures e > 0.0
  {
    if s == [] || Lower(s[0]) != 'p' then 1.0 else
      var u := SkipSign(s[1..]);
      var n := DigitSpan(u);
      var p := Pow2(NatOf(u[..n])) as real;
      if n == 0 then 1.0 else if IsNegative(s[1..]) then 1.0 / p else p
  }

  /** digits x 2^-places x scale. */
  function Binary(digits: nat, places: nat, scale: real): (x: real)
    requires scale > 0.0
    ensures x >= 0.0
  {
    digits as real / Pow2(places) as real * scale
  }

  /** What follows "0x"; None when no digit does. */
  function HexDigits(neg: bool, u: string): Option<Double> {
    var n := HexSpan(u);
    var dot := n < |u| && u[n] == '.';
    var rest := if dot then u[n + 1..] else [];
    var m := HexSpan(rest);
    var scale := BinaryExponent(if dot then rest[m..] else u[n..]);
    if n + m == 0 then None
    else Some(Finite(neg, Binary(HexNat(u[..n] + rest[..m]), 4 * m, scale)))
  }

  predicate IsHex(u: string) { HasWord(u, "0x") && HexDigits(false, u[2..]).Some? }

  lemma NotHex(u: string)
    requires |u| > 1 ==> IsDigit(u[1]) || Lower(u[1]) != 'x'
    ensures !IsHex(u)
  {
    hide HexDigits;
  }

  /** What text denotes: blanks, a sign, then inf, nan, or digits. */
  function Denoted(text: string): Option<Double> {
    var s := SkipSpaces(text);
    var u := SkipSign(s);
    if HasWord(u, "inf") then Some(Infinite(IsNegative(s)))
    else if HasWord(u, "nan") then Some(NaN)
    else if IsHex(u) then HexDigits(IsNegative(s), u[2..])
    else StodDigits(IsNegative(s), u)
  }

  /** A magnitude that does not fit the format, or is lost in it altogether. */
  predicate OutOf(f: Format, d: Double) {
    d.Finite? && (d.mag >= Limit(f) || (d.mag > 0.0 && Nearest(f, d.mag) == 0.0))
  }

  /** std::stof and std::stod, by the format of the result. */
  function Sto(f: Format, text: string): Scan<Double> {
    match Denoted(text)
    case None => InvalidArgument
    case Some(d) => if OutOf(f, d) then OutOfRange else Number(Rounded(f, d))
  }

  function Stof(text: string): Scan<Double> { Sto(SINGLE, text) }

  function Stod(text: string): Scan<Double> { Sto(DOUBLE, text) }

  lemma NoExponent(tail: string)
    requires tail != [] ==> Lower(tail[0]) != 'e'
    ensures Exponent(tail) == 1.0
  {
  }

  lemma StodDigitsFixed(neg: bool, whole: string, frac: string, tail: string)
    requires whole != [] && AllDigits(whole) && AllDigits(frac)
    requires tail != [] ==> !IsDigit(tail[0]) && Lower(tail[0]) != 'e'
    ensures AllDigits(whole + frac)
    ensures StodDigits(neg, whole + "." + frac + tail)
         == Some(Finite(neg, Decimal(NatOf(whole + frac), |frac|, 1.0)))
  {
    hide NatOf, Decimal, Exponent, DigitSpan, AllDigits, Pow10;
    NoExponent(tail);
    NatOfConcat(whole, frac);
    PartsOfFixed(whole, frac, tail);
  }

  /** Where the digits before and after the point end. */
  lemma PartsOfFixed(whole: string, frac: string, tail: string)
    requires AllDigits(whole) && AllDigits(frac) && (tail != [] ==> !IsDigit(tail[0]))
    ensures var u := whole + "." + frac + tail;
      && DigitSpan(u) == |whole| && u[..|whole|] == whole && u[|whole|] == '.'
      && var rest := u[|whole| + 1..];
      rest == frac + tail && DigitSpan(rest) == |frac| && rest[..|frac|] == frac && rest[|frac|..] == tail
  {
    hide DigitSpan;
    var u := whole + "." + frac + tail;
    assert u[..|whole|] == whole;
    DigitSpanIs(u, |whole|);
    var rest := u[|whole| + 1..];
    assert rest == frac + tail && rest[..|frac|] == frac && rest[|frac|..] == tail;
    DigitSpanIs(rest, |frac|);
  }

  /** Text that starts with digits is read as digits. */
  lemma DigitsFirst(neg: bool, u: string)
    requires u != [] && IsDigit(u[0]) && (|u| > 1 ==> IsDigit(u[1]) || Lower(u[1]) != 'x')
    ensures Denoted((if neg then "-" else "") + u) == StodDigits(neg, u)
  {
    hide StodDigits, IsHex, HexDigits;
    NotHex(u);
    assert Lower(u[0]) == u[0];
    var s := (if neg then "-" else "") + u;
    assert SkipSpaces(s) == s && SkipSign(s) == u;
  }

  /** Fixed notation, with trailing text that continues neither the digits nor an exponent. */
  lemma DenotedFixed(neg: bool, whole: string, frac: string, tail: string)
    requires whole != [] && AllDigits(whole) && AllDigits(frac)
    requires tail != [] ==> !IsDigit(tail[0]) && Lower(tail[0]) != 'e'
    ensures AllDigits(whole + frac)
    ensures Denoted((if neg then "-" else "") + (whole + "." + frac + tail))
         == Some(Finite(neg, Decimal(NatOf(whole + frac), |frac|, 1.0)))
  {
    hide NatOf, Decimal, StodDigits, Denoted;
    var u := whole + "." + frac + tail;
    StodDigitsFixed(neg, whole, frac, tail);
    assert u[0] == whole[0] && IsDigit(u[0]) && u[1] == if |whole| > 1 then whole[1] else '.';
    DigitsFirst(neg, u);
  }

  /** Text without a point is read whole. */
  lemma StodDigitsWhole(neg: bool, whole: string)
    requires whole != [] && AllDigits(whole)
    ensures StodDigits(neg, whole) == Some(Finite(neg, NatOf(whole) as real))
  {
    hide NatOf, Exponent, DigitSpan;
    DigitSpanIs(whole, |whole|);
    DigitSpanIs([], 0);
    assert whole[..|whole|] == whole && whole + [] == whole && whole[|whole|..] == [];
    NoExponent([]);
    assert Pow10(0) == 1;
  }

  /** A printed int denotes that int. */
  lemma DenotedInt(n: int)
    ensures Denoted(PrintInt(n)) == Some(Finite(n < 0, Abs(n) as real))
  {
    hide StodDigits, NatOf, PrintNat, Denoted;
    var digits := PrintNat(Abs(n));
    NatOfPrintNat(Abs(n));
    StodDigitsWhole(n < 0, digits);
    DigitsFirst(n < 0, digits);
    assert (if n < 0 then "-" else "") + digits == PrintInt(n);
  }

  /** stod reads a printed int as that int, and so does the cast of its result to int. */
  lemma StodPrintInt(n: int)
    requires InInt32(n)
    ensures Stod(PrintInt(n)) == Number(Finite(n < 0, Abs(n) as real)) && StodAsInt(PrintInt(n)) == Ok(n)
  {
    hide Denoted, Nearest, Limit, PrintInt, Pow2;
    DenotedInt(n);
    Powers();
    NaturalsStay(DOUBLE, Abs(n));
  }

  /** stof reads a small printed int as that int. */
  lemma StofPrintInt(n: int)
    requires Abs(n) < 0x100_0000
    ensures Stof(PrintInt(n)) == Number(Finite(n < 0, Abs(n) as real))
  {
    hide Denoted, Nearest, Limit, PrintInt, Pow2;
    DenotedInt(n);
    Powers();
    NaturalsStay(SINGLE, Abs(n));
  }

  /** Different ints print differently. */
  lemma PrintIntInjective(a: int, b: int)
    ensures PrintInt(a) == PrintInt(b) <==> a == b
  {
    hide Denoted, PrintInt;
    DenotedInt(a);
    DenotedInt(b);
  }

  lemma DecimalSix(q: nat)
    ensures Decimal(q, 6, 1.0) == q as real / 1000000.0 && Pow10(6) == MILLION
  {
    assert Pow10(3) == 1000;
    assert Pow10(6) == MILLION;
  }

  /** What PrintDouble's digits denote. */
  lemma PrintedDigits(q: nat)
    ensures NatOf(PrintNat(q / MILLION) + PadNat(q % MILLION, 6)) == q
  {
    var whole, frac := PrintNat(q / MILLION), PadNat(q % MILLION, 6);
    DecimalSix(q);
    NatOfPrintNat(q / MILLION);
    NatOfPadNat(q % MILLION, 6);
    NatOfConcat(whole, frac);
  }

  // ----- Out of range ------------------------------------------------------------------

  lemma {:induction false} Pow10AtLeast(n: nat)
    ensures Pow10(n) >= Pow2(3 * n)
  {
    if n > 0 {
      Pow10AtLeast(n - 1);
      hide Pow2;
      Pow2Next(3 * n - 3);
      Pow2Next(3 * n - 2);
      Pow2Next(3 * n - 1);
    }
  }

  /** A one, an e and an exponent. */
  lemma DenotedPower(n: nat)
    ensures Denoted("1e" + PrintNat(n)) == Some(Finite(false, Pow10(n) as real))
  {
    hide StodDigits, PrintNat, Pow10, Denoted;
    var u := "1e" + PrintNat(n);
    DigitsFirst(false, u);
    assert "" + u == u;
    DigitsOfPower(PrintNat(n), n);
  }

  lemma DigitsOfPower(digits: string, n: nat)
    requires digits == PrintNat(n)
    ensures StodDigits(false, "1e" + digits) == Some(Finite(false, Pow10(n) as real))
  {
    hide NatOf, Pow10, PrintNat, Exponent, Decimal;
    var u := "1e" + digits;
    assert u[..1] == "1" && u[1..] == "e" + digits;
    DigitSpanIs(u, 1);
    DigitSpanIs([], 0);
    assert "1" + [] == "1";
    ExponentIs(digits, n);
    OneDigit();
    WholeDecimal(1, Pow10(n) as real);
  }

  lemma WholeDecimal(digits: nat, scale: real)
    requires scale > 0.0
    ensures Decimal(digits, 0, scale) == digits as real * scale
  {
  }

  lemma OneDigit()
    ensures NatOf("1") == 1 && Pow10(0) == 1
  {
    assert "1"[..0] == [];
  }

  lemma ExponentIs(digits: string, n: nat)
    requires digits == PrintNat(n)
    ensures Exponent("e" + digits) == Pow10(n) as real
  {
    hide NatOf, Pow10, PrintNat;
    var u := "e" + digits;
    assert u[1..] == digits && IsDigit(digits[0]) && digits[..|digits|] == digits;
    DigitSpanIs(digits, |digits|);
    NatOfPrintNat(n);
  }

  /** No double is as large as 1e999: stod and stof throw. */
  lemma HugeIsOutOfRange()
    ensures Stod("1e999") == OutOfRange && Stof("1e999") == OutOfRange
  {
    hide Denoted, Pow2, Pow10, Limit, Nearest;
    assert PrintNat(999) == "999";
    DenotedPower(999);
    Pow10AtLeast(999);
    Pow2Grows(1024, 3 * 999);
    Pow2Grows(128, 3 * 999);
    LimitIs(SINGLE);
    LimitIs(DOUBLE);
    assert "1e" + "999" == "1e999";
  }

  /** 1e39 is a double but no float: only stof throws. */
  lemma LargeIsNoFloat()
    ensures Stof("1e39") == OutOfRange && Stod("1e39").Number?
  {
    hide Denoted, Pow2, Limit, Nearest, Normal;
    assert PrintNat(39) == "39";
    DenotedPower(39);
    Pow10Of39();
    Powers();
    Pow2Sum(33, 33);
    Pow2Sum(66, 33);
    Pow2Sum(99, 24);
    Pow2Sum(123, 4);
    assert Pow2(128) == 2 * Pow2(127) by { Pow2Next(127); }
    Pow2Sum(127, 4);
    Pow2Grows(131, 971);
    LimitIs(SINGLE);
    LimitIs(DOUBLE);
    MillionthIsNormal(DOUBLE);
    NormalIsNotLost(DOUBLE, Pow10(39) as real);
    assert "1e" + "39" == "1e39";
  }

  lemma Pow10Of39()
    ensures Pow10(39) == 1_000_000_000_000_000_000_000_000_000_000_000_000_000
  {
    assert Pow10(5) == 100_000;
    assert Pow10(10) == 10_000_000_000;
    assert Pow10(15) == 1_000_000_000_000_000;
    assert Pow10(20) == 100_000_000_000_000_000_000;
    assert Pow10(25) == 10_000_000_000_000_000_000_000_000;
    assert Pow10(30) == 1_000_000_000_000_000_000_000_000_000_000;
    assert Pow10(35) == 100_000_000_000_000_000_000_000_000_000_000_000;
  }

  /** Hexadecimal text is read too: "0x10" is sixteen. */
  lemma HexIsRead()
    ensures Stod("0x10") == Number(Finite(false, 16.0)) && StodAsInt("0x10") == Ok(16)
  {
    hide Nearest, Limit, HexDigits, Pow2;
    HexSixteen();
    Powers();
    NaturalsStay(DOUBLE, 16);
    assert "0x10"[2..] == "10";
    assert HasWord("0x10", "0x");
    assert !HasWord("0x10", "inf") && !HasWord("0x10", "nan") by { assert Lower("0x10"[0]) == '0'; }
  }

  lemma HexSixteen()
    ensures forall neg :: HexDigits(neg, "10") == Some(Finite(neg, 16.0))
  {
    assert HexSpan("10") == 2 && HexSpan([]) == 0;
    assert "10"[..2] == "10" && "10"[2..] == [] && "10" + [] == "10";
    assert "10"[..1] == "1" && "1"[..0] == [];
    assert HexNat("1") == 1 && HexNat("10") == 16;
    assert Pow2(0) == 1;
  }

  // ----- Six decimals --------------------------------------------------------------------

  /** q millionths. */
  function FixedValue(q: nat): (x: real)
    ensures x >= 0.0
  {
    q as real / 1000000.0
  }

  lemma DenotedNotation(neg: bool, q: nat)
    ensures Denoted(Fixed(neg, q)) == Some(Finite(neg, FixedValue(q)))
  {
    hide Denoted, Decimal, NatOf, PrintNat, PadNat;
    DenotedFixed(neg, PrintNat(q / MILLION), PadNat(q % MILLION, 6), []);
    assert forall t: string :: t + [] == t;
    DecimalSix(q);
    PrintedDigits(q);
  }

  /** Different numbers print differently. */
  lemma FixedInjective(a: bool, p: nat, b: bool, q: nat)
    ensures Fixed(a, p) == Fixed(b, q) <==> a == b && p == q
  {
    hide Fixed, Denoted;
    DenotedNotation(a, p);
    DenotedNotation(b, q);
    assert FixedValue(p) == FixedValue(q) ==> p == q;
  }

  /** Reading six decimals: out of range, or the nearest value of the format. */
  lemma StoFixed(f: Format, neg: bool, q: nat)
    requires Usual(f)
    ensures Sto(f, Fixed(neg, q)) ==
      if FixedValue(q) >= Limit(f) then OutOfRange else Number(Finite(neg, Nearest(f, FixedValue(q))))
  {
    hide Denoted, Fixed, Nearest, Limit;
    DenotedNotation(neg, q);
    if q > 0 {
      MillionthIsNormal(f);
      Room(f);
      NormalIsNotLost(f, FixedValue(q));
    } else {
      ZeroStays(f);
    }
  }

  /** Six decimals a format keeps: rounded to it and printed they come back. */
  predicate Survives(f: Format, q: nat) {
    FixedValue(q) < Limit(f) && Round(Nearest(f, FixedValue(q)) * 1000000.0) == q
  }

  /** What surviving means for the text. */
  lemma ReadThenPrinted(f: Format, neg: bool, q: nat)
    requires Usual(f)
    ensures var r := Sto(f, Fixed(neg, q));
      r.Number? && PrintDouble(r.value) == Fixed(neg, q) <==> Survives(f, q)
  {
    hide Sto, Fixed, Nearest, Limit, Round;
    StoFixed(f, neg, q);
    if FixedValue(q) < Limit(f) {
      FixedInjective(neg, Round(Nearest(f, FixedValue(q)) * 1000000.0), neg, q);
    }
  }

  /** Every six-decimal number below 2^(bits - 20) survives: 16 for float, 2^33 for double. */
  lemma SurvivesBelow(f: Format, q: nat)
    requires Usual(f) && q < Pow2(f.bits - 20) * MILLION
    ensures Survives(f, q)
  {
    hide Pow2, Unit, Nearest, Limit, Round;
    Room(f);
    Powers();
    var x := FixedValue(q);
    SmallUnit(f, 20);
    UnitSum(f, f.low - 20, f.bits);
    UnitSum(f, f.low, f.bits - 20);
    UnitOne(f);
    NearestWithin(f, x, f.low - 20);
    HalfWay(Nearest(f, x) * 1000000.0, q);
    UnitGrows(f, f.low + f.bits - 20, f.top);
    UnderLimit(f, x);
  }

  lemma UnderLimit(f: Format, x: real)
    requires Usual(f) && x < Unit(f, f.top)
    ensures x < Limit(f)
  {
    hide Unit;
    PowersAt(f);
    TimesGrows(1.0, Span(f) - 0.5, Unit(f, f.top));
  }

  /** A value of the format is not changed by rounding it again. */
  lemma RoundedStays(f: Format, d: Double)
    requires Usual(f)
    ensures Rounded(f, Rounded(f, d)) == Rounded(f, d)
    ensures Rounded(f, d).Finite? ==> Rounded(f, d).mag < Limit(f)
  {
    hide Nearest, Limit;
    if d.Finite? && d.mag < Limit(f) {
      Room(f);
      NearestTwice(f, d.mag);
    }
  }

  /** What text is read as is a value of the format. */
  lemma ReadStays(f: Format, text: string)
    requires Usual(f) && Sto(f, text).Number?
    ensures Rounded(f, Sto(f, text).value) == Sto(f, text).value
  {
    hide Denoted, OutOf, Rounded;
    RoundedStays(f, Denoted(text).value);
  }

  /** (int)std::stod(text): truncation toward zero. A value outside int is undefined. */
  function StodAsInt(text: string): (r: Result<int>)
    ensures r.Ok? ==> InInt32(r.value)
  {
    match Stod(text)
    case Number(Finite(neg, mag)) =>
      var n := if neg then -(mag.Floor) else mag.Floor;
      if InInt32(n) then Ok(n) else Abort
    case _ => Abort
  }
}
