/** IEEE 754 binary32 and binary64: an exact magnitude rounded to the nearest value the
    format has, ties to even. */
module Rounding {
  function Pow2(n: nat): (p: nat)
    ensures p >= 1
  {
    if n == 0 then 1 else 2 * Pow2(n - 1)
  }

  lemma {:induction false} Pow2Sum(a: nat, b: nat)
    ensures Pow2(a + b) == Pow2(a) * Pow2(b)
  {
    if a > 0 {
      Pow2Sum(a - 1, b);
      assert Pow2(a + b) == 2 * Pow2(a - 1 + b);
    }
  }

  /** Round half to even. */
  function Round(x: real): (q: nat)
    requires x >= 0.0
    ensures x - 0.5 <= q as real <= x + 0.5
  {
    var n := x.Floor;
    var frac := x - n as real;
    if frac < 0.5 || (frac == 0.5 && n % 2 == 0) then n else n + 1
  }

  /** A format has the magnitudes m * 2^(k - low) with m < 2^bits and k <= top. */
  datatype Format = Format(bits: nat, low: nat, top: nat)

  const SINGLE := Format(24, 149, 253)
  const DOUBLE := Format(53, 1074, 2045)

  predicate Usual(f: Format) { f == SINGLE || f == DOUBLE }

  /** 2^bits. */
  function Span(f: Format): (s: real)
    ensures s >= 1.0
  {
    Pow2(f.bits) as real
  }

  /** The spacing 2^(k - low) of the values. */
  function Unit(f: Format, k: nat): (u: real)
    ensures u > 0.0
  {
    Pow2(k) as real / Pow2(f.low) as real
  }

  /** The first k, from the given one, whose values reach beyond x. */
  function Scale(f: Format, x: real, k: nat): (s: nat)
    ensures s >= k && (k <= f.top ==> s <= f.top)
    decreases f.top - k
  {
    if k >= f.top || x < Unit(f, k) * Span(f) then k else Scale(f, x, k + 1)
  }

  function Spacing(f: Format, x: real): (u: real)
    ensures u > 0.0
  {
    Unit(f, Scale(f, x, 0))
  }

  function Nearest(f: Format, x: real): (y: real)
    requires x >= 0.0
    ensures y >= 0.0
  {
    QuotientSign(x, Spacing(f, x));
    Round(x / Spacing(f, x)) as real * Spacing(f, x)
  }

  lemma QuotientSign(x: real, u: real)
    requires x >= 0.0 && u > 0.0
    ensures x / u >= 0.0 && x / u * u == x
  {
  }

  /** From here on a magnitude rounds to infinity. */
  function Limit(f: Format): real { (Span(f) - 0.5) * Unit(f, f.top) }

  /** The smallest normal magnitude. */
  function Normal(f: Format): (x: real)
    ensures x > 0.0
  {
    Span(f) / 2.0 * Unit(f, 0)
  }

  // ----- Spacings ----------------------------------------------------------------------

  lemma UnitSum(f: Format, k: nat, j: nat)
    ensures Unit(f, k + j) == Pow2(j) as real * Unit(f, k)
  {
    hide Pow2;
    Pow2Sum(k, j);
    var a, b, c := Pow2(k) as real, Pow2(j) as real, Pow2(f.low) as real;
    assert Pow2(k + j) as real == a * b;
    ProductOver(a, b, c);
  }

  lemma ProductOver(a: real, b: real, c: real)
    requires c > 0.0
    ensures a * b / c == b * (a / c)
  {
    assert a / c * c == a;
    assert b * (a / c) * c == a * b;
  }

  lemma UnitNext(f: Format, k: nat)
    ensures Unit(f, k + 1) == 2.0 * Unit(f, k)
  {
    hide Unit;
    UnitSum(f, k, 1);
  }

  lemma UnitGrows(f: Format, k: nat, j: nat)
    requires k <= j
    ensures Unit(f, k) <= Unit(f, j)
  {
    hide Unit;
    UnitSum(f, k, j - k);
    Scaled(Pow2(j - k) as real, Unit(f, k), Unit(f, j));
  }

  lemma Scaled(a: real, u: real, v: real)
    requires a >= 1.0 && u > 0.0 && v == a * u
    ensures v >= u
  {
    var rest := (a - 1.0) * u;
    assert rest >= 0.0 && v == u + rest;
  }

  lemma TimesGrows(a: real, b: real, u: real)
    requires a <= b && u >= 0.0
    ensures a * u <= b * u && u * a <= u * b
  {
    assert (b - a) * u >= 0.0;
  }

  /** The scale found is the first that reaches beyond x. */
  lemma {:induction false} ScaleIsFirst(f: Format, x: real, k: nat)
    requires k <= f.top
    ensures var s := Scale(f, x, k);
      && (s < f.top ==> x < Unit(f, s) * Span(f))
      && (s > k ==> x >= Unit(f, s - 1) * Span(f))
    decreases f.top - k
  {
    hide Unit, Span;
    if k < f.top && x >= Unit(f, k) * Span(f) {
      ScaleIsFirst(f, x, k + 1);
    }
  }

  lemma ScaleAtMost(f: Format, x: real, j: nat)
    requires j <= f.top && x < Unit(f, j) * Span(f)
    ensures Scale(f, x, 0) <= j && Spacing(f, x) <= Unit(f, j)
  {
    hide Unit, Span, Scale;
    var s := Scale(f, x, 0);
    ScaleIsFirst(f, x, 0);
    if s > j {
      UnitGrows(f, j, s - 1);
      TimesGrows(Unit(f, j), Unit(f, s - 1), Span(f));
    }
    UnitGrows(f, s, j);
  }

  // ----- How far ------------------------------------------------------------------------

  lemma NearestError(f: Format, x: real)
    requires x >= 0.0
    ensures x - Spacing(f, x) / 2.0 <= Nearest(f, x) <= x + Spacing(f, x) / 2.0
  {
    hide Round, Spacing;
    var u := Spacing(f, x);
    QuotientSign(x, u);
    AroundTimes(x / u, Round(x / u) as real, u, x);
  }

  lemma AroundTimes(t: real, n: real, u: real, x: real)
    requires u > 0.0 && t * u == x && t - 0.5 <= n <= t + 0.5
    ensures x - u / 2.0 <= n * u <= x + u / 2.0
  {
    var a, b := n - t + 0.5, t + 0.5 - n;
    assert a * u >= 0.0 && b * u >= 0.0;
    assert a * u == n * u - t * u + 0.5 * u && b * u == t * u + 0.5 * u - n * u;
  }

  /** Below 2^bits units the error is at most half a unit. */
  lemma NearestWithin(f: Format, x: real, j: nat)
    requires x >= 0.0 && j <= f.top && x < Unit(f, j) * Span(f)
    ensures x - Unit(f, j) / 2.0 <= Nearest(f, x) <= x + Unit(f, j) / 2.0
  {
    hide Unit, Span, Nearest, Spacing;
    ScaleAtMost(f, x, j);
    NearestError(f, x);
  }

  /** The spacing at x: the smallest, or small against x. */
  lemma SpacingIsSmall(f: Format, x: real)
    requires x >= 0.0
    ensures Spacing(f, x) == Unit(f, 0) || Spacing(f, x) * Span(f) <= 2.0 * x
    ensures x >= Normal(f) ==> Spacing(f, x) * Span(f) <= 2.0 * x
  {
    hide Unit, Span, Scale;
    var s := Scale(f, x, 0);
    ScaleIsFirst(f, x, 0);
    if s > 0 {
      UnitNext(f, s - 1);
      assert Unit(f, s) * Span(f) == 2.0 * (Unit(f, s - 1) * Span(f));
    } else {
      assert Span(f) / 2.0 * Unit(f, 0) * 2.0 == Unit(f, 0) * Span(f);
    }
  }

  /** Any magnitude moves by little: relatively, or by less than the smallest normal one. */
  lemma AnyError(f: Format, x: real)
    requires x >= 0.0 && f.bits > 0
    ensures x - x / Span(f) - Normal(f) <= Nearest(f, x) <= x + x / Span(f) + Normal(f)
  {
    hide Unit, Span, Spacing, Nearest;
    NearestError(f, x);
    SpacingIsSmall(f, x);
    DivideOver(x, Span(f), 0.0);
    UnitIsSmall(f);
    if Spacing(f, x) != Unit(f, 0) {
      HalfQuotient(Spacing(f, x), Span(f), x);
    }
  }

  lemma UnitIsSmall(f: Format)
    requires f.bits > 0
    ensures Unit(f, 0) / 2.0 <= Normal(f)
  {
    hide Unit, Span;
    SpanAtLeastTwo(f);
    HalfIsSmall(Span(f) / 2.0, Unit(f, 0), Normal(f));
  }

  lemma HalfIsSmall(h: real, u: real, x: real)
    requires h >= 1.0 && u > 0.0 && x == h * u
    ensures u / 2.0 <= x
  {
    Scaled(h, u, x);
  }

  /** A normal magnitude moves by at most x / 2^bits. */
  lemma RelativeError(f: Format, x: real)
    requires x >= 0.0 && (x >= Normal(f) || x == 0.0)
    ensures x - x / Span(f) <= Nearest(f, x) <= x + x / Span(f)
  {
    hide Unit, Span, Normal, Spacing;
    if x == 0.0 {
      ZeroStays(f);
    } else {
      NearestError(f, x);
      SpacingIsSmall(f, x);
      HalfQuotient(Spacing(f, x), Span(f), x);
    }
  }

  lemma HalfQuotient(u: real, s: real, x: real)
    requires s >= 1.0 && u * s <= 2.0 * x
    ensures u / 2.0 <= x / s
  {
    DivideOver(x, s, u / 2.0);
  }

  lemma TimesLess(a: real, b: real, u: real)
    requires a < b && u > 0.0
    ensures a * u < b * u
  {
    assert (b - a) * u > 0.0;
  }

  lemma ZeroStays(f: Format)
    ensures Nearest(f, 0.0) == 0.0
  {
    hide Spacing;
    assert 0.0 / Spacing(f, 0.0) == 0.0;
    assert Round(0.0) == 0;
  }

  // ----- Values of the format -------------------------------------------------------------

  /** x is the magnitude m * 2^(k - low). */
  predicate Is(f: Format, x: real, m: nat, k: nat) {
    m < Pow2(f.bits) && k <= f.top && x == m as real * Unit(f, k)
  }

  /** A magnitude of the format. */
  ghost predicate Has(f: Format, x: real) { exists m: nat, k: nat :: Is(f, x, m, k) }

  lemma RoundOfNat(n: nat, x: real)
    requires x == n as real
    ensures Round(x) == n
  {
  }

  /** How a magnitude rounds, given the spacing around it. */
  lemma NearestAt(f: Format, x: real, k: nat, n: nat)
    requires k <= f.top && f.bits > 0
    requires k > 0 ==> Unit(f, k) * Span(f) <= 2.0 * x
    requires 0.0 <= x < Unit(f, k) * Span(f)
    requires (n as real - 0.5) * Unit(f, k) < x < (n as real + 0.5) * Unit(f, k)
    ensures Nearest(f, x) == n as real * Unit(f, k)
  {
    hide Unit, Span, Round, Scale;
    ScaleIs(f, x, k);
    var u := Unit(f, k);
    QuotientSign(x, u);
    DivideOver(x, u, n as real - 0.5);
    DivideOver(x, u, n as real + 0.5);
    HalfWay(x / u, n);
  }

  lemma ScaleIs(f: Format, x: real, k: nat)
    requires k <= f.top && x < Unit(f, k) * Span(f)
    requires k > 0 ==> Unit(f, k) * Span(f) <= 2.0 * x
    ensures Scale(f, x, 0) == k
  {
    hide Unit, Span, Scale;
    ScaleAtMost(f, x, k);
    var s := Scale(f, x, 0);
    ScaleIsFirst(f, x, 0);
    if s < k {
      UnitNext(f, k - 1);
      UnitGrows(f, s, k - 1);
      TimesGrows(Unit(f, s), Unit(f, k - 1), Span(f));
      assert false;
    }
  }

  lemma HalfWay(x: real, n: nat)
    requires x >= 0.0 && n as real - 0.5 < x < n as real + 0.5
    ensures Round(x) == n
  {
    hide Round;
  }

  /** The format's own magnitudes stay as they are. */
  lemma Stays(f: Format, x: real)
    requires Has(f, x)
    ensures x >= 0.0 && Nearest(f, x) == x && x < Limit(f)
  {
    hide Nearest, Limit;
    var m: nat, k: nat :| Is(f, x, m, k);
    StaysAs(f, x, m, k);
    IsBelowLimit(f, x, m, k);
  }

  lemma StaysAs(f: Format, x: real, m: nat, k: nat)
    requires Is(f, x, m, k)
    ensures x >= 0.0 && Nearest(f, x) == x
  {
    hide Unit, Pow2, Round, Scale, Span;
    BelowSpan(f, m, Unit(f, k), x);
    ScaleAtMost(f, x, k);
    var s := Scale(f, x, 0);
    UnitSum(f, s, k - s);
    var n := m * Pow2(k - s);
    Regroup(m as real, Pow2(k - s) as real, Unit(f, s));
    assert x == n as real * Unit(f, s);
    ExactQuotient(x, n, Unit(f, s));
    RoundOfNat(n, x / Unit(f, s));
  }

  lemma Regroup(a: real, b: real, c: real)
    ensures a * (b * c) == a * b * c
  {
  }

  lemma IsBelowLimit(f: Format, x: real, m: nat, k: nat)
    requires Is(f, x, m, k)
    ensures x < Limit(f)
  {
    hide Unit, Pow2, Span;
    UnitGrows(f, k, f.top);
    MantissaBelow(f, m);
    ProductsCompare(m as real, Span(f) - 0.5, Unit(f, k), Unit(f, f.top));
  }

  lemma MantissaBelow(f: Format, m: nat)
    requires m < Pow2(f.bits)
    ensures m as real < Span(f) - 0.5
  {
    hide Pow2;
  }

  lemma ProductsCompare(a: real, b: real, u: real, v: real)
    requires 0.0 <= a < b && 0.0 < u <= v
    ensures 0.0 <= a * u < b * v
  {
    TimesGrows(0.0, a, u);
    TimesLess(a, b, u);
    TimesGrows(u, v, b);
  }

  lemma BelowSpan(f: Format, m: nat, u: real, x: real)
    requires m < Pow2(f.bits) && u > 0.0 && x == m as real * u
    ensures 0.0 <= x < u * Span(f)
  {
    hide Pow2;
    MantissaBelow(f, m);
    ProductsCompare(m as real, Span(f), u, u);
  }

  lemma ExactQuotient(x: real, n: nat, u: real)
    requires u > 0.0 && x == n as real * u
    ensures x / u == n as real
  {
  }

  lemma QuotientBelow(x: real, u: real, b: real)
    requires u > 0.0 && x >= 0.0 && x < b * u
    ensures x / u < b
  {
    DivideOver(x, u, b);
  }

  /** Rounding gives a value of the format. */
  lemma NearestHas(f: Format, x: real)
    requires x >= 0.0 && x < Limit(f) && f.bits > 0
    ensures Has(f, Nearest(f, x))
  {
    hide Unit, Round, Pow2, Span;
    var s, n := Scale(f, x, 0), Round(x / Spacing(f, x));
    RoundsWithin(f, x, s, n);
    if n < Pow2(f.bits) {
      ItIs(f, Nearest(f, x), n, s, Unit(f, s));
    } else {
      Carry(f, s);
      ItIs(f, Nearest(f, x), Pow2(f.bits - 1), s + 1, Unit(f, s + 1));
    }
  }

  lemma RoundsWithin(f: Format, x: real, s: nat, n: nat)
    requires x >= 0.0 && x < Limit(f) && s == Scale(f, x, 0) && n == Round(x / Unit(f, s))
    ensures n <= Pow2(f.bits) && (n == Pow2(f.bits) ==> s < f.top)
  {
    hide Unit, Round, Pow2, Scale;
    ScaleIsFirst(f, x, 0);
    QuotientSign(x, Unit(f, s));
    if s < f.top {
      QuotientBelow(x, Unit(f, s), Span(f));
    } else {
      QuotientBelow(x, Unit(f, s), Span(f) - 0.5);
    }
  }

  lemma Carry(f: Format, s: nat)
    requires f.bits > 0
    ensures Pow2(f.bits) == 2 * Pow2(f.bits - 1)
    ensures Pow2(f.bits) as real * Unit(f, s) == Pow2(f.bits - 1) as real * Unit(f, s + 1)
  {
    hide Unit;
    UnitNext(f, s);
    assert Pow2(f.bits) as real == 2.0 * Pow2(f.bits - 1) as real;
  }

  /** Rounding twice is rounding once. */
  lemma NearestTwice(f: Format, x: real)
    requires x >= 0.0 && x < Limit(f) && f.bits > 0
    ensures Nearest(f, Nearest(f, x)) == Nearest(f, x) && Nearest(f, x) < Limit(f)
  {
    hide Nearest, Limit;
    NearestHas(f, x);
    Stays(f, Nearest(f, x));
  }

  // ----- Integers and powers of two --------------------------------------------------------

  lemma UnitOne(f: Format)
    ensures Unit(f, f.low) == 1.0
  {
    hide Pow2;
    var p := Pow2(f.low) as real;
    assert p / p == 1.0;
  }

  lemma Powers()
    ensures Pow2(4) == 16 && Pow2(20) == 0x10_0000 && Pow2(24) == 0x100_0000 && Pow2(33) == 0x2_0000_0000
    ensures Pow2(53) == 0x20_0000_0000_0000
  {
    hide Pow2;
    Sixteen();
    Pow2Sum(4, 4);
    Pow2Sum(8, 8);
    Pow2Sum(16, 4);
    Pow2Sum(20, 4);
    Pow2Sum(24, 8);
    Pow2Sum(32, 20);
    Pow2Next(32);
    Pow2Next(52);
  }

  lemma Sixteen()
    ensures Pow2(4) == 16
  {
  }

  lemma Pow2Next(n: nat)
    ensures Pow2(n + 1) == 2 * Pow2(n)
  {
  }

  /** Natural numbers below 2^bits are values of the format. */
  lemma NaturalsStay(f: Format, n: nat)
    requires n < Pow2(f.bits) && f.low <= f.top
    ensures Nearest(f, n as real) == n as real && n as real < Limit(f)
  {
    hide Unit, Nearest, Limit, Pow2;
    UnitOne(f);
    assert Is(f, n as real, n, f.low);
    Stays(f, n as real);
  }

  /** A value times a power of two is a value, as long as the format reaches that far. */
  lemma ShiftStays(f: Format, x: real, m: nat, k: nat, j: nat, y: real)
    requires Is(f, x, m, k) && k + j <= f.top && y == Pow2(j) as real * x
    ensures Has(f, y)
  {
    hide Unit, Pow2;
    UnitSum(f, k, j);
    Swap(Pow2(j) as real, m as real, Unit(f, k), x, Unit(f, k + j));
    ItIs(f, y, m, k + j, Unit(f, k + j));
  }

  lemma ItIs(f: Format, x: real, m: nat, k: nat, u: real)
    requires m < Pow2(f.bits) && k <= f.top && u == Unit(f, k) && x == m as real * u
    ensures Is(f, x, m, k)
  {
    hide Unit, Pow2;
  }

  lemma Swap(a: real, b: real, c: real, bc: real, ac: real)
    requires bc == b * c && ac == a * c
    ensures a * bc == b * ac
  {
  }

  /** A value of the format other than one is at least 2^-bits away from one. */
  lemma ApartFromOne(f: Format, x: real, m: nat, k: nat)
    requires Is(f, x, m, k) && x != 1.0 && f.bits > 0
    ensures x - 1.0 >= 1.0 / Span(f) || 1.0 - x >= 1.0 / Span(f)
    ensures x < 2.0 && m > 0 ==> k <= f.low
  {
    hide Unit, Pow2, Span;
    UnitOne(f);
    InverseSpan(f);
    if k > f.low {
      UnitNext(f, f.low);
      UnitGrows(f, f.low + 1, k);
      ZeroOrMore(m, Unit(f, k));
    } else if k + f.bits >= f.low {
      UnitSum(f, k, f.low - k);
      ReachesOne(f, k);
      WholeSteps(m, Pow2(f.low - k), Unit(f, k), x);
    } else {
      StopsBelowHalf(f, k);
      BelowSpan(f, m, Unit(f, k), x);
    }
  }

  lemma ZeroOrMore(m: nat, u: real)
    requires u > 0.0
    ensures m == 0 ==> m as real * u == 0.0
    ensures m > 0 ==> m as real * u >= u
  {
    if m > 0 {
      TimesGrows(1.0, m as real, u);
    }
  }

  lemma InverseSpan(f: Format)
    ensures 0.0 < 1.0 / Span(f) <= 1.0
    ensures f.bits > 0 ==> 1.0 / Span(f) <= 0.5
  {
    hide Span;
    var s := Span(f);
    DivideOver(1.0, s, 1.0);
    DivideOver(1.0, s, 0.5);
    DivideOver(1.0, s, 0.0);
    if f.bits > 0 {
      SpanAtLeastTwo(f);
    }
  }

  lemma SpanAtLeastTwo(f: Format)
    requires f.bits > 0
    ensures Span(f) >= 2.0
  {
  }

  /** Moving a divisor to the other side. */
  lemma DivideOver(a: real, s: real, b: real)
    requires s > 0.0
    ensures a / s <= b <==> a <= b * s
    ensures a / s >= b <==> a >= b * s
  {
    var q := a / s;
    assert q * s == a;
    if q < b {
      TimesLess(q, b, s);
    } else if q > b {
      TimesLess(b, q, s);
    }
  }

  lemma ReachesOne(f: Format, k: nat)
    requires k + f.bits >= f.low
    ensures Unit(f, k) >= 1.0 / Span(f)
  {
    hide Unit;
    UnitOne(f);
    UnitSum(f, k, f.bits);
    UnitGrows(f, f.low, k + f.bits);
    DivideOver(1.0, Span(f), Unit(f, k));
  }

  lemma StopsBelowHalf(f: Format, k: nat)
    requires k + f.bits < f.low
    ensures Unit(f, k) * Span(f) <= 0.5
  {
    hide Unit;
    UnitOne(f);
    UnitSum(f, k, f.bits);
    UnitNext(f, k + f.bits);
    UnitGrows(f, k + f.bits + 1, f.low);
  }

  lemma WholeSteps(m: nat, n: nat, u: real, x: real)
    requires u > 0.0 && x == m as real * u && n as real * u == 1.0
    ensures x > 1.0 ==> x - 1.0 >= u
    ensures x < 1.0 ==> 1.0 - x >= u
  {
    if m > n {
      OneStepApart(m as real, n as real, u, x);
    } else if m < n {
      OneStepApart(n as real, m as real, u, 1.0);
    }
  }

  lemma OneStepApart(a: real, b: real, u: real, x: real)
    requires a - b >= 1.0 && u > 0.0 && x == a * u
    ensures x - b * u >= u
  {
    var rest := (a - b - 1.0) * u;
    assert rest >= 0.0 && rest == a * u - b * u - u;
  }

  // ----- Both formats ---------------------------------------------------------------------

  /** What both formats have room for. */
  lemma Room(f: Format)
    requires Usual(f)
    ensures 24 <= f.bits <= f.low && f.low + f.bits + 1 <= f.top && f.bits + 24 <= f.low
  {
  }

  lemma PowersAt(f: Format)
    requires Usual(f)
    ensures f == SINGLE ==> Pow2(f.bits) == 0x100_0000
    ensures f == DOUBLE ==> Pow2(f.bits) == 0x20_0000_0000_0000
  {
    hide Pow2;
    Powers();
  }

  lemma {:induction false} Pow2Grows(a: nat, b: nat)
    requires a <= b
    ensures Pow2(a) <= Pow2(b)
    decreases b
  {
    if a < b {
      Pow2Grows(a, b - 1);
    }
  }

  /** Where the formats end: at 2^128 and 2^1024, a little less. */
  lemma LimitIs(f: Format)
    requires Usual(f)
    ensures Pow2(f.top - f.low) as real < Limit(f) < Pow2(f.top - f.low + f.bits) as real
  {
    hide Unit, Pow2;
    Room(f);
    UnitOne(f);
    UnitSum(f, f.low, f.top - f.low);
    UnitSum(f, f.low, f.top - f.low + f.bits);
    UnitSum(f, f.top, f.bits);
    PowersAt(f);
    var u := Unit(f, f.top);
    TimesLess(1.0, Span(f) - 0.5, u);
    TimesLess(Span(f) - 0.5, Span(f), u);
  }

  /** Millionths are normal magnitudes. */
  lemma MillionthIsNormal(f: Format)
    requires Usual(f)
    ensures Normal(f) <= 0.0000001
  {
    hide Unit, Pow2;
    Room(f);
    NormalIs(f);
    UnitGrows(f, f.bits - 1, f.low - 24);
    SmallUnit(f, 24);
    Powers();
  }

  lemma NormalIs(f: Format)
    requires f.bits > 0
    ensures Normal(f) == Unit(f, f.bits - 1)
  {
    hide Unit, Pow2;
    UnitSum(f, 0, f.bits - 1);
    Carry(f, 0);
  }

  /** Unit low - j is 2^-j. */
  lemma SmallUnit(f: Format, j: nat)
    requires j <= f.low
    ensures Unit(f, f.low - j) == 1.0 / Pow2(j) as real
  {
    hide Unit;
    UnitOne(f);
    UnitSum(f, f.low - j, j);
    DivideOver(1.0, Pow2(j) as real, Unit(f, f.low - j));
  }

  /** A normal magnitude does not round to zero. */
  lemma NormalIsNotLost(f: Format, x: real)
    requires f.bits > 0 && x >= Normal(f)
    ensures Nearest(f, x) > 0.0
  {
    hide Nearest, Normal, Span;
    RelativeError(f, x);
    SpanAtLeastTwo(f);
    DivideOver(x, Span(f), 0.5 * x);
    TimesGrows(2.0, Span(f), 0.5 * x);
  }

  /** Rounding next to 2^-j spacings, in numbers. */
  lemma NearestBy(f: Format, x: real, j: nat, n: nat, span: real, u: real)
    requires Usual(f) && j < f.low && span == Span(f) && u == 1.0 / Pow2(j) as real
    requires 0.0 <= x < u * span <= 2.0 * x
    requires (n as real - 0.5) * u < x < (n as real + 0.5) * u
    ensures Nearest(f, x) == n as real * u
  {
    hide Unit, Pow2, Nearest, Span;
    SmallUnit(f, j);
    Room(f);
    NearestAt(f, x, f.low - j, n);
  }

  // ----- The nearest value --------------------------------------------------------------------

  /** How far apart two numbers are. */
  function Gap(a: real, b: real): (g: real)
    ensures g >= 0.0
  {
    if a < b then b - a else a - b
  }

  lemma GapScaled(a: real, b: real, u: real, au: real, bu: real)
    requires u > 0.0 && au == a * u && bu == b * u
    ensures Gap(au, bu) == Gap(a, b) * u
  {
    var d := a - b;
    assert d * u == au - bu;
    if d < 0.0 {
      TimesLess(d, 0.0, u);
    } else {
      TimesGrows(0.0, d, u);
    }
  }

  lemma RoundIsNearest(t: real, n: nat)
    requires t >= 0.0
    ensures Gap(Round(t) as real, t) <= Gap(n as real, t)
  {
    hide Round;
    var r := Round(t);
    if n < r {
      assert n as real + 1.0 <= r as real;
    } else if n > r {
      assert r as real + 1.0 <= n as real;
    }
  }

  /** A multiple of the spacing is no nearer than what x rounds to. */
  lemma MultipleIsNoNearer(f: Format, x: real, n: nat, b: real)
    requires x >= 0.0 && b == n as real * Spacing(f, x)
    ensures Gap(Nearest(f, x), x) <= Gap(b, x)
  {
    hide Round, Spacing, Gap;
    var u := Spacing(f, x);
    QuotientSign(x, u);
    var t := x / u;
    RoundIsNearest(t, n);
    GapScaled(Round(t) as real, t, u, Nearest(f, x), x);
    GapScaled(n as real, t, u, b, x);
    TimesGrows(Gap(Round(t) as real, t), Gap(n as real, t), u);
  }

  /** No value of the format is nearer to x than what x rounds to. */
  lemma NearestIsNearest(f: Format, x: real, b: real)
    requires f.bits > 0 && x >= 0.0 && Has(f, b)
    ensures Gap(Nearest(f, x), x) <= Gap(b, x)
  {
    hide Unit, Pow2, Round, Nearest, Spacing, Scale;
    var m: nat, k: nat :| Is(f, b, m, k);
    var s := Scale(f, x, 0);
    SpacingIsUnit(f, x);
    if k >= s {
      UnitSum(f, s, k - s);
      Regroup(m as real, Pow2(k - s) as real, Unit(f, s));
      MultipleIsNoNearer(f, x, m * Pow2(k - s), b);
    } else {
      LowerValue(f, x, b, m, k, s, Unit(f, s - 1) * Span(f));
    }
  }

  lemma LowerValue(f: Format, x: real, b: real, m: nat, k: nat, s: nat, edge: real)
    requires f.bits > 0 && x >= 0.0 && Is(f, b, m, k) && k < s == Scale(f, x, 0)
    requires edge == Unit(f, s - 1) * Span(f)
    ensures Gap(Nearest(f, x), x) <= Gap(b, x)
  {
    hide Unit, Pow2, Round, Nearest, Spacing, Scale, Span;
    ScaleIsFirst(f, x, 0);
    BelowSpan(f, m, Unit(f, k), b);
    UnitGrows(f, k, s - 1);
    Below(b, Unit(f, k), Unit(f, s - 1), Span(f), edge);
    NearerBoundary(f, x, s, edge);
    assert b < edge <= x;
  }

  lemma Below(x: real, u: real, v: real, s: real, h: real)
    requires x < u * s && u <= v && s > 0.0 && v * s == h
    ensures x < h
  {
    TimesGrows(u, v, s);
  }

  lemma SpacingIsUnit(f: Format, x: real)
    ensures Spacing(f, x) == Unit(f, Scale(f, x, 0))
  {
  }

  /** The bottom of the binade is a multiple of the spacing. */
  lemma NearerBoundary(f: Format, x: real, s: nat, b: real)
    requires f.bits > 0 && x >= 0.0 && s > 0 && s == Scale(f, x, 0) && b == Unit(f, s - 1) * Span(f)
    ensures Gap(Nearest(f, x), x) <= Gap(b, x)
  {
    hide Unit, Pow2, Round, Nearest, Spacing, Scale;
    SpacingIsUnit(f, x);
    Carry(f, s - 1);
    MultipleIsNoNearer(f, x, Pow2(f.bits - 1), b);
  }

  /** What lies no farther from n than something that rounds to n rounds to n, ties included. */
  lemma RoundAgain(t: real, r: real, n: nat)
    requires t >= 0.0 && r >= 0.0 && Round(t) == n && Gap(r, n as real) <= Gap(t, n as real)
    ensures Round(r) == n && n as real - 0.5 <= r <= n as real + 0.5
    ensures n % 2 == 1 ==> r < n as real + 0.5
  {
  }
}
