/** How far a number set through a factor is from the number read back, in float and double
    arithmetic. */
module Accuracy {
  import opened Rounding
  import opened Numerals

  lemma Share(s: real, a: real, b: real)
    requires s >= 1000.0 && 0.0 <= a <= b
    ensures 0.0 <= a / s <= b / s && a / s <= a / 1000.0
    ensures (a + b) / s == a / s + b / s
  {
    var p, q := a / s, b / s;
    assert p * s == a && q * s == b;
    DivideOver(a, s, q);
    DivideOver(a, s, 0.0);
    DivideOver(a, s, a / 1000.0);
    TimesGrows(1000.0, s, a / 1000.0);
    assert (p + q) * s == a + b;
  }

  lemma SpanIsLarge(f: Format)
    requires Usual(f)
    ensures Span(f) >= 1000.0
  {
    hide Pow2;
    PowersAt(f);
  }

  /** Dividing by c, and multiplying by c, rounding the result. */
  function Divided(f: Format, v: real, c: real): (y: real)
    requires v >= 0.0 && c > 0.0
    ensures y >= 0.0
  {
    DivideOver(v, c, 0.0);
    Nearest(f, v / c)
  }

  function Multiplied(f: Format, y: real, c: real): (z: real)
    requires y >= 0.0 && c > 0.0
    ensures z >= 0.0
  {
    TimesGrows(0.0, y, c);
    Nearest(f, y * c)
  }

  /** Half the smallest spacing, times any value of the format, is at most 2^-22. */
  lemma TailIsSmall(f: Format, c: real)
    requires Usual(f) && 0.0 < c < Limit(f)
    ensures Unit(f, 0) / 2.0 * c <= 1.0 / 4194304.0
  {
    hide Unit, Pow2, Limit;
    LimitIs(f);
    UnitOne(f);
    UnitSum(f, 0, f.low);
    var a, b, u := Pow2(f.low) as real, Pow2(f.top - f.low + f.bits) as real, Unit(f, 0);
    TailPowers(f);
    TimesGrows(c, b, u / 2.0);
    TimesGrows(b * 2097152.0, a, u);
    assert b * 2097152.0 * u == 2097152.0 * (b * u);
  }

  lemma TailPowers(f: Format)
    requires Usual(f)
    ensures Pow2(f.top - f.low + f.bits) as real * 2097152.0 <= Pow2(f.low) as real
  {
    hide Pow2;
    Pow2Sum(f.top - f.low + f.bits, 21);
    Pow2Grows(f.top - f.low + f.bits + 21, f.low);
    Powers();
    Pow2Next(20);
  }

  lemma DividedError(f: Format, v: real, c: real, p: real)
    requires Usual(f) && v >= 0.0 && 0.0 < c < Limit(f) && p == Divided(f, v, c) * c
    ensures v - v / Span(f) <= p <= v + v / Span(f) || v - 1.0 / 4194304.0 <= p <= v + 1.0 / 4194304.0
  {
    hide Nearest, Span, Limit, Usual, Spacing, Unit;
    DivideOver(v, c, 0.0);
    NearestError(f, v / c);
    SpacingIsSmall(f, v / c);
    EitherError(f, v, c, v / c, Divided(f, v, c), Spacing(f, v / c), p);
  }

  lemma EitherError(f: Format, v: real, c: real, t: real, y: real, u: real, p: real)
    requires Usual(f) && 0.0 < c < Limit(f) && t * c == v && t >= 0.0 && p == y * c
    requires t - u / 2.0 <= y <= t + u / 2.0 && (u == Unit(f, 0) || u * Span(f) <= 2.0 * t)
    ensures v - v / Span(f) <= p <= v + v / Span(f) || v - 1.0 / 4194304.0 <= p <= v + 1.0 / 4194304.0
  {
    hide Span, Limit, Usual, Unit;
    if u == Unit(f, 0) {
      TailIsSmall(f, c);
      ScaleBounds(t, y, u / 2.0, c);
    } else {
      var e := t / Span(f);
      HalfQuotient(u, Span(f), t);
      RegroupQuotient(t, Span(f), c, v);
      ScaleBounds(t, y, e, c);
    }
  }

  lemma Shrinks(s: real, v: real, p: real)
    requires s >= 1000.0 && v >= 0.0 && v - v / s <= p
    ensures p >= v / 2.0
  {
    Share(s, v, v);
  }

  lemma ZeroDivided(f: Format, c: real)
    requires c > 0.0
    ensures Divided(f, 0.0, c) == 0.0
  {
    hide Nearest;
    assert 0.0 / c == 0.0;
    ZeroStays(f);
  }

  lemma ScaleBoundsOf(t: real, y: real, e: real, c: real, v: real, p: real, ec: real)
    requires t - e <= y <= t + e && c > 0.0 && v == t * c && p == y * c && ec == e * c
    ensures v - ec <= p <= v + ec
  {
    ScaleBounds(t, y, e, c);
  }

  lemma ScaleBounds(t: real, y: real, e: real, c: real)
    requires t - e <= y <= t + e && c > 0.0
    ensures t * c - e * c <= y * c <= t * c + e * c
  {
    TimesGrows(t - e, y, c);
    TimesGrows(y, t + e, c);
  }

  lemma RegroupQuotient(t: real, s: real, c: real, v: real)
    requires s > 0.0 && t * c == v
    ensures t / s * c == v / s
  {
    ProductOver(c, t, s);
  }

  lemma FixedError(f: Format, q: nat)
    requires Usual(f)
    ensures var x := FixedValue(q); x - x / Span(f) <= Nearest(f, x) <= x + x / Span(f)
    ensures Nearest(f, FixedValue(q)) == 0.0 || Nearest(f, FixedValue(q)) >= 0.0000005
  {
    hide Nearest, Span, Normal;
    SpanIsLarge(f);
    Room(f);
    MillionthIsNormal(f);
    RelativeError(f, FixedValue(q));
    if q == 0 {
      ZeroStays(f);
    } else {
      Shrinks(Span(f), FixedValue(q), Nearest(f, FixedValue(q)));
    }
  }

  /** The spacing below 2^(bits - 22) is at most 2^-22. */
  lemma BelowReach(f: Format, x: real)
    requires Usual(f) && 0.0 <= x < Pow2(f.bits - 22) as real
    ensures x - 1.0 / 8388608.0 <= Nearest(f, x) <= x + 1.0 / 8388608.0
    ensures x / Span(f) <= 1.0 / 4194304.0
  {
    hide Unit, Nearest, Pow2;
    Room(f);
    ReachIs(f);
    NearestWithin(f, x, f.low - 22);
    DivideOver(x, Span(f), 1.0 / 4194304.0);
  }

  lemma ReachIs(f: Format)
    requires Usual(f)
    ensures Unit(f, f.low - 22) == 1.0 / 4194304.0 && Pow2(f.bits - 22) as real == Span(f) * (1.0 / 4194304.0)
  {
    hide Unit, Pow2;
    Room(f);
    SmallUnit(f, 22);
    PowersBelow();
    Pow2Sum(f.bits - 22, 22);
  }

  /** The errors of reading x, dividing and multiplying add up to less than half a millionth. */
  lemma ThreeErrors(x: real, v: real, p: real, z: real)
    requires x - 1.0 / 8388608.0 <= v <= x + 1.0 / 8388608.0
    requires v - 1.0 / 4194304.0 <= p <= v + 1.0 / 4194304.0
    requires p - 1.0 / 8388608.0 <= z <= p + 1.0 / 8388608.0
    ensures x - 0.00000049 <= z <= x + 0.00000049
  {
  }

  /** Six decimals below 2^(bits - 22), 2^31 for double and 4 for float, come back through any
      factor. */
  lemma SixDecimalsReturn(f: Format, q: nat, c: real)
    requires Usual(f) && 0.0 < c < Limit(f) && q < Pow2(f.bits - 22) * MILLION
    ensures Divided(f, Nearest(f, FixedValue(q)), c) * c < Pow2(f.bits - 22) as real
    ensures Round(Multiplied(f, Divided(f, Nearest(f, FixedValue(q)), c), c) * 1000000.0) == q
  {
    hide Nearest, Span, Divided, Multiplied, Usual, Round, Pow2, Limit;
    Room(f);
    var v := Nearest(f, FixedValue(q));
    BelowByMillionth(q, Pow2(f.bits - 22));
    BelowReach(f, FixedValue(q));
    BelowReach(f, v);
    var p := Divided(f, v, c) * c;
    DividedError(f, v, c, p);
    WrittenAndRead(f, FixedValue(q), v, Divided(f, v, c), c, p);
    HalfWay(Multiplied(f, Divided(f, v, c), c) * 1000000.0, q);
  }

  lemma WrittenAndRead(f: Format, x: real, v: real, y: real, c: real, p: real)
    requires Usual(f) && y >= 0.0 && c > 0.0 && p == y * c && x <= Pow2(f.bits - 22) as real - 0.000001
    requires x - 1.0 / 8388608.0 <= v <= x + 1.0 / 8388608.0
    requires v - 1.0 / 4194304.0 <= p <= v + 1.0 / 4194304.0
    ensures p < Pow2(f.bits - 22) as real
    ensures x - 0.00000049 <= Multiplied(f, y, c) <= x + 0.00000049
  {
    hide Nearest, Multiplied, Usual, Pow2;
    Room(f);
    MultipliedIs(f, y, c, p);
    BelowReach(f, p);
    ThreeErrors(x, v, p, Nearest(f, p));
  }

  lemma BelowByMillionth(q: nat, b: nat)
    requires q < b * MILLION
    ensures FixedValue(q) <= b as real - 0.000001
  {
  }

  lemma ReachFits(f: Format)
    requires Usual(f)
    ensures Pow2(f.bits - 22) as real < Limit(f)
  {
    hide Pow2, Limit;
    Room(f);
    Pow2Grows(f.bits - 22, f.top - f.low);
    LimitIs(f);
  }

  /** What the printing and a subnormal quotient add to the error of writing a reply back. */
  function Slack(f: Format, t: real): (d: real)
    ensures d >= 0.0000005
  {
    if 0.0 < t < Normal(f) then 0.000001 else 0.0000005
  }

  lemma NormalDivided(f: Format, v: real, c: real, p: real)
    requires v >= 0.0 && c > 0.0 && (v / c >= Normal(f) || v == 0.0) && p == Divided(f, v, c) * c
    ensures v - v / Span(f) <= p <= v + v / Span(f)
  {
    hide Nearest, Span, Normal;
    if v == 0.0 {
      ZeroDivided(f, c);
      DivideOver(0.0, Span(f), 0.0);
    } else {
      DivideOver(v, c, 0.0);
      RelativeError(f, v / c);
      var t := v / c;
      assert t * c == v;
      RegroupQuotient(t, Span(f), c, v);
      ScaleBoundsOf(t, Nearest(f, t), t / Span(f), c, v, p, v / Span(f));
    }
  }

  /** One millionth is close to the value next to it. */
  lemma MillionthRead(f: Format)
    requires Usual(f)
    ensures 0.000001 - 0.00000042 / Span(f) <= Nearest(f, 0.000001) <= 0.000001 + 0.00000042 / Span(f)
  {
    hide Nearest, Pow2;
    SmallPowers();
    if f == SINGLE {
      SpanOfSingle();
      NearestBy(f, 0.000001, 43, 8796093, 16777216.0, 1.0 / 8796093022208.0);
    } else {
      SpanOfDouble();
      NearestBy(f, 0.000001, 72, 4722366482869645, 9007199254740992.0, 1.0 / 4722366482869645213696.0);
    }
  }

  lemma SmallPowers()
    ensures Pow2(43) == 8796093022208 && Pow2(72) == 4722366482869645213696
  {
    hide Pow2;
    PowersBelow();
    Powers();
    Pow2Sum(20, 23);
    Pow2Sum(53, 19);
  }

  /** A share of at most k times x. */
  lemma ShareOfTimes(s: real, a: real, x: real, k: real)
    requires s >= 1000.0 && 0.0 <= a <= k * x && x >= 0.0 && k >= 0.0
    ensures 0.0 <= a / s <= k * (x / s)
  {
    Share(s, a, k * x);
    ProductOver(x, k, s);
  }

  /** The errors of scaling x, printing, reading and dividing, for a reply of r millionths: no
      more than half a millionth and four shares of x, or a whole one. */
  lemma FourErrors(s: real, x: real, p: real, r: nat, v: real, b: real, d: real)
    requires s >= 1000.0 && x >= 0.0 && p >= 0.0 && v >= 0.0 && r > 0
    requires x - x / s <= p <= x + x / s && p - 0.0000005 <= FixedValue(r) <= p + 0.0000005
    requires r > 1 ==> FixedValue(r) - FixedValue(r) / s <= v <= FixedValue(r) + FixedValue(r) / s
    requires r == 1 ==> 0.000001 - 0.00000042 / s <= v <= 0.000001 + 0.00000042 / s
    requires (d == 0.0000005 && v - v / s <= b <= v + v / s)
      || (d == 0.000001 && v - 1.0 / 4194304.0 <= b <= v + 1.0 / 4194304.0)
    ensures x - 4.0 * (x / s) - d <= b <= x + 4.0 * (x / s) + d
  {
    hide FixedValue;
    ReplySize(r);
    Share(s, 0.0, x);
    Share(s, x, x);
    if r == 1 {
      SharesOfOne(s, x, p, v);
      SumOfFour(x, x / s, p, 0.000001, v, b, d, 0.00000042 / s, v / s);
    } else {
      SharesOfMore(s, x, p, FixedValue(r), v);
      SumOfFour(x, x / s, p, FixedValue(r), v, b, d, FixedValue(r) / s, v / s);
    }
  }

  lemma SharesOfOne(s: real, x: real, p: real, v: real)
    requires s >= 1000.0 && x >= 0.0 && v >= 0.0 && p <= x + x / s && p >= 0.0000005
    requires v <= 0.000001 + 0.00000042 / s
    ensures 0.0 <= 0.00000042 / s <= 0.9 * (x / s) && 0.0 <= v / s <= 2.05 * (x / s)
  {
    Share(s, x, x);
    Share(s, 0.00000042, 0.00000042);
    ShareOfTimes(s, 0.00000042, x, 0.9);
    ShareOfTimes(s, v, x, 2.05);
  }

  lemma SharesOfMore(s: real, x: real, p: real, y: real, v: real)
    requires s >= 1000.0 && x >= 0.0 && v >= 0.0 && p <= x + x / s && y >= 0.000002 && y <= p + 0.0000005
    requires v <= y + y / s
    ensures 0.0 <= y / s <= 1.4 * (x / s) && 0.0 <= v / s <= 1.45 * (x / s)
  {
    Share(s, x, x);
    Share(s, y, y);
    ShareOfTimes(s, y, x, 1.4);
    ShareOfTimes(s, v, x, 1.45);
  }

  lemma ReplySize(r: nat)
    ensures r == 1 ==> FixedValue(r) == 0.000001
    ensures r > 1 ==> FixedValue(r) >= 0.000002
  {
  }

  lemma SumOfFour(x: real, e: real, p: real, y: real, v: real, b: real, d: real, g: real, h: real)
    requires e >= 0.0 && x - e <= p <= x + e && p - 0.0000005 <= y <= p + 0.0000005
    requires 0.0 <= g <= 1.4 * e && y - g <= v <= y + g && g + h <= 3.0 * e
    requires (d == 0.0000005 && v - h <= b <= v + h)
      || (d == 0.000001 && v - 1.0 / 4194304.0 <= b <= v + 1.0 / 4194304.0)
    ensures x - 4.0 * e - d <= b <= x + 4.0 * e + d
  {
  }

  /** Reading x through the factor c, printing it, and writing the text back: what is stored,
      times the factor, is as close to what was stored as the printing allows. */
  lemma PrintedReturns(f: Format, x: real, c: real, q: nat)
    requires Usual(f) && x >= 0.0 && 0.0 < c < Limit(f) && q == Round(Nearest(f, x) * 1000000.0)
    ensures var v := Nearest(f, FixedValue(q)); var b, d := Divided(f, v, c) * c, Slack(f, v / c);
      x - 4.0 * (x / Span(f)) - d <= b <= x + 4.0 * (x / Span(f)) + d
  {
    hide Nearest, Span, Divided, Slack, Usual, Round, Limit;
    SpanIsLarge(f);
    Share(Span(f), 0.0, x);
    PrintedError(f, x, q);
    var v := Nearest(f, FixedValue(q));
    if q == 0 {
      ZeroStays(f);
      ZeroDivided(f, c);
    } else {
      var b := Divided(f, v, c) * c;
      SlackCovers(f, v, c, b);
      ReplyReturns(f, x, Nearest(f, x), q, v, b, Slack(f, v / c));
    }
  }

  lemma ReplyReturns(f: Format, x: real, p: real, q: nat, v: real, b: real, d: real)
    requires Usual(f) && q > 0 && x >= 0.0 && p >= 0.0 && v == Nearest(f, FixedValue(q)) && q == Round(p * 1000000.0)
    requires x - x / Span(f) <= p <= x + x / Span(f)
    requires (d == 0.0000005 && v - v / Span(f) <= b <= v + v / Span(f))
      || (d == 0.000001 && v - 1.0 / 4194304.0 <= b <= v + 1.0 / 4194304.0)
    ensures x - 4.0 * (x / Span(f)) - d <= b <= x + 4.0 * (x / Span(f)) + d
  {
    hide Nearest, Span, Usual, Round;
    SpanIsLarge(f);
    if q == 1 {
      MillionthRead(f);
    } else {
      FixedError(f, q);
    }
    FourErrors(Span(f), x, p, q, v, b, d);
  }

  /** The error of scaling and printing. */
  lemma PrintedError(f: Format, x: real, q: nat)
    requires Usual(f) && x >= 0.0 && q == Round(Nearest(f, x) * 1000000.0)
    ensures q == 0 ==> x <= 0.0000005 + 4.0 * (x / Span(f))
    ensures q > 0 ==> x - x / Span(f) <= Nearest(f, x) <= x + x / Span(f)
  {
    hide Nearest, Span, Normal, Usual, Round;
    SpanIsLarge(f);
    Share(Span(f), 0.0, x);
    Share(Span(f), x, x);
    Room(f);
    MillionthIsNormal(f);
    if x < Normal(f) {
      AnyError(f, x);
      HalfWay(Nearest(f, x) * 1000000.0, 0);
    } else {
      RelativeError(f, x);
    }
  }

  lemma SlackCovers(f: Format, v: real, c: real, b: real)
    requires Usual(f) && v >= 0.0 && 0.0 < c < Limit(f) && b == Divided(f, v, c) * c
    ensures var d := Slack(f, v / c);
      || (d == 0.0000005 && v - v / Span(f) <= b <= v + v / Span(f))
      || (d == 0.000001 && v - 1.0 / 4194304.0 <= b <= v + 1.0 / 4194304.0)
  {
    hide Nearest, Span, Divided, Normal, Usual, Limit;
    DivideOver(v, c, 0.0);
    if 0.0 < v / c < Normal(f) {
      SubnormalDivided(f, v, c, b);
    } else {
      ZeroQuotient(v, c);
      NormalDivided(f, v, c, b);
    }
  }

  lemma ZeroQuotient(v: real, c: real)
    requires v >= 0.0 && c > 0.0
    ensures v / c == 0.0 ==> v == 0.0
  {
    assert v / c * c == v;
  }

  lemma SubnormalDivided(f: Format, v: real, c: real, p: real)
    requires Usual(f) && v >= 0.0 && 0.0 < c < Limit(f) && v / c < Normal(f) && p == Divided(f, v, c) * c
    ensures v - 1.0 / 4194304.0 <= p <= v + 1.0 / 4194304.0
  {
    hide Nearest, Span, Limit, Usual, Spacing, Unit, Normal;
    DivideOver(v, c, 0.0);
    NearestError(f, v / c);
    SubnormalSpacing(f, v / c);
    TailIsSmall(f, c);
    var t := v / c;
    assert t * c == v;
    ScaleBoundsOf(t, Nearest(f, t), Unit(f, 0) / 2.0, c, v, p, Unit(f, 0) / 2.0 * c);
  }

  lemma SubnormalSpacing(f: Format, t: real)
    requires Usual(f) && 0.0 <= t < Normal(f)
    ensures Spacing(f, t) == Unit(f, 0)
  {
    hide Unit, Span, Scale;
    Room(f);
    TimesGrows(Span(f) / 2.0, Span(f), Unit(f, 0));
    ScaleAtMost(f, t, 0);
  }

  // ----- What is printed can be read again ---------------------------------------------------

  /** What a value of the format is multiplied to prints in range. */
  lemma PrintFits(f: Format, x: real)
    requires Usual(f) && 0.0 <= x < Limit(f)
    ensures FixedValue(Round(Nearest(f, x) * 1000000.0)) < Limit(f)
  {
    hide Nearest, Unit, Pow2, Span, Limit, Round;
    Room(f);
    NearestHas(f, x);
    var y := Nearest(f, x);
    var m: nat, k: nat :| Is(f, y, m, k);
    WellBelow(f, y, m, k);
  }

  lemma WellBelow(f: Format, y: real, m: nat, k: nat)
    requires Usual(f) && Is(f, y, m, k)
    ensures y + 0.25 <= Limit(f)
  {
    hide Unit, Pow2, Span;
    Room(f);
    UnitGrows(f, k, f.top);
    UnitOne(f);
    UnitGrows(f, f.low, f.top);
    MantissaStep(f, m);
    ProductGap(m as real, Span(f) - 0.5, Unit(f, k), Unit(f, f.top));
  }

  lemma MantissaStep(f: Format, m: nat)
    requires m < Pow2(f.bits)
    ensures m as real <= Span(f) - 1.0
  {
    hide Pow2;
  }

  lemma ProductGap(a: real, b: real, u: real, v: real)
    requires 0.0 <= a <= b - 0.5 && 0.0 < u <= v && v >= 1.0
    ensures a * u + 0.25 <= b * v
  {
    TimesGrows(u, v, a);
    TimesGrows(a, b - 0.5, v);
    assert (b - 0.5) * v == b * v - 0.5 * v;
  }

  /** Values this large are at least 2^-20 apart. */
  lemma LargeIsCoarse(f: Format, x: real, m: nat, k: nat)
    requires Usual(f) && Is(f, x, m, k) && x > Pow2(f.bits - 20) as real - 0.000001
    ensures k >= f.low - 20
  {
    hide Unit, Pow2, Span;
    Room(f);
    HalfPower(f);
    BelowSpan(f, m, Unit(f, k), x);
    if k < f.low - 20 {
      UnitGrows(f, k, f.low - 21);
      Below(x, Unit(f, k), Unit(f, f.low - 21), Span(f), Pow2(f.bits - 20) as real / 2.0);
    }
  }

  lemma HalfPower(f: Format)
    requires Usual(f)
    ensures Unit(f, f.low - 21) * Span(f) == Pow2(f.bits - 20) as real / 2.0
    ensures Unit(f, f.low - 20) * Span(f) == Pow2(f.bits - 20) as real && Pow2(f.bits - 20) >= 16
  {
    hide Unit, Pow2;
    Room(f);
    UnitSum(f, f.low - 20, f.bits);
    UnitSum(f, f.low, f.bits - 20);
    UnitOne(f);
    UnitNext(f, f.low - 21);
    Pow2Grows(4, f.bits - 20);
    Powers();
  }

  /** Two different multiples of a spacing are that far apart. */
  lemma MultiplesApart(a: nat, b: nat, u: real, x: real, y: real)
    requires u > 0.0 && x == a as real * u && y == b as real * u && x < y
    ensures y - x >= u
  {
    if a >= b {
      TimesGrows(b as real, a as real, u);
    } else {
      OneStepApart(b as real, a as real, u, y);
    }
  }

  lemma CoarseScale(f: Format, y: real)
    requires Usual(f) && y >= Pow2(f.bits - 20) as real
    ensures Scale(f, y, 0) > f.low - 20
  {
    hide Unit, Pow2, Span, Scale;
    Room(f);
    HalfPower(f);
    ScaleIsFirst(f, y, 0);
    var s := Scale(f, y, 0);
    if s <= f.low - 20 {
      UnitGrows(f, s, f.low - 20);
      TimesGrows(Unit(f, s), Unit(f, f.low - 20), Span(f));
    }
  }

  /** A large value is a multiple of the spacing around the number it is printed as. */
  lemma PrintedSpacing(f: Format, x: real, m: nat, k: nat, y: real)
    requires Usual(f) && Is(f, x, m, k)
    requires x - 0.0000005 <= y <= x + 0.0000005 && y >= Pow2(f.bits - 20) as real
    ensures var s := Scale(f, y, 0); s <= k && s > f.low - 20
  {
    hide Unit, Pow2, Span, Scale, Is;
    Room(f);
    LargeIsCoarse(f, x, m, k);
    CoarseScale(f, y);
    ScaleIsFirst(f, y, 0);
    if k < Scale(f, y, 0) {
      NotAcross(f, x, m, k, y, Scale(f, y, 0));
    }
  }

  lemma NotAcross(f: Format, x: real, m: nat, k: nat, y: real, s: nat)
    requires Usual(f) && Is(f, x, m, k) && f.low - 20 <= k < s
    requires y >= Unit(f, s - 1) * Span(f)
    ensures y > x + 0.0000005
  {
    hide Unit, Pow2;
    Room(f);
    var u := Unit(f, k);
    BelowSpan(f, m, u, x);
    UnitGrows(f, k, s - 1);
    TimesGrows(u, Unit(f, s - 1), Span(f));
    MultiplesApart(m, Pow2(f.bits), u, x, Pow2(f.bits) as real * u);
    UnitGrows(f, f.low - 20, k);
    SmallUnit(f, 20);
    Powers();
  }

  /** From 2^(bits - 20) on the six decimals of a value are read as that value. */
  lemma LargeReadsExactly(f: Format, x: real, q: nat)
    requires Usual(f) && Has(f, x) && x >= 0.0 && q == Round(x * 1000000.0)
    requires FixedValue(q) >= Pow2(f.bits - 20) as real
    ensures Nearest(f, FixedValue(q)) == x
  {
    hide Unit, Pow2, Nearest, Round;
    var m: nat, k: nat :| Is(f, x, m, k);
    PrintedSpacing(f, x, m, k, FixedValue(q));
    PrintedNearest(f, x, m, k, FixedValue(q));
  }

  /** Every value of the format survives being printed: its six decimals, read back, print as
      the same six decimals. */
  lemma PrintedSurvives(f: Format, x: real, q: nat)
    requires Usual(f) && Has(f, x) && x >= 0.0 && q == Round(x * 1000000.0)
    ensures Survives(f, q)
  {
    hide Unit, Pow2, Nearest, Limit, Round, Survives;
    Room(f);
    Stays(f, x);
    PrintFits(f, x);
    var y := FixedValue(q);
    if y < Pow2(f.bits - 20) as real {
      SurvivesBelow(f, q);
    } else {
      LargeReadsExactly(f, x, q);
      ItSurvives(f, q);
    }
  }

  lemma ItSurvives(f: Format, q: nat)
    requires FixedValue(q) < Limit(f) && Round(Nearest(f, FixedValue(q)) * 1000000.0) == q
    ensures Survives(f, q)
  {
  }

  lemma PrintedNearest(f: Format, x: real, m: nat, k: nat, y: real)
    requires Usual(f) && Is(f, x, m, k) && y >= 0.0 && x - 0.0000005 <= y <= x + 0.0000005
    requires Scale(f, y, 0) <= k && Scale(f, y, 0) > f.low - 20
    ensures Nearest(f, y) == x
  {
    hide Unit, Pow2, Round, Scale;
    var s := Scale(f, y, 0);
    var u, n := Unit(f, s), m * Pow2(k - s);
    UnitSum(f, s, k - s);
    Regroup(m as real, Pow2(k - s) as real, u);
    UnitGrows(f, f.low - 19, s);
    SmallUnit(f, 19);
    PowersBelow();
    QuotientSign(y, u);
    NearMultiple(x, y, u, n);
  }

  lemma NearMultiple(x: real, y: real, u: real, n: nat)
    requires u >= 1.0 / 524288.0 && x == n as real * u && y >= 0.0 && x - 0.0000005 <= y <= x + 0.0000005
    ensures y / u >= 0.0 && Round(y / u) == n
  {
    hide Round;
    DivideOver(y, u, 0.0);
    var t := y / u;
    assert t * u == y;
    Difference(t, n as real, u, y, x);
    SmallFactor(t - n as real, u, y - x);
    HalfWay(t, n);
  }

  lemma Difference(a: real, b: real, u: real, au: real, bu: real)
    requires au == a * u && bu == b * u
    ensures (a - b) * u == au - bu
  {
  }

  lemma SmallFactor(d: real, u: real, e: real)
    requires u >= 1.0 / 524288.0 && d * u == e && -0.0000005 <= e <= 0.0000005
    ensures -0.5 < d < 0.5
  {
    if d >= 0.5 {
      TimesGrows(0.5, d, u);
    } else if d <= -0.5 {
      TimesGrows(d, -0.5, u);
    }
  }

  // ----- A product that comes back -------------------------------------------------------------

  /** A power of two that is a spacing of the format. */
  ghost predicate IsUnit(f: Format, p: real) { exists k: nat :: p == Unit(f, k) }

  /** Writing p back is no farther from it than the product p was rounded from: the quotient is
      the value of the format nearest to p / c. */
  lemma NoFarther(f: Format, a: real, c: real, x: real, p: real, b: real)
    requires Usual(f) && Has(f, a) && c > 0.0 && x == a * c && p >= 0.0 && b == Divided(f, p, c) * c
    ensures Gap(b, p) <= Gap(x, p)
  {
    hide Nearest, Has, Gap;
    DivideOver(p, c, 0.0);
    NoFartherTimes(f, a, c, x, p, p / c, b);
  }

  lemma NoFartherTimes(f: Format, a: real, c: real, x: real, p: real, t: real, b: real)
    requires Usual(f) && Has(f, a) && c > 0.0 && x == a * c && t >= 0.0 && t * c == p && b == Nearest(f, t) * c
    ensures Gap(b, p) <= Gap(x, p)
  {
    hide Nearest, Has, Gap;
    Room(f);
    NearestIsNearest(f, t, a);
    GapScaled(Nearest(f, t), t, c, b, p);
    GapScaled(a, t, c, x, p);
    TimesGrows(Gap(Nearest(f, t), t), Gap(a, t), c);
  }

  /** Where a rounded product lies among the multiples of its spacing: away from the ends of
      its binade. */
  lemma Inside(f: Format, x: real, s: nat, u: real, t: real, n: nat, p: real)
    requires Usual(f) && 0.0 <= x < Limit(f) && s == Scale(f, x, 0) && u == Unit(f, s) && u > 0.0
    requires t == x / u && t >= 0.0 && n == Round(t) && p == n as real * u && !IsUnit(f, p)
    ensures n < Pow2(f.bits) && (s > 0 ==> n > Pow2(f.bits - 1))
  {
    hide Unit, Pow2, Round, Scale, Limit, Span;
    Room(f);
    RoundsWithin(f, x, s, n);
    UnitSum(f, s, f.bits - 1);
    UnitSum(f, s, f.bits);
    assert p != Unit(f, s + (f.bits - 1)) && p != Unit(f, s + f.bits);
    if s > 0 {
      InUpperHalf(f, x, s, u, t);
      AtLeast(t, Pow2(f.bits - 1));
    }
  }

  lemma InUpperHalf(f: Format, x: real, s: nat, u: real, t: real)
    requires Usual(f) && x >= 0.0 && s > 0 && s == Scale(f, x, 0) && u == Unit(f, s) && u > 0.0 && t == x / u
    ensures f.bits > 0 && t >= Pow2(f.bits - 1) as real
  {
    hide Unit, Pow2, Scale;
    Room(f);
    ScaleIsFirst(f, x, 0);
    Carry(f, s - 1);
    DivideOver(x, u, Pow2(f.bits - 1) as real);
  }

  lemma AtLeast(t: real, n: nat)
    requires t >= n as real
    ensures Round(t) >= n
  {
    hide Round;
  }

  lemma RatioGap(x: real, y: real, p: real, u: real, n: nat)
    requires u > 0.0 && p == n as real * u && Gap(y, p) <= Gap(x, p)
    ensures Gap(y / u, n as real) <= Gap(x / u, n as real)
  {
    hide Gap;
    var t, r := x / u, y / u;
    assert t * u == x && r * u == y;
    GapScaled(t, n as real, u, x, p);
    GapScaled(r, n as real, u, y, p);
    if Gap(r, n as real) > Gap(t, n as real) {
      TimesLess(Gap(t, n as real), Gap(r, n as real), u);
    }
  }

  /** What is no farther from p than a number that rounds to p rounds to p, if p is no power of
      two. */
  lemma RoundsAlike(f: Format, x: real, y: real, p: real)
    requires Usual(f) && 0.0 <= x < Limit(f) && p == Nearest(f, x) && !IsUnit(f, p)
    requires y >= 0.0 && Gap(y, p) <= Gap(x, p)
    ensures Nearest(f, y) == p && y < Limit(f)
  {
    hide Unit, Pow2, Round, Scale, Span, Limit, Gap, IsUnit;
    var s := Scale(f, x, 0);
    var u := Unit(f, s);
    QuotientSign(x, u);
    QuotientSign(y, u);
    var n := Round(x / u);
    Inside(f, x, s, u, x / u, n, p);
    RatioGap(x, y, p, u, n);
    RoundAgain(x / u, y / u, n);
    SameScale(f, y, s, n);
    StillBelowLimit(f, y, s, n);
  }

  lemma SameScale(f: Format, y: real, s: nat, n: nat)
    requires Usual(f) && y >= 0.0 && s <= f.top && n < Pow2(f.bits) && (s > 0 ==> n > Pow2(f.bits - 1))
    requires n as real - 0.5 <= y / Unit(f, s) <= n as real + 0.5
    ensures Scale(f, y, 0) == s
  {
    hide Unit, Pow2, Scale;
    Room(f);
    var u := Unit(f, s);
    QuotientSign(y, u);
    Carry(f, s);
    BinadeBounds(y / u, u, y, Span(f));
    ScaleIs(f, y, s);
  }

  lemma BinadeBounds(t: real, u: real, y: real, span: real)
    requires u > 0.0 && t * u == y && t < span
    ensures y < u * span && (t >= span / 2.0 ==> u * span <= 2.0 * y)
  {
    TimesLess(t, span, u);
    if t >= span / 2.0 {
      TimesGrows(span, 2.0 * t, u);
      assert 2.0 * t * u == 2.0 * (t * u);
    }
  }

  lemma StillBelowLimit(f: Format, y: real, s: nat, n: nat)
    requires Usual(f) && y >= 0.0 && s <= f.top && n < Pow2(f.bits)
    requires y / Unit(f, s) <= n as real + 0.5 && (n % 2 == 1 ==> y / Unit(f, s) < n as real + 0.5)
    ensures y < Limit(f)
  {
    hide Unit, Pow2;
    Room(f);
    var u := Unit(f, s);
    QuotientSign(y, u);
    TopIsOdd(f, n);
    UnitGrows(f, s, f.top);
    BelowProduct(y / u, Span(f) - 0.5, u, Unit(f, f.top), y);
  }

  lemma TopIsOdd(f: Format, n: nat)
    requires f.bits > 0 && n < Pow2(f.bits)
    ensures n as real + 0.5 <= Span(f) - 0.5
    ensures n as real + 0.5 == Span(f) - 0.5 ==> n % 2 == 1
  {
    hide Unit, Pow2;
    Carry(f, 0);
  }

  lemma BelowProduct(t: real, b: real, u: real, v: real, y: real)
    requires 0.0 <= t < b && 0.0 < u <= v && y == t * u
    ensures y < b * v
  {
    ProductsCompare(t, b, u, v);
  }

  /** Multiplying a value by c, dividing and multiplying again gives the same product, unless
      that is a power of two. */
  lemma ProductReturns(f: Format, a: real, c: real, x: real)
    requires Usual(f) && Has(f, a) && c > 0.0 && x == a * c && 0.0 <= x < Limit(f)
    requires !IsUnit(f, Nearest(f, x))
    ensures var y := Divided(f, Nearest(f, x), c);
      y * c < Limit(f) && Multiplied(f, y, c) == Nearest(f, x)
  {
    hide Nearest, Limit, Divided, Multiplied, Usual, Has, IsUnit;
    var p := Nearest(f, x);
    var y := Divided(f, p, c);
    var b := y * c;
    MultipliedIs(f, y, c, b);
    ReturnsAs(f, a, c, x, p, b);
  }

  lemma MultipliedIs(f: Format, y: real, c: real, b: real)
    requires y >= 0.0 && c > 0.0 && b == y * c
    ensures b >= 0.0 && Multiplied(f, y, c) == Nearest(f, b)
  {
    hide Nearest;
    TimesGrows(0.0, y, c);
  }

  lemma ReturnsAs(f: Format, a: real, c: real, x: real, p: real, b: real)
    requires Usual(f) && Has(f, a) && c > 0.0 && x == a * c && 0.0 <= x < Limit(f) && p == Nearest(f, x)
    requires !IsUnit(f, p) && b == Divided(f, p, c) * c && b >= 0.0
    ensures b < Limit(f) && Nearest(f, b) == p
  {
    hide Nearest, Has, Gap, Limit, IsUnit, Divided;
    NoFarther(f, a, c, x, p, b);
    RoundsAlike(f, x, b, p);
  }

  // ----- A factor other than one shows ------------------------------------------------------

  lemma NaturalSurvives(f: Format, n: nat)
    requires Usual(f) && n <= Pow2(f.bits)
    ensures Survives(f, n * MILLION) && FixedValue(n * MILLION) == n as real && Nearest(f, n as real) == n as real
  {
    hide Nearest, Limit, Round, Pow2, Unit;
    Room(f);
    if n < Pow2(f.bits) {
      NaturalsStay(f, n);
    } else {
      SpanStays(f);
    }
    HalfWay(n as real * 1000000.0, n * MILLION);
  }

  lemma SpanStays(f: Format)
    requires Usual(f)
    ensures Nearest(f, Span(f)) == Span(f) && Span(f) < Limit(f)
  {
    hide Nearest, Limit, Pow2, Unit;
    Room(f);
    PowersAt(f);
    UnitOne(f);
    UnitSum(f, f.low, f.bits);
    ItIs(f, Span(f), 1, f.low + f.bits, Unit(f, f.low + f.bits));
    Stays(f, Span(f));
  }

  lemma ApartRounds(x: real, n: nat)
    requires x >= 0.0 && (x - n as real >= 1.0 || n as real - x >= 1.0)
    ensures Round(x * 1000000.0) != n * MILLION
  {
    hide Round;
  }

  function Times(n: nat, c: real): (y: real)
    requires c >= 0.0
    ensures y >= 0.0
  {
    TimesGrows(0.0, n as real, c);
    n as real * c
  }

  lemma TimesIs(n: nat, c: real)
    requires c >= 0.0
    ensures Times(n, c) == n as real * c
  {
  }

  /** n, multiplied by c, prints as another number. */
  predicate Shows(f: Format, n: nat, c: real)
    requires c >= 0.0
  {
    Times(n, c) >= Limit(f) || Round(Nearest(f, Times(n, c)) * 1000000.0) != n * MILLION
  }

  /** Any value of the format but one shows: at one when it is far from one, at 2^bits when it
      is near. */
  lemma FactorShows(f: Format, c: real) returns (n: nat)
    requires Usual(f) && Has(f, c) && c != 1.0
    ensures c >= 0.0 && n <= Pow2(f.bits) && Shows(f, n, c)
  {
    hide Nearest, Limit, Round, Pow2, Unit;
    Stays(f, c);
    Room(f);
    PowersAt(f);
    if c == 0.0 || c >= 2.0 {
      n := 1;
      TimesIs(1, c);
      ApartRounds(c, 1);
    } else {
      n := Pow2(f.bits);
      TimesIs(n, c);
      NearFactorShows(f, c, Times(n, c));
    }
  }

  lemma NearFactorShows(f: Format, c: real, y: real)
    requires Usual(f) && Has(f, c) && 0.0 < c < 2.0 && c != 1.0 && y == Pow2(f.bits) as real * c
    ensures y >= 0.0 && Nearest(f, y) == y && Round(y * 1000000.0) != Pow2(f.bits) * MILLION
  {
    hide Nearest, Limit, Round, Pow2, Unit;
    Room(f);
    var m: nat, k: nat :| Is(f, c, m, k);
    ApartFromOne(f, c, m, k);
    ShiftStays(f, c, m, k, f.bits, y);
    Stays(f, y);
    Spread(Span(f), c, y);
    ApartRounds(y, Pow2(f.bits));
  }

  lemma Spread(s: real, c: real, y: real)
    requires s >= 1.0 && y == s * c && (c - 1.0 >= 1.0 / s || 1.0 - c >= 1.0 / s)
    ensures y - s >= 1.0 || s - y >= 1.0
  {
    var e := 1.0 / s;
    assert e * s == 1.0;
    if c - 1.0 >= e {
      TimesGrows(e, c - 1.0, s);
      assert (c - 1.0) * s == y - s;
    } else {
      TimesGrows(e, 1.0 - c, s);
      assert (1.0 - c) * s == s - y;
    }
  }

  // ----- Numbers that do not come back ------------------------------------------------------

  /** What stof reads is printed as another text. */
  predicate PrintsAs(text: string, other: string) {
    Stof(text).Number? && PrintDouble(Stof(text).value) == other
  }

  lemma SingleNear(q: nat, j: nat, u: real, n: nat, r: nat)
    requires j < 149 && u == 1.0 / Pow2(j) as real && u <= 1.0
    requires FixedValue(q) < u * 16777216.0 <= 2.0 * FixedValue(q)
    requires (n as real - 0.5) * u < FixedValue(q) < (n as real + 0.5) * u
    requires r as real - 0.5 < n as real * u * 1000000.0 < r as real + 0.5
    ensures PrintsAs(Fixed(false, q), Fixed(false, r))
    ensures q != r ==> !Survives(SINGLE, q)
  {
    hide Sto, Fixed, Nearest, Limit, Pow2, Round;
    SpanOfSingle();
    NearestBy(SINGLE, FixedValue(q), j, n, 16777216.0, u);
    HalfWay(n as real * u * 1000000.0, r);
    StoFixed(SINGLE, false, q);
    InSingle(FixedValue(q));
  }

  lemma SpanOfSingle()
    ensures Span(SINGLE) == 16777216.0
  {
    hide Pow2;
    Powers();
  }

  lemma InSingle(x: real)
    requires x < 16777216.0
    ensures x < Limit(SINGLE)
  {
    hide Pow2, Limit;
    Powers();
    LimitIs(SINGLE);
    Pow2Grows(24, 104);
  }

  lemma PowersBelow()
    ensures Pow2(13) == 8192 && Pow2(18) == 262144 && Pow2(19) == 524288 && Pow2(21) == 2097152 && Pow2(22) == 4194304
    ensures Pow2(23) == 8388608
  {
    Powers();
    Pow2Next(19);
    Pow2Next(20);
    Pow2Next(21);
    Pow2Next(22);
    Pow2Sum(4, 4);
    Pow2Sum(8, 4);
    Pow2Next(12);
  }

  /** 16.000001 is the first number of six decimals that a float does not keep. */
  lemma SixteenAndABit()
    ensures PrintsAs("16.000001", "16.000002")
    ensures !Survives(SINGLE, 16_000_001) && forall q: nat | q <= 16_000_000 :: Survives(SINGLE, q)
  {
    hide Sto, Survives, Pow2, Fixed, PrintDouble;
    PowersBelow();
    SingleNear(16_000_001, 19, 1.0 / 524288.0, 8388609, 16_000_002);
    SixteenTexts();
    forall q: nat | q <= 16_000_000
      ensures Survives(SINGLE, q)
    {
      Powers();
      if q < 16_000_000 {
        SurvivesBelow(SINGLE, q);
      } else {
        SixteenSurvives();
      }
    }
  }

  lemma SixteenSurvives()
    ensures Survives(SINGLE, 16_000_000)
  {
    hide Nearest, Limit, Round, Pow2;
    Powers();
    NaturalsStay(SINGLE, 16);
    HalfWay(16_000_000.0, 16_000_000);
  }

  lemma PadNext(n: nat, k: nat, d: nat)
    requires d < 10
    ensures PadNat(10 * n + d, k + 1) == PadNat(n, k) + [DigitChar(d)]
  {
  }

  lemma SixteenTexts()
    ensures Fixed(false, 16_000_001) == "16.000001" && Fixed(false, 16_000_002) == "16.000002"
  {
    hide PadNat;
    assert PrintNat(16) == "16";
    ZeroPads();
    PadNext(0, 5, 1);
    PadNext(0, 5, 2);
  }

  lemma ZeroPads()
    ensures PadNat(0, 5) == "00000"
  {
  }

  lemma LongNumberShortens()
    ensures PrintsAs("1234.567891", "1234.567871")
  {
    hide Sto, Survives, Pow2, Fixed, PrintDouble;
    PowersBelow();
    SingleNear(1_234_567_891, 13, 1.0 / 8192.0, 10_113_580, 1_234_567_871);
    LongTexts();
  }

  lemma LongTexts()
    ensures Fixed(false, 1_234_567_891) == "1234.567891" && Fixed(false, 1_234_567_871) == "1234.567871"
  {
    hide PadNat;
    assert PrintNat(1234) == "1234";
    assert PadNat(0, 0) == [] by { NoDigits(); }
    PadNext(0, 0, 5);
    PadNext(5, 1, 6);
    PadNext(56, 2, 7);
    PadNext(567, 3, 8);
    PadNext(5678, 4, 9);
    PadNext(56789, 5, 1);
    PadNext(5678, 4, 7);
    PadNext(56787, 5, 1);
  }

  lemma NoDigits()
    ensures PadNat(0, 0) == []
  {
  }

  lemma SpanOfDouble()
    ensures Span(DOUBLE) == 9007199254740992.0
  {
    hide Pow2;
    Powers();
  }

  lemma DoubleNear(x: real, j: nat, u: real, n: nat)
    requires j < 1074 && u == 1.0 / Pow2(j) as real
    requires 0.0 <= x < u * 9007199254740992.0 <= 2.0 * x
    requires (n as real - 0.5) * u < x < (n as real + 0.5) * u
    ensures Nearest(DOUBLE, x) == n as real * u
  {
    hide Nearest, Span, Pow2;
    SpanOfDouble();
    NearestBy(DOUBLE, x, j, n, 9007199254740992.0, u);
  }

  /** Beyond 2^31 a factor can change the sixth decimal of a double: 4125556391.650093 divided
      by seven and multiplied again. */
  lemma SeventhChanges()
    ensures var q := 4_125_556_391_650_093;
      && Nearest(DOUBLE, FixedValue(q)) == 8651918837861776.0 / 2097152.0
      && Divided(DOUBLE, Nearest(DOUBLE, FixedValue(q)), 7.0) == 4943953621635301.0 / 8388608.0
      && Round(Multiplied(DOUBLE, Divided(DOUBLE, Nearest(DOUBLE, FixedValue(q)), 7.0), 7.0) * 1000000.0) == q + 1
  {
    hide Nearest, Pow2, Round;
    PowersBelow();
    var v, y, z := 8651918837861776.0 / 2097152.0, 4943953621635301.0 / 8388608.0, 8651918837861777.0 / 2097152.0;
    DoubleNear(FixedValue(4_125_556_391_650_093), 21, 1.0 / 2097152.0, 8651918837861776);
    DoubleNear(v / 7.0, 23, 1.0 / 8388608.0, 4943953621635301);
    DoubleNear(y * 7.0, 21, 1.0 / 2097152.0, 8651918837861777);
    HalfWay(z * 1000000.0, 4_125_556_391_650_094);
  }

  // ----- Through double to float ------------------------------------------------------------

  /** A number below 2^13 is within 2^-40 of its double. */
  lemma DoubleIsClose(x: real)
    requires 0.0 <= x < 8192.0
    ensures x - 1.0 / 1073741824.0 <= Nearest(DOUBLE, x) <= x + 1.0 / 1073741824.0
  {
    hide Unit, Nearest, Pow2;
    Powers();
    SmallUnit(DOUBLE, 33);
    SpanOfDouble();
    NearestWithin(DOUBLE, x, 1041);
  }

  /** Six decimals below sixteen survive even the way through double to float. */
  lemma TwiceSurvives(q: nat)
    requires q < 16 * MILLION
    ensures Nearest(DOUBLE, FixedValue(q)) < 16777216.0
    ensures Round(Nearest(SINGLE, Nearest(DOUBLE, FixedValue(q))) * 1000000.0) == q
  {
    hide Unit, Nearest, Round, Pow2;
    var x, y := FixedValue(q), Nearest(DOUBLE, FixedValue(q));
    DoubleIsClose(x);
    Powers();
    SmallUnit(SINGLE, 20);
    SpanOfSingle();
    NearestWithin(SINGLE, y, 129);
    HalfWay(Nearest(SINGLE, y) * 1000000.0, q);
  }

  lemma TwiceShortens()
    ensures var y := Nearest(DOUBLE, FixedValue(1_234_567_891));
      y < 16777216.0 && Round(Nearest(SINGLE, y) * 1000000.0) == 1_234_567_871
  {
    hide Nearest, Round, Pow2;
    var y := Nearest(DOUBLE, FixedValue(1_234_567_891));
    DoubleIsClose(FixedValue(1_234_567_891));
    PowersBelow();
    SpanOfSingle();
    NearestBy(SINGLE, y, 13, 10_113_580, 16777216.0, 1.0 / 8192.0);
    HalfWay(10_113_580.0 / 8192.0 * 1000000.0, 1_234_567_871);
  }

  lemma SingleAt(x: real, j: nat, u: real, n: nat)
    requires j < 149 && u == 1.0 / Pow2(j) as real
    requires 0.0 <= x < u * 16777216.0 <= 2.0 * x
    requires (n as real - 0.5) * u < x < (n as real + 0.5) * u
    ensures Nearest(SINGLE, x) == n as real * u
  {
    hide Nearest, Span, Pow2;
    SpanOfSingle();
    NearestBy(SINGLE, x, j, n, 16777216.0, u);
  }

  /** From 4 on a factor can change the sixth decimal of a float: 7.000003 divided by seven and
      multiplied again. */
  lemma SeventhOfFloat()
    ensures var q := 7_000_003;
      && Nearest(SINGLE, FixedValue(q)) == 14680070.0 / 2097152.0
      && Divided(SINGLE, Nearest(SINGLE, FixedValue(q)), 7.0) == 8388611.0 / 8388608.0
      && Round(Multiplied(SINGLE, Divided(SINGLE, Nearest(SINGLE, FixedValue(q)), 7.0), 7.0) * 1000000.0) == q - 1
  {
    hide Nearest, Pow2, Round;
    PowersBelow();
    var v, y, z := 14680070.0 / 2097152.0, 8388611.0 / 8388608.0, 14680069.0 / 2097152.0;
    SingleAt(FixedValue(7_000_003), 21, 1.0 / 2097152.0, 14680070);
    SingleAt(v / 7.0, 23, 1.0 / 8388608.0, 8388611);
    SingleAt(y * 7.0, 21, 1.0 / 2097152.0, 14680069);
    HalfWay(z * 1000000.0, 7_000_002);
  }

  /** The product that a double dataref shows as 4125556391.650093 at factor seven, without
      being what those decimals are read as. */
  lemma SeventhShown()
    ensures var a := 4943953621635300.0 / 8388608.0;
      Has(DOUBLE, a) && Round(Nearest(DOUBLE, a * 7.0) * 1000000.0) == 4_125_556_391_650_093
  {
    hide Nearest, Pow2, Round, Unit;
    PowersBelow();
    Powers();
    var a := 4943953621635300.0 / 8388608.0;
    SmallUnit(DOUBLE, 23);
    ItIs(DOUBLE, a, 4943953621635300, 1051, Unit(DOUBLE, 1051));
    DoubleNear(a * 7.0, 21, 1.0 / 2097152.0, 8651918837861775);
    HalfWay(8651918837861775.0 / 2097152.0 * 1000000.0, 4_125_556_391_650_093);
  }

  /** A float product that rounds down to 32, and the quotient of 32 that does not come back. */
  lemma ThirtyTwoSlips()
    ensures var a := 13094413.0 / 16777216.0;
      && Has(SINGLE, a) && Nearest(SINGLE, a * 41.0) == 32.0 && Nearest(SINGLE, 32.0) == 32.0
      && Divided(SINGLE, 32.0, 41.0) == 13094412.0 / 16777216.0
      && Multiplied(SINGLE, Divided(SINGLE, 32.0, 41.0), 41.0) == 16777215.0 / 524288.0
      && Round(16777215.0 / 524288.0 * 1000000.0) == 31_999_998
  {
    hide Nearest, Pow2, Round, Unit;
    PowersBelow();
    Powers();
    var a := 13094413.0 / 16777216.0;
    SmallUnit(SINGLE, 24);
    ItIs(SINGLE, a, 13094413, 125, Unit(SINGLE, 125));
    SingleAt(a * 41.0, 18, 1.0 / 262144.0, 8388608);
    NaturalsStay(SINGLE, 32);
    SingleAt(32.0 / 41.0, 24, 1.0 / 16777216.0, 13094412);
    SingleAt(13094412.0 / 16777216.0 * 41.0, 19, 1.0 / 524288.0, 16777215);
    HalfWay(16777215.0 / 524288.0 * 1000000.0, 31_999_998);
  }
}
