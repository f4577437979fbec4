/** What reading gives back after writing, and writing after reading, for float and double
    datarefs and for float arrays. */
module RealTrips {
  import opened Prelude
  import opened Rounding
  import opened Numerals
  import opened Accuracy
  import opened JsonTree
  import opened Simulation
  import opened Datarefs
  import opened RoundTrips
  import A = ArrayText

  // ----- Float and double ------------------------------------------------------------

  /** A dataref read and written in format f. */
  predicate WritableReal(w: World, d: View, f: Format) {
    Usual(f) && Writable(w, d, if f == SINGLE then FloatType else DoubleType, RealShape)
  }

  lemma ReadIsScaled(w: World, d: View, m: Memory, f: Format, x: Double)
    requires WritableReal(w, d, f) && Stod(d.factor) == Number(x)
    ensures ReadOf(w, d, m) == Ok(PrintDouble(Mul(f, Rounded(f, ReadReal(w, m, d.handle.value)), Rounded(f, x))))
  {
    hide Sto, PrintDouble, Mul, Rounded, ReadReal;
  }

  lemma WriteIsScaled(w: World, d: View, m: Memory, f: Format, value: string, v: Double, x: Double)
    requires WritableReal(w, d, f) && Stod(d.factor) == Number(x) && Sto(f, value) == Number(v)
    ensures WriteOf(w, d, value).Ok?
    ensures ReadReal(w, m + WriteOf(w, d, value).value, d.handle.value) == Div(f, v, Rounded(f, x))
  {
    hide Sto, Div, Rounded;
    var y := Div(f, v, Rounded(f, x));
    assert WriteOf(w, d, value) == Ok(RealPatch(w, d.handle.value, y));
    assert (m + RealPatch(w, d.handle.value, y))[Cell(d.handle.value, 0)] == RealAtom(y);
  }

  /** What the factor is in the arithmetic: less than the format's limit. */
  lemma FactorFits(f: Format, text: string)
    requires Usual(f)
    ensures Stod(text).Number? && Rounded(f, Stod(text).value).Finite? ==> Rounded(f, Stod(text).value).mag < Limit(f)
  {
    hide Denoted, OutOf, Limit, Nearest;
    if Stod(text).Number? {
      RoundedStays(DOUBLE, Denoted(text).value);
      RoundedStays(f, Stod(text).value);
    }
  }

  /** So is the factor. */
  lemma FactorHas(f: Format, text: string)
    requires Usual(f)
    ensures Stod(text).Number? && Rounded(f, Stod(text).value).Finite? ==> Has(f, Rounded(f, Stod(text).value).mag)
  {
    hide Denoted, OutOf, Limit, Nearest, Has;
    if Stod(text).Number? {
      RoundedHas(DOUBLE, Denoted(text).value);
      RoundedHas(f, Stod(text).value);
    }
  }

  lemma RoundedHas(f: Format, d: Double)
    requires Usual(f)
    ensures Rounded(f, d).Finite? ==> Has(f, Rounded(f, d).mag)
  {
    hide Limit, Nearest;
    if d.Finite? && d.mag < Limit(f) {
      Room(f);
      NearestHas(f, d.mag);
    }
  }

  /** Dividing a finite number by a finite factor and multiplying it again. */
  lemma DivMul(f: Format, v: Double, c: Double)
    requires v.Finite? && c.Finite?
    ensures c.mag == 0.0 ==> Mul(f, Div(f, v, c), c) == NaN
    ensures c.mag > 0.0 && v.mag / c.mag >= Limit(f) ==> Mul(f, Div(f, v, c), c) == Infinite(v.neg)
    ensures c.mag > 0.0 && v.mag / c.mag < Limit(f) ==>
      var y := Divided(f, v.mag, c.mag);
      Div(f, v, c) == Finite(v.neg != c.neg, y) &&
      Mul(f, Div(f, v, c), c) ==
        if y * c.mag >= Limit(f) then Infinite(v.neg) else Finite(v.neg, Multiplied(f, y, c.mag))
  {
    hide Limit, Nearest;
    if c.mag > 0.0 && v.mag / c.mag < Limit(f) {
      MulFinite(f, v.neg != c.neg, Divided(f, v.mag, c.mag), c);
    }
  }

  lemma MulFinite(f: Format, neg: bool, y: real, c: Double)
    requires c.Finite? && y >= 0.0
    ensures y * c.mag >= 0.0
    ensures Mul(f, Finite(neg, y), c) ==
      var s := neg != c.neg; if y * c.mag >= Limit(f) then Infinite(s) else Finite(s, Nearest(f, y * c.mag))
    ensures c.mag > 0.0 ==> Multiplied(f, y, c.mag) == Nearest(f, y * c.mag)
  {
    hide Limit, Nearest;
    TimesGrows(0.0, y, c.mag);
    var p := Product(Finite(neg, y), c);
    assert p.Finite? && p.mag == y * c.mag;
  }

  lemma SpecialsPrint(neg: bool, q: nat)
    ensures PrintDouble(NaN) != Fixed(neg, q) && forall s :: PrintDouble(Infinite(s)) != Fixed(neg, q)
  {
    var whole := PrintNat(q / MILLION);
    assert Fixed(neg, q)[if neg then 1 else 0] == whole[0] && IsDigit(whole[0]);
  }

  /** SET a number of six decimals below 2^31 on a double dataref, or below 4 on a float one,
      then GET: the reply is that text, exactly when the factor is not zero and the quotient
      does not overflow. */
  lemma RealGetAfterSet(w: World, d: View, m: Memory, f: Format, neg: bool, q: nat, x: Double)
    requires WritableReal(w, d, f) && Stod(d.factor) == Number(x) && Rounded(f, x).Finite?
    requires q < Pow2(f.bits - 22) * MILLION
    ensures var c := Rounded(f, x).mag; var write := WriteOf(w, d, Fixed(neg, q));
      && write.Ok?
      && (ReadOf(w, d, m + write.value) == Ok(Fixed(neg, q)) <==>
            c > 0.0 && Nearest(f, FixedValue(q)) / c < Limit(f))
  {
    hide Sto, Fixed, ReadOf, WriteOf, ReadReal, Mul, Div, Rounded, Nearest, Limit, Pow2, Divided, Multiplied, Round;
    var c := Rounded(f, x);
    FactorFits(f, d.factor);
    StoFixed(f, neg, q);
    OneIsLess(f);
    ReachFits(f);
    BelowByMillionth(q, Pow2(f.bits - 22));
    var v: Double := Finite(neg, Nearest(f, FixedValue(q)));
    WriteIsScaled(w, d, m, f, Fixed(neg, q), v, x);
    ReadIsScaled(w, d, m + WriteOf(w, d, Fixed(neg, q)).value, f, x);
    QuotientStays(f, v, c);
    DivMul(f, v, c);
    SpecialsPrint(neg, q);
    if c.mag > 0.0 {
      SixDecimalsReturn(f, q, c.mag);
    }
  }

  lemma OneIsLess(f: Format)
    requires Usual(f)
    ensures 1.0 < Limit(f)
  {
    hide Pow2, Limit;
    PowersAt(f);
    NaturalsStay(f, 1);
  }

  lemma QuotientStays(f: Format, v: Double, c: Double)
    requires Usual(f)
    ensures Rounded(f, Div(f, v, c)) == Div(f, v, c)
  {
    hide Rounded, Quotient;
    RoundedStays(f, Quotient(v, c));
  }

  /** The magnitude a value has for the client, and the millionths it is replied as. */
  function Scaled(held: Double, c: Double): (x: real)
    requires held.Finite? && c.Finite?
    ensures x >= 0.0
  {
    TimesGrows(0.0, held.mag, c.mag);
    held.mag * c.mag
  }

  function Shown(f: Format, held: Double, c: Double): nat
    requires held.Finite? && c.Finite?
  {
    Round(Nearest(f, Scaled(held, c)) * 1000000.0)
  }

  /** stored is held up to the sixth decimal, an allowance d, and four parts in 2^bits. */
  predicate NearlyKept(f: Format, held: Double, stored: Double, c: Double, d: real)
    requires held.Finite? && c.Finite?
  {
    var x := Scaled(held, c);
    && stored.Finite? && stored.neg == held.neg
    && x - 4.0 * (x / Span(f)) - d <= Scaled(stored, c) <= x + 4.0 * (x / Span(f)) + d
  }

  /** The text of a reply, and whether writing it overflows. */
  function Replied(f: Format, held: Double, c: Double): string
    requires held.Finite? && c.Finite?
  {
    Fixed(held.neg != c.neg, Shown(f, held, c))
  }

  predicate Writes(f: Format, q: nat, c: Double)
    requires c.Finite? && c.mag > 0.0
  {
    Nearest(f, FixedValue(q)) / c.mag < Limit(f)
  }

  /** Replies that are replied again: below 2^(bits - 22), or from 2^(bits - 20) on any but a
      power of two. */
  ghost predicate Steady(f: Format, q: nat)
    requires f.bits >= 22
  {
    q < Pow2(f.bits - 22) * MILLION
    || (q >= Pow2(f.bits - 20) * MILLION && forall j: nat :: q != Pow2(j) * MILLION)
  }

  /** GET, then SET with the reply: while the scaled value and the quotient are in range, the
      sign stays and the value, times the factor, moves by at most half a millionth and four
      parts in 2^bits of itself, or a whole millionth if the quotient is subnormal; and a steady
      reply is replied again. */
  lemma RealSetAfterGet(w: World, d: View, m: Memory, f: Format, held: Double, c: Double)
    requires WritableReal(w, d, f) && Stod(d.factor).Number? && c == Rounded(f, Stod(d.factor).value)
    requires held == Rounded(f, ReadReal(w, m, d.handle.value))
    requires held.Finite? && c.Finite? && c.mag > 0.0 && Scaled(held, c) < Limit(f)
    ensures ReadOf(w, d, m) == Ok(Replied(f, held, c))
    ensures var write, q := WriteOf(w, d, Replied(f, held, c)), Shown(f, held, c);
      write.Ok? && (Writes(f, q, c) ==>
        && NearlyKept(f, held, ReadReal(w, m + write.value, d.handle.value), c,
                      Slack(f, Nearest(f, FixedValue(q)) / c.mag))
        && (Steady(f, q) ==> ReadOf(w, d, m + write.value) == Ok(Replied(f, held, c))))
  {
    var raw := ReadReal(w, m, d.handle.value);
    hide Sto, ReadOf, WriteOf, ReadReal, Mul, Rounded, Nearest, Limit, Pow2, Writable, NearlyKept, Writes, Replied,
      Scaled, Slack, Steady;
    var x, q := Stod(d.factor).value, Shown(f, held, c);
    FactorFits(f, d.factor);
    ReadIsScaled(w, d, m, f, x);
    ProductPrints(f, held, c);
    WrittenBack(w, d, m, f, held, c);
    Room(f);
    if Steady(f, q) && Writes(f, q, c) {
      RoundedHas(f, raw);
      RepliedAgain(w, d, m, f, held, c);
    }
  }

  lemma WrittenBack(w: World, d: View, m: Memory, f: Format, held: Double, c: Double)
    requires WritableReal(w, d, f) && Stod(d.factor).Number? && c == Rounded(f, Stod(d.factor).value)
    requires held.Finite? && c.Finite? && 0.0 < c.mag < Limit(f) && Scaled(held, c) < Limit(f)
    ensures var write, q := WriteOf(w, d, Replied(f, held, c)), Shown(f, held, c);
      write.Ok? && (Writes(f, q, c) ==>
        NearlyKept(f, held, ReadReal(w, m + write.value, d.handle.value), c,
                   Slack(f, Nearest(f, FixedValue(q)) / c.mag)))
  {
    hide Sto, Fixed, WriteOf, ReadReal, Mul, Div, Rounded, Nearest, Limit, Pow2, Divided, Multiplied, Round, Span,
      Usual, Writable, Slack;
    var q, sign := Shown(f, held, c), held.neg != c.neg;
    PrintFits(f, Scaled(held, c));
    StoFixed(f, sign, q);
    var v: Double := Finite(sign, Nearest(f, FixedValue(q)));
    WriteIsScaled(w, d, m, f, Fixed(sign, q), v, Stod(d.factor).value);
    DivMul(f, v, c);
    PrintedReturns(f, Scaled(held, c), c.mag, q);
  }

  lemma RepliedAgain(w: World, d: View, m: Memory, f: Format, held: Double, c: Double)
    requires WritableReal(w, d, f) && Stod(d.factor).Number? && c == Rounded(f, Stod(d.factor).value)
    requires held.Finite? && c.Finite? && 0.0 < c.mag < Limit(f) && Has(f, held.mag) && Scaled(held, c) < Limit(f)
    requires Writes(f, Shown(f, held, c), c) && f.bits >= 22 && Steady(f, Shown(f, held, c))
    ensures var write := WriteOf(w, d, Replied(f, held, c));
      write.Ok? && ReadOf(w, d, m + write.value) == Ok(Replied(f, held, c))
  {
    hide Sto, Fixed, WriteOf, ReadOf, Rounded, Nearest, Limit, Pow2, Shown, WritableReal, Has;
    var q := Shown(f, held, c);
    if q < Pow2(f.bits - 22) * MILLION {
      RealGetAfterSet(w, d, m, f, held.neg != c.neg, q, Stod(d.factor).value);
    } else {
      assert Usual(f) by { WritableIsUsual(w, d, f); }
      SteadyIsExact(f, held, c);
      ExactReplyReturns(w, d, m, f, held, c);
    }
  }

  lemma WritableIsUsual(w: World, d: View, f: Format)
    requires WritableReal(w, d, f)
    ensures Usual(f)
  {
  }

  /** From 2^(bits - 20) on a reply that is no power of two reads as the product it shows. */
  lemma SteadyIsExact(f: Format, held: Double, c: Double)
    requires Usual(f) && held.Finite? && c.Finite? && Scaled(held, c) < Limit(f)
    requires Shown(f, held, c) >= Pow2(f.bits - 20) * MILLION
    requires forall j: nat :: Shown(f, held, c) != Pow2(j) * MILLION
    ensures var p := Nearest(f, Scaled(held, c));
      Nearest(f, FixedValue(Shown(f, held, c))) == p && !IsUnit(f, p)
  {
    hide Nearest, Limit, Pow2, Round, Has, Scaled, IsUnit, Usual;
    Room(f);
    var p, q := Nearest(f, Scaled(held, c)), Shown(f, held, c);
    NearestHas(f, Scaled(held, c));
    AtLeastMillionths(q, Pow2(f.bits - 20));
    LargeReadsExactly(f, p, q);
    if IsUnit(f, p) {
      UnitReply(f, p, q);
    }
  }

  lemma AtLeastMillionths(q: nat, b: nat)
    requires q >= b * MILLION
    ensures FixedValue(q) >= b as real
  {
  }

  lemma UnitReply(f: Format, p: real, q: nat)
    requires Usual(f) && IsUnit(f, p) && p >= 0.0 && q == Round(p * 1000000.0)
    requires q >= Pow2(f.bits - 20) * MILLION
    ensures exists j: nat :: q == Pow2(j) * MILLION
  {
    hide Unit, Pow2, Round;
    Room(f);
    HalfPower(f);
    UnitOne(f);
    var k: nat :| p == Unit(f, k);
    assert q >= 16 * MILLION;
    if k < f.low {
      UnitGrows(f, k, f.low);
    } else {
      UnitSum(f, f.low, k - f.low);
      HalfWay(p * 1000000.0, Pow2(k - f.low) * MILLION);
    }
  }

  /** A reply that reads as the product it shows is replied again, if that is no power of two. */
  lemma ExactReplyReturns(w: World, d: View, m: Memory, f: Format, held: Double, c: Double)
    requires WritableReal(w, d, f) && Stod(d.factor).Number? && c == Rounded(f, Stod(d.factor).value)
    requires held.Finite? && c.Finite? && c.mag > 0.0 && Has(f, held.mag) && Scaled(held, c) < Limit(f)
    requires Nearest(f, FixedValue(Shown(f, held, c))) == Nearest(f, Scaled(held, c))
    requires !IsUnit(f, Nearest(f, Scaled(held, c))) && Writes(f, Shown(f, held, c), c)
    ensures var write := WriteOf(w, d, Replied(f, held, c));
      write.Ok? && ReadOf(w, d, m + write.value) == Ok(Replied(f, held, c))
  {
    hide Sto, Fixed, ReadOf, WriteOf, ReadReal, Mul, Div, Rounded, Nearest, Limit, Divided, Multiplied, Round, Has,
      IsUnit, Writable, Usual;
    var q, sign := Shown(f, held, c), held.neg != c.neg;
    var p := Nearest(f, Scaled(held, c));
    var v: Double := Finite(sign, p);
    PrintFits(f, Scaled(held, c));
    StoFixed(f, sign, q);
    WriteIsScaled(w, d, m, f, Fixed(sign, q), v, Stod(d.factor).value);
    ReadIsScaled(w, d, m + WriteOf(w, d, Fixed(sign, q)).value, f, Stod(d.factor).value);
    QuotientStays(f, v, c);
    DivMul(f, v, c);
    ProductReturns(f, held.mag, c.mag, Scaled(held, c));
  }

  lemma ProductPrints(f: Format, a: Double, c: Double)
    requires a.Finite? && c.Finite? && Scaled(a, c) < Limit(f)
    ensures PrintDouble(Mul(f, a, c)) == Replied(f, a, c)
  {
    hide Nearest, Limit, Fixed, Round;
  }

  /** At factor one a number reads back as set exactly when it survives the format. */
  lemma RealAtFactorOne(w: World, d: View, m: Memory, f: Format, neg: bool, q: nat, x: Double)
    requires WritableReal(w, d, f) && Stod(d.factor) == Number(x) && Rounded(f, x) == Finite(false, 1.0)
    ensures var write := WriteOf(w, d, Fixed(neg, q));
      write.Ok? && ReadOf(w, d, m + write.value) == Ok(Fixed(neg, q)) <==> Survives(f, q)
  {
    hide Sto, Fixed, ReadOf, WriteOf, ReadReal, Mul, Div, Rounded, Nearest, Limit, PrintDouble, Survives;
    var r := Sto(f, Fixed(neg, q));
    ReadThenPrinted(f, neg, q);
    StoFixed(f, neg, q);
    if r.Number? {
      WriteIsScaled(w, d, m, f, Fixed(neg, q), r.value, x);
      ReadIsScaled(w, d, m + WriteOf(w, d, Fixed(neg, q)).value, f, x);
      ThroughOne(f, Fixed(neg, q));
    } else {
      OutIsNoWrite(w, d, f, Fixed(neg, q));
    }
  }

  /** Reading a printed value gives its six decimals as the format holds them, and its sign; it
      is always in range, and prints as the same text. */
  lemma StoPrintDouble(f: Format, d: Double)
    requires Usual(f) && d.Finite? && Has(f, d.mag)
    ensures Sto(f, PrintDouble(d)) == Number(Finite(d.neg, Nearest(f, FixedValue(Millionths(d)))))
    ensures PrintDouble(Sto(f, PrintDouble(d)).value) == PrintDouble(d)
  {
    hide Sto, Has, Nearest, Limit, Round, Fixed;
    StoFixed(f, d.neg, Millionths(d));
    PrintedSurvives(f, d.mag, Millionths(d));
  }

  /** At factor one GET, SET and GET reply the same text, whatever the dataref holds. */
  lemma RealStableAtFactorOne(w: World, d: View, m: Memory, f: Format, held: Double)
    requires WritableReal(w, d, f) && Stod(d.factor).Number? && Rounded(f, Stod(d.factor).value) == Finite(false, 1.0)
    requires held == Rounded(f, ReadReal(w, m, d.handle.value)) && held.Finite? && held.mag < Limit(f)
    ensures ReadOf(w, d, m).Ok?
    ensures var write := WriteOf(w, d, ReadOf(w, d, m).value);
      write.Ok? && ReadOf(w, d, m + write.value) == ReadOf(w, d, m)
  {
    hide Sto, Fixed, ReadOf, WriteOf, ReadReal, Mul, Rounded, Nearest, Limit, Round, Survives, Writable;
    var one: Double := Finite(false, 1.0);
    OneTimes(held);
    ReadIsScaled(w, d, m, f, Stod(d.factor).value);
    ProductPrints(f, held, one);
    Room(f);
    NearestHas(f, held.mag);
    PrintedSurvives(f, Nearest(f, held.mag), Shown(f, held, one));
    RealAtFactorOne(w, d, m, f, held.neg, Shown(f, held, one), Stod(d.factor).value);
  }

  lemma OneTimes(held: Double)
    requires held.Finite?
    ensures Scaled(held, Finite(false, 1.0)) == held.mag
  {
  }

  lemma OutIsNoWrite(w: World, d: View, f: Format, value: string)
    requires WritableReal(w, d, f) && !Sto(f, value).Number?
    ensures WriteOf(w, d, value) == Abort
  {
    hide Sto;
  }

  lemma ThroughOne(f: Format, text: string)
    requires Usual(f) && Sto(f, text).Number?
    ensures var v, one := Sto(f, text).value, Finite(false, 1.0);
      Div(f, v, one) == v && Rounded(f, v) == v && Mul(f, v, one) == v
  {
    hide Denoted, Nearest, Limit, OutOf;
    var v := Denoted(text).value;
    RoundedStays(f, v);
    if v.Finite? && v.mag < Limit(f) {
      var y := Nearest(f, v.mag);
      assert y / 1.0 == y && y * 1.0 == y;
    }
  }

  lemma SmallFactor(text: string, n: nat)
    requires text == PrintInt(n) && n < 100
    ensures Stod(text) == Number(Finite(false, n as real))
    ensures Rounded(SINGLE, Finite(false, n as real)) == Finite(false, n as real)
    ensures Rounded(DOUBLE, Finite(false, n as real)) == Finite(false, n as real)
  {
    hide Sto, PrintInt, Nearest, Limit, Pow2;
    StodPrintInt(n);
    Powers();
    NaturalsStay(SINGLE, n);
    NaturalsStay(DOUBLE, n);
  }

  /** What a text of q millionths, set through a whole factor, comes back as. */
  lemma SetThrough(w: World, d: View, m: Memory, f: Format, q: nat, c: real, r: nat)
    requires WritableReal(w, d, f) && Stod(d.factor) == Number(Finite(false, c)) && c > 0.0
    requires Rounded(f, Finite(false, c)) == Finite(false, c) && FixedValue(q) < Limit(f)
    requires var v := Nearest(f, FixedValue(q));
      && v / c < Limit(f) && Divided(f, v, c) * c < Limit(f)
      && Round(Multiplied(f, Divided(f, v, c), c) * 1000000.0) == r
    ensures var write := WriteOf(w, d, Fixed(false, q));
      write.Ok? && ReadOf(w, d, m + write.value) == Ok(Fixed(false, r))
  {
    hide Sto, Fixed, ReadOf, WriteOf, ReadReal, Mul, Div, Rounded, Nearest, Limit, Divided, Multiplied, Round, Writable;
    var v: Double := Finite(false, Nearest(f, FixedValue(q)));
    StoFixed(f, false, q);
    DivMul(f, v, Finite(false, c));
    QuotientStays(f, v, Finite(false, c));
    WriteIsScaled(w, d, m, f, Fixed(false, q), v, Finite(false, c));
    ReadIsScaled(w, d, m + WriteOf(w, d, Fixed(false, q)).value, f, Finite(false, c));
  }

  /** Below 2^33, where a double keeps six decimals, and yet not back: the factor "7" turns
      4125556391.650093 into 4125556391.650094. */
  lemma SevenMovesTheSixthDecimal(w: World, d: View, m: Memory)
    requires WritableReal(w, d, DOUBLE) && d.factor == "7"
    ensures var q := 4_125_556_391_650_093; var write := WriteOf(w, d, Fixed(false, q));
      write.Ok? && ReadOf(w, d, m + write.value) == Ok(Fixed(false, q + 1))
  {
    hide Sto, Fixed, ReadOf, WriteOf, Nearest, Limit, Pow2, Divided, Multiplied, Round, Rounded, WritableReal;
    assert PrintInt(7) == "7";
    SmallFactor("7", 7);
    SeventhChanges();
    var q := 4_125_556_391_650_093;
    InDouble(FixedValue(q));
    InDouble(Nearest(DOUBLE, FixedValue(q)) / 7.0);
    InDouble(4943953621635301.0 / 8388608.0 * 7.0);
    SetThrough(w, d, m, DOUBLE, q, 7.0, q + 1);
  }

  /** The same for a float, in the first binade not covered: 7.000003 becomes 7.000002. */
  lemma SevenMovesAFloat(w: World, d: View, m: Memory)
    requires WritableReal(w, d, SINGLE) && d.factor == "7"
    ensures var write := WriteOf(w, d, Fixed(false, 7_000_003));
      write.Ok? && ReadOf(w, d, m + write.value) == Ok(Fixed(false, 7_000_002))
  {
    hide Sto, Fixed, ReadOf, WriteOf, Nearest, Limit, Pow2, Divided, Multiplied, Round, Rounded, WritableReal;
    assert PrintInt(7) == "7";
    SmallFactor("7", 7);
    SeventhOfFloat();
    InSingle(FixedValue(7_000_003));
    InSingle(14680070.0 / 2097152.0 / 7.0);
    InSingle(8388611.0 / 8388608.0 * 7.0);
    SetThrough(w, d, m, SINGLE, 7_000_003, 7.0, 7_000_002);
  }

  /** What a value of the format is replied as through a whole factor. */
  lemma ShownThrough(w: World, d: View, m: Memory, f: Format, a: real, c: real, x: real, q: nat)
    requires WritableReal(w, d, f) && Stod(d.factor) == Number(Finite(false, c)) && c > 0.0 && a >= 0.0
    requires Rounded(f, Finite(false, c)) == Finite(false, c) && Has(f, a)
    requires ReadReal(w, m, d.handle.value) == Finite(false, a)
    requires x == a * c && 0.0 <= x < Limit(f) && Round(Nearest(f, x) * 1000000.0) == q
    ensures ReadOf(w, d, m) == Ok(Fixed(false, q))
  {
    hide Sto, Fixed, ReadOf, ReadReal, Mul, Rounded, Nearest, Limit, Has, Round, Writable, Usual, Scaled;
    ValueStays(f, a);
    ReadIsScaled(w, d, m, f, Finite(false, c));
    var held: Double, factor: Double := Finite(false, a), Finite(false, c);
    ScaledIs(held, factor);
    assert Scaled(held, factor) == x;
    ProductPrints(f, held, factor);
    assert Replied(f, held, factor) == Fixed(false, q);
  }

  lemma ValueStays(f: Format, a: real)
    requires Has(f, a)
    ensures a >= 0.0 && Rounded(f, Finite(false, a)) == Finite(false, a)
  {
    hide Nearest, Limit, Has;
    Stays(f, a);
  }

  lemma ScaledIs(a: Double, c: Double)
    requires a.Finite? && c.Finite?
    ensures Scaled(a, c) == a.mag * c.mag
  {
  }

  /** Between 2^31 and 2^33 a reply need not be replied again: at factor "7" this double is
      replied as 4125556391.650093, and after that is written back as 4125556391.650094. */
  lemma ReplyMoves(w: World, d: View, m: Memory)
    requires WritableReal(w, d, DOUBLE) && d.factor == "7"
    requires ReadReal(w, m, d.handle.value) == Finite(false, 4943953621635300.0 / 8388608.0)
    ensures var q := 4_125_556_391_650_093; var write := WriteOf(w, d, Fixed(false, q));
      && ReadOf(w, d, m) == Ok(Fixed(false, q))
      && write.Ok? && ReadOf(w, d, m + write.value) == Ok(Fixed(false, q + 1))
  {
    hide Sto, Fixed, ReadOf, WriteOf, ReadReal, Nearest, Limit, Has, Round, Rounded;
    assert PrintInt(7) == "7";
    SmallFactor("7", 7);
    SeventhShown();
    InDouble(4943953621635300.0 / 8388608.0 * 7.0);
    var a := 4943953621635300.0 / 8388608.0;
    ShownThrough(w, d, m, DOUBLE, a, 7.0, a * 7.0, 4_125_556_391_650_093);
    SevenMovesTheSixthDecimal(w, d, m);
  }

  /** Nor need a power of two: at factor "41" this float is replied as 32.000000, and after that
      is written back as 31.999998. */
  lemma PowerOfTwoMoves(w: World, d: View, m: Memory)
    requires WritableReal(w, d, SINGLE) && d.factor == "41"
    requires ReadReal(w, m, d.handle.value) == Finite(false, 13094413.0 / 16777216.0)
    ensures var write := WriteOf(w, d, Fixed(false, 32_000_000));
      && ReadOf(w, d, m) == Ok(Fixed(false, 32_000_000))
      && write.Ok? && ReadOf(w, d, m + write.value) == Ok(Fixed(false, 31_999_998))
  {
    hide Sto, Fixed, ReadOf, WriteOf, ReadReal, Nearest, Limit, Has, Round, Rounded, Divided, Multiplied;
    assert PrintInt(41) == "41";
    SmallFactor("41", 41);
    ThirtyTwoSlips();
    var a := 13094413.0 / 16777216.0;
    HalfWay(32.0 * 1000000.0, 32_000_000);
    InSingle(a * 41.0);
    ShownThrough(w, d, m, SINGLE, a, 41.0, a * 41.0, 32_000_000);
    assert FixedValue(32_000_000) == 32.0;
    InSingle(32.0);
    InSingle(32.0 / 41.0);
    InSingle(13094412.0 / 16777216.0 * 41.0);
    SetThrough(w, d, m, SINGLE, 32_000_000, 41.0, 31_999_998);
  }

  lemma InDouble(x: real)
    requires x < 9007199254740992.0
    ensures x < Limit(DOUBLE)
  {
    hide Pow2, Limit;
    Powers();
    LimitIs(DOUBLE);
    Pow2Grows(53, 971);
  }

  // ----- Float arrays -----------------------------------------------------------------

  lemma ReadWrittenReals(w: World, m: Memory, h: Handle, offset: int, data: seq<Double>)
    ensures var cells, before := ReadReals(w, m + RealsPatch(w, h, offset, data), h), ReadReals(w, m, h);
      |cells| == |before| && forall i | 0 <= i < |cells| ::
        cells[i] == if offset <= i < offset + |data| then Narrow(data[i - offset]) else before[i]
  {
    hide Narrow;
    var p := RealsPatch(w, h, offset, data);
    forall i | 0 <= i < RealsSize(w, h)
      ensures RealIn(m + p, Cell(h, i))
           == if offset <= i < offset + |data| then data[i - offset] else RealIn(m, Cell(h, i))
    {
      assert Cell(h, i) in p <==> offset <= i < offset + |data|;
    }
  }

  /** What stof reads is a float already. */
  lemma DecimalsAreFloats(js: seq<Json>)
    requires A.AllDecimals(js)
    ensures forall i | 0 <= i < |js| :: Narrow(A.RealsOf(js)[i]) == A.RealsOf(js)[i]
  {
    hide Rounded, Denoted, OutOf;
    forall i | 0 <= i < |js|
      ensures Narrow(A.RealsOf(js)[i]) == A.RealsOf(js)[i]
    {
      assert js[i] in js && A.IsDecimal(js[i]);
      RoundedStays(SINGLE, Denoted(js[i].text).value);
    }
  }

  function OverlaidReals(vs: seq<Double>, before: seq<Double>, x: Double): seq<Double> {
    seq<Double>(|before|, i requires 0 <= i < |before| =>
      Mul(SINGLE, if i < |vs| then vs[i] else before[i], Narrow(x)))
  }

  predicate WritableReals(w: World, d: View) {
    d.handle.Some? && Writable(w, d, FloatArrayType, RealArrayShape(RealsSize(w, d.handle.value)))
  }

  /** Writing an array of decimals and reading it back: as for integers, the factor scales
      what is read only. */
  lemma RealArrayGetAfterSet(w: World, d: View, m: Memory, js: seq<Json>, x: Double)
    requires Faithful(w.codec) && WritableReals(w, d) && A.AllDecimals(js) && Stod(d.factor) == Number(x)
    ensures var write := WriteOf(w, d, w.codec.dump(Arr(js)));
      write.Ok?
      && ScaledReals(ReadReals(w, m + write.value, d.handle.value), x)
         == OverlaidReals(A.RealsOf(js), ReadReals(w, m, d.handle.value), x)
      && ReadOf(w, d, m + write.value)
         == Ok(w.codec.dumpReals(OverlaidReals(A.RealsOf(js), ReadReals(w, m, d.handle.value), x)))
  {
    hide Sto, StodAsInt, Stoi, BytesPatch, RealPatch, IntPatch, IntsPatch, ReadBytes, A.Resolve, Mul, Div, Narrow;
    var h := d.handle.value;
    A.NoWrapper(Arr(js), 0, StodAsInt(d.factor));
    var data := A.RealsOf(js)[..A.Min(|js|, RealsSize(w, h))];
    assert WriteOf(w, d, w.codec.dump(Arr(js))) == Ok(RealsPatch(w, h, 0, data));
    ReadWrittenReals(w, m, h, 0, data);
    DecimalsAreFloats(js);
    var before, cells := ReadReals(w, m, h), ReadReals(w, m + RealsPatch(w, h, 0, data), h);
    assert ScaledReals(cells, x) == OverlaidReals(A.RealsOf(js), before, x);
  }

  /** The elements read after a JSON array was written. */
  function RealsBack(w: World, d: View, m: Memory, js: seq<Json>, x: Double): Result<seq<Double>>
    requires d.handle.Some?
  {
    match WriteOf(w, d, w.codec.dump(Arr(js)))
    case Ok(p) => Ok(ScaledReals(ReadReals(w, m + p, d.handle.value), x))
    case Abort => Abort
  }

  lemma TimesOne(v: Double)
    ensures Mul(SINGLE, Narrow(v), Finite(false, 1.0)) == Narrow(v)
    ensures Mul(SINGLE, Finite(false, 1.0), Narrow(v)) == Narrow(v)
  {
    hide Nearest, Limit;
    RoundedStays(SINGLE, v);
  }

  /** Every full array reads back as the floats written exactly when the factor, as a float,
      is one. */
  lemma RealArrayIsLosslessIffFactorOne(w: World, d: View, m: Memory, x: Double)
    requires Faithful(w.codec) && WritableReals(w, d) && RealsSize(w, d.handle.value) > 0
    requires Stod(d.factor) == Number(x)
    ensures Narrow(x) == Finite(false, 1.0) <==>
      forall js | A.AllDecimals(js) && |js| == RealsSize(w, d.handle.value) ::
        RealsBack(w, d, m, js, x) == Ok(A.RealsOf(js))
  {
    hide Sto, Mul, PrintInt, WriteOf, ReadOf, Narrow;
    var one: Double := Finite(false, 1.0);
    var size, before := RealsSize(w, d.handle.value), ReadReals(w, m, d.handle.value);
    var ones := seq(size, _ => Str(PrintInt(1)));
    StofPrintInt(1);
    assert A.AllDecimals(ones) && A.RealsOf(ones)[0] == one;
    TimesOne(x);
    RealArrayGetAfterSet(w, d, m, ones, x);
    assert OverlaidReals(A.RealsOf(ones), before, x)[0] == Narrow(x);
    if Narrow(x) == one {
      forall js | A.AllDecimals(js) && |js| == size
        ensures RealsBack(w, d, m, js, x) == Ok(A.RealsOf(js))
      {
        RealArrayGetAfterSet(w, d, m, js, x);
        DecimalsAreFloats(js);
        forall i | 0 <= i < size
          ensures OverlaidReals(A.RealsOf(js), before, x)[i] == A.RealsOf(js)[i]
        {
          TimesOne(A.RealsOf(js)[i]);
        }
        assert OverlaidReals(A.RealsOf(js), before, x) == A.RealsOf(js);
      }
    } else {
      assert RealsBack(w, d, m, ones, x).value[0] != A.RealsOf(ones)[0];
    }
  }

  lemma StringWrite(w: World, d: View, text: string)
    requires Faithful(w.codec) && WritableReals(w, d)
    ensures WriteOf(w, d, w.codec.dump(Str(text)))
      == Ok(RealsPatch(w, d.handle.value, 0, A.Fill(RealsSize(w, d.handle.value), ZERO)))
  {
    hide Sto, StodAsInt, Stoi, BytesPatch, RealPatch, IntPatch, IntsPatch, RealsPatch, A.Resolve, Div, A.Fill;
    A.NoWrapper(Str(text), 0, StodAsInt(d.factor));
  }

  /** Set to a JSON string, a float array becomes all zeros, whatever the string says. */
  lemma StringZeroesRealArray(w: World, d: View, m: Memory, text: string)
    requires Faithful(w.codec) && WritableReals(w, d)
    ensures var write := WriteOf(w, d, w.codec.dump(Str(text)));
      write.Ok? && ReadReals(w, m + write.value, d.handle.value) == A.Fill(RealsSize(w, d.handle.value), ZERO)
  {
    hide WriteOf, RealsPatch, Nearest, Limit;
    StringWrite(w, d, text);
    ReadWrittenReals(w, m, d.handle.value, 0, A.Fill(RealsSize(w, d.handle.value), ZERO));
    ZeroStays(SINGLE);
    OneIsLess(SINGLE);
  }

  /** A JSON integer is no value for a float array: nothing is written. */
  lemma IntegerIsNoReal(w: World, d: View, n: int)
    requires Faithful(w.codec) && WritableReals(w, d)
    ensures WriteOf(w, d, w.codec.dump(Int(n))) == Ok(map[])
  {
    hide Sto, StodAsInt, Stoi, BytesPatch, RealPatch, IntPatch, IntsPatch, RealsPatch, A.Resolve, Div;
    A.NoWrapper(Int(n), 0, StodAsInt(d.factor));
  }

  lemma OffsetTarget(j: Json, leaf: Json)
    requires j == Obj(map["Offset" := Str("2"), "Value" := leaf]) && !Contains(leaf, "Value")
    ensures A.Resolve(j, 0, Ok(2)) == Ok(A.Target(leaf, 1))
  {
    hide Stoi, A.Resolve;
    assert PrintInt(2) == "2";
    StoiPrintInt(2);
    assert TruncDiv(2, 2) == 1;
    A.Unwrap(j, 0, Ok(2));
    A.NoWrapper(leaf, 1, Ok(2));
  }

  lemma SevenWritten(offset: int, size: nat)
    requires size > 0
    ensures var data: seq<Double> := [Finite(false, 7.0)];
      A.RealLeaf(A.Target(Arr([Str("7")]), offset), size, "2") == Ok(A.BulkWrite(offset, data))
  {
    hide Sto;
    assert PrintInt(7) == "7";
    StofPrintInt(7);
    assert A.RealsOf([Str("7")]) == [Finite(false, 7.0)];
    assert A.RealsOf([Str("7")])[..1] == [Finite(false, 7.0)];
  }

  /** At factor "2" an "Offset" of "2" writes element 1 of a float array. */
  lemma OffsetIsDivided(w: World, d: View, m: Memory)
    requires Faithful(w.codec) && WritableReals(w, d) && RealsSize(w, d.handle.value) > 0 && d.factor == "2"
    ensures var request := Obj(map["Offset" := Str("2"), "Value" := Arr([Str("7")])]);
      WriteOf(w, d, w.codec.dump(request)) == Ok(RealsPatch(w, d.handle.value, 1, [Finite(false, 7.0)]))
  {
    hide Sto, StodAsInt, Stoi, BytesPatch, RealPatch, IntPatch, IntsPatch, RealsPatch, A.Resolve, A.RealLeaf;
    assert PrintInt(2) == "2";
    StodPrintInt(2);
    var leaf := Arr([Str("7")]);
    OffsetTarget(Obj(map["Offset" := Str("2"), "Value" := leaf]), leaf);
    SevenWritten(1, RealsSize(w, d.handle.value));
  }
}
