/** What GET_REG_DATA replies after SET_REG_DATA and a frame, for FlightFactor datarefs: the
    factor scales what is read and nothing scales what is written. */
module FlightRoundTrips {
  import opened Prelude
  import opened KeyOrder
  import opened Rounding
  import opened Numerals
  import opened Accuracy
  import opened JsonTree
  import opened Simulation
  import opened System
  import opened Requests
  import opened Frames
  import opened Runs
  import opened Guarantees
  import opened Replies
  import R = Registry
  import RoundTrips
  import RealTrips
  import Overlay
  import D = Datarefs
  import F = FlightFactor

  // ----- The frame after a request --------------------------------------------------------

  predicate IsFlight(s: System, n: string)
    requires Closed(s)
  {
    n in s.reg.named && s.objects[s.reg.named[n]].Flight?
  }

  /** Nothing else decides what the next frame stores for n: no constant holds its object, no
      greater name has its id, and nothing but its own target could stop the frame. */
  predicate Settled(w: World, s: System, n: string)
    requires Closed(s) && IsFlight(s, n)
  {
    var k := s.reg.named[n];
    && (forall c | c in s.reg.consts :: s.reg.consts[c].id != k && ConstEffect(w, s, c).Ok?)
    && GreatestWithId(s, n, s.objects[k].f.id)
    && (forall m | m in s.reg.named && s.reg.named[m] != k :: Pushable(w, s, m))
  }

  lemma {:induction false} NoNote(consts: map<string, R.Constant>, keys: seq<string>, k: nat)
    requires forall x | x in keys :: x in consts && consts[x].id != k
    ensures Noted(consts, keys, k).None?
    decreases |keys|
  {
    if keys != [] {
      assert keys[|keys| - 1] in keys;
      NoNote(consts, keys[..|keys| - 1], k);
    }
  }

  /** The state after a settled dataref took a new target. */
  function Targeted(s: System, n: string, text: string): (t: System)
    requires Closed(s) && IsFlight(s, n)
    ensures Closed(t)
  {
    var k := s.reg.named[n];
    s.(objects := s.objects[k := Flight(s.objects[k].f.(needUpdate := true, target := text))])
  }

  lemma TargetedSettles(w: World, s: System, n: string, text: string)
    requires Closed(s) && IsFlight(s, n) && Settled(w, s, n)
    ensures var t, k := Targeted(s, n, text), s.reg.named[n];
      && AtPush(t, k) == t.objects[k] && GreatestWithId(t, n, t.objects[k].f.id)
      && (forall c | c in t.reg.consts :: ConstEffect(w, t, c).Ok?)
      && (forall m | m in t.reg.named && t.reg.named[m] != k :: Pushable(w, t, m))
  {
    hide D.WriteOf, F.TargetAtom, Noted, SortedKeys, Less;
    var t, k := Targeted(s, n, text), s.reg.named[n];
    NoNote(s.reg.consts, ConstKeys(s), k);
    assert forall c | c in t.reg.consts :: ConstEffect(w, t, c) == ConstEffect(w, s, c);
    assert forall m | m in t.reg.named && t.reg.named[m] != k :: Pushable(w, t, m) == Pushable(w, s, m);
  }

  /** Setting n and then running a frame stores what the text denotes for its type. */
  lemma SetThenFrame(w: World, s: System, n: string, text: string, a: Atom)
    requires Closed(s) && IsFlight(s, n) && Settled(w, s, n)
    requires F.TargetAtom(w, s.objects[s.reg.named[n]].f.id, text) == Ok(Some(a))
    ensures var k, t := s.reg.named[n], Targeted(s, n, text);
      var (u, ok) := FlightFrame(w, t);
      && ok && Closed(u) && u.reg == s.reg && k in u.objects && u.objects[k] == t.objects[k]
      && Shared(t.objects[k].f.id) in u.mem && u.mem[Shared(t.objects[k].f.id)] == a
  {
    hide ConstEffect, F.TargetAtom, Noted, Mark, SortedKeys, PushTargets, SetConstants, Settled, GreatestWithId,
      Overlay.Pass, Overlay.Completes, PushEffects;
    var k, t := s.reg.named[n], Targeted(s, n, text);
    TargetedSettles(w, s, n, text);
    FlightFrameCompletes(w, t);
    FlightFrameWritesTarget(w, t, n, t.objects[k].f, a);
    var u := FlightFrameParts(w, t);
  }

  // ----- SET, frame, GET ------------------------------------------------------------------

  /** SET_REG_DATA, one FlightFactor frame, GET_REG_DATA: the last reply, if the frame completes. */
  function Answer(w: World, s: System, put: Json, get: Json): Result<Reply>
    requires Closed(s)
  {
    SetKeeps(w, s, put);
    var t := OnSet(w, s, put).s;
    FramesKeep(w, t);
    var (u, ok) := FlightFrame(w, t);
    if ok then Ok(OnGet(w, u, get)) else Abort
  }

  /** The text set for n is what GET_REG_DATA replies after the next frame. */
  predicate ReadsBack(w: World, s: System, n: string, text: string)
    requires Closed(s)
  {
    var answer := Answer(w, s, Tell(n, text), Ask(n));
    answer.Ok? && answer.value.j == Tell(n, text)
  }

  lemma SetKeeps(w: World, s: System, put: Json)
    requires Closed(s)
    ensures Closed(OnSet(w, s, put).s)
  {
    hide SetObject, ExtractValue;
    if Name(put) in s.reg.named && ExtractValue(w.codec, put).Ok? {
      SetObjectSteps(w, s, s.reg.named[Name(put)], ExtractValue(w.codec, put).value);
    }
  }

  lemma SetIsTargeted(w: World, s: System, put: Json, n: string, text: string)
    requires Closed(s) && IsFlight(s, n)
    requires AsksFor(put, n) && ExtractValue(w.codec, put) == Ok(text) && text != ""
    ensures OnSet(w, s, put) == Reply(Targeted(s, n, text), Ok(0), put)
  {
    hide ExtractValue;
    HasValue(w.codec, put);
  }

  /** What GET_REG_DATA replies for a FlightFactor dataref. */
  lemma GetIsRead(w: World, s: System, get: Json, n: string)
    requires Closed(s) && IsFlight(s, n) && AsksFor(get, n)
    ensures var read := F.ReadOf(w, s.objects[s.reg.named[n]].f, s.mem);
      OnGet(w, s, get) == if read.Ok? then Reply(s, Ok(0), Put(get, "Value", Str(read.value))) else Reply(s, Abort, get)
  {
    hide F.ReadOf;
  }

  /** A read looks at the value's own location only, and not at the target. */
  lemma ReadLooksAt(w: World, f: F.View, text: string, m: Memory, a: Atom)
    requires Shared(f.id) in m && m[Shared(f.id)] == a
    ensures F.ReadOf(w, f.(needUpdate := true, target := text), m) == F.ReadOf(w, f, map[Shared(f.id) := a])
  {
    hide Stod, StodAsInt, PrintDouble, Mul, Wrap, PrintInt;
  }

  lemma AnswerIs(w: World, s: System, put: Json, get: Json, n: string, text: string, a: Atom)
    requires Closed(s) && IsFlight(s, n) && Settled(w, s, n)
    requires AsksFor(put, n) && AsksFor(get, n) && ExtractValue(w.codec, put) == Ok(text) && text != ""
    requires F.TargetAtom(w, s.objects[s.reg.named[n]].f.id, text) == Ok(Some(a))
    ensures OnSet(w, s, put).code == Ok(0)
    ensures Answer(w, s, put, get).Ok?
    ensures var f := s.objects[s.reg.named[n]].f;
      var reply := Answer(w, s, put, get).value;
      var read := F.ReadOf(w, f, map[Shared(f.id) := a]);
      reply.code == (if read.Ok? then Ok(0) else Abort) &&
      reply.j == if read.Ok? then Put(get, "Value", Str(read.value)) else get
  {
    hide FlightFrame, F.TargetAtom, Settled, ExtractValue, F.ReadOf, OnGet, OnSet;
    var f := s.objects[s.reg.named[n]].f;
    SetIsTargeted(w, s, put, n, text);
    SetThenFrame(w, s, n, text, a);
    var u := FlightFrame(w, Targeted(s, n, text)).0;
    GetIsRead(w, u, get, n);
    ReadLooksAt(w, f, text, u.mem, a);
  }

  lemma HasValue(c: Codec, j: Json)
    ensures ExtractValue(c, j).Ok? ==> Contains(j, "Value")
  {
  }

  /** A registered FlightFactor dataref of the given type, unchanged since it was loaded. */
  predicate Typed(w: World, s: System, n: string, typ: int)
    requires Closed(s)
  {
    IsFlight(s, n) && var f := s.objects[s.reg.named[n]].f; f.typ == typ && F.TypeOf(w, f.id) == typ
  }

  /** SET_REG_DATA with an int, a frame, GET_REG_DATA: the reply is the int times the factor,
      wrapped to 32 bits. */
  lemma SetFrameGetInteger(w: World, s: System, put: Json, get: Json, n: string, v: int, k: int)
    requires Closed(s) && Typed(w, s, n, F.SINT32) && Settled(w, s, n)
    requires StodAsInt(s.objects[s.reg.named[n]].f.factor) == Ok(k)
    requires AsksFor(put, n) && AsksFor(get, n) && Contains(put, "Value") && InInt32(v)
    requires put.fields["Value"] == Int(v) || put.fields["Value"] == Str(PrintInt(v))
    ensures OnSet(w, s, put).code == Ok(0)
    ensures Answer(w, s, put, get).Ok?
    ensures var reply := Answer(w, s, put, get).value;
      reply.code == Ok(0) && reply.j == Put(get, "Value", Str(PrintInt(Wrap(v * k))))
  {
    hide Answer, OnSet, Settled, Stoi, PrintInt, Wrap, ExtractValue, StodAsInt;
    RoundTrips.ExtractedInteger(w.codec, put, v);
    var text := ExtractValue(w.codec, put).value;
    NotEmpty(text);
    FactorParses(s.objects[s.reg.named[n]].f.factor);
    AnswerIs(w, s, put, get, n, text, IntAtom(v));
  }

  lemma FactorParses(factor: string)
    ensures StodAsInt(factor).Ok? ==> Stod(factor).Number?
  {
  }

  /** The factor of an integer FlightFactor dataref must be one for ints to read back as set. */
  lemma IntegersReadBackIffFactorOne(w: World, s: System, n: string, k: int)
    requires Closed(s) && Typed(w, s, n, F.SINT32) && Settled(w, s, n)
    requires StodAsInt(s.objects[s.reg.named[n]].f.factor) == Ok(k)
    ensures k == 1 <==> forall v | InInt32(v) :: ReadsBack(w, s, n, PrintInt(v))
  {
    hide Answer, OnSet, Settled, PrintInt, Wrap, StodAsInt;
    forall v | InInt32(v)
      ensures ReadsBack(w, s, n, PrintInt(v)) <==> Wrap(v * k) == v
    {
      SetFrameGetInteger(w, s, Tell(n, PrintInt(v)), Ask(n), n, v, k);
      TellDiffers(n, PrintInt(Wrap(v * k)), PrintInt(v));
      PrintIntInjective(Wrap(v * k), v);
    }
    assert k != 1 ==> Wrap(1 * k) == k;
    assert k != 1 ==> !ReadsBack(w, s, n, PrintInt(1));
  }

  lemma TellDiffers(n: string, a: string, b: string)
    ensures Put(Ask(n), "Value", Str(a)) == Tell(n, b) <==> a == b
  {
    assert Put(Ask(n), "Value", Str(a)) == Tell(n, a);
    assert Tell(n, a).fields["Value"] == Str(a);
    assert Tell(n, b).fields["Value"] == Str(b);
  }

  /** At factor "2" a dataref set to 3 reads 6. */
  lemma ThreeReadsSix(w: World, s: System, n: string)
    requires Closed(s) && Typed(w, s, n, F.SINT32) && Settled(w, s, n)
    requires s.objects[s.reg.named[n]].f.factor == "2"
    ensures Answer(w, s, Tell(n, "3"), Ask(n)).Ok? && Answer(w, s, Tell(n, "3"), Ask(n)).value.j == Tell(n, "6")
  {
    hide Answer, OnSet, Settled, StodAsInt, Sto, PrintInt, Wrap;
    StodPrintInt(2);
    SmallInts();
    SetFrameGetInteger(w, s, Tell(n, "3"), Ask(n), n, 3, 2);
    TellDiffers(n, "6", "6");
  }

  lemma SmallInts()
    ensures PrintInt(2) == "2" && PrintInt(3) == "3" && PrintInt(6) == "6" && Wrap(3 * 2) == 6
  {
  }

  // ----- Floating point ---------------------------------------------------------------------

  /** A float (f is SINGLE) or double (DOUBLE) dataref. */
  predicate TypedReal(w: World, s: System, n: string, f: Format)
    requires Closed(s)
  {
    Usual(f) && Typed(w, s, n, if f == SINGLE then F.FLOAT32 else F.FLOAT64)
  }

  /** The same for float and double: the reply is the number, as the type holds it, times the
      factor, computed in that type. */
  lemma SetFrameGetReal(w: World, s: System, put: Json, get: Json, n: string, f: Format, text: string, v: Double,
                        x: Double)
    requires Closed(s) && TypedReal(w, s, n, f) && Settled(w, s, n)
    requires Stod(s.objects[s.reg.named[n]].f.factor) == Number(x) && Sto(f, text) == Number(v)
    requires AsksFor(put, n) && AsksFor(get, n) && ExtractValue(w.codec, put) == Ok(text)
    ensures OnSet(w, s, put).code == Ok(0)
    ensures Answer(w, s, put, get).Ok?
    ensures var reply := Answer(w, s, put, get).value;
      reply.code == Ok(0) && reply.j == Put(get, "Value", Str(PrintDouble(Mul(f, v, Rounded(f, x)))))
  {
    hide Answer, OnSet, Settled, Sto, PrintDouble, Mul, ExtractValue, Rounded;
    NumberIsText(f, text);
    ReadStays(f, text);
    AnswerIs(w, s, put, get, n, text, RealAtom(v));
  }

  lemma NumberIsText(f: Format, text: string)
    ensures Sto(f, text).Number? ==> text != ""
  {
    hide OutOf, Rounded;
  }

  /** A number out of the range of the type stops the next frame. */
  lemma OutOfRangeStopsFrame(w: World, s: System, n: string, f: Format, text: string)
    requires Closed(s) && TypedReal(w, s, n, f) && Sto(f, text) == OutOfRange
    requires forall c | c in s.reg.consts :: s.reg.consts[c].id != s.reg.named[n]
    ensures Answer(w, s, Tell(n, text), Ask(n)) == Abort
  {
    hide Sto, FlightFrame, OnSet, OnGet, F.TargetAtom;
    var k, t := s.reg.named[n], Targeted(s, n, text);
    OutIsAbort(w, s.objects[k].f.id, f, text);
    TextIsSet(w, s, n, text);
    NoNote(s.reg.consts, ConstKeys(s), k);
    assert !Pushable(w, t, n);
    FlightFrameCompletes(w, t);
  }

  lemma OutIsAbort(w: World, id: int, f: Format, text: string)
    requires Usual(f) && F.TypeOf(w, id) == (if f == SINGLE then F.FLOAT32 else F.FLOAT64)
    requires Sto(f, text) == OutOfRange
    ensures text != "" && F.TargetAtom(w, id, text) == Abort
  {
    hide OutOf, Rounded;
  }

  lemma TextIsSet(w: World, s: System, n: string, text: string)
    requires Closed(s) && IsFlight(s, n) && text != ""
    ensures OnSet(w, s, Tell(n, text)) == Reply(Targeted(s, n, text), Ok(0), Tell(n, text))
  {
    hide OnSet;
    SetIsTargeted(w, s, Tell(n, text), n, text);
  }

  /** Six decimals, read as the type, times c, print as the same text. */
  predicate PrintsBack(f: Format, neg: bool, q: nat, c: Double) {
    && FixedValue(q) < Limit(f)
    && PrintDouble(Mul(f, Finite(neg, Nearest(f, FixedValue(q))), c)) == Fixed(neg, q)
  }

  /** What a text of six decimals comes back as. */
  lemma RealAnswer(w: World, s: System, n: string, f: Format, x: Double, neg: bool, q: nat)
    requires Closed(s) && TypedReal(w, s, n, f) && Settled(w, s, n)
    requires Stod(s.objects[s.reg.named[n]].f.factor) == Number(x)
    ensures ReadsBack(w, s, n, Fixed(neg, q)) <==> PrintsBack(f, neg, q, Rounded(f, x))
  {
    hide Answer, OnSet, Settled, Fixed, PrintDouble, Sto, Mul, Rounded, Nearest, Limit;
    StoFixed(f, neg, q);
    if FixedValue(q) < Limit(f) {
      var v := Finite(neg, Nearest(f, FixedValue(q)));
      SetFrameGetReal(w, s, Tell(n, Fixed(neg, q)), Ask(n), n, f, Fixed(neg, q), v, x);
      TellDiffers(n, PrintDouble(Mul(f, v, Rounded(f, x))), Fixed(neg, q));
    } else {
      NothingBound(w, s, n);
      OutOfRangeStopsFrame(w, s, n, f, Fixed(neg, q));
    }
  }

  lemma NothingBound(w: World, s: System, n: string)
    requires Closed(s) && IsFlight(s, n) && Settled(w, s, n)
    ensures forall c | c in s.reg.consts :: s.reg.consts[c].id != s.reg.named[n]
  {
    hide ConstEffect, Pushable, GreatestWithId;
  }

  /** At factor one, as the type holds it, a number of six decimals reads back exactly when it
      survives the type. */
  lemma AtFactorOne(w: World, s: System, n: string, f: Format, x: Double, neg: bool, q: nat)
    requires Closed(s) && TypedReal(w, s, n, f) && Settled(w, s, n)
    requires Stod(s.objects[s.reg.named[n]].f.factor) == Number(x) && Rounded(f, x) == Finite(false, 1.0)
    ensures ReadsBack(w, s, n, Fixed(neg, q)) <==> Survives(f, q)
  {
    hide ReadsBack, Settled, Fixed, Sto, PrintDouble, Mul, Nearest, Limit, Rounded, Survives, TypedReal;
    assert Usual(f) by { IsUsual(w, s, n, f); }
    RealAnswer(w, s, n, f, x, neg, q);
    ReadThenPrinted(f, neg, q);
    StoFixed(f, neg, q);
    if FixedValue(q) < Limit(f) {
      RealTrips.ThroughOne(f, Fixed(neg, q));
    }
  }

  lemma IsUsual(w: World, s: System, n: string, f: Format)
    requires Closed(s) && TypedReal(w, s, n, f)
    ensures Usual(f) && n in s.reg.named && s.objects[s.reg.named[n]].Flight?
  {
  }

  /** A whole number times a factor that shows is not printed as that number. */
  lemma WholePrint(f: Format, n: nat, c: Double)
    requires Usual(f) && c.Finite? && Shows(f, n, c.mag) && !c.neg
    ensures PrintDouble(Mul(f, Finite(false, n as real), c)) != Fixed(false, n * MILLION)
  {
    hide Nearest, Limit, Round, Fixed;
    RealTrips.MulFinite(f, false, n as real, c);
    TimesIs(n, c.mag);
    RealTrips.SpecialsPrint(false, n * MILLION);
    if Times(n, c.mag) < Limit(f) {
      FixedInjective(false, Round(Nearest(f, Times(n, c.mag)) * 1000000.0), false, n * MILLION);
    }
  }

  /** One times a special or a negative factor is not printed as one. */
  lemma OddPrint(f: Format, c: Double)
    requires !c.Finite? || c.neg
    ensures PrintDouble(Mul(f, Finite(false, 1.0), c)) != Fixed(false, MILLION)
  {
    hide Nearest, Limit, Fixed;
    RealTrips.SpecialsPrint(false, MILLION);
    if c.Finite? && c.mag < Limit(f) {
      assert 1.0 * c.mag == c.mag;
      FixedInjective(true, Millionths(Finite(true, Nearest(f, c.mag))), false, MILLION);
    }
  }

  /** All numbers of six decimals that the type can hold read back as set exactly when the
      factor, as the type holds it, is one. */
  lemma RealsReadBackIffFactorOne(w: World, s: System, n: string, f: Format, x: Double)
    requires Closed(s) && TypedReal(w, s, n, f) && Settled(w, s, n)
    requires Stod(s.objects[s.reg.named[n]].f.factor) == Number(x)
    ensures Rounded(f, x) == Finite(false, 1.0) <==>
      forall neg, q: nat | Survives(f, q) :: ReadsBack(w, s, n, Fixed(neg, q))
  {
    hide ReadsBack, Settled, Fixed, Sto, Rounded, Survives, TypedReal, Nearest, PrintDouble, Mul, Limit, Shows, Pow2;
    IsUsual(w, s, n, f);
    var c, factor := Rounded(f, x), s.objects[s.reg.named[n]].f.factor;
    if c == Finite(false, 1.0) {
      forall neg, q: nat | Survives(f, q)
        ensures ReadsBack(w, s, n, Fixed(neg, q))
      {
        AtFactorOne(w, s, n, f, x, neg, q);
      }
    } else {
      var i := 1;
      if c.Finite? && !c.neg {
        RealTrips.FactorHas(f, factor);
        i := FactorShows(f, c.mag);
        WholePrint(f, i, c);
      } else {
        OddPrint(f, c);
      }
      NaturalSurvives(f, i);
      RealAnswer(w, s, n, f, x, false, i * MILLION);
      assert !ReadsBack(w, s, n, Fixed(false, i * MILLION));
    }
  }

  lemma TellSays(c: Codec, n: string, text: string)
    ensures ExtractValue(c, Tell(n, text)) == Ok(text) && AsksFor(Tell(n, text), n) && AsksFor(Ask(n), n)
  {
  }

  lemma FloatReply(w: World, s: System, n: string, text: string, other: string)
    requires Closed(s) && TypedReal(w, s, n, SINGLE) && Settled(w, s, n)
    requires Stod(s.objects[s.reg.named[n]].f.factor) == Number(Finite(false, 1.0)) && PrintsAs(text, other)
    ensures var answer := Answer(w, s, Tell(n, text), Ask(n)); answer.Ok? && answer.value.j == Tell(n, other)
  {
    hide Answer, OnSet, Settled, PrintDouble, Sto, Mul, Rounded, ExtractValue, Div, TypedReal, Put;
    OneStays();
    TellSays(w.codec, n, text);
    IsUsual(w, s, n, SINGLE);
    var v := Stof(text).value;
    RealTrips.ThroughOne(SINGLE, text);
    SetFrameGetReal(w, s, Tell(n, text), Ask(n), n, SINGLE, text, v, Finite(false, 1.0));
    TellDiffers(n, other, other);
  }

  /** A float dataref at factor one: what is set as 1234.567891 reads 1234.567871. */
  lemma FloatShortens(w: World, s: System, n: string)
    requires Closed(s) && TypedReal(w, s, n, SINGLE) && Settled(w, s, n)
    requires s.objects[s.reg.named[n]].f.factor == "1.0f"
    ensures var answer := Answer(w, s, Tell(n, "1234.567891"), Ask(n));
      answer.Ok? && answer.value.j == Tell(n, "1234.567871")
  {
    hide Answer, Settled, PrintsAs, Sto;
    RoundTrips.DefaultFactorIsOne();
    LongNumberShortens();
    FloatReply(w, s, n, "1234.567891", "1234.567871");
  }

  lemma OneStays()
    ensures Rounded(SINGLE, Finite(false, 1.0)) == Finite(false, 1.0)
  {
    hide Nearest, Limit, Pow2;
    Powers();
    NaturalsStay(SINGLE, 1);
  }

  // ----- Reading ------------------------------------------------------------------------------

  /** Reading an integer of any width gives the product with the factor exactly when that
      fits what the source computes it in: unsigned for uInt, int for the others. */
  lemma ReadIsProductIff(w: World, f: F.View, m: Memory, k: int)
    requires F.SINT8 <= f.typ <= F.UINT32 && StodAsInt(f.factor) == Ok(k)
    ensures var product := IntIn(m, Shared(f.id)) * k;
      F.ReadOf(w, f, m) == Ok(PrintInt(product)) <==>
        if f.typ == F.UINT32 then 0 <= product < TWO_32 else InInt32(product)
  {
    hide PrintInt, StodAsInt;
    FactorParses(f.factor);
    var product := IntIn(m, Shared(f.id)) * k;
    PrintIntInjective(if f.typ == F.UINT32 then product % TWO_32 else Wrap(product), product);
  }
}
