/** What a client is replied after SET_REG_DATA and then GET_REG_DATA of an X-Plane dataref. */
module Replies {
  import opened Prelude
  import opened Rounding
  import opened Numerals
  import opened Accuracy
  import opened JsonTree
  import opened Simulation
  import opened System
  import opened Requests
  import RoundTrips
  import RealTrips
  import A = ArrayText
  import D = Datarefs

  predicate AsksFor(j: Json, name: string) { Contains(j, "Name") && j.fields["Name"] == Str(name) }

  /** The shortest GET_REG_DATA and SET_REG_DATA documents a callback takes. */
  function Ask(name: string): Json { Obj(map["Name" := Str(name)]) }

  function Tell(name: string, text: string): Json { Obj(map["Name" := Str(name), "Value" := Str(text)]) }

  /** SET_REG_DATA with an integer or its decimal text, then GET_REG_DATA of the same Int
      dataref: the reply is the text of v less its truncated remainder by the factor, so it
      is v exactly when the factor divides v. */
  lemma SetThenGetInteger(w: World, s: System, put: Json, get: Json, name: string, v: int, f: int)
    requires Closed(s) && name in s.reg.named && s.objects[s.reg.named[name]].Plain?
    requires var d := s.objects[s.reg.named[name]].d;
      RoundTrips.Writable(w, d, IntType, IntShape) && StodAsInt(d.factor) == Ok(f)
    requires AsksFor(put, name) && AsksFor(get, name) && Contains(put, "Value") && InInt32(v)
    requires put.fields["Value"] == Int(v) || put.fields["Value"] == Str(PrintInt(v))
    ensures var done := OnSet(w, s, put);
      && (done.code == Ok(0) <==> f != 0 && !(v == -TWO_31 && f == -1))
      && (done.code == Ok(0) ==>
        && Closed(done.s)
        && OnGet(w, done.s, get) == Reply(done.s, Ok(0), Put(get, "Value", Str(PrintInt(v - TruncRem(v, f)))))
        && Abs(TruncRem(v, f)) < Abs(f) && (v - TruncRem(v, f) == v <==> v % f == 0))
  {
    hide D.WriteOf, D.ReadOf, Stoi, StodAsInt, PrintInt, TruncRem;
    var d := s.objects[s.reg.named[name]].d;
    RoundTrips.ExtractedInteger(w.codec, put, v);
    var value := ExtractValue(w.codec, put).value;
    NotEmpty(value);
    RoundTrips.IntGetAfterSet(w, d, s.mem, value, v, f);
  }

  lemma NotEmpty(text: string)
    ensures Stoi(text).Number? ==> text != ""
  {
  }

  /** name stands for the X-Plane dataref d. */
  predicate Holds(s: System, name: string, d: D.View)
    requires Closed(s)
  {
    name in s.reg.named && s.objects[s.reg.named[name]] == Plain(d)
  }

  /** The two documents a client sends for name; the first sets it to the text. */
  predicate Exchange(w: World, put: Json, get: Json, name: string, text: string) {
    AsksFor(put, name) && AsksFor(get, name) && Contains(put, "Value") && ExtractValue(w.codec, put) == Ok(text)
  }

  /** What GET_REG_DATA replies in the state SET_REG_DATA leaves. */
  function Answered(w: World, s: System, put: Json, get: Json): Reply
    requires Closed(s)
  {
    SetCloses(w, s, put);
    OnGet(w, OnSet(w, s, put).s, get)
  }

  lemma SetCloses(w: World, s: System, put: Json)
    requires Closed(s)
    ensures Closed(OnSet(w, s, put).s)
  {
    hide ExtractValue, D.WriteOf;
  }

  /** SET, then GET is writing, then reading. */
  lemma SetThenGetPlain(w: World, s: System, put: Json, get: Json, name: string, d: D.View, text: string)
    requires Closed(s) && Holds(s, name, d) && Exchange(w, put, get, name, text) && text != ""
    ensures OnSet(w, s, put).code == if D.WriteOf(w, d, text).Ok? then Ok(0) else Abort
    ensures D.WriteOf(w, d, text).Ok? ==>
      var read := D.ReadOf(w, d, s.mem + D.WriteOf(w, d, text).value);
      && Answered(w, s, put, get).code == (if read.Ok? then Ok(0) else Abort)
      && Answered(w, s, put, get).j == if read.Ok? then Put(get, "Value", Str(read.value)) else get
  {
    hide D.WriteOf, D.ReadOf, ExtractValue;
  }

  /** The client is replied the text, with code zero. */
  predicate Told(w: World, s: System, put: Json, get: Json, text: string)
    requires Closed(s)
  {
    var answer := Answered(w, s, put, get);
    answer.code == Ok(0) && get.Obj? && answer.j == Put(get, "Value", Str(text))
  }

  lemma SameText(get: Json, a: string, b: string)
    requires get.Obj?
    ensures Put(get, "Value", Str(a)) == Put(get, "Value", Str(b)) <==> a == b
  {
    assert Put(get, "Value", Str(a)).fields["Value"] == Str(a);
    assert Put(get, "Value", Str(b)).fields["Value"] == Str(b);
  }

  /** A float or double dataref set to a number of six decimals, below 4 or 2^31, replies that
      very text exactly when the factor is not zero and the quotient does not overflow. */
  lemma SetThenGetReal(w: World, s: System, put: Json, get: Json, name: string, d: D.View, f: Format, neg: bool,
                       q: nat, x: Double)
    requires Closed(s) && Holds(s, name, d) && Exchange(w, put, get, name, Fixed(neg, q))
    requires RealTrips.WritableReal(w, d, f) && Stod(d.factor) == Number(x) && Rounded(f, x).Finite?
    requires q < Pow2(f.bits - 22) * MILLION
    ensures OnSet(w, s, put).code == Ok(0)
    ensures Told(w, s, put, get, Fixed(neg, q)) <==>
      Rounded(f, x).mag > 0.0 && Nearest(f, FixedValue(q)) / Rounded(f, x).mag < Limit(f)
  {
    hide D.WriteOf, D.ReadOf, ExtractValue, Fixed, Sto, Rounded, Nearest, Limit, Pow2, Answered, OnSet, Holds;
    FixedIsText(neg, q);
    RealTrips.RealGetAfterSet(w, d, s.mem, f, neg, q, x);
    SetThenGetPlain(w, s, put, get, name, d, Fixed(neg, q));
    var read := D.ReadOf(w, d, s.mem + D.WriteOf(w, d, Fixed(neg, q)).value);
    if read.Ok? {
      SameText(get, read.value, Fixed(neg, q));
    }
  }

  /** GET, SET with the reply, GET on a float or double dataref: while the scaled value and the
      quotient are in range, a steady reply is replied again. */
  lemma GetSetGetReal(w: World, s: System, put: Json, get: Json, name: string, d: D.View, f: Format, held: Double,
                      c: Double)
    requires Closed(s) && Holds(s, name, d) && RealTrips.WritableReal(w, d, f)
    requires Stod(d.factor).Number? && c == Rounded(f, Stod(d.factor).value)
    requires held == Rounded(f, ReadReal(w, s.mem, d.handle.value))
    requires held.Finite? && c.Finite? && c.mag > 0.0 && RealTrips.Scaled(held, c) < Limit(f)
    requires Exchange(w, put, get, name, RealTrips.Replied(f, held, c))
    ensures var text, q := RealTrips.Replied(f, held, c), RealTrips.Shown(f, held, c);
      && OnGet(w, s, get) == Reply(s, Ok(0), Put(get, "Value", Str(text)))
      && OnSet(w, s, put).code == Ok(0)
      && (RealTrips.Writes(f, q, c) && RealTrips.Steady(f, q) ==> Told(w, s, put, get, text))
  {
    hide D.WriteOf, D.ReadOf, ExtractValue, Fixed, Sto, Rounded, Limit, Answered, OnSet, OnGet, Holds, RealTrips.Steady,
      RealTrips.Writes, RealTrips.Scaled, RealTrips.Shown, RealTrips.NearlyKept, RealTrips.WritableReal;
    var text := RealTrips.Replied(f, held, c);
    FixedIsText(held.neg != c.neg, RealTrips.Shown(f, held, c));
    RealTrips.RealSetAfterGet(w, d, s.mem, f, held, c);
    GetReads(w, s, get, name, d);
    SetThenGetPlain(w, s, put, get, name, d, text);
  }

  lemma GetReads(w: World, s: System, get: Json, name: string, d: D.View)
    requires Closed(s) && Holds(s, name, d) && AsksFor(get, name)
    ensures D.ReadOf(w, d, s.mem).Ok? ==>
      OnGet(w, s, get) == Reply(s, Ok(0), Put(get, "Value", Str(D.ReadOf(w, d, s.mem).value)))
  {
    hide D.ReadOf;
  }

  lemma FixedIsText(neg: bool, q: nat)
    ensures Fixed(neg, q) != ""
  {
  }

  /** An Int array dataref set to a JSON array of numerals replies the factor times the values
      written, and times the old contents beyond them. */
  lemma SetThenGetArray(w: World, s: System, put: Json, get: Json, name: string, d: D.View, js: seq<Json>, k: int)
    requires Closed(s) && Holds(s, name, d) && Faithful(w.codec)
    requires AsksFor(put, name) && AsksFor(get, name) && Contains(put, "Value") && put.fields["Value"] == Arr(js)
    requires d.handle.Some? && A.AllNumerals(js) && StodAsInt(d.factor) == Ok(k)
    requires RoundTrips.Writable(w, d, IntArrayType, IntArrayShape(ArraySize(w, d.handle.value)))
    ensures OnSet(w, s, put).code == Ok(0)
    ensures Told(w, s, put, get,
      w.codec.dump(Arr(RoundTrips.Overlaid(A.ValuesOf(js), ReadInts(w, s.mem, d.handle.value), k))))
  {
    hide D.WriteOf, D.ReadOf, StodAsInt, Answered, OnSet, Holds, RoundTrips.Overlaid, A.ValuesOf, ReadInts;
    var text := w.codec.dump(Arr(js));
    RoundTrips.ArrayGetAfterSet(w, d, s.mem, js, k);
    SetThenGetPlain(w, s, put, get, name, d, text);
  }

  /** The same for a float array dataref and a JSON array of decimals. */
  lemma SetThenGetRealArray(w: World, s: System, put: Json, get: Json, name: string, d: D.View, js: seq<Json>,
                            x: Double)
    requires Closed(s) && Holds(s, name, d) && Faithful(w.codec)
    requires AsksFor(put, name) && AsksFor(get, name) && Contains(put, "Value") && put.fields["Value"] == Arr(js)
    requires RealTrips.WritableReals(w, d) && A.AllDecimals(js) && Stod(d.factor) == Number(x)
    ensures OnSet(w, s, put).code == Ok(0)
    ensures Told(w, s, put, get,
      w.codec.dumpReals(RealTrips.OverlaidReals(A.RealsOf(js), ReadReals(w, s.mem, d.handle.value), x)))
  {
    hide D.WriteOf, D.ReadOf, Sto, Answered, OnSet, Holds, RealTrips.OverlaidReals, A.RealsOf, ReadReals;
    var text := w.codec.dump(Arr(js));
    RealTrips.RealArrayGetAfterSet(w, d, s.mem, js, x);
    SetThenGetPlain(w, s, put, get, name, d, text);
  }

  /** A Data dataref set to a text replies it up to its first NUL, exactly when that is shorter
      than the capacity; otherwise GET does not return. */
  lemma SetThenGetText(w: World, s: System, put: Json, get: Json, name: string, d: D.View, text: string)
    requires Closed(s) && Holds(s, name, d) && text != ""
    requires AsksFor(put, name) && AsksFor(get, name) && Contains(put, "Value") && put.fields["Value"] == Str(text)
    requires d.handle.Some? && RoundTrips.Writable(w, d, BytesType, BytesShape(BytesSize(w, d.handle.value)))
    ensures OnSet(w, s, put).code == Ok(0)
    ensures var n := D.Strlen(text);
      if n < BytesSize(w, d.handle.value) then Told(w, s, put, get, text[..n])
      else Answered(w, s, put, get).code == Abort
  {
    hide D.WriteOf, D.ReadOf, Answered, OnSet, Holds, D.Strlen;
    RoundTrips.TextGetAfterSet(w, d, s.mem, text);
    SetThenGetPlain(w, s, put, get, name, d, text);
  }

  // ----- JSON numbers -------------------------------------------------------------------------

  lemma NumberText(c: Codec, j: Json, d: FloatText, q: nat)
    requires Contains(j, "Value") && j.fields["Value"] == Float(d) && Decimal(d.digits, d.places, 1.0) == FixedValue(q)
    requires FixedValue(q) < Limit(DOUBLE) && Nearest(DOUBLE, FixedValue(q)) < Limit(SINGLE)
    ensures ExtractValue(c, j)
         == Ok(Fixed(d.neg, Round(Nearest(SINGLE, Nearest(DOUBLE, FixedValue(q))) * 1000000.0)))
  {
    hide Nearest, Limit, Fixed, Round, Decimal;
  }

  /** A JSON number of six decimals below sixteen reaches the dataref as that text. */
  lemma JsonNumberKept(c: Codec, j: Json, d: FloatText, q: nat)
    requires Contains(j, "Value") && j.fields["Value"] == Float(d) && Decimal(d.digits, d.places, 1.0) == FixedValue(q)
    requires q < 16 * MILLION
    ensures ExtractValue(c, j) == Ok(Fixed(d.neg, q))
  {
    hide Nearest, Limit, Fixed, Round, Decimal, ExtractValue;
    TwiceSurvives(q);
    InSingle(Nearest(DOUBLE, FixedValue(q)));
    RealTrips.InDouble(FixedValue(q));
    NumberText(c, j, d, q);
  }

  /** A longer one does not, whatever the type of the dataref: every JSON number goes through
      float. */
  lemma JsonNumberShortened(c: Codec, j: Json)
    requires Contains(j, "Value") && j.fields["Value"] == Float(FloatText(false, 1_234_567_891, 6))
    ensures ExtractValue(c, j) == Ok("1234.567871")
  {
    hide Nearest, Limit, Fixed, Round, Decimal, ExtractValue, Pow10;
    TwiceShortens();
    LongTexts();
    DecimalSix(1_234_567_891);
    InSingle(Nearest(DOUBLE, FixedValue(1_234_567_891)));
    RealTrips.InDouble(FixedValue(1_234_567_891));
    NumberText(c, j, FloatText(false, 1_234_567_891, 6), 1_234_567_891);
  }
}
