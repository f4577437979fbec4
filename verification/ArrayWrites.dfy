/** What an array dataref holds after it was set: the elements of the JSON text, from the
    element its "Offset" names, and the old ones everywhere else. */
module ArrayWrites {
  import opened Prelude
  import opened Rounding
  import opened Numerals
  import opened JsonTree
  import opened Simulation
  import opened Datarefs
  import opened RoundTrips
  import opened RealTrips
  import A = ArrayText

  /** Following "Value" from j, when o was named on the way, ends in leaf, and at in force there:
      a string "Offset" names an element anew, any other is zero, none leaves the one before. */
  predicate Leads(j: Json, o: int, k: int, leaf: Json, at: int) {
    if !j.Obj? || "Value" !in j.fields then leaf == j && at == o
    else if "Offset" !in j.fields then Leads(j.fields["Value"], o, k, leaf, at)
    else
      match j.fields["Offset"]
      case Str(text) => Stoi(text).Number? && k != 0 &&
        var n := if k == 1 then Stoi(text).value else TruncDiv(Stoi(text).value, k);
        InInt32(n) && Leads(j.fields["Value"], n, k, leaf, at)
      case _ => Leads(j.fields["Value"], 0, k, leaf, at)
  }

  lemma DivideByOne(n: int)
    ensures TruncDiv(n, 1) == n
  {
    TruncDivUnique(n, 1, n);
  }

  lemma {:induction false} LeadsResolves(j: Json, o: int, k: int, leaf: Json, at: int)
    requires Leads(j, o, k, leaf, at)
    ensures A.Resolve(j, o, Ok(k)) == Ok(A.Target(leaf, at)) && !Contains(leaf, "Value")
    decreases j
  {
    hide A.Resolve, Stoi, TruncDiv;
    if !Contains(j, "Value") {
      A.NoWrapper(j, o, Ok(k));
    } else {
      A.Unwrap(j, o, Ok(k));
      if "Offset" !in j.fields {
        LeadsResolves(j.fields["Value"], o, k, leaf, at);
      } else if j.fields["Offset"].Str? {
        var n := Stoi(j.fields["Offset"].text).value;
        DivideByOne(n);
        LeadsResolves(j.fields["Value"], TruncDiv(n, k), k, leaf, at);
      } else {
        LeadsResolves(j.fields["Value"], 0, k, leaf, at);
      }
    }
  }

  /** Some "Offset" on the way is a string that is no numeral, or cannot be divided by k. */
  predicate Stuck(j: Json, k: int) {
    && j.Obj? && "Value" in j.fields
    && (|| Stuck(j.fields["Value"], k)
        || ("Offset" in j.fields && match j.fields["Offset"]
            case Str(text) => !Stoi(text).Number? || k == 0 || !InInt32(TruncDiv(Stoi(text).value, k))
            case _ => false))
  }

  lemma {:induction false} StuckAborts(j: Json, o: int, k: int)
    requires Stuck(j, k)
    ensures A.Resolve(j, o, Ok(k)) == Abort
    decreases j
  {
    hide A.Resolve, Stoi, TruncDiv;
    A.Unwrap(j, o, Ok(k));
    if !A.BadOffset(j, Ok(k)) {
      StuckAborts(j.fields["Value"], if "Offset" in j.fields then A.OwnOffset(j, Ok(k)).value else o, k);
    }
  }

  /** Then setting the array throws, and nothing is written. */
  lemma StuckThrows(w: World, d: View, text: string, k: int)
    requires w.codec.parse(text).Some? && Stuck(w.codec.parse(text).value, k)
    requires (WritableInts(w, d) && k == 1) || (WritableReals(w, d) && StodAsInt(d.factor) == Ok(k))
    ensures WriteOf(w, d, text) == Abort
  {
    hide A.Resolve, Stuck, StodAsInt;
    StuckAborts(w.codec.parse(text).value, 0, k);
  }

  // ----- Integer arrays ----------------------------------------------------------------------

  /** A writable Int array dataref. */
  predicate WritableInts(w: World, d: View) {
    d.handle.Some? && Writable(w, d, IntArrayType, IntArrayShape(ArraySize(w, d.handle.value)))
  }

  /** text is JSON that leads to leaf, in force at element at. */
  predicate TextLeads(w: World, text: string, k: int, leaf: Json, at: int) {
    w.codec.parse(text).Some? && Leads(w.codec.parse(text).value, 0, k, leaf, at)
  }

  lemma IntsWritten(w: World, d: View, m: Memory, text: string, leaf: Json, at: int, data: seq<int>)
    requires WritableInts(w, d) && TextLeads(w, text, 1, leaf, at)
    requires A.IntLeaf(A.Target(leaf, at), ArraySize(w, d.handle.value)) == Ok(A.BulkWrite(at, data))
    ensures WriteOf(w, d, text) == Ok(IntsPatch(w, d.handle.value, at, data))
    ensures var cells, before := ReadInts(w, m + IntsPatch(w, d.handle.value, at, data), d.handle.value),
                                 ReadInts(w, m, d.handle.value);
      |cells| == |before| == ArraySize(w, d.handle.value) && forall i | 0 <= i < |cells| ::
        cells[i] == if at <= i < at + |data| then data[i - at] else before[i]
  {
    hide A.Resolve, A.IntLeaf, IntsPatch, Leads, A.RealText, ReadInts;
    LeadsResolves(w.codec.parse(text).value, 0, 1, leaf, at);
    ReadWrittenInts(w, m, d.handle.value, at, data);
    SizeOfInts(w, m, d.handle.value);
  }

  lemma SizeOfInts(w: World, m: Memory, h: Handle)
    ensures |ReadInts(w, m, h)| == ArraySize(w, h)
  {
  }

  /** Element i after the numerals js were written at element at. */
  function Placed(js: seq<Json>, at: int, capacity: nat, i: int, was: int): int
    requires forall j | j in js :: j.Str? && Stoi(j.text).Number?
  {
    if at <= i < at + |js| && i - at < capacity then
      assert js[i - at] in js;
      Stoi(js[i - at].text).value
    else was
  }

  /** An array of numerals is written from the element named on, as far as it and the dataref
      reach; the other elements stay. */
  lemma ArrayIsWritten(w: World, d: View, m: Memory, text: string, js: seq<Json>, at: int)
    requires WritableInts(w, d) && TextLeads(w, text, 1, Arr(js), at)
    requires forall j | j in js :: j.Str? && Stoi(j.text).Number?
    ensures WriteOf(w, d, text).Ok?
    ensures var before, after := ReadInts(w, m, d.handle.value),
                                 ReadInts(w, m + WriteOf(w, d, text).value, d.handle.value);
      |after| == |before| == ArraySize(w, d.handle.value) && forall i | 0 <= i < |before| ::
        after[i] == Placed(js, at, |before|, i, before[i])
  {
    hide WriteOf, Stoi, IntsPatch, TextLeads;
    assert A.AllNumerals(js);
    var capacity := ArraySize(w, d.handle.value);
    IntsWritten(w, d, m, text, Arr(js), at, A.ValuesOf(js)[..A.Min(|js|, capacity)]);
  }

  /** A JSON integer is written to every element from the one named on. */
  lemma IntegerFills(w: World, d: View, m: Memory, text: string, n: int, at: int)
    requires WritableInts(w, d) && TextLeads(w, text, 1, Int(n), at)
    ensures WriteOf(w, d, text).Ok?
    ensures var before, after := ReadInts(w, m, d.handle.value),
                                 ReadInts(w, m + WriteOf(w, d, text).value, d.handle.value);
      |after| == |before| && forall i | 0 <= i < |before| ::
        after[i] == if at <= i < at + |before| then Wrap(n) else before[i]
  {
    hide WriteOf, IntsPatch, TextLeads, Wrap;
    IntsWritten(w, d, m, text, Int(n), at, A.Fill(ArraySize(w, d.handle.value), Wrap(n)));
  }

  /** So is the number of a JSON string. */
  lemma NumeralFills(w: World, d: View, m: Memory, text: string, s: string, at: int)
    requires WritableInts(w, d) && TextLeads(w, text, 1, Str(s), at) && Stoi(s).Number?
    ensures WriteOf(w, d, text).Ok?
    ensures var before, after := ReadInts(w, m, d.handle.value),
                                 ReadInts(w, m + WriteOf(w, d, text).value, d.handle.value);
      |after| == |before| && forall i | 0 <= i < |before| ::
        after[i] == if at <= i < at + |before| then Stoi(s).value else before[i]
  {
    hide WriteOf, IntsPatch, TextLeads, Stoi;
    var capacity := ArraySize(w, d.handle.value);
    IntsWritten(w, d, m, text, Str(s), at, if capacity == 0 then [] else A.Fill(capacity, Stoi(s).value));
  }

  /** What does not write: text that is no JSON, an object that leads to none of these, true,
      false, null and numbers with a point. */
  lemma NothingForInts(w: World, d: View, text: string, leaf: Json, at: int)
    requires WritableInts(w, d)
    requires w.codec.parse(text).None?
      || (TextLeads(w, text, 1, leaf, at) && (leaf.Obj? || leaf.Bool? || leaf.Null? || leaf.Float?))
    ensures WriteOf(w, d, text) == Ok(map[])
    ensures A.IntText(w.codec, text, 0, ArraySize(w, d.handle.value)) == Ok(A.Rejected(
      if w.codec.parse(text).None? then -1 else if leaf.Obj? then -2 else 2))
  {
    hide A.Resolve, Leads, A.RealText;
    if w.codec.parse(text).Some? {
      LeadsResolves(w.codec.parse(text).value, 0, 1, leaf, at);
    }
  }

  /** An array with an element that is no numeral, or a string that is none, throws before
      anything is written. */
  lemma BadNumeralThrows(w: World, d: View, text: string, leaf: Json, at: int)
    requires WritableInts(w, d) && TextLeads(w, text, 1, leaf, at)
    requires match leaf
      case Arr(js) => exists j :: j in js && !(j.Str? && Stoi(j.text).Number?)
      case Str(s) => !Stoi(s).Number? && ArraySize(w, d.handle.value) > 0
      case _ => false
    ensures WriteOf(w, d, text) == Abort
  {
    hide A.Resolve, Leads, A.RealText, Stoi;
    LeadsResolves(w.codec.parse(text).value, 0, 1, leaf, at);
  }

  // ----- Float arrays ------------------------------------------------------------------------

  lemma RealsWritten(w: World, d: View, m: Memory, text: string, k: int, leaf: Json, at: int, data: seq<Double>)
    requires WritableReals(w, d) && StodAsInt(d.factor) == Ok(k) && TextLeads(w, text, k, leaf, at)
    requires A.RealLeaf(A.Target(leaf, at), RealsSize(w, d.handle.value), d.factor) == Ok(A.BulkWrite(at, data))
    ensures WriteOf(w, d, text) == Ok(RealsPatch(w, d.handle.value, at, data))
    ensures var cells, before := ReadReals(w, m + RealsPatch(w, d.handle.value, at, data), d.handle.value),
                                 ReadReals(w, m, d.handle.value);
      |cells| == |before| && forall i | 0 <= i < |cells| ::
        cells[i] == if at <= i < at + |data| then Narrow(data[i - at]) else before[i]
  {
    hide A.Resolve, A.RealLeaf, RealsPatch, Leads, A.IntText, ReadReals, StodAsInt, Narrow;
    LeadsResolves(w.codec.parse(text).value, 0, k, leaf, at);
    ReadWrittenReals(w, m, d.handle.value, at, data);
  }

  /** Element i after the decimals js were written at element at. */
  function PlacedReal(js: seq<Json>, at: int, capacity: nat, i: int, was: Double): Double
    requires forall j | j in js :: j.Str? && Stof(j.text).Number?
  {
    if at <= i < at + |js| && i - at < capacity then
      assert js[i - at] in js;
      Stof(js[i - at].text).value
    else was
  }

  /** An array of decimals is written as floats from the element named on. */
  lemma RealArrayIsWritten(w: World, d: View, m: Memory, text: string, k: int, js: seq<Json>, at: int)
    requires WritableReals(w, d) && StodAsInt(d.factor) == Ok(k) && TextLeads(w, text, k, Arr(js), at)
    requires forall j | j in js :: j.Str? && Stof(j.text).Number?
    ensures WriteOf(w, d, text).Ok?
    ensures var before, after := ReadReals(w, m, d.handle.value),
                                 ReadReals(w, m + WriteOf(w, d, text).value, d.handle.value);
      |after| == |before| && forall i | 0 <= i < |before| ::
        after[i] == PlacedReal(js, at, |before|, i, before[i])
  {
    hide WriteOf, Sto, RealsPatch, TextLeads, Narrow, StodAsInt;
    assert A.AllDecimals(js);
    DecimalsAreFloats(js);
    var capacity := RealsSize(w, d.handle.value);
    RealsWritten(w, d, m, text, k, Arr(js), at, A.RealsOf(js)[..A.Min(|js|, capacity)]);
  }

  /** A JSON number with a point is divided by the factor and written to every element from the
      one named on. */
  lemma NumberFills(w: World, d: View, m: Memory, text: string, k: int, x: Double, v: FloatText, at: int)
    requires WritableReals(w, d) && StodAsInt(d.factor) == Ok(k) && TextLeads(w, text, k, Float(v), at)
    requires Stod(d.factor) == Number(x)
    ensures WriteOf(w, d, text).Ok?
    ensures var before, after := ReadReals(w, m, d.handle.value),
                                 ReadReals(w, m + WriteOf(w, d, text).value, d.handle.value);
      |after| == |before| && forall i | 0 <= i < |before| ::
        after[i] == if at <= i < at + |before| then Div(SINGLE, Narrow(FloatValue(v)), Narrow(x)) else before[i]
  {
    hide WriteOf, RealsPatch, TextLeads, Sto, Rounded, FloatValue, StodAsInt, Quotient;
    var y := Div(SINGLE, Narrow(FloatValue(v)), Narrow(x));
    RoundedStays(SINGLE, Quotient(Narrow(FloatValue(v)), Narrow(x)));
    var capacity := RealsSize(w, d.handle.value);
    RealsWritten(w, d, m, text, k, Float(v), at, if capacity == 0 then [] else A.Fill(capacity, y));
  }

  /** A JSON string, whatever it says, writes zeros there. */
  lemma StringZeroes(w: World, d: View, m: Memory, text: string, k: int, s: string, at: int)
    requires WritableReals(w, d) && StodAsInt(d.factor) == Ok(k) && TextLeads(w, text, k, Str(s), at)
    ensures WriteOf(w, d, text).Ok?
    ensures var before, after := ReadReals(w, m, d.handle.value),
                                 ReadReals(w, m + WriteOf(w, d, text).value, d.handle.value);
      |after| == |before| && forall i | 0 <= i < |before| ::
        after[i] == if at <= i < at + |before| then Finite(false, 0.0) else before[i]
  {
    hide WriteOf, RealsPatch, TextLeads, Sto, Rounded, StodAsInt;
    RoundedZero();
    RealsWritten(w, d, m, text, k, Str(s), at, A.Fill(RealsSize(w, d.handle.value), ZERO));
  }

  lemma RoundedZero()
    ensures Rounded(SINGLE, ZERO) == Finite(false, 0.0)
  {
    hide Nearest, Limit, Pow2;
    ZeroStays(SINGLE);
    LimitIs(SINGLE);
  }

  /** What does not write: text that is no JSON, an object that leads to none of these, true,
      false, null and integers. */
  lemma NothingForReals(w: World, d: View, text: string, k: int, leaf: Json, at: int)
    requires WritableReals(w, d) && StodAsInt(d.factor) == Ok(k)
    requires w.codec.parse(text).None?
      || (TextLeads(w, text, k, leaf, at) && (leaf.Obj? || leaf.Bool? || leaf.Null? || leaf.Int?))
    ensures WriteOf(w, d, text) == Ok(map[])
    ensures A.RealText(w.codec, text, 0, RealsSize(w, d.handle.value), d.factor) == Ok(A.Rejected(
      if w.codec.parse(text).None? then -1 else if leaf.Obj? then -2 else 2))
  {
    hide A.Resolve, Leads, A.IntText, StodAsInt, Sto;
    if w.codec.parse(text).Some? {
      LeadsResolves(w.codec.parse(text).value, 0, k, leaf, at);
    }
  }

  /** An array with an element that is no decimal throws before anything is written. */
  lemma BadDecimalThrows(w: World, d: View, text: string, k: int, js: seq<Json>, at: int)
    requires WritableReals(w, d) && StodAsInt(d.factor) == Ok(k) && TextLeads(w, text, k, Arr(js), at)
    requires exists j :: j in js && !(j.Str? && Stof(j.text).Number?)
    ensures WriteOf(w, d, text) == Abort
  {
    hide A.Resolve, Leads, A.IntText, Sto, StodAsInt;
    LeadsResolves(w.codec.parse(text).value, 0, k, Arr(js), at);
    assert !A.AllDecimals(js);
  }
}
