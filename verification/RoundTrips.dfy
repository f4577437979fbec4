/** What reading gives back after writing, and writing after reading, for each type of
    X-Plane dataref. */
module RoundTrips {
  import opened Prelude
  import opened Rounding
  import opened Numerals
  import opened JsonTree
  import opened Simulation
  import opened Datarefs
  import A = ArrayText

  /** d is a writable dataref of the type and the shape given. */
  predicate Writable(w: World, d: View, typ: DataType, shape: Shape) {
    d.handle.Some? && d.handle.value in w.writable && d.typ == typ && ShapeOf(w, d.handle.value) == shape
  }

  /** The factor of a request that names none, "1.0f", is one. */
  lemma DefaultFactorIsOne()
    ensures Stod("1.0f") == Number(Finite(false, 1.0)) && StodAsInt("1.0f") == Ok(1)
  {
    hide Denoted, NatOf, Nearest, Limit, Pow2;
    DenotedFixed(false, "1", "0", "f");
    Powers();
    NaturalsStay(DOUBLE, 1);
    assert PrintNat(1) == "1" && PrintNat(10) == "10" && "1" + "0" == "10";
    NatOfPrintNat(10);
    assert Pow10(1) == 10 * Pow10(0);
    assert Decimal(10, 1, 1.0) == 1.0;
    assert "" + ("1" + "." + "0" + "f") == "1.0f";
  }

  // ----- Integers ------------------------------------------------------------------

  /** Writing back the text just read restores the cell exactly when the factor is not
      zero and the scaled value fits an int. */
  lemma IntSetAfterGet(w: World, d: View, m: Memory, x: int, f: int)
    requires Writable(w, d, IntType, IntShape) && StodAsInt(d.factor) == Ok(f)
    requires InInt32(x) && Cell(d.handle.value, 0) in m && m[Cell(d.handle.value, 0)] == IntAtom(x)
    ensures ReadOf(w, d, m).Ok?
    ensures var write := WriteOf(w, d, ReadOf(w, d, m).value);
      (write.Ok? && m + write.value == m) <==> (f != 0 && InInt32(x * f))
  {
    hide Stoi, Sto, StodAsInt, PrintInt, TruncDiv, Wrap, A.IntText, A.RealText, BytesPatch, ReadInts, ReadBytes;
    var v := Wrap(x * f);
    StoiPrintInt(v);
    var write := WriteOf(w, d, PrintInt(v));
    if f != 0 {
      if InInt32(x * f) {
        assert x * f - x * f == 0;
        TruncDivUnique(v, f, x);
        assert ScaledDown(PrintInt(v), d.factor) == Ok(x);
        assert m + IntPatch(w, d.handle.value, x) == m;
      } else {
        OverflowIsNotUndone(x, f);
        if write.Ok? {
          assert (m + write.value)[Cell(d.handle.value, 0)] == IntAtom(TruncDiv(v, f));
        }
      }
    }
  }

  lemma FactorFour()
    ensures StodAsInt("4") == Ok(4)
  {
    hide Sto, StodAsInt;
    assert PrintInt(4) == "4";
    StodPrintInt(4);
  }

  /** 2^30 with factor 4 reads as 0, and writing that back loses it. */
  lemma OverflowLosesValue(w: World, d: View, m: Memory)
    requires Writable(w, d, IntType, IntShape) && d.factor == "4"
    requires Cell(d.handle.value, 0) in m && m[Cell(d.handle.value, 0)] == IntAtom(0x4000_0000)
    ensures ReadOf(w, d, m) == Ok("0")
    ensures WriteOf(w, d, "0") == Ok(map[Cell(d.handle.value, 0) := IntAtom(0)])
  {
    hide Sto, StodAsInt, Stoi;
    FactorFour();
    assert PrintInt(0) == "0";
    StoiPrintInt(0);
  }

  lemma HalfStays()
    ensures Nearest(DOUBLE, 0.5) == 0.5 && 0.5 < Limit(DOUBLE)
  {
    hide Unit, Nearest, Limit, Pow2;
    SmallUnit(DOUBLE, 1);
    Pow2Next(0);
    Powers();
    assert Pow2(0) == 1 by { Pow2Sum(0, 0); }
    assert Is(DOUBLE, 0.5, 1, 1073);
    Stays(DOUBLE, 0.5);
  }

  lemma FactorHalf()
    ensures StodAsInt("0.5") == Ok(0)
  {
    hide Denoted, NatOf, Nearest, Limit, Pow2;
    DenotedFixed(false, "0", "5", []);
    HalfStays();
    assert PrintNat(5) == "5" && PadNat(5, 2) == "05" by { assert PadNat(0, 1) == "0"; }
    assert Pow10(1) == 10 * Pow10(0) && Pow10(2) == 10 * Pow10(1);
    NatOfPadNat(5, 2);
    assert "0" + "5" == "05";
    assert Decimal(5, 1, 1.0) == 0.5;
    assert "" + ("0" + "." + "5" + []) == "0.5";
  }

  /** At factor "0.5" an Int dataref reads "0" whatever it holds, and no write returns: the
      factor truncates to the zero the value is divided by. */
  lemma HalfFactorStopsWrites(w: World, d: View, m: Memory, value: string)
    requires Writable(w, d, IntType, IntShape) && d.factor == "0.5"
    ensures ReadOf(w, d, m) == Ok("0") && WriteOf(w, d, value) == Abort
  {
    hide Sto, StodAsInt, Stoi;
    FactorHalf();
    assert PrintInt(0) == "0";
  }

  lemma OverflowIsNotUndone(x: int, f: int)
    requires f != 0 && !InInt32(x * f) && InInt32(f)
    ensures TruncDiv(Wrap(x * f), f) != x
  {
    TruncDivBounds(Wrap(x * f), f);
  }

  /** SET v, then GET: the text of v less the truncated remainder of v by the factor. The
      write fails only for a zero factor or a quotient that is no int. */
  lemma IntGetAfterSet(w: World, d: View, m: Memory, value: string, v: int, f: int)
    requires Writable(w, d, IntType, IntShape) && StodAsInt(d.factor) == Ok(f) && Stoi(value) == Number(v)
    ensures WriteOf(w, d, value).Ok? <==> f != 0 && !(v == -TWO_31 && f == -1)
    ensures WriteOf(w, d, value).Ok? ==>
      && ReadOf(w, d, m + WriteOf(w, d, value).value) == Ok(PrintInt(v - TruncRem(v, f)))
      && Abs(TruncRem(v, f)) < Abs(f)
      && (v - TruncRem(v, f) == v <==> v % f == 0)
  {
    hide Stoi, Sto, StodAsInt, PrintInt, TruncDiv, Wrap, A.IntText, A.RealText, BytesPatch, ReadInts, ReadBytes;
    if f != 0 {
      TruncDivBounds(v, f);
      QuotientFits(v, f);
      RemainderZero(v, f);
      if InInt32(TruncDiv(v, f)) {
        var n := TruncDiv(v, f);
        assert (m + IntPatch(w, d.handle.value, n))[Cell(d.handle.value, 0)] == IntAtom(n);
      }
    }
  }

  lemma QuotientFits(v: int, f: int)
    requires f != 0 && InInt32(v)
    ensures InInt32(TruncDiv(v, f)) <==> !(v == -TWO_31 && f == -1)
  {
    if f != 1 && f != -1 {
      BigDivisorHalves(Abs(v), Abs(f));
    } else {
      assert Abs(v) / 1 == Abs(v);
    }
  }

  lemma BigDivisorHalves(a: nat, b: nat)
    requires b >= 2
    ensures 0 <= (a / b) * 2 <= a
  {
    var q := a / b;
    QuotientBounds(a, b);
    assert q * b == q * 2 + q * (b - 2) && q * (b - 2) >= 0;
  }

  lemma MultipleHasNoRemainder(v: int, f: int, k: int)
    requires f != 0 && v == k * f
    ensures v % f == 0
  {
    var q := v / f;
    assert v % f == k * f - q * f == (k - q) * f;
    if k != q {
      ProductAtLeast(k - q, f);
    }
  }

  lemma RemainderZero(v: int, f: int)
    requires f != 0
    ensures TruncRem(v, f) == 0 <==> v % f == 0
  {
    hide TruncDiv;
    TruncDivBounds(v, f);
    if v % f == 0 {
      var q := v / f;
      assert v == q * f;
      TruncDivUnique(v, f, q);
    }
    if TruncRem(v, f) == 0 {
      MultipleHasNoRemainder(v, f, TruncDiv(v, f));
    }
  }

  /** The "Value" of a SET request survives the trip through ExtractJsonValue and stoi,
      whether it comes as a JSON integer or as decimal text. */
  lemma ExtractedInteger(c: Codec, j: Json, v: int)
    requires InInt32(v) && Contains(j, "Value")
    requires j.fields["Value"] == Int(v) || j.fields["Value"] == Str(PrintInt(v))
    ensures ExtractValue(c, j).Ok? && Stoi(ExtractValue(c, j).value) == Number(v)
  {
    hide PrintInt, Stoi;
    StoiPrintInt(v);
    assert v >= 0 ==> v % TWO_32 == v;
  }

  // ----- Integer arrays --------------------------------------------------------------

  lemma ReadWrittenInts(w: World, m: Memory, h: Handle, offset: int, data: seq<int>)
    ensures var cells, before := ReadInts(w, m + IntsPatch(w, h, offset, data), h), ReadInts(w, m, h);
      |cells| == |before| && forall i | 0 <= i < |cells| ::
        cells[i] == if offset <= i < offset + |data| then data[i - offset] else before[i]
  {
    var p := IntsPatch(w, h, offset, data);
    forall i | 0 <= i < ArraySize(w, h)
      ensures IntIn(m + p, Cell(h, i))
           == if offset <= i < offset + |data| then data[i - offset] else IntIn(m, Cell(h, i))
    {
      assert Cell(h, i) in p <==> offset <= i < offset + |data|;
    }
  }

  /** The elements read after vs was written over before: all scaled, the first from vs. */
  function Overlaid(vs: seq<int>, before: seq<int>, f: int): seq<Json> {
    seq(|before|, i requires 0 <= i < |before| => Int(Wrap((if i < |vs| then vs[i] else before[i]) * f)))
  }

  /** Writing an array of numerals and reading it back gives the factor times the written
      value in the first min(len, capacity) elements and the factor times the old contents
      in the others: reading scales, writing does not. */
  lemma ArrayGetAfterSet(w: World, d: View, m: Memory, js: seq<Json>, f: int)
    requires Faithful(w.codec)
    requires d.handle.Some? && Writable(w, d, IntArrayType, IntArrayShape(ArraySize(w, d.handle.value)))
    requires A.AllNumerals(js) && StodAsInt(d.factor) == Ok(f)
    ensures var write := WriteOf(w, d, w.codec.dump(Arr(js)));
      write.Ok? && ReadOf(w, d, m + write.value)
        == Ok(w.codec.dump(Arr(Overlaid(A.ValuesOf(js), ReadInts(w, m, d.handle.value), f))))
  {
    hide Sto, StodAsInt, Stoi, BytesPatch, RealPatch, IntPatch, ReadBytes, A.Resolve;
    var h := d.handle.value;
    A.NoWrapper(Arr(js), 0, Ok(1));
    var data := A.ValuesOf(js)[..A.Min(|js|, ArraySize(w, h))];
    assert WriteOf(w, d, w.codec.dump(Arr(js))) == Ok(IntsPatch(w, h, 0, data));
    ReadWrittenInts(w, m, h, 0, data);
    var before, cells := ReadInts(w, m, h), ReadInts(w, m + IntsPatch(w, h, 0, data), h);
    assert ScaledInts(cells, f) == Overlaid(A.ValuesOf(js), before, f);
  }

  /** What GetValue returns after SetValue with a JSON array. */
  function ReadBack(w: World, d: View, m: Memory, js: seq<Json>): Result<string> {
    match WriteOf(w, d, w.codec.dump(Arr(js)))
    case Ok(p) => ReadOf(w, d, m + p)
    case Abort => Abort
  }

  function Ints(vs: seq<int>): Json { Arr(seq(|vs|, i requires 0 <= i < |vs| => Int(vs[i]))) }

  /** Every full array written reads back as written exactly when the factor is one. */
  lemma ArrayIsLosslessIffFactorOne(w: World, d: View, m: Memory, f: int)
    requires Faithful(w.codec) && d.handle.Some? && ArraySize(w, d.handle.value) > 0
    requires Writable(w, d, IntArrayType, IntArrayShape(ArraySize(w, d.handle.value))) && StodAsInt(d.factor) == Ok(f)
    ensures f == 1 <==> forall js | A.AllNumerals(js) && |js| == ArraySize(w, d.handle.value) ::
      ReadBack(w, d, m, js) == Ok(w.codec.dump(Ints(A.ValuesOf(js))))
  {
    hide WriteOf, ReadOf, Stoi, StodAsInt, ReadBack;
    var size := ArraySize(w, d.handle.value);
    forall js | A.AllNumerals(js) && |js| == size
      ensures ReadBack(w, d, m, js) == Ok(w.codec.dump(Ints(A.ValuesOf(js)))) <==>
        forall i | 0 <= i < size :: Wrap(A.ValuesOf(js)[i] * f) == A.ValuesOf(js)[i]
    {
      FullArray(w, d, m, js, f);
    }
    var ones := seq(size, _ => Str(PrintInt(1)));
    StoiPrintInt(1);
    assert A.AllNumerals(ones) && A.ValuesOf(ones)[0] == 1;
    if f == 1 {
      forall js | A.AllNumerals(js) && |js| == size
        ensures ReadBack(w, d, m, js) == Ok(w.codec.dump(Ints(A.ValuesOf(js))))
      {
        forall i | 0 <= i < size
          ensures InInt32(A.ValuesOf(js)[i])
        {
          assert js[i] in js && A.IsNumeral(js[i]);
        }
      }
    } else {
      assert Wrap(A.ValuesOf(ones)[0] * f) == f;
      assert ReadBack(w, d, m, ones) != Ok(w.codec.dump(Ints(A.ValuesOf(ones))));
    }
  }

  lemma FullArray(w: World, d: View, m: Memory, js: seq<Json>, f: int)
    requires Faithful(w.codec) && d.handle.Some? && |js| == ArraySize(w, d.handle.value)
    requires Writable(w, d, IntArrayType, IntArrayShape(|js|)) && A.AllNumerals(js) && StodAsInt(d.factor) == Ok(f)
    ensures ReadBack(w, d, m, js) == Ok(w.codec.dump(Ints(A.ValuesOf(js)))) <==>
      forall i | 0 <= i < |js| :: Wrap(A.ValuesOf(js)[i] * f) == A.ValuesOf(js)[i]
  {
    hide WriteOf, ReadOf, Stoi, StodAsInt, Wrap;
    var vs := A.ValuesOf(js);
    ArrayGetAfterSet(w, d, m, js, f);
    var read := Overlaid(vs, ReadInts(w, m, d.handle.value), f);
    assert |read| == |js| && forall i | 0 <= i < |js| :: read[i] == Int(Wrap(vs[i] * f));
    assert w.codec.parse(w.codec.dump(Arr(read))) == Some(Arr(read));
    assert w.codec.parse(w.codec.dump(Ints(vs))) == Some(Ints(vs));
    if Arr(read) == Ints(vs) {
      assert forall i | 0 <= i < |js| :: read[i] == Ints(vs).elems[i];
    }
    if forall i | 0 <= i < |js| :: Wrap(vs[i] * f) == vs[i] {
      assert read == Ints(vs).elems;
    }
  }

  /** At factor "2" a one-element array set to 1 reads 2. */
  lemma OneReadsTwo(w: World, d: View, m: Memory)
    requires Faithful(w.codec) && Writable(w, d, IntArrayType, IntArrayShape(1)) && d.factor == "2"
    ensures ReadBack(w, d, m, [Str("1")]) == Ok(w.codec.dump(Arr([Int(2)])))
    ensures ReadBack(w, d, m, [Str("1")]) != Ok(w.codec.dump(Arr([Int(1)])))
  {
    hide WriteOf, ReadOf, Stoi, StodAsInt;
    assert PrintInt(1) == "1" && PrintInt(2) == "2";
    StoiPrintInt(1);
    StodPrintInt(2);
    ArrayGetAfterSet(w, d, m, [Str("1")], 2);
    assert Overlaid(A.ValuesOf([Str("1")]), ReadInts(w, m, d.handle.value), 2) == [Int(2)];
    assert w.codec.parse(w.codec.dump(Arr([Int(2)]))) == Some(Arr([Int(2)]));
    assert w.codec.parse(w.codec.dump(Arr([Int(1)]))) == Some(Arr([Int(1)]));
    assert Arr([Int(2)]).elems[0] != Arr([Int(1)]).elems[0];
  }

  // ----- Text ------------------------------------------------------------------------

  lemma {:induction false} StrlenIs(s: string, n: nat)
    requires n <= |s| && '\0' !in s[..n] && (n < |s| ==> s[n] == '\0')
    ensures Strlen(s) == n
  {
    assert forall i | 0 <= i < n :: s[..n][i] != '\0';
    assert forall i | 0 <= i < Strlen(s) :: s[..Strlen(s)][i] != '\0';
  }

  lemma ReadWrittenBytes(w: World, m: Memory, h: Handle, data: string)
    requires |data| == BytesSize(w, h)
    ensures ReadBytes(w, m + BytesPatch(w, h, data), h) == data
  {
    var p := BytesPatch(w, h, data);
    forall i | 0 <= i < BytesSize(w, h)
      ensures ByteIn(m + p, Cell(h, i)) == data[i]
    {
      assert Cell(h, i) in p;
    }
  }

  /** Whatever was stored before, reading gives exactly the value up to its first NUL if
      that text is shorter than the capacity; otherwise the read runs off the buffer. */
  lemma TextGetAfterSet(w: World, d: View, m: Memory, value: string)
    requires d.handle.Some? && Writable(w, d, BytesType, BytesShape(BytesSize(w, d.handle.value)))
    ensures var write := WriteOf(w, d, value);
      write.Ok? && ReadOf(w, d, m + write.value) ==
        if Strlen(value) < BytesSize(w, d.handle.value) then Ok(value[..Strlen(value)]) else Abort
  {
    hide Sto, StodAsInt, Stoi, A.IntText, A.RealText, ReadInts, ReadBytes, BytesPatch, RealPatch, IntPatch, IntsPatch;
    var h := d.handle.value;
    var n, capacity := Strlen(value), BytesSize(w, h);
    var stored := Padded(value, capacity);
    ReadWrittenBytes(w, m, h, stored);
    if n < capacity {
      assert stored[..n] == value[..n];
      StrlenIs(stored, n);
    } else {
      assert stored == value[..capacity];
      assert forall i | 0 <= i < capacity :: value[i] == value[..n][i];
      StrlenIs(stored, capacity);
    }
  }
}
