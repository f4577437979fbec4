/** X-Plane datarefs: reading and writing one through the SDK. */
module Datarefs {
  import opened Prelude
  import opened Rounding
  import opened Numerals
  import opened JsonTree
  import opened Simulation
  import A = ArrayText

  /** The value of a Dataref object. */
  datatype View = View(link: string, handle: Option<Handle>, typ: DataType, factor: string)

  /** LoadType: a dataref with a Float or Double bit is read as Double, whatever else it offers. */
  function LoadedType(w: World, handle: Option<Handle>): DataType {
    if handle.None? || handle.value !in w.types then UnknownType else
      var ts := w.types[handle.value];
      if FloatType in ts || DoubleType in ts then DoubleType
      else if ts == {} then UnknownType
      else if ts == {IntType} then IntType
      else if ts == {FloatArrayType} then FloatArrayType
      else if ts == {IntArrayType} then IntArrayType
      else if ts == {BytesType} then BytesType
      else MixedType
  }

  function NamedType(name: string): DataType {
    match name
    case "INT" => IntType
    case "FLOAT" => FloatType
    case "DOUBLE" => DoubleType
    case "FLOAT_ARRAY" => FloatArrayType
    case "INT_ARRAY" => IntArrayType
    case "DATA" => BytesType
    case _ => UnknownType
  }

  function Find(w: World, link: string): Option<Handle> {
    if link in w.links then Some(w.links[link]) else None
  }

  /** A dataref loaded from a link, with the default factor. */
  function Loaded(w: World, link: string): View {
    View(link, Find(w, link), LoadedType(w, Find(w, link)), "1.0")
  }

  /** What a Float dataref computes in, and a Double dataref. */
  function FormatOf(t: DataType): Format { if t.FloatType? then SINGLE else DOUBLE }

  // ----- What a write does ---------------------------------------------------------

  /** SetValue of an Int dataref: the number divided by the factor, both as ints. */
  function ScaledDown(value: string, factor: string): Result<int> {
    match (Stoi(value), StodAsInt(factor))
    case (Number(v), Ok(f)) =>
      if f != 0 && InInt32(TruncDiv(v, f)) then Ok(TruncDiv(v, f)) else Abort
    case _ => Abort
  }

  /** The bytes a Data dataref holds after a write: the value cut to the capacity, then zeros. */
  function Padded(value: string, capacity: nat): string {
    seq(capacity, i requires 0 <= i => if i < |value| then value[i] else '\0')
  }

  /** What an array write returns and puts into the memory. */
  datatype Outcome = Outcome(code: int, patch: Patch)

  function IntsOutcome(w: World, h: Handle, r: Result<A.Request<int>>): Result<Outcome> {
    match r
    case Ok(BulkWrite(offset, data)) => Ok(Outcome(0, IntsPatch(w, h, offset, data)))
    case Ok(Rejected(code)) => Ok(Outcome(code, map[]))
    case Abort => Abort
  }

  function RealsOutcome(w: World, h: Handle, r: Result<A.Request<Double>>): Result<Outcome> {
    match r
    case Ok(BulkWrite(offset, data)) => Ok(Outcome(0, RealsPatch(w, h, offset, data)))
    case Ok(Rejected(code)) => Ok(Outcome(code, map[]))
    case Abort => Abort
  }

  /** The patch SetValue(value) applies, or Abort. It does not depend on the memory. */
  function WriteOf(w: World, d: View, value: string): Result<Patch> {
    if d.handle.None? || d.handle.value !in w.writable then Ok(map[]) else
      var h := d.handle.value;
      match d.typ
      case IntType =>
        (match ScaledDown(value, d.factor) case Ok(n) => Ok(IntPatch(w, h, n)) case Abort => Abort)
      case IntArrayType =>
        (match IntsOutcome(w, h, A.IntText(w.codec, value, 0, ArraySize(w, h)))
         case Ok(done) => Ok(done.patch)
         case Abort => Abort)
      case FloatArrayType =>
        (match RealsOutcome(w, h, A.RealText(w.codec, value, 0, RealsSize(w, h), d.factor))
         case Ok(done) => Ok(done.patch)
         case Abort => Abort)
      case BytesType => Ok(BytesPatch(w, h, Padded(value, BytesSize(w, h))))
      case _ =>
        if d.typ.FloatType? || d.typ.DoubleType? then
          var format := FormatOf(d.typ);
          match (Sto(format, value), Stod(d.factor))
          case (Number(v), Number(f)) => Ok(RealPatch(w, h, Div(format, v, Rounded(format, f))))
          case _ => Abort
        else Ok(map[])
  }

  // ----- What a read returns ---------------------------------------------------------

  function ScaledInts(cells: seq<int>, f: int): seq<Json> {
    seq(|cells|, i requires 0 <= i < |cells| => Int(Wrap(cells[i] * f)))
  }

  function ScaledReals(cells: seq<Double>, f: Double): seq<Double> {
    seq(|cells|, i requires 0 <= i < |cells| => Mul(SINGLE, cells[i], Narrow(f)))
  }

  /** Where the first NUL is; the length when there is none. */
  function Strlen(s: string): (n: nat)
    ensures n <= |s| && '\0' !in s[..n]
    ensures n < |s| ==> s[n] == '\0'
  {
    if s == [] || s[0] == '\0' then 0 else
      var n := Strlen(s[1..]);
      assert s[..n + 1] == [s[0]] + s[1..][..n];
      n + 1
  }

  /** GetValue. Text without a NUL in the buffer is read past its end, which is undefined. */
  function ReadOf(w: World, d: View, m: Memory): Result<string> {
    if d.handle.None? then Ok("") else
      var h := d.handle.value;
      match d.typ
      case IntType =>
        (match StodAsInt(d.factor)
         case Ok(f) => Ok(PrintInt(Wrap(ReadInt(w, m, h) * f)))
         case Abort => Abort)
      case IntArrayType =>
        (match StodAsInt(d.factor)
         case Ok(f) => Ok(w.codec.dump(Arr(ScaledInts(ReadInts(w, m, h), f))))
         case Abort => if ArraySize(w, h) == 0 then Ok(w.codec.dump(Arr([]))) else Abort)
      case FloatArrayType =>
        (match Stod(d.factor)
         case Number(f) => Ok(w.codec.dumpReals(ScaledReals(ReadReals(w, m, h), f)))
         case _ => if RealsSize(w, h) == 0 then Ok(w.codec.dumpReals([])) else Abort)
      case BytesType =>
        var s := ReadBytes(w, m, h);
        if Strlen(s) < |s| then Ok(s[..Strlen(s)]) else Abort
      case _ =>
        if d.typ.FloatType? || d.typ.DoubleType? then
          var format := FormatOf(d.typ);
          match Stod(d.factor)
          case Number(f) => Ok(PrintDouble(Mul(format, Rounded(format, ReadReal(w, m, h)), Rounded(format, f))))
          case _ => Abort
        else Ok("")
  }

  // ----- The class ---------------------------------------------------------------------

  /** vector::resize. */
  function Resized<T>(data: seq<T>, n: nat, zero: T): seq<T> {
    if n <= |data| then data[..n] else data + A.Fill(n - |data|, zero)
  }

  /** r and the step from before to after are the outcome: its one write, or none. */
  ghost predicate Performs(before: Memory, after: Memory, r: Result<int>, outcome: Result<Outcome>) {
    match outcome
    case Ok(done) => r == Ok(done.code) && after == before + done.patch
    case Abort => r == Abort && after == before
  }

  lemma BytesPatchAt(w: World, h: Handle, data: string, l: Loc)
    ensures l in BytesPatch(w, h, data) <==> l.Cell? && l.h == h && l.i < BytesSize(w, h) && l.i < |data|
    ensures l in BytesPatch(w, h, data) ==> BytesPatch(w, h, data)[l] == ByteAtom(data[l.i])
  {
    assert l.Cell? ==> l == Cell(l.h, l.i);
  }

  lemma ZerosThenValue(w: World, h: Handle, m: Memory, value: string, zeros: string)
    requires |zeros| == BytesSize(w, h) && forall i | 0 <= i < |zeros| :: zeros[i] == '\0'
    ensures m + BytesPatch(w, h, zeros) + BytesPatch(w, h, value[..A.Min(|value|, |zeros|)])
         == m + BytesPatch(w, h, Padded(value, BytesSize(w, h)))
  {
    hide BytesPatch;
    var cut, padded := value[..A.Min(|value|, |zeros|)], Padded(value, BytesSize(w, h));
    forall l
      ensures l in BytesPatch(w, h, zeros) + BytesPatch(w, h, cut) <==> l in BytesPatch(w, h, padded)
      ensures l in BytesPatch(w, h, padded) ==>
        (BytesPatch(w, h, zeros) + BytesPatch(w, h, cut))[l] == BytesPatch(w, h, padded)[l]
    {
      BytesPatchAt(w, h, zeros, l);
      BytesPatchAt(w, h, cut, l);
      BytesPatchAt(w, h, padded, l);
    }
  }

  class Dataref {
    var link: string
    var handle: Option<Handle>
    var typ: DataType
    var factor: string

    ghost function Value(): View
      reads this
    {
      View(link, handle, typ, factor)
    }

    constructor ()
      ensures Value() == View("", None, UnknownType, "1.0")
    {
      link, handle, typ, factor := "", None, UnknownType, "1.0";
    }

    method Load(sim: Simulator, path: string) returns (ok: bool)
      modifies this
      ensures Value() == View(path, Find(sim.world, path),
                              if ok then LoadedType(sim.world, handle) else old(typ), old(factor))
      ensures ok == handle.Some?
    {
      link := path;
      handle := sim.FindDataRef(path);
      if handle.None? {
        return false;
      }
      var _ := LoadType(sim);
      return true;
    }

    method LoadType(sim: Simulator) returns (t: DataType)
      modifies this`typ
      ensures t == LoadedType(sim.world, handle)
      ensures typ == if handle.Some? then t else old(typ)
    {
      t := LoadedType(sim.world, handle);
      if handle.Some? {
        typ := t;
      }
    }

    method SetType(name: string)
      modifies this`typ
      ensures typ == NamedType(name)
    {
      typ := NamedType(name);
    }

    method SetConversionFactor(text: string)
      modifies this`factor
      ensures factor == text
    {
      factor := text;
    }

    method CanWrite(sim: Simulator) returns (ok: bool)
      ensures ok == (handle.Some? && handle.value in sim.world.writable)
    {
      ok := handle.Some? && handle.value in sim.world.writable;
    }

    method GetValue(sim: Simulator) returns (r: Result<string>)
      ensures r == ReadOf(sim.world, Value(), sim.mem)
    {
      if handle.None? {
        return Ok("");
      }
      var h := handle.value;
      match typ {
        case IntType =>
          var n := sim.GetDatai(h);
          match StodAsInt(factor) {
            case Ok(f) => r := Ok(PrintInt(Wrap(n * f)));
            case Abort => r := Abort;
          }
        case IntArrayType =>
          r := GetIntArray(sim);
        case FloatArrayType =>
          r := GetFloatArray(sim);
        case BytesType =>
          r := GetText(sim);
        case FloatType =>
          r := GetFloat(sim);
        case DoubleType =>
          r := GetDouble(sim);
        case _ =>
          r := Ok("");
      }
    }

    method GetFloat(sim: Simulator) returns (r: Result<string>)
      requires handle.Some? && typ.FloatType?
      ensures r == ReadOf(sim.world, Value(), sim.mem)
    {
      hide Sto, Mul, PrintDouble, Rounded;
      var d := sim.GetDataf(handle.value);
      match Stod(factor) {
        case Number(f) => r := Ok(PrintDouble(Mul(SINGLE, d, Narrow(f))));
        case _ => r := Abort;
      }
    }

    method GetDouble(sim: Simulator) returns (r: Result<string>)
      requires handle.Some? && typ.DoubleType?
      ensures r == ReadOf(sim.world, Value(), sim.mem)
    {
      hide Sto, Mul, PrintDouble, Rounded;
      var d := sim.GetDatad(handle.value);
      match Stod(factor) {
        case Number(f) =>
          ReadStays(DOUBLE, factor);
          r := Ok(PrintDouble(Mul(DOUBLE, d, f)));
        case _ => r := Abort;
      }
    }

    method GetIntArray(sim: Simulator) returns (r: Result<string>)
      requires handle.Some? && typ.IntArrayType?
      ensures r == ReadOf(sim.world, Value(), sim.mem)
    {
      hide StodAsInt, Wrap, ReadInts;
      var buffer := new int[ArraySize(sim.world, handle.value)];
      sim.GetDatavi(handle.value, buffer);
      var js: seq<Json> := [];
      for i := 0 to buffer.Length
        invariant buffer[..] == ReadInts(sim.world, sim.mem, handle.value)
        invariant i > 0 ==> StodAsInt(factor).Ok?
        invariant |js| == i
        invariant forall k | 0 <= k < i :: js[k] == Int(Wrap(buffer[k] * StodAsInt(factor).value))
      {
        match StodAsInt(factor) {
          case Ok(f) => js := js + [Int(Wrap(buffer[i] * f))];
          case Abort => return Abort;
        }
      }
      assert StodAsInt(factor).Ok? ==> js == ScaledInts(buffer[..], StodAsInt(factor).value);
      r := Ok(sim.world.codec.dump(Arr(js)));
    }

    method GetFloatArray(sim: Simulator) returns (r: Result<string>)
      requires handle.Some? && typ.FloatArrayType?
      ensures r == ReadOf(sim.world, Value(), sim.mem)
    {
      hide Sto, Mul, Narrow, ReadReals;
      var buffer := new Double[RealsSize(sim.world, handle.value)](_ => ZERO);
      sim.GetDatavf(handle.value, buffer);
      var items: seq<Double> := [];
      for i := 0 to buffer.Length
        invariant buffer[..] == ReadReals(sim.world, sim.mem, handle.value)
        invariant i > 0 ==> Stod(factor).Number?
        invariant |items| == i
        invariant forall k | 0 <= k < i :: items[k] == Mul(SINGLE, buffer[k], Narrow(Stod(factor).value))
      {
        var f := Stod(factor);
        if !f.Number? {
          return Abort;
        }
        items := items + [Mul(SINGLE, buffer[i], Narrow(f.value))];
      }
      assert Stod(factor).Number? ==> items == ScaledReals(buffer[..], Stod(factor).value);
      r := Ok(sim.world.codec.dumpReals(items));
    }

    method GetText(sim: Simulator) returns (r: Result<string>)
      requires handle.Some? && typ.BytesType?
      ensures r == ReadOf(sim.world, Value(), sim.mem)
    {
      var buffer := new char[BytesSize(sim.world, handle.value)](_ => '\0');
      sim.GetDatab(handle.value, buffer);
      var n := Strlen(buffer[..]);
      r := if n < buffer.Length then Ok(buffer[..n]) else Abort;
    }

    /** SetValue; false when the call does not return. */
    method SetValue(sim: Simulator, value: string) returns (ok: bool)
      requires Faithful(sim.world.codec)
      modifies sim`mem
      ensures ok == WriteOf(sim.world, Value(), value).Ok?
      ensures sim.mem == if ok then old(sim.mem) + WriteOf(sim.world, Value(), value).value else old(sim.mem)
    {
      var writable := CanWrite(sim);
      if !writable {
        return true;
      }
      var h := handle.value;
      match typ {
        case IntType =>
          ok := SetInt(sim, value);
        case IntArrayType =>
          var r := SetIntArrayFromJson(sim, 0, value);
          ok := r.Ok?;
        case FloatArrayType =>
          var r := SetFloatArrayFromJson(sim, 0, value);
          ok := r.Ok?;
        case BytesType =>
          SetText(sim, value);
          ok := true;
        case FloatType =>
          ok := SetFloat(sim, value);
        case DoubleType =>
          ok := SetDouble(sim, value);
        case _ =>
          ok := true;
      }
    }

    method SetInt(sim: Simulator, value: string) returns (ok: bool)
      requires handle.Some? && handle.value in sim.world.writable && typ.IntType?
      modifies sim`mem
      ensures ok == WriteOf(sim.world, Value(), value).Ok?
      ensures sim.mem == if ok then old(sim.mem) + WriteOf(sim.world, Value(), value).value else old(sim.mem)
    {
      hide Stoi, StodAsInt, TruncDiv, IntPatch;
      var number, divisor := Stoi(value), StodAsInt(factor);
      if !number.Number? || divisor.Abort? || divisor.value == 0 {
        return false;
      }
      var val := TruncDiv(number.value, divisor.value);
      if !InInt32(val) {
        return false;
      }
      sim.SetDatai(handle.value, val);
      ok := true;
    }

    method SetFloat(sim: Simulator, value: string) returns (ok: bool)
      requires handle.Some? && handle.value in sim.world.writable && typ.FloatType?
      modifies sim`mem
      ensures ok == WriteOf(sim.world, Value(), value).Ok?
      ensures sim.mem == if ok then old(sim.mem) + WriteOf(sim.world, Value(), value).value else old(sim.mem)
    {
      hide Sto, Div, Rounded, RealPatch;
      match (Stof(value), Stod(factor)) {
        case (Number(v), Number(f)) => sim.SetDataf(handle.value, Div(SINGLE, v, Narrow(f))); ok := true;
        case _ => ok := false;
      }
    }

    method SetDouble(sim: Simulator, value: string) returns (ok: bool)
      requires handle.Some? && handle.value in sim.world.writable && typ.DoubleType?
      modifies sim`mem
      ensures ok == WriteOf(sim.world, Value(), value).Ok?
      ensures sim.mem == if ok then old(sim.mem) + WriteOf(sim.world, Value(), value).value else old(sim.mem)
    {
      hide Sto, Div, RealPatch, Rounded;
      match (Stod(value), Stod(factor)) {
        case (Number(v), Number(f)) =>
          ReadStays(DOUBLE, factor);
          sim.SetDatad(handle.value, Div(DOUBLE, v, f));
          ok := true;
        case _ => ok := false;
      }
    }

    /** The Data branch: zero the whole dataref, then write the value over it. */
    method SetText(sim: Simulator, value: string)
      requires handle.Some?
      modifies sim`mem
      ensures sim.mem == old(sim.mem)
        + BytesPatch(sim.world, handle.value, Padded(value, BytesSize(sim.world, handle.value)))
    {
      hide BytesPatch, Padded;
      var capacity := BytesSize(sim.world, handle.value);
      var zero := new char[capacity](_ => '\0');
      assert zero[..][..capacity] == zero[..];
      sim.SetDatab(handle.value, zero[..], capacity);
      var length := |value|;
      if length > capacity {
        length := capacity;
      }
      sim.SetDatab(handle.value, value, length);
      ZerosThenValue(sim.world, handle.value, old(sim.mem), value, zero[..]);
    }

    /** What the loop over the elements of a JSON array pushes; false when an element is
        no string or no number. */
    method ParseElements(js: seq<Json>) returns (ok: bool, data: seq<int>)
      ensures ok == A.AllNumerals(js)
      ensures ok ==> data == A.ValuesOf(js)
    {
      data := [];
      for i := 0 to |js|
        invariant A.AllNumerals(js[..i]) && data == A.ValuesOf(js[..i])
      {
        if !A.IsNumeral(js[i]) {
          assert js[i] in js;
          return false, data;
        }
        assert js[..i + 1] == js[..i] + [js[i]];
        data := data + [Stoi(js[i].text).value];
      }
      assert js[..|js|] == js;
      ok := true;
    }

    /** The fill loop of the scalar branches: count copies of v. */
    method Repeat(count: nat, v: int) returns (data: seq<int>)
      ensures data == A.Fill(count, v)
    {
      data := [];
      for i := 0 to count
        invariant data == A.Fill(i, v)
      {
        data := data + [v];
      }
    }

    /** setIntArrayFromJson for anything but an object with a "Value". */
    method SetIntArrayLeaf(sim: Simulator, offset: int, leaf: Json) returns (r: Result<int>)
      requires handle.Some? && !Contains(leaf, "Value")
      modifies sim`mem
      ensures Performs(old(sim.mem), sim.mem, r, IntsOutcome(sim.world, handle.value,
                       A.IntLeaf(A.Target(leaf, offset), ArraySize(sim.world, handle.value))))
    {
      hide IntsPatch;
      var maxSize := ArraySize(sim.world, handle.value);
      var data: seq<int>;
      match leaf {
        case Arr(js) =>
          var ok;
          ok, data := ParseElements(js);
          if !ok {
            return Abort;
          }
          if |js| < maxSize {
            maxSize := |js|;
          }
          assert Resized(data, maxSize, 0) == A.ValuesOf(js)[..maxSize];
        case Int(n) =>
          data := Repeat(maxSize, Wrap(n));
          assert Resized(data, maxSize, 0) == A.Fill(maxSize, Wrap(n));
        case Str(s) =>
          if maxSize > 0 && !Stoi(s).Number? {
            return Abort;
          }
          data := Repeat(maxSize, if maxSize > 0 then Stoi(s).value else 0);
          assert Resized(data, maxSize, 0) == if maxSize == 0 then [] else A.Fill(maxSize, Stoi(s).value);
        case Obj(_) =>
          return Ok(A.NO_VALUE);
        case _ =>
          return Ok(A.UNKNOWN_JSON);
      }
      data := Resized(data, maxSize, 0);
      assert data[..maxSize] == data;
      sim.SetDatavi(handle.value, data, offset, maxSize);
      r := Ok(0);
    }

    /** setIntArrayFromJson: recursion through the text of nested "Value" fields. */
    method SetIntArrayFromJson(sim: Simulator, offset: int, value: string) returns (r: Result<int>)
      requires handle.Some? && Faithful(sim.world.codec)
      modifies sim`mem
      ensures Performs(old(sim.mem), sim.mem, r, IntsOutcome(sim.world, handle.value,
                       A.IntText(sim.world.codec, value, offset, ArraySize(sim.world, handle.value))))
      decreases match sim.world.codec.parse(value) case Some(j) => j case None => Null
    {
      hide A.Resolve, A.IntLeaf, IntsPatch, A.OwnOffset;
      var parsed := sim.world.codec.parse(value);
      if parsed.None? {
        return Ok(A.PARSE_FAILED);
      }
      var j := parsed.value;
      if Contains(j, "Value") {
        A.Unwrap(j, offset, Ok(1));
        var inner := offset;
        if Contains(j, "Offset") {
          var own := A.OwnOffset(j, Ok(1));
          if own.Abort? {
            return Abort;
          }
          inner := own.value;
        }
        r := SetIntArrayFromJson(sim, inner, sim.world.codec.dump(j.fields["Value"]));
      } else {
        A.NoWrapper(j, offset, Ok(1));
        r := SetIntArrayLeaf(sim, offset, j);
      }
    }

    method ParseDecimals(js: seq<Json>) returns (ok: bool, data: seq<Double>)
      ensures ok == A.AllDecimals(js)
      ensures ok ==> data == A.RealsOf(js)
    {
      hide Sto;
      data := [];
      for i := 0 to |js|
        invariant A.AllDecimals(js[..i]) && data == A.RealsOf(js[..i])
      {
        if !A.IsDecimal(js[i]) {
          assert js[i] in js;
          return false, data;
        }
        assert js[..i + 1] == js[..i] + [js[i]];
        data := data + [Stof(js[i].text).value];
      }
      assert js[..|js|] == js;
      ok := true;
    }

    /** setFloatArrayFromJson for anything but an object with a "Value". */
    method SetFloatArrayLeaf(sim: Simulator, offset: int, leaf: Json) returns (r: Result<int>)
      requires handle.Some? && !Contains(leaf, "Value")
      modifies sim`mem
      ensures Performs(old(sim.mem), sim.mem, r, RealsOutcome(sim.world, handle.value,
                       A.RealLeaf(A.Target(leaf, offset), RealsSize(sim.world, handle.value), factor)))
    {
      hide RealsPatch, Sto, Div, Narrow;
      var maxSize := RealsSize(sim.world, handle.value);
      var data: seq<Double> := [];
      match leaf {
        case Arr(js) =>
          var ok;
          ok, data := ParseDecimals(js);
          if !ok {
            return Abort;
          }
          if |js| < maxSize {
            maxSize := |js|;
          }
          assert Resized(data, maxSize, ZERO) == A.RealsOf(js)[..maxSize];
        case Float(d) =>
          var f := Stod(factor);
          if maxSize > 0 && !f.Number? {
            return Abort;
          }
          for i := 0 to maxSize
            invariant i > 0 ==> f.Number?
            invariant data == if i > 0 then A.Fill(i, Div(SINGLE, Narrow(FloatValue(d)), Narrow(f.value))) else []
          {
            data := data + [Div(SINGLE, Narrow(FloatValue(d)), Narrow(f.value))];
          }
          assert Resized(data, maxSize, ZERO) == data;
        case Str(_) =>
          assert Resized(data, maxSize, ZERO) == A.Fill(maxSize, ZERO);
        case Obj(_) =>
          return Ok(A.NO_VALUE);
        case _ =>
          return Ok(A.UNKNOWN_JSON);
      }
      data := Resized(data, maxSize, ZERO);
      assert data[..maxSize] == data;
      sim.SetDatavf(handle.value, data, offset, maxSize);
      r := Ok(0);
    }

    /** setFloatArrayFromJson: as for integers, but an "Offset" is divided by the factor. */
    method SetFloatArrayFromJson(sim: Simulator, offset: int, value: string) returns (r: Result<int>)
      requires handle.Some? && Faithful(sim.world.codec)
      modifies sim`mem
      ensures Performs(old(sim.mem), sim.mem, r, RealsOutcome(sim.world, handle.value,
                       A.RealText(sim.world.codec, value, offset, RealsSize(sim.world, handle.value), factor)))
      decreases match sim.world.codec.parse(value) case Some(j) => j case None => Null
    {
      hide A.Resolve, A.RealLeaf, RealsPatch, A.OwnOffset, StodAsInt;
      var parsed := sim.world.codec.parse(value);
      if parsed.None? {
        return Ok(A.PARSE_FAILED);
      }
      var j := parsed.value;
      if Contains(j, "Value") {
        A.Unwrap(j, offset, StodAsInt(factor));
        var inner := offset;
        if Contains(j, "Offset") {
          var own := A.OwnOffset(j, StodAsInt(factor));
          if own.Abort? {
            return Abort;
          }
          inner := own.value;
        }
        r := SetFloatArrayFromJson(sim, inner, sim.world.codec.dump(j.fields["Value"]));
      } else {
        A.NoWrapper(j, offset, StodAsInt(factor));
        r := SetFloatArrayLeaf(sim, offset, j);
      }
    }
  }
}
