/** FlightFactor A320 datarefs: writes are deferred to the next shared-data frame. */
module FlightFactor {
  import opened Prelude
  import opened Rounding
  import opened Numerals
  import opened Simulation

  // Value types of the FlightFactor interface (SharedValue.h).
  const DELETED: int := 0
  const SINT8: int := 2
  const SINT32: int := 6
  const UINT32: int := 7
  const FLOAT32: int := 8
  const FLOAT64: int := 9
  const STRING: int := 10

  /** The value of an FFDataref object. */
  datatype View = View(link: string, id: int, typ: int, factor: string, needUpdate: bool, target: string)

  function TypeOf(w: World, id: int): int {
    if id in w.sharedTypes then w.sharedTypes[id] else DELETED
  }

  function IdOf(w: World, link: string): int {
    if link in w.sharedIds then w.sharedIds[link] else -1
  }

  function Loaded(w: World, link: string): View {
    var id := IdOf(w, link);
    View(link, id, if id < 0 then DELETED else TypeOf(w, id), "1.0", false, "")
  }

  /** The texts GetName and GetDescription build; a null pointer is undefined. */
  function NameOf(w: World, id: int): Result<string> {
    if id in w.sharedNames then Ok(w.sharedNames[id]) else Abort
  }

  function TextOf(w: World, id: int): Result<string> {
    if id in w.sharedTexts then Ok(w.sharedTexts[id]) else Abort
  }

  function UnitOf(w: World, id: int): int {
    if id in w.sharedUnits then w.sharedUnits[id] else 0
  }

  /** What a value of the type is computed in. */
  function FormatOf(typ: int): Format { if typ == FLOAT32 then SINGLE else DOUBLE }

  /** The atom DoSetValue stores: None when the type is not supported or the text is no
      number. Only std::invalid_argument is caught. */
  function TargetAtom(w: World, id: int, text: string): Result<Option<Atom>> {
    var t := TypeOf(w, id);
    if t == FLOAT32 || t == FLOAT64 then
      match Sto(FormatOf(t), text)
      case Number(d) => Ok(Some(RealAtom(d)))
      case InvalidArgument => Ok(None)
      case OutOfRange => Abort
    else if t == SINT32 then
      match Stoi(text)
      case Number(n) => Ok(Some(IntAtom(n)))
      case InvalidArgument => Ok(None)
      case OutOfRange => Abort
    else Ok(None)
  }

  function WriteOf(w: World, id: int, text: string): Result<Patch> {
    match TargetAtom(w, id, text)
    case Ok(Some(a)) => Ok(map[Shared(id) := a])
    case Ok(None) => Ok(map[])
    case Abort => Abort
  }

  /** GetValue. The String branch passes the address of its buffer pointer as the buffer,
      which is undefined. */
  function ReadOf(w: World, v: View, m: Memory): Result<string> {
    if v.id < 0 && v.typ == DELETED then Ok("ID OR TYPE INVALID")
    else if !Stod(v.factor).Number? then Abort
    else if SINT8 <= v.typ <= UINT32 then
      match StodAsInt(v.factor)
      case Ok(f) =>
        var n := IntIn(m, Shared(v.id)) * f;
        Ok(PrintInt(if v.typ == UINT32 then n % TWO_32 else Wrap(n)))
      case Abort => Abort
    else if v.typ == FLOAT32 || v.typ == FLOAT64 then
      var format := FormatOf(v.typ);
      Ok(PrintDouble(Mul(format, Rounded(format, RealIn(m, Shared(v.id))), Rounded(format, Stod(v.factor).value))))
    else if v.typ == STRING then Abort
    else Ok("N/A")
  }

  class FFDataref {
    var link: string
    var id: int
    var typ: int
    var factor: string
    var needUpdate: bool
    var target: string

    ghost function Value(): View
      reads this
    {
      View(link, id, typ, factor, needUpdate, target)
    }

    constructor ()
      ensures Value() == View("", -1, DELETED, "1.0", false, "")
    {
      link, id, typ, factor, needUpdate, target := "", -1, DELETED, "1.0", false, "";
    }

    method Load(sim: Simulator, path: string) returns (ok: bool)
      modifies this
      ensures Value() == View(path, IdOf(sim.world, path),
                              if IdOf(sim.world, path) < 0 then old(typ) else TypeOf(sim.world, IdOf(sim.world, path)),
                              old(factor), old(needUpdate), old(target))
      ensures ok == (id >= 0 && typ != DELETED)
    {
      link := path;
      id := IdOf(sim.world, path);
      if id < 0 {
        return false;
      }
      var t := LoadType(sim);
      ok := t != DELETED;
    }

    method LoadType(sim: Simulator) returns (t: int)
      modifies this`typ
      ensures t == if id < 0 then DELETED else TypeOf(sim.world, id)
      ensures typ == if id < 0 then old(typ) else t
    {
      if id < 0 {
        return DELETED;
      }
      typ := TypeOf(sim.world, id);
      t := typ;
    }

    method SetConversionFactor(text: string)
      modifies this`factor
      ensures factor == text
    {
      factor := text;
    }

    /** GetFlag asks for the value's type, not for its flag. */
    method GetFlag(sim: Simulator) returns (flag: int)
      ensures flag == TypeOf(sim.world, id)
    {
      flag := TypeOf(sim.world, id);
    }

    method GetUnit(sim: Simulator) returns (unit: int)
      ensures unit == UnitOf(sim.world, id)
    {
      unit := UnitOf(sim.world, id);
    }

    method GetName(sim: Simulator) returns (name: Result<string>)
      ensures name == NameOf(sim.world, id)
    {
      name := NameOf(sim.world, id);
    }

    method GetDescription(sim: Simulator) returns (text: Result<string>)
      ensures text == TextOf(sim.world, id)
    {
      text := TextOf(sim.world, id);
    }

    method GetValue(sim: Simulator) returns (r: Result<string>)
      ensures r == ReadOf(sim.world, Value(), sim.mem)
    {
      hide Sto, StodAsInt, Wrap, PrintDouble, Mul, Rounded;
      if id < 0 && typ == DELETED {
        return Ok("ID OR TYPE INVALID");
      }
      var factorValue := Stod(factor);
      if !factorValue.Number? {
        return Abort;
      }
      if SINT8 <= typ <= UINT32 {
        var data := IntIn(sim.mem, Shared(id));
        match StodAsInt(factor) {
          case Ok(f) => r := Ok(PrintInt(if typ == UINT32 then (data * f) % TWO_32 else Wrap(data * f)));
          case Abort => r := Abort;
        }
      } else if typ == FLOAT32 {
        var data := Narrow(RealIn(sim.mem, Shared(id)));
        r := Ok(PrintDouble(Mul(SINGLE, data, Narrow(factorValue.value))));
      } else if typ == FLOAT64 {
        var data := Rounded(DOUBLE, RealIn(sim.mem, Shared(id)));
        ReadStays(DOUBLE, factor);
        r := Ok(PrintDouble(Mul(DOUBLE, data, factorValue.value)));
      } else if typ == STRING {
        r := Abort;
      } else {
        r := Ok("N/A");
      }
    }

    /** Only notes the value; DoSetValue writes it. The note is never taken back. */
    method SetValue(value: string)
      modifies this
      ensures Value() == old(Value()).(needUpdate := true, target := value)
    {
      target := value;
      needUpdate := true;
    }

    /** false when the call does not return. */
    method DoSetValue(sim: Simulator, value: string) returns (ok: bool)
      modifies sim`mem
      ensures ok == WriteOf(sim.world, id, value).Ok?
      ensures sim.mem == if ok then old(sim.mem) + WriteOf(sim.world, id, value).value else old(sim.mem)
    {
      hide Sto, Stoi;
      var t := TypeOf(sim.world, id);
      ok := true;
      if t == FLOAT32 {
        match Stof(value) {
          case Number(d) => sim.ValueSet(id, RealAtom(d));
          case InvalidArgument =>
          case OutOfRange => ok := false;
        }
      } else if t == FLOAT64 {
        match Stod(value) {
          case Number(d) => sim.ValueSet(id, RealAtom(d));
          case InvalidArgument =>
          case OutOfRange => ok := false;
        }
      } else if t == SINT32 {
        match Stoi(value) {
          case Number(n) => sim.ValueSet(id, IntAtom(n));
          case InvalidArgument =>
          case OutOfRange => ok := false;
        }
      }
    }
  }
}
