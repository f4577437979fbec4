/** X-Plane's dataref store and FlightFactor's shared values, as the plugin sees them
    through the two SDKs. Which links exist, their types, capacities and writability are
    fixed facts (World); the stored values are the state (Memory). */
module Simulation {
  import opened Prelude
  import opened Rounding
  import opened Numerals
  import opened JsonTree

  type Handle = nat

  datatype DataType =
    | UnknownType | IntType | FloatType | DoubleType | FloatArrayType | IntArrayType | BytesType
    | MixedType  // a combination of type bits that is none of the enumerators

  /** How a dataref is stored. Accessing it as another type reads zero and writes nothing. */
  datatype Shape =
    | NoShape | IntShape | RealShape | IntArrayShape(size: nat) | RealArrayShape(size: nat)
    | BytesShape(size: nat)

  datatype World = World(
    links: map<string, Handle>,            // XPLMFindDataRef
    types: map<Handle, set<DataType>>,     // XPLMGetDataRefTypes
    shapes: map<Handle, Shape>,
    writable: set<Handle>,                 // XPLMCanWriteDataRef
    sharedIds: map<string, nat>,           // ValueIdByName; a negative id for other names
    sharedTypes: map<int, int>,            // ValueType
    sharedUnits: map<int, int>,            // ValueUnits
    sharedNames: map<int, string>,         // ValueName, where it is not null
    sharedTexts: map<int, string>,         // ValueDesc, where it is not null
    codec: Codec)

  /** One storable value: element i of a dataref, or a FlightFactor value. */
  datatype Loc = Cell(h: Handle, i: nat) | Shared(id: int)

  datatype Atom = IntAtom(n: int) | RealAtom(d: Double) | ByteAtom(c: char)

  type Memory = map<Loc, Atom>

  /** What a write puts where. Applying patch p to memory m gives m + p. */
  type Patch = map<Loc, Atom>

  function ShapeOf(w: World, h: Handle): Shape {
    if h in w.shapes then w.shapes[h] else NoShape
  }

  function IntIn(m: Memory, l: Loc): int {
    if l in m && m[l].IntAtom? then m[l].n else 0
  }

  function RealIn(m: Memory, l: Loc): Double {
    if l in m && m[l].RealAtom? then m[l].d else ZERO
  }

  function ByteIn(m: Memory, l: Loc): char {
    if l in m && m[l].ByteAtom? then m[l].c else '\0'
  }

  function ReadInt(w: World, m: Memory, h: Handle): int {
    if ShapeOf(w, h).IntShape? then IntIn(m, Cell(h, 0)) else 0
  }

  function ReadReal(w: World, m: Memory, h: Handle): Double {
    if ShapeOf(w, h).RealShape? then RealIn(m, Cell(h, 0)) else ZERO
  }

  function ArraySize(w: World, h: Handle): nat {
    match ShapeOf(w, h) case IntArrayShape(n) => n case _ => 0
  }

  function ReadInts(w: World, m: Memory, h: Handle): seq<int> {
    seq(ArraySize(w, h), i requires 0 <= i => IntIn(m, Cell(h, i)))
  }

  function RealsSize(w: World, h: Handle): nat {
    match ShapeOf(w, h) case RealArrayShape(n) => n case _ => 0
  }

  /** The elements of a float array are floats. */
  function ReadReals(w: World, m: Memory, h: Handle): seq<Double> {
    seq<Double>(RealsSize(w, h), i requires 0 <= i => Narrow(RealIn(m, Cell(h, i))))
  }

  function BytesSize(w: World, h: Handle): nat {
    match ShapeOf(w, h) case BytesShape(n) => n case _ => 0
  }

  function ReadBytes(w: World, m: Memory, h: Handle): string {
    seq(BytesSize(w, h), i requires 0 <= i => ByteIn(m, Cell(h, i)))
  }

  function IntPatch(w: World, h: Handle, n: int): Patch {
    if ShapeOf(w, h).IntShape? then map[Cell(h, 0) := IntAtom(n)] else map[]
  }

  function RealPatch(w: World, h: Handle, d: Double): Patch {
    if ShapeOf(w, h).RealShape? then map[Cell(h, 0) := RealAtom(d)] else map[]
  }

  /** Elements offset, offset + 1, ... as far as they exist. */
  function IntsPatch(w: World, h: Handle, offset: int, data: seq<int>): Patch {
    map i: nat | 0 <= i < ArraySize(w, h) && offset <= i < offset + |data| :: Cell(h, i) := IntAtom(data[i - offset])
  }

  function RealsPatch(w: World, h: Handle, offset: int, data: seq<Double>): Patch {
    map i: nat | 0 <= i < RealsSize(w, h) && offset <= i < offset + |data| :: Cell(h, i) := RealAtom(data[i - offset])
  }

  function BytesPatch(w: World, h: Handle, data: string): Patch {
    map i: nat | 0 <= i < BytesSize(w, h) && i < |data| :: Cell(h, i) := ByteAtom(data[i])
  }

  /** The SDK calls. */
  class Simulator {
    const world: World
    var mem: Memory

    constructor (w: World, m: Memory)
      ensures world == w && mem == m
    {
      world, mem := w, m;
    }

    method FindDataRef(link: string) returns (h: Option<Handle>)
      ensures h == if link in world.links then Some(world.links[link]) else None
    {
      h := if link in world.links then Some(world.links[link]) else None;
    }

    method GetDatai(h: Handle) returns (n: int)
      ensures n == ReadInt(world, mem, h)
    {
      n := ReadInt(world, mem, h);
    }

    method SetDatai(h: Handle, n: int)
      modifies this`mem
      ensures mem == old(mem) + IntPatch(world, h, n)
    {
      mem := mem + IntPatch(world, h, n);
    }

    method GetDatad(h: Handle) returns (d: Double)
      ensures d == Rounded(DOUBLE, ReadReal(world, mem, h))
    {
      d := Rounded(DOUBLE, ReadReal(world, mem, h));
    }

    method GetDataf(h: Handle) returns (d: Double)
      ensures d == Narrow(ReadReal(world, mem, h))
    {
      d := Narrow(ReadReal(world, mem, h));
    }

    method SetDataf(h: Handle, d: Double)
      modifies this`mem
      ensures mem == old(mem) + RealPatch(world, h, d)
    {
      mem := mem + RealPatch(world, h, d);
    }

    method SetDatad(h: Handle, d: Double)
      modifies this`mem
      ensures mem == old(mem) + RealPatch(world, h, d)
    {
      mem := mem + RealPatch(world, h, d);
    }

    /** XPLMGetDatavi into a buffer that has room for the whole array. */
    method GetDatavi(h: Handle, buffer: array<int>)
      requires buffer.Length == ArraySize(world, h)
      modifies buffer
      ensures buffer[..] == ReadInts(world, mem, h)
    {
      forall i | 0 <= i < buffer.Length { buffer[i] := IntIn(mem, Cell(h, i)); }
    }

    method SetDatavi(h: Handle, data: seq<int>, offset: int, count: nat)
      requires count <= |data|
      modifies this`mem
      ensures mem == old(mem) + IntsPatch(world, h, offset, data[..count])
    {
      mem := mem + IntsPatch(world, h, offset, data[..count]);
    }

    method GetDatavf(h: Handle, buffer: array<Double>)
      requires buffer.Length == RealsSize(world, h)
      modifies buffer
      ensures buffer[..] == ReadReals(world, mem, h)
    {
      forall i | 0 <= i < buffer.Length { buffer[i] := Narrow(RealIn(mem, Cell(h, i))); }
    }

    method SetDatavf(h: Handle, data: seq<Double>, offset: int, count: nat)
      requires count <= |data|
      modifies this`mem
      ensures mem == old(mem) + RealsPatch(world, h, offset, data[..count])
    {
      mem := mem + RealsPatch(world, h, offset, data[..count]);
    }

    method GetDatab(h: Handle, buffer: array<char>)
      requires buffer.Length == BytesSize(world, h)
      modifies buffer
      ensures buffer[..] == ReadBytes(world, mem, h)
    {
      forall i | 0 <= i < buffer.Length { buffer[i] := ByteIn(mem, Cell(h, i)); }
    }

    method SetDatab(h: Handle, data: string, count: nat)
      requires count <= |data|
      modifies this`mem
      ensures mem == old(mem) + BytesPatch(world, h, data[..count])
    {
      mem := mem + BytesPatch(world, h, data[..count]);
    }

    /** FlightFactor's ValueSet. */
    method ValueSet(id: int, a: Atom)
      modifies this`mem
      ensures mem == old(mem)[Shared(id) := a]
    {
      mem := mem[Shared(id) := a];
    }
  }
}
