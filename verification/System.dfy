/** The state of the plugin: registry, dataref objects, simulator memory, callback table.
    The per-frame passes over the maps are defined here. */
module System {
  import opened Prelude
  import opened KeyOrder
  import opened Simulation
  import opened Registry
  import D = Datarefs
  import F = FlightFactor

  datatype Obj = Plain(d: D.View) | Flight(f: F.View)

  datatype Callback =
    | LoadDll | RegisterDataref | UnregisterDataref | SubscribeDataref | UnsubscribeDataref
    | GetRegisterDatarefValue | SetRegisterDatarefValue | GetDatarefValue | SetDatarefValue
    | Speak | AddConstantDataref | LoadRegisterDataref | InitFlightFactorA320 | RegisterFFDataref

  datatype System = System(
    reg: Registry,
    objects: map<nat, Obj>,
    mem: Memory,
    ffReady: bool,
    table: map<string, Callback>)

  /** Every object the maps refer to exists. */
  ghost predicate Closed(s: System) {
    && (forall n | n in s.reg.named :: s.reg.named[n] in s.objects)
    && (forall n | n in s.reg.subscribed :: s.reg.subscribed[n] in s.objects)
    && (forall n | n in s.reg.consts :: s.reg.consts[n].id in s.objects)
    && (forall k | k in s.objects :: k < s.reg.clock)
  }

  function Do(s: System, op: Op): System { s.(reg := Apply(s.reg, op)) }

  /** emplace: the object is kept only when the name is new. */
  function Insert(s: System, name: string, obj: Obj): System {
    if name in s.reg.named then Do(s, Reg(name))
    else Do(s, Reg(name)).(objects := s.objects[s.reg.clock := obj])
  }

  function ReadObject(w: World, o: Obj, m: Memory): Result<string> {
    match o case Plain(d) => D.ReadOf(w, d, m) case Flight(f) => F.ReadOf(w, f, m)
  }

  /** AbstractDataref::SetValue on object id; false when the call does not return. */
  function SetObject(w: World, s: System, id: nat, value: string): (System, bool)
    requires id in s.objects
  {
    match s.objects[id]
    case Plain(d) =>
      (match D.WriteOf(w, d, value) case Ok(p) => (s.(mem := s.mem + p), true) case Abort => (s, false))
    case Flight(f) => (s.(objects := s.objects[id := Flight(f.(needUpdate := true, target := value))]), true)
  }

  lemma SetObjectKeeps(w: World, s: System, id: nat, value: string)
    requires id in s.objects
    ensures var t := SetObject(w, s, id, value).0;
      t.reg == s.reg && t.objects.Keys == s.objects.Keys && t.ffReady == s.ffReady && t.table == s.table
  {
  }

  /** Constants with the given keys, set one after the other. */
  function SetConstants(w: World, s: System, keys: seq<string>): (System, bool)
    requires Closed(s) && forall k | k in keys :: k in s.reg.consts
    decreases |keys|
  {
    if keys == [] then (s, true) else
      assert keys[0] in keys;
      var c := s.reg.consts[keys[0]];
      var (t, ok) := SetObject(w, s, c.id, c.value);
      SetObjectKeeps(w, s, c.id, c.value);
      if ok then SetConstants(w, t, keys[1..]) else (t, false)
  }

  /** ExecuteConstantDataref. */
  function ConstantPass(w: World, s: System): (System, bool)
    requires Closed(s)
  {
    SetConstants(w, s, SortedKeys(s.reg.consts.Keys))
  }

  /** What one entry of named does in the FlightFactor loop. */
  function PushEffect(w: World, s: System, key: string): Result<Patch>
    requires Closed(s) && key in s.reg.named
  {
    match s.objects[s.reg.named[key]]
    case Flight(f) => if f.needUpdate then F.WriteOf(w, f.id, f.target) else Ok(map[])
    case Plain(_) => Ok(map[])
  }

  function PushTargets(w: World, s: System, keys: seq<string>): (System, bool)
    requires Closed(s) && forall k | k in keys :: k in s.reg.named
    decreases |keys|
  {
    if keys == [] then (s, true) else
      assert keys[0] in keys;
      match PushEffect(w, s, keys[0])
      case Ok(p) => PushTargets(w, s.(mem := s.mem + p), keys[1..])
      case Abort => (s, false)
  }

  lemma {:induction false} SetConstantsKeeps(w: World, s: System, keys: seq<string>)
    requires Closed(s) && forall k | k in keys :: k in s.reg.consts
    ensures var t := SetConstants(w, s, keys).0;
      Closed(t) && t.reg == s.reg && t.objects.Keys == s.objects.Keys && t.ffReady == s.ffReady && t.table == s.table
    decreases |keys|
  {
    if keys != [] {
      assert keys[0] in keys;
      var c := s.reg.consts[keys[0]];
      SetObjectKeeps(w, s, c.id, c.value);
      var (t, ok) := SetObject(w, s, c.id, c.value);
      if ok {
        SetConstantsKeeps(w, t, keys[1..]);
      }
    }
  }

  /** FF320_Callback: the constants, then every pending FlightFactor target. */
  function FlightFrame(w: World, s: System): (System, bool)
    requires Closed(s)
  {
    var (t, ok) := ConstantPass(w, s);
    SetConstantsKeeps(w, s, SortedKeys(s.reg.consts.Keys));
    if ok then PushTargets(w, t, SortedKeys(t.reg.named.Keys)) else (t, false)
  }
}
