/** The default callbacks, working on a CallbackManager in place. Each is proved to do what
    module Requests says about the abstract state. */
module Callbacks {
  import opened Prelude
  import opened JsonTree
  import opened Simulation
  import opened System
  import opened Requests
  import opened CallbackManager
  import Csv
  import CallbackTable
  import D = Datarefs
  import F = FlightFactor

  /** The heap only grows, by new objects. */
  twostate predicate Grows(m: CallbackManager)
    reads m
  {
    && old(m.heap).Keys <= m.heap.Keys
    && forall k | k in m.heap :: if k in old(m.heap) then m.heap[k] == old(m.heap)[k] else fresh(RefOf(m.heap[k]))
  }

  /** The common part of RegisterDataref, GetDatarefValue and SetDatarefValue: a new object
      loaded from a link, its type taken from the request or from the SDK. */
  method NewDataref(jdata: Json, sim: Simulator, link: string) returns (dataref: D.Dataref)
    ensures fresh(dataref) && dataref.Value() == Direct(sim.world, jdata, link)
  {
    dataref := new D.Dataref();
    var _ := dataref.Load(sim, link);
    if !Contains(jdata, "Type") || !jdata.fields["Type"].Str? || jdata.fields["Type"].text == "UNKNWON" {
      var _ := dataref.LoadType(sim);
    } else {
      dataref.SetType(jdata.fields["Type"].text);
    }
  }

  method RegisterDataref(jdata: Json, callback: CallbackManager) returns (code: Result<int>, reply: Json)
    requires callback.Valid()
    modifies callback`named, callback`abs, callback`heap
    ensures callback.Valid() && Grows(callback)
    ensures Reply(callback.abs, code, reply) == OnRegister(callback.sim.world, old(callback.abs), jdata)
  {
    hide Faithful, Closed, Represents, Matches, ConstsMatch, Insert, D.Loaded, AskedType;
    reply := jdata;
    if !Contains(jdata, "Name") || !Contains(jdata, "Link") {
      return Ok(1), reply;
    }
    var link, name, factor := TextAt(jdata, "Link"), TextAt(jdata, "Name"), AskedFactor(jdata);
    if link.Abort? || name.Abort? || factor.Abort? {
      return Abort, reply;
    }
    var dataref := NewDataref(jdata, callback.sim, link.value);
    dataref.SetConversionFactor(factor.value);
    callback.Emplace(name.value, PlainRef(dataref));
    code := Ok(0);
  }

  method UnregisterDataref(jdata: Json, callback: CallbackManager) returns (code: Result<int>, reply: Json)
    requires callback.Valid()
    modifies callback`named, callback`subscribed, callback`count, callback`abs
    ensures callback.Valid()
    ensures Reply(callback.abs, code, reply) == OnUnregister(old(callback.abs), jdata)
  {
    hide Faithful, Closed, Represents, Matches, ConstsMatch;
    reply := jdata;
    if !Contains(jdata, "Name") {
      return Ok(1), reply;
    }
    if TextAt(jdata, "Name").Abort? {
      return Abort, reply;
    }
    var name := TextAt(jdata, "Name").value;
    NamesOf(callback.named, callback.abs.reg.named, callback.heap);
    if name !in callback.named {
      callback.Tick();
      return Ok(2), reply;
    }
    callback.RemoveSubscribedDataref(name);
    callback.Erase(name);
    callback.Tick();
    code := Ok(0);
  }

  method SubscribeDataref(jdata: Json, callback: CallbackManager) returns (code: Result<int>, reply: Json)
    requires callback.Valid()
    modifies callback`subscribed, callback`count, callback`abs
    ensures callback.Valid()
    ensures Reply(callback.abs, code, reply) == OnSubscribe(old(callback.abs), jdata)
  {
    hide Faithful, Closed, Represents, Matches, ConstsMatch;
    reply := jdata;
    if !Contains(jdata, "Name") {
      return Ok(1), reply;
    }
    if TextAt(jdata, "Name").Abort? {
      return Abort, reply;
    }
    callback.AddSubscribedDataref(TextAt(jdata, "Name").value);
    callback.Tick();
    code := Ok(0);
  }

  method UnsubscribeDataref(jdata: Json, callback: CallbackManager) returns (code: Result<int>, reply: Json)
    requires callback.Valid()
    modifies callback`subscribed, callback`count, callback`abs
    ensures callback.Valid()
    ensures Reply(callback.abs, code, reply) == OnUnsubscribe(old(callback.abs), jdata)
  {
    hide Faithful, Closed, Represents, Matches, ConstsMatch;
    reply := jdata;
    if !Contains(jdata, "Name") {
      return Ok(1), reply;
    }
    if TextAt(jdata, "Name").Abort? {
      return Abort, reply;
    }
    callback.RemoveSubscribedDataref(TextAt(jdata, "Name").value);
    callback.Tick();
    code := Ok(0);
  }

  method AddConstantDataref(jdata: Json, callback: CallbackManager) returns (code: Result<int>, reply: Json)
    requires callback.Valid()
    modifies callback`consts, callback`abs
    ensures callback.Valid()
    ensures Reply(callback.abs, code, reply) == OnAddConstant(old(callback.abs), jdata)
  {
    hide Faithful, Closed, Represents, Matches, ConstsMatch;
    reply := jdata;
    if !Contains(jdata, "Name") || !Contains(jdata, "Value") {
      return Ok(1), reply;
    }
    if TextAt(jdata, "Name").Abort? || TextAt(jdata, "Value").Abort? {
      return Abort, reply;
    }
    callback.AddConstantDataref(TextAt(jdata, "Name").value, TextAt(jdata, "Value").value);
    callback.Tick();
    code := Ok(0);
  }

  method GetRegisterDatarefValue(jdata: Json, callback: CallbackManager) returns (code: Result<int>, reply: Json)
    requires callback.Valid()
    ensures Reply(callback.abs, code, reply) == OnGet(callback.sim.world, callback.abs, jdata)
  {
    hide Faithful, Represents, Matches, ConstsMatch, ReadObject;
    reply := jdata;
    if !Contains(jdata, "Name") {
      return Ok(1), reply;
    }
    if TextAt(jdata, "Name").Abort? {
      return Abort, reply;
    }
    var name := TextAt(jdata, "Name").value;
    NamesOf(callback.named, callback.abs.reg.named, callback.heap);
    if name !in callback.named {
      return Ok(2), reply;
    }
    var val := callback.GetValue(callback.named[name], callback.abs.reg.named[name]);
    if val.Abort? {
      return Abort, reply;
    }
    reply := Put(jdata, "Value", Str(val.value));
    code := Ok(0);
  }

  method SetRegisterDatarefValue(jdata: Json, callback: CallbackManager) returns (code: Result<int>, reply: Json)
    requires callback.Valid()
    modifies callback.sim`mem, Refs(callback.heap), callback`abs
    ensures callback.Valid()
    ensures Reply(callback.abs, code, reply) == OnSet(callback.sim.world, old(callback.abs), jdata)
  {
    hide Faithful, Represents, Matches, ConstsMatch, SetObject, ExtractValue, Closed;
    reply := jdata;
    if !Contains(jdata, "Name") || !Contains(jdata, "Value") {
      return Ok(1), reply;
    }
    var value := ExtractValue(callback.sim.world.codec, jdata);
    if TextAt(jdata, "Name").Abort? || value.Abort? {
      return Abort, reply;
    }
    var name := TextAt(jdata, "Name").value;
    if |value.value| <= 0 {
      return Ok(3), reply;
    }
    NamesOf(callback.named, callback.abs.reg.named, callback.heap);
    if name !in callback.named {
      return Ok(2), reply;
    }
    ghost var id := callback.abs.reg.named[name];
    Separate(callback.heap, callback.abs.objects, id);
    var ok := callback.SetValue(callback.named[name], id, value.value);
    code := if ok then Ok(0) else Abort;
  }

  method GetDatarefValue(jdata: Json, callback: CallbackManager) returns (code: Result<int>, reply: Json)
    requires callback.Valid()
    ensures Reply(callback.abs, code, reply) == OnGetDirect(callback.sim.world, callback.abs, jdata)
  {
    hide Faithful, Represents, Matches, ConstsMatch, D.ReadOf, Direct, Closed;
    reply := jdata;
    if !Contains(jdata, "Link") || !jdata.fields["Link"].Str? {
      return Ok(1), reply;
    }
    var dataref := NewDataref(jdata, callback.sim, jdata.fields["Link"].text);
    var val := dataref.GetValue(callback.sim);
    if val.Abort? {
      return Abort, reply;
    }
    reply := Put(jdata, "Value", Str(val.value));
    code := Ok(0);
  }

  method SetDatarefValue(jdata: Json, callback: CallbackManager) returns (code: Result<int>, reply: Json)
    requires callback.Valid()
    modifies callback.sim`mem, callback`abs
    ensures callback.Valid()
    ensures Reply(callback.abs, code, reply) == OnSetDirect(callback.sim.world, old(callback.abs), jdata)
  {
    hide Represents, Matches, ConstsMatch, D.WriteOf, Direct, ExtractValue, Closed;
    reply := jdata;
    if !Contains(jdata, "Link") || !Contains(jdata, "Value") {
      return Ok(1), reply;
    }
    var value := ExtractValue(callback.sim.world.codec, jdata);
    if value.Abort? {
      return Abort, reply;
    }
    if |value.value| <= 0 {
      return Ok(3), reply;
    }
    if TextAt(jdata, "Link").Abort? {
      return Abort, reply;
    }
    var dataref := NewDataref(jdata, callback.sim, TextAt(jdata, "Link").value);
    var ok := dataref.SetValue(callback.sim, value.value);
    MemoryReplaced(callback.abs, callback.sim.mem);
    callback.abs := callback.abs.(mem := callback.sim.mem);
    code := if ok then Ok(0) else Abort;
  }

  method NewRowDataref(vecOut: seq<string>, sim: Simulator) returns (dataref: D.Dataref)
    requires |vecOut| >= 4
    ensures fresh(dataref) && dataref.Value() == RowDataref(sim.world, vecOut)
  {
    dataref := new D.Dataref();
    var _ := dataref.Load(sim, vecOut[1]);
    dataref.SetType(vecOut[2]);
    dataref.SetConversionFactor(vecOut[3]);
  }

  /** One data row of the CSV file. */
  method LoadRegisterRow(vecOut: seq<string>, callback: CallbackManager)
    requires callback.Valid() && |vecOut| >= 4
    modifies callback`named, callback`subscribed, callback`count, callback`abs, callback`heap
    ensures callback.Valid() && Grows(callback)
    ensures callback.abs == LoadRow(callback.sim.world, old(callback.abs), vecOut)
  {
    hide Faithful, Closed, Represents, Matches, ConstsMatch, Insert, RowDataref;
    var dataref := NewRowDataref(vecOut, callback.sim);
    callback.Emplace(vecOut[0], PlainRef(dataref));
    callback.AddSubscribedDataref(vecOut[0]);
    callback.Tick();
  }

  method LoadRegisterDataref(jdata: Json, callback: CallbackManager, env: Env) returns (code: Result<int>, reply: Json)
    requires callback.Valid()
    modifies callback`named, callback`subscribed, callback`count, callback`abs, callback`heap
    ensures callback.Valid() && Grows(callback)
    ensures Reply(callback.abs, code, reply) == OnLoad(callback.sim.world, env, old(callback.abs), jdata)
  {
    hide Faithful, Closed, Represents, Matches, ConstsMatch, LoadRow;
    reply := jdata;
    if TextAt(jdata, "FileIn").Abort? {
      return Abort, reply;
    }
    var path := TextAt(jdata, "FileIn").value;
    if path !in env.files {
      return Ok(1), reply;
    }
    var lines := env.files[path];
    for i := 0 to |lines|
      invariant callback.Valid() && Grows(callback)
      invariant LoadLines(callback.sim.world, callback.abs, lines[i..])
             == LoadLines(callback.sim.world, old(callback.abs), lines)
    {
      if IsComment(lines[i]) {
        continue;
      }
      var vecOut, line := Csv.Tokenise(lines[i]);
      if |vecOut| < 4 {
        return Abort, reply;
      }
      LoadRegisterRow(vecOut, callback);
    }
    code := Ok(0);
  }

  method InitFlightFactorA320(jdata: Json, callback: CallbackManager, env: Env) returns (code: Result<int>, reply: Json)
    requires callback.Valid()
    modifies callback`ffReady, callback`abs
    ensures callback.Valid()
    ensures Reply(callback.abs, code, reply) == OnInitFlight(env, old(callback.abs), jdata)
  {
    reply := jdata;
    if env.ffPlugin {
      callback.SetReady(true);
      code := Ok(0);
    } else {
      code := Ok(1);
    }
  }

  method NewFFDataref(sim: Simulator, link: string) returns (ffdataref: F.FFDataref)
    ensures fresh(ffdataref) && ffdataref.Value() == F.Loaded(sim.world, link)
  {
    ffdataref := new F.FFDataref();
    var _ := ffdataref.Load(sim, link);
    var _ := ffdataref.LoadType(sim);
  }

  method Describe(jdata: Json, sim: Simulator, ffdataref: F.FFDataref) returns (reply: Result<Json>)
    requires jdata.Obj?
    ensures reply == Described(sim.world, ffdataref.Value(), jdata)
  {
    var j := Emplace(Emplace(jdata, "ID", Int(ffdataref.id)), "Type", Int(ffdataref.typ));
    var flag := ffdataref.GetFlag(sim);
    var unit := ffdataref.GetUnit(sim);
    j := Emplace(Emplace(j, "Flag", Int(flag)), "Unit", Int(unit));
    var name := ffdataref.GetName(sim);
    var text := ffdataref.GetDescription(sim);
    if name.Abort? || text.Abort? {
      return Abort;
    }
    reply := Ok(Emplace(Emplace(j, "Name", Str(name.value)), "Description", Str(text.value)));
  }

  method RegisterFFDataref(jdata: Json, callback: CallbackManager, env: Env) returns (code: Result<int>, reply: Json)
    requires callback.Valid()
    modifies callback`named, callback`abs, callback`heap, callback`ffReady
    ensures callback.Valid() && Grows(callback)
    ensures Reply(callback.abs, code, reply) == OnRegisterFlight(callback.sim.world, env, old(callback.abs), jdata)
  {
    hide Faithful, Closed, Represents, Matches, ConstsMatch, Insert, F.Loaded, Described;
    reply := jdata;
    if !callback.ffReady {
      code, reply := InitFlightFactorA320(jdata, callback, env);
      return Ok(0x10), reply;
    }
    if !Contains(jdata, "Name") || !Contains(jdata, "Link") {
      return Ok(1), reply;
    }
    var link, name, factor := TextAt(jdata, "Link"), TextAt(jdata, "Name"), AskedFactor(jdata);
    if link.Abort? || name.Abort? || factor.Abort? {
      return Abort, reply;
    }
    var ffdataref := NewFFDataref(callback.sim, link.value);
    ffdataref.SetConversionFactor(factor.value);
    var described := Describe(jdata, callback.sim, ffdataref);
    if described.Abort? {
      return Abort, reply;
    }
    reply := described.value;
    callback.Emplace(name.value, FlightRef(ffdataref));
    code := Ok(0);
  }

  method LoadDll(jdata: Json, callback: CallbackManager, env: Env) returns (code: Result<int>, reply: Json)
    requires callback.Valid()
    modifies callback`callbacks, callback`abs
    ensures callback.Valid()
    ensures Reply(callback.abs, code, reply) == OnLoadDll(env, old(callback.abs), jdata)
  {
    reply := jdata;
    if TextAt(jdata, "DLLPath").Abort? {
      return Abort, reply;
    }
    var path := TextAt(jdata, "DLLPath").value;
    if path in env.libraries {
      var table := CallbackTable.Load(callback.callbacks, env.libraries[path]);
      callback.SetTable(table);
    }
    code := Ok(0);
  }

  /** ExecuteCallback. */
  method ExecuteCallback(jdata: Json, callback: CallbackManager, env: Env) returns (code: Result<int>, reply: Json)
    requires callback.Valid()
    modifies callback, callback.sim`mem, Refs(callback.heap)
    ensures callback.Valid() && Grows(callback)
    ensures Reply(callback.abs, code, reply) == Execute(callback.sim.world, env, old(callback.abs), jdata)
  {
    hide Faithful, Closed, Represents, Matches, ConstsMatch, OnRegister, OnUnregister, OnSubscribe, OnUnsubscribe,
      OnGet, OnSet, OnGetDirect, OnSetDirect, OnAddConstant, OnLoad, OnInitFlight, OnRegisterFlight, OnLoadDll;
    reply := jdata;
    if !Contains(jdata, "Operation") {
      return Ok(1), reply;
    }
    if TextAt(jdata, "Operation").Abort? {
      return Abort, reply;
    }
    var operation := TextAt(jdata, "Operation").value;
    if operation !in callback.callbacks {
      return Ok(2), reply;
    }
    match callback.callbacks[operation] {
      case LoadDll => code, reply := LoadDll(jdata, callback, env);
      case RegisterDataref => code, reply := RegisterDataref(jdata, callback);
      case UnregisterDataref => code, reply := UnregisterDataref(jdata, callback);
      case SubscribeDataref => code, reply := SubscribeDataref(jdata, callback);
      case UnsubscribeDataref => code, reply := UnsubscribeDataref(jdata, callback);
      case GetRegisterDatarefValue => code, reply := GetRegisterDatarefValue(jdata, callback);
      case SetRegisterDatarefValue => code, reply := SetRegisterDatarefValue(jdata, callback);
      case GetDatarefValue => code, reply := GetDatarefValue(jdata, callback);
      case SetDatarefValue => code, reply := SetDatarefValue(jdata, callback);
      case AddConstantDataref => code, reply := AddConstantDataref(jdata, callback);
      case LoadRegisterDataref => code, reply := LoadRegisterDataref(jdata, callback, env);
      case InitFlightFactorA320 => code, reply := InitFlightFactorA320(jdata, callback, env);
      case RegisterFFDataref => code, reply := RegisterFFDataref(jdata, callback, env);
      case Speak =>
        code := if !Contains(jdata, "Text") then Ok(1) else if TextAt(jdata, "Text").Ok? then Ok(0) else Abort;
    }
  }
}
