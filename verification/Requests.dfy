/** What each callback does to the state of the plugin, and its dispatch. The network and
    the file system appear as Env. */
module Requests {
  import opened Prelude
  import opened JsonTree
  import opened Simulation
  import opened Registry
  import opened System
  import Csv
  import CallbackTable
  import D = Datarefs
  import F = FlightFactor

  datatype Env = Env(
    files: map<string, seq<string>>,  // readable files, as the lines std::getline yields
    ffPlugin: bool,                   // the FlightFactor plugin is installed
    libraries: map<string, seq<CallbackTable.Entry<Callback>>>)  // what GetCallbacks lists

  /** State, return code and JSON document after a callback. */
  datatype Reply = Reply(s: System, code: Result<int>, j: Json)

  // ----- Registration --------------------------------------------------------------------

  /** The type a request asks for: the SDK's unless "Type" is a string other than "UNKNWON". */
  function AskedType(w: World, j: Json, link: string): DataType {
    if !Contains(j, "Type") || !j.fields["Type"].Str? || j.fields["Type"].text == "UNKNWON"
    then D.LoadedType(w, D.Find(w, link))
    else D.NamedType(j.fields["Type"].text)
  }

  function AskedFactor(j: Json): Result<string> {
    if Contains(j, "ConversionFactor") then TextAt(j, "ConversionFactor") else Ok("1.0f")
  }

  function OnRegister(w: World, s: System, j: Json): Reply {
    if !Contains(j, "Name") || !Contains(j, "Link") then Reply(s, Ok(1), j) else
      match (TextAt(j, "Link"), TextAt(j, "Name"), AskedFactor(j))
      case (Ok(link), Ok(name), Ok(factor)) =>
        var d := D.Loaded(w, link).(typ := AskedType(w, j, link), factor := factor);
        Reply(Insert(s, name, Plain(d)), Ok(0), j)
      case _ => Reply(s, Abort, j)
  }

  function OnInitFlight(env: Env, s: System, j: Json): Reply {
    Reply(s.(ffReady := s.ffReady || env.ffPlugin), Ok(if env.ffPlugin then 0 else 1), j)
  }

  /** The reply of REG_FFDATA: the request with what is known of the value. A field the
      request has stays, so Name and a Type given by the client do; Flag is the type again. */
  function Described(w: World, f: F.View, j: Json): Result<Json>
    requires j.Obj?
  {
    match (F.NameOf(w, f.id), F.TextOf(w, f.id))
    case (Ok(name), Ok(text)) =>
      var a := Emplace(Emplace(j, "ID", Int(f.id)), "Type", Int(f.typ));
      var b := Emplace(Emplace(a, "Flag", Int(F.TypeOf(w, f.id))), "Unit", Int(F.UnitOf(w, f.id)));
      Ok(Emplace(Emplace(b, "Name", Str(name)), "Description", Str(text)))
    case _ => Abort
  }

  /** The first request on an unready interface only readies it. */
  function OnRegisterFlight(w: World, env: Env, s: System, j: Json): Reply {
    if !s.ffReady then Reply(OnInitFlight(env, s, j).s, Ok(0x10), j)
    else if !Contains(j, "Name") || !Contains(j, "Link") then Reply(s, Ok(1), j)
    else
      match (TextAt(j, "Link"), TextAt(j, "Name"), AskedFactor(j))
      case (Ok(link), Ok(name), Ok(factor)) =>
        var f := F.Loaded(w, link).(factor := factor);
        (match Described(w, f, j)
         case Ok(reply) => Reply(Insert(s, name, Flight(f)), Ok(0), reply)
         case Abort => Reply(s, Abort, j))
      case _ => Reply(s, Abort, j)
  }

  /** Registering tells the client about the value and takes nothing from the request. */
  lemma DescribedKeepsRequest(w: World, f: F.View, j: Json, key: string)
    requires j.Obj? && Described(w, f, j).Ok?
    ensures var reply := Described(w, f, j).value;
      && reply.Obj? && (key in j.fields ==> key in reply.fields && reply.fields[key] == j.fields[key])
      && (key !in j.fields && key in reply.fields ==> key in {"ID", "Type", "Flag", "Unit", "Name", "Description"})
  {
  }

  // ----- Operations on a name ------------------------------------------------------------

  function OnUnregister(s: System, j: Json): Reply {
    if !Contains(j, "Name") then Reply(s, Ok(1), j) else
      match TextAt(j, "Name")
      case Ok(name) => Reply(Do(s, Unreg(name)), Ok(if name in s.reg.named then 0 else 2), j)
      case Abort => Reply(s, Abort, j)
  }

  function OnSubscribe(s: System, j: Json): Reply {
    if !Contains(j, "Name") then Reply(s, Ok(1), j) else
      match TextAt(j, "Name")
      case Ok(name) => Reply(Do(s, Sub(name)), Ok(0), j)
      case Abort => Reply(s, Abort, j)
  }

  function OnUnsubscribe(s: System, j: Json): Reply {
    if !Contains(j, "Name") then Reply(s, Ok(1), j) else
      match TextAt(j, "Name")
      case Ok(name) => Reply(Do(s, Unsub(name)), Ok(0), j)
      case Abort => Reply(s, Abort, j)
  }

  function OnAddConstant(s: System, j: Json): Reply {
    if !Contains(j, "Name") || !Contains(j, "Value") then Reply(s, Ok(1), j) else
      match (TextAt(j, "Name"), TextAt(j, "Value"))
      case (Ok(name), Ok(value)) => Reply(Do(s, Const(name, value)), Ok(0), j)
      case _ => Reply(s, Abort, j)
  }

  function OnGet(w: World, s: System, j: Json): Reply
    requires Closed(s)
  {
    if !Contains(j, "Name") then Reply(s, Ok(1), j) else
      match TextAt(j, "Name")
      case Abort => Reply(s, Abort, j)
      case Ok(name) =>
        if name !in s.reg.named then Reply(s, Ok(2), j) else
          match ReadObject(w, s.objects[s.reg.named[name]], s.mem)
          case Ok(v) => Reply(s, Ok(0), Put(j, "Value", Str(v)))
          case Abort => Reply(s, Abort, j)
  }

  function OnSet(w: World, s: System, j: Json): Reply
    requires Closed(s)
  {
    if !Contains(j, "Name") || !Contains(j, "Value") then Reply(s, Ok(1), j) else
      match (TextAt(j, "Name"), ExtractValue(w.codec, j))
      case (Ok(name), Ok(value)) =>
        if value == "" then Reply(s, Ok(3), j)
        else if name !in s.reg.named then Reply(s, Ok(2), j)
        else
          var (t, ok) := SetObject(w, s, s.reg.named[name], value);
          Reply(t, if ok then Ok(0) else Abort, j)
      case _ => Reply(s, Abort, j)
  }

  // ----- Operations on a link ------------------------------------------------------------

  function Direct(w: World, j: Json, link: string): D.View {
    D.Loaded(w, link).(typ := AskedType(w, j, link))
  }

  function OnGetDirect(w: World, s: System, j: Json): Reply {
    match TextAt(j, "Link")
    case Abort => Reply(s, Ok(1), j)
    case Ok(link) =>
      match D.ReadOf(w, Direct(w, j, link), s.mem)
      case Ok(v) => Reply(s, Ok(0), Put(j, "Value", Str(v)))
      case Abort => Reply(s, Abort, j)
  }

  function OnSetDirect(w: World, s: System, j: Json): Reply {
    if !Contains(j, "Link") || !Contains(j, "Value") then Reply(s, Ok(1), j) else
      match ExtractValue(w.codec, j)
      case Abort => Reply(s, Abort, j)
      case Ok(value) =>
        if value == "" then Reply(s, Ok(3), j) else
          match TextAt(j, "Link")
          case Abort => Reply(s, Abort, j)
          case Ok(link) =>
            match D.WriteOf(w, Direct(w, j, link), value)
            case Ok(p) => Reply(s.(mem := s.mem + p), Ok(0), j)
            case Abort => Reply(s, Abort, j)
  }

  // ----- Bulk load -------------------------------------------------------------------------

  predicate IsComment(line: string) { line != "" && line[0] == '#' }

  function RowDataref(w: World, f: seq<string>): D.View
    requires |f| >= 4
  {
    D.Loaded(w, f[1]).(typ := D.NamedType(f[2]), factor := f[3])
  }

  /** One data row: register the first field, then subscribe it. */
  function LoadRow(w: World, s: System, f: seq<string>): System
    requires |f| >= 4
  {
    Do(Insert(s, f[0], Plain(RowDataref(w, f))), Sub(f[0]))
  }

  /** The rows in order. A data row with fewer than four semicolons makes the source read
      past its token vector. */
  function LoadLines(w: World, s: System, lines: seq<string>): (System, bool)
    decreases |lines|
  {
    if lines == [] then (s, true)
    else if IsComment(lines[0]) then LoadLines(w, s, lines[1..])
    else
      var f := Csv.Fields(lines[0]);
      if |f| < 4 then (s, false) else LoadLines(w, LoadRow(w, s, f), lines[1..])
  }

  function OnLoad(w: World, env: Env, s: System, j: Json): Reply {
    match TextAt(j, "FileIn")
    case Abort => Reply(s, Abort, j)
    case Ok(path) =>
      if path !in env.files then Reply(s, Ok(1), j) else
        var (t, ok) := LoadLines(w, s, env.files[path]);
        Reply(t, if ok then Ok(0) else Abort, j)
  }

  // ----- Dispatch ----------------------------------------------------------------------------

  function OnSpeak(s: System, j: Json): Reply {
    if !Contains(j, "Text") then Reply(s, Ok(1), j)
    else Reply(s, if TextAt(j, "Text").Ok? then Ok(0) else Abort, j)
  }

  function OnLoadDll(env: Env, s: System, j: Json): Reply {
    match TextAt(j, "DLLPath")
    case Abort => Reply(s, Abort, j)
    case Ok(path) =>
      if path in env.libraries
      then Reply(s.(table := CallbackTable.Loaded(s.table, env.libraries[path])), Ok(0), j)
      else Reply(s, Ok(0), j)
  }

  function Call(w: World, env: Env, s: System, cb: Callback, j: Json): Reply
    requires Closed(s)
  {
    match cb
    case LoadDll => OnLoadDll(env, s, j)
    case RegisterDataref => OnRegister(w, s, j)
    case UnregisterDataref => OnUnregister(s, j)
    case SubscribeDataref => OnSubscribe(s, j)
    case UnsubscribeDataref => OnUnsubscribe(s, j)
    case GetRegisterDatarefValue => OnGet(w, s, j)
    case SetRegisterDatarefValue => OnSet(w, s, j)
    case GetDatarefValue => OnGetDirect(w, s, j)
    case SetDatarefValue => OnSetDirect(w, s, j)
    case Speak => OnSpeak(s, j)
    case AddConstantDataref => OnAddConstant(s, j)
    case LoadRegisterDataref => OnLoad(w, env, s, j)
    case InitFlightFactorA320 => OnInitFlight(env, s, j)
    case RegisterFFDataref => OnRegisterFlight(w, env, s, j)
  }

  /** ExecuteCallback. */
  function Execute(w: World, env: Env, s: System, j: Json): Reply
    requires Closed(s)
  {
    if !Contains(j, "Operation") then Reply(s, Ok(1), j) else
      match TextAt(j, "Operation")
      case Abort => Reply(s, Abort, j)
      case Ok(op) => if op in s.table then Call(w, env, s, s.table[op], j) else Reply(s, Ok(2), j)
  }

  // ----- Bulk load against single requests ---------------------------------------------------

  /** The requests a client would send instead of one row. */
  function RegisterRequest(f: seq<string>): Json
    requires |f| >= 4
  {
    Obj(map["Operation" := Str("REG_DATA"), "Name" := Str(f[0]), "Link" := Str(f[1]), "Type" := Str(f[2]),
            "ConversionFactor" := Str(f[3])])
  }

  function SubscribeRequest(f: seq<string>): Json
    requires |f| >= 4
  {
    Obj(map["Operation" := Str("SUB_DATA"), "Name" := Str(f[0])])
  }

  function RowByRequests(w: World, s: System, f: seq<string>): System
    requires |f| >= 4
  {
    OnSubscribe(OnRegister(w, s, RegisterRequest(f)).s, SubscribeRequest(f)).s
  }

  /** The two ways of registering agree unless the row asks for the SDK's type by name: a
      row takes "UNKNWON" for an unknown type, a request asks the SDK. */
  predicate SameDataref(w: World, f: seq<string>)
    requires |f| >= 4
  {
    f[2] != "UNKNWON" || D.LoadedType(w, D.Find(w, f[1])) == UnknownType
  }

  /** A row equals its two requests exactly when its name is taken or the types agree. */
  lemma RowEqualsRequests(w: World, s: System, f: seq<string>)
    requires |f| >= 4
    ensures LoadRow(w, s, f) == RowByRequests(w, s, f) <==> f[0] in s.reg.named || SameDataref(w, f)
  {
    hide RegisterRequest, SubscribeRequest, RowDataref, AskedType, D.Loaded, SameDataref;
    AskedIsRow(w, f);
    RequestsInsert(w, s, f);
    var a, b := LoadRow(w, s, f), RowByRequests(w, s, f);
    if f[0] !in s.reg.named {
      assert a.objects[s.reg.clock] == Plain(RowDataref(w, f)) && b.objects[s.reg.clock] == Plain(AskedDataref(w, f));
    }
  }

  /** The dataref the request for a row registers. */
  function AskedDataref(w: World, f: seq<string>): D.View
    requires |f| >= 4
  {
    D.Loaded(w, f[1]).(typ := AskedType(w, RegisterRequest(f), f[1]), factor := f[3])
  }

  lemma AskedIsRow(w: World, f: seq<string>)
    requires |f| >= 4
    ensures AskedDataref(w, f) == RowDataref(w, f) <==> SameDataref(w, f)
  {
    hide D.LoadedType, D.Find;
  }

  lemma RequestsInsert(w: World, s: System, f: seq<string>)
    requires |f| >= 4
    ensures RowByRequests(w, s, f) == Do(Insert(s, f[0], Plain(AskedDataref(w, f))), Sub(f[0]))
    ensures OnRegister(w, s, RegisterRequest(f)).s == Insert(s, f[0], Plain(AskedDataref(w, f)))
  {
    hide D.Loaded, AskedType, Insert, Apply;
  }

  /** The case that tells them apart: a new name on an Int dataref, with type "UNKNWON". */
  lemma UnknownTypeTellsApart(w: World, s: System, h: Handle)
    requires w.links == map["sim/x" := h] && w.types == map[h := {IntType}]
    requires s.reg.named == map[]
    ensures LoadRow(w, s, ["n", "sim/x", "UNKNWON", "1.0"]) != RowByRequests(w, s, ["n", "sim/x", "UNKNWON", "1.0"])
  {
    RowEqualsRequests(w, s, ["n", "sim/x", "UNKNWON", "1.0"]);
  }

  // ----- The default list -------------------------------------------------------------------

  /** GetCallbacks of the default library. */
  const DEFAULTS: seq<CallbackTable.Entry<Callback>> := [
    ("LOAD_DLL", Some(LoadDll)), ("REG_DATA", Some(RegisterDataref)), ("UNREG_DATA", Some(UnregisterDataref)),
    ("SUB_DATA", Some(SubscribeDataref)), ("UNSUB_DATA", Some(UnsubscribeDataref)),
    ("GET_REG_DATA", Some(GetRegisterDatarefValue)), ("SET_REG_DATA", Some(SetRegisterDatarefValue)),
    ("GET_DATA", Some(GetDatarefValue)), ("SET_DATA", Some(SetDatarefValue)), ("SPEAK", Some(Speak)),
    ("ADD_CONST", Some(AddConstantDataref)), ("LOAD_REG_DATA", Some(LoadRegisterDataref)),
    ("FFDATA_INIT", Some(InitFlightFactorA320)), ("REG_FFDATA", Some(RegisterFFDataref))]

  predicate Binds(table: map<string, Callback>, op: string, cb: Callback) { op in table && table[op] == cb }

  lemma {:induction false} OfferAt(list: seq<CallbackTable.Entry<Callback>>, i: nat)
    requires i < |list| && forall j | 0 <= j < i :: list[j].0 != list[i].0
    ensures list[i].1.Some? ==> CallbackTable.Offer(list, list[i].0) == list[i].1
  {
    if i > 0 {
      OfferAt(list[1..], i - 1);
    }
  }

  /** Loading the default library first binds every one of its operations to its callback;
      nothing loaded later changes that. */
  lemma DefaultsStay(later: seq<CallbackTable.Entry<Callback>>, i: nat)
    requires i < |DEFAULTS|
    ensures DEFAULTS[i].1.Some?
    ensures Binds(CallbackTable.Loaded(CallbackTable.Loaded(map[], DEFAULTS), later),
                  DEFAULTS[i].0, DEFAULTS[i].1.value)
  {
    hide CallbackTable.Loaded;
    OfferAt(DEFAULTS, i);
    var table := CallbackTable.Loaded(map[], DEFAULTS);
    CallbackTable.FirstOfferWins(map[], DEFAULTS, DEFAULTS[i].0);
    CallbackTable.FirstOfferWins(table, later, DEFAULTS[i].0);
  }
}
