/** What a client can send and what comes of it, in the words of the documents themselves: the
    operations of the default library by name, from the table that library leaves. */
module Protocol {
  import opened Prelude
  import opened Numerals
  import opened JsonTree
  import opened Simulation
  import opened System
  import opened Requests
  import opened Runs
  import opened Guarantees
  import R = Registry
  import Server
  import CallbackTable
  import Csv
  import D = Datarefs
  import F = FlightFactor

  // ----- Documents ---------------------------------------------------------------------------

  predicate Carries(j: Json, key: string, v: Json) { j.Obj? && key in j.fields && j.fields[key] == v }

  predicate Lacks(j: Json, key: string) { !j.Obj? || key !in j.fields }

  /** A request for the operation about name n. */
  predicate Wants(j: Json, operation: string, n: string) {
    Carries(j, "Operation", Str(operation)) && Carries(j, "Name", Str(n))
  }

  /** The reply is the request with the text under "Value", with code zero. */
  predicate Answers(r: Reply, j: Json, text: string) {
    r.code == Ok(0) && j.Obj? && r.j == Obj(j.fields["Value" := Str(text)])
  }

  /** The code alone is returned; nothing else changes. */
  predicate Refused(r: Reply, s: System, j: Json, code: int) { r == Reply(s, Ok(code), j) }

  // ----- The operations -----------------------------------------------------------------------

  /** The fourteen operations of the default library. */
  function OperationName(cb: Callback): string {
    match cb
    case LoadDll => "LOAD_DLL"
    case RegisterDataref => "REG_DATA"
    case UnregisterDataref => "UNREG_DATA"
    case SubscribeDataref => "SUB_DATA"
    case UnsubscribeDataref => "UNSUB_DATA"
    case GetRegisterDatarefValue => "GET_REG_DATA"
    case SetRegisterDatarefValue => "SET_REG_DATA"
    case GetDatarefValue => "GET_DATA"
    case SetDatarefValue => "SET_DATA"
    case Speak => "SPEAK"
    case AddConstantDataref => "ADD_CONST"
    case LoadRegisterDataref => "LOAD_REG_DATA"
    case InitFlightFactorA320 => "FFDATA_INIT"
    case RegisterFFDataref => "REG_FFDATA"
  }

  /** A system that understands them. */
  ghost predicate Serves(s: System) { Closed(s) && forall cb :: Binds(s.table, OperationName(cb), cb) }

  /** Where the default library lists an operation. */
  function PlaceOf(cb: Callback): (i: nat)
    ensures i < |DEFAULTS| && DEFAULTS[i] == (OperationName(cb), Some(cb))
  {
    match cb
    case LoadDll => 0
    case RegisterDataref => 1
    case UnregisterDataref => 2
    case SubscribeDataref => 3
    case UnsubscribeDataref => 4
    case GetRegisterDatarefValue => 5
    case SetRegisterDatarefValue => 6
    case GetDatarefValue => 7
    case SetDatarefValue => 8
    case Speak => 9
    case AddConstantDataref => 10
    case LoadRegisterDataref => 11
    case InitFlightFactorA320 => 12
    case RegisterFFDataref => 13
  }

  /** The plugin, enabled with the default library, understands all of them. */
  lemma EnabledServes(m: Memory)
    ensures Serves(Server.Enabled(m, DEFAULTS).sys)
  {
    hide CallbackTable.Loaded, Binds, OperationName, PlaceOf;
    var table := CallbackTable.Loaded(map[], DEFAULTS);
    forall cb
      ensures Binds(table, OperationName(cb), cb)
    {
      DefaultsStay([], PlaceOf(cb));
      NothingMore(table);
    }
  }

  lemma NothingMore(table: map<string, Callback>)
    ensures CallbackTable.Loaded(table, []) == table
  {
  }

  /** And goes on to, whatever is requested or loaded. */
  lemma ServesForever(w: World, s: System, events: seq<Event>)
    requires Serves(s)
    ensures Serves(After(w, s, events))
  {
    hide After, OperationName;
    forall cb
      ensures Binds(After(w, s, events).table, OperationName(cb), cb)
    {
      BindingsStay(w, s, events, OperationName(cb));
    }
  }

  /** Dispatch by name. */
  lemma Dispatch(w: World, env: Env, s: System, j: Json, cb: Callback)
    requires Serves(s) && Carries(j, "Operation", Str(OperationName(cb)))
    ensures Execute(w, env, s, j) == Call(w, env, s, cb, j)
  {
    hide Call, OperationName, Closed;
    assert Binds(s.table, OperationName(cb), cb);
  }

  /** A document without "Operation" is refused with 1, an operation that is not bound with 2; an
      "Operation" that is no string throws. */
  lemma UnknownIsRefused(w: World, env: Env, s: System, j: Json)
    requires Closed(s)
    ensures Lacks(j, "Operation") ==> Refused(Execute(w, env, s, j), s, j, 1)
    ensures !Lacks(j, "Operation") && !j.fields["Operation"].Str? ==> Execute(w, env, s, j) == Reply(s, Abort, j)
    ensures !Lacks(j, "Operation") && j.fields["Operation"].Str? && j.fields["Operation"].text !in s.table ==>
      Refused(Execute(w, env, s, j), s, j, 2)
  {
    hide Call;
  }

  /** The operation has nothing to work on: a field it needs is missing. */
  predicate Incomplete(j: Json, cb: Callback) {
    match cb
    case RegisterDataref => Lacks(j, "Name") || Lacks(j, "Link")
    case SetRegisterDatarefValue => Lacks(j, "Name") || Lacks(j, "Value")
    case AddConstantDataref => Lacks(j, "Name") || Lacks(j, "Value")
    case SetDatarefValue => Lacks(j, "Link") || Lacks(j, "Value")
    case GetDatarefValue => Lacks(j, "Link") || !j.fields["Link"].Str?
    case UnregisterDataref => Lacks(j, "Name")
    case SubscribeDataref => Lacks(j, "Name")
    case UnsubscribeDataref => Lacks(j, "Name")
    case GetRegisterDatarefValue => Lacks(j, "Name")
    case Speak => Lacks(j, "Text")
    case _ => false
  }

  /** Such a request is refused with 1. */
  lemma IncompleteIsRefused(w: World, env: Env, s: System, j: Json, cb: Callback)
    requires Serves(s) && Carries(j, "Operation", Str(OperationName(cb))) && Incomplete(j, cb)
    ensures Refused(Execute(w, env, s, j), s, j, 1)
  {
    hide Execute, Closed, OperationName;
    Dispatch(w, env, s, j, cb);
  }

  /** Reading or setting a name that is not registered is refused with 2, as is unregistering
      it; setting one to nothing that can be set is refused with 3. */
  lemma StrangersAreRefused(w: World, env: Env, s: System, j: Json, n: string)
    requires Serves(s)
    ensures Wants(j, "GET_REG_DATA", n) && n !in s.reg.named ==> Refused(Execute(w, env, s, j), s, j, 2)
    ensures Wants(j, "SET_REG_DATA", n) && n !in s.reg.named && !Lacks(j, "Value") && j.fields["Value"].Int? ==>
      Refused(Execute(w, env, s, j), s, j, 2)
    ensures Wants(j, "SET_REG_DATA", n) && !Lacks(j, "Value") && (j.fields["Value"].Null? || j.fields["Value"].Bool?)
      ==> Refused(Execute(w, env, s, j), s, j, 3)
    ensures Wants(j, "SET_REG_DATA", n) && Carries(j, "Value", Str("")) ==> Refused(Execute(w, env, s, j), s, j, 3)
    ensures Wants(j, "UNREG_DATA", n) && n !in s.reg.named ==>
      Execute(w, env, s, j).code == Ok(2) && Execute(w, env, s, j).j == j
  {
    hide Execute, PrintNat;
    if Carries(j, "Operation", Str("GET_REG_DATA")) {
      Dispatch(w, env, s, j, GetRegisterDatarefValue);
    } else if Carries(j, "Operation", Str("SET_REG_DATA")) {
      Dispatch(w, env, s, j, SetRegisterDatarefValue);
    } else if Carries(j, "Operation", Str("UNREG_DATA")) {
      Dispatch(w, env, s, j, UnregisterDataref);
    }
  }

  /** A "Name" or a "Link" that is no string throws, as does a constant that is none, and nothing
      changes. */
  predicate Malformed(j: Json, cb: Callback) {
    match cb
    case RegisterDataref =>
      !Lacks(j, "Name") && !Lacks(j, "Link") && !(j.fields["Name"].Str? && j.fields["Link"].Str?)
    case SetRegisterDatarefValue => !Lacks(j, "Name") && !Lacks(j, "Value") && !j.fields["Name"].Str?
    case AddConstantDataref =>
      !Lacks(j, "Name") && !Lacks(j, "Value") && !(j.fields["Name"].Str? && j.fields["Value"].Str?)
    case LoadRegisterDataref => Lacks(j, "FileIn") || !j.fields["FileIn"].Str?
    case LoadDll => Lacks(j, "DLLPath") || !j.fields["DLLPath"].Str?
    case Speak => !Lacks(j, "Text") && !j.fields["Text"].Str?
    case _ =>
      && (cb.UnregisterDataref? || cb.SubscribeDataref? || cb.UnsubscribeDataref? || cb.GetRegisterDatarefValue?)
      && !Lacks(j, "Name") && !j.fields["Name"].Str?
  }

  lemma MalformedThrows(w: World, env: Env, s: System, j: Json, cb: Callback)
    requires Serves(s) && Carries(j, "Operation", Str(OperationName(cb))) && Malformed(j, cb)
    ensures Execute(w, env, s, j) == Reply(s, Abort, j)
  {
    hide Execute, Closed, OperationName, ExtractValue, AskedFactor;
    Dispatch(w, env, s, j, cb);
  }

  /** Registering a taken name, by REG_DATA, changes no name and no object. */
  lemma TakenNameStays(w: World, env: Env, s: System, j: Json, n: string, link: string)
    requires Serves(s) && Wants(j, "REG_DATA", n) && Carries(j, "Link", Str(link)) && n in s.reg.named
    requires Lacks(j, "ConversionFactor") || j.fields["ConversionFactor"].Str?
    ensures var r := Execute(w, env, s, j);
      && r.code == Ok(0) && r.j == j && OnlyMaps(s, r.s)
      && r.s.reg.named == s.reg.named && r.s.reg.subscribed == s.reg.subscribed && r.s.reg.consts == s.reg.consts
  {
    hide Execute, Closed, AskedType;
    Dispatch(w, env, s, j, RegisterDataref);
  }

  predicate Unsplit(line: string) { ';' !in line && (line == "" || line[0] != '#') }

  /** A file that cannot be read is refused with 1. A row without a semicolon is read past its
      end, which is undefined. */
  lemma BadFiles(w: World, env: Env, s: System, j: Json, path: string)
    requires Serves(s) && Carries(j, "Operation", Str("LOAD_REG_DATA")) && Carries(j, "FileIn", Str(path))
    ensures path !in env.files ==> Refused(Execute(w, env, s, j), s, j, 1)
    ensures path in env.files && |env.files[path]| == 1 && Unsplit(env.files[path][0]) ==>
      Execute(w, env, s, j) == Reply(s, Abort, j)
    ensures path in env.files && env.files[path] == [] ==> Refused(Execute(w, env, s, j), s, j, 0)
  {
    hide Execute, Closed, LoadRow, Csv.Fields;
    Dispatch(w, env, s, j, LoadRegisterDataref);
    if path in env.files && |env.files[path]| == 1 && ';' !in env.files[path][0] {
      Csv.OneTokenPerSemicolon(env.files[path][0]);
    }
  }

  // ----- Names --------------------------------------------------------------------------------

  /** Everything but the maps stays. */
  predicate OnlyMaps(s: System, t: System) {
    t.objects == s.objects && t.mem == s.mem && t.ffReady == s.ffReady && t.table == s.table
  }

  /** SUB_DATA subscribes a registered name to its object, unless it is subscribed already; any
      other name is let pass. */
  lemma Subscribing(w: World, env: Env, s: System, j: Json, n: string)
    requires Serves(s) && Wants(j, "SUB_DATA", n)
    ensures var r := Execute(w, env, s, j);
      && r.code == Ok(0) && r.j == j && OnlyMaps(s, r.s)
      && r.s.reg.named == s.reg.named && r.s.reg.consts == s.reg.consts
      && r.s.reg.subscribed ==
        if n in s.reg.named && n !in s.reg.subscribed then s.reg.subscribed[n := s.reg.named[n]] else s.reg.subscribed
  {
    hide Execute, Closed;
    Dispatch(w, env, s, j, SubscribeDataref);
  }

  /** UNSUB_DATA takes the name out of the subscriptions. */
  lemma Unsubscribing(w: World, env: Env, s: System, j: Json, n: string)
    requires Serves(s) && Wants(j, "UNSUB_DATA", n)
    ensures var r := Execute(w, env, s, j);
      && r.code == Ok(0) && r.j == j && OnlyMaps(s, r.s)
      && r.s.reg.named == s.reg.named && r.s.reg.consts == s.reg.consts
      && r.s.reg.subscribed == s.reg.subscribed - {n}
  {
    hide Execute, Closed;
    Dispatch(w, env, s, j, UnsubscribeDataref);
  }

  /** UNREG_DATA takes a registered name out of the names and the subscriptions; constants stay. */
  lemma Unregistering(w: World, env: Env, s: System, j: Json, n: string)
    requires Serves(s) && Wants(j, "UNREG_DATA", n) && n in s.reg.named
    ensures var r := Execute(w, env, s, j);
      && r.code == Ok(0) && r.j == j && OnlyMaps(s, r.s)
      && r.s.reg.named == s.reg.named - {n} && r.s.reg.subscribed == s.reg.subscribed - {n}
      && r.s.reg.consts == s.reg.consts
  {
    hide Execute, Closed;
    Dispatch(w, env, s, j, UnregisterDataref);
  }

  /** ADD_CONST gives a registered name the value: a new constant holds the object the name
      stands for, an old one keeps its own. */
  lemma AddingConstant(w: World, env: Env, s: System, j: Json, n: string, value: string)
    requires Serves(s) && Wants(j, "ADD_CONST", n) && Carries(j, "Value", Str(value))
    ensures var r := Execute(w, env, s, j);
      && r.code == Ok(0) && r.j == j && OnlyMaps(s, r.s)
      && r.s.reg.named == s.reg.named && r.s.reg.subscribed == s.reg.subscribed
      && r.s.reg.consts ==
        if n !in s.reg.named then s.reg.consts
        else s.reg.consts[n := R.Constant(value, if n in s.reg.consts then s.reg.consts[n].id else s.reg.named[n])]
  {
    hide Execute, Closed;
    Dispatch(w, env, s, j, AddConstantDataref);
  }

  /** SPEAK changes nothing the model keeps; LOAD_DLL offers the operations of a library. */
  lemma SpeakingAndLoading(w: World, env: Env, s: System, j: Json, text: string)
    requires Serves(s)
    ensures Carries(j, "Operation", Str("SPEAK")) && Carries(j, "Text", Str(text)) ==>
      Refused(Execute(w, env, s, j), s, j, 0)
    ensures Carries(j, "Operation", Str("LOAD_DLL")) && Carries(j, "DLLPath", Str(text)) ==>
      var r := Execute(w, env, s, j);
      && r.code == Ok(0) && r.j == j
      && r.s.table == (if text in env.libraries then CallbackTable.Loaded(s.table, env.libraries[text]) else s.table)
      && r.s == s.(table := r.s.table)
  {
    hide Execute, Closed, CallbackTable.Loaded;
    if Carries(j, "Operation", Str("SPEAK")) {
      Dispatch(w, env, s, j, Callback.Speak);
    } else if Carries(j, "Operation", Str("LOAD_DLL")) {
      Dispatch(w, env, s, j, LoadDll);
    }
  }

  // ----- FlightFactor -------------------------------------------------------------------------

  /** FFDATA_INIT makes the interface ready exactly when FlightFactor's plugin is there, and says
      so: code 0 or 1. */
  lemma InitReadies(w: World, env: Env, s: System, j: Json)
    requires Serves(s) && Carries(j, "Operation", Str("FFDATA_INIT"))
    ensures Execute(w, env, s, j) ==
      Reply(s.(ffReady := s.ffReady || env.ffPlugin), Ok(if env.ffPlugin then 0 else 1), j)
  {
    hide Execute, Closed;
    Dispatch(w, env, s, j, InitFlightFactorA320);
  }

  /** REG_FFDATA before that only tries to make it ready. */
  lemma FirstFlightRequest(w: World, env: Env, s: System, j: Json)
    requires Serves(s) && Carries(j, "Operation", Str("REG_FFDATA")) && !s.ffReady
    ensures Execute(w, env, s, j) == Reply(s.(ffReady := env.ffPlugin), Ok(0x10), j)
  {
    hide Execute, Closed;
    Dispatch(w, env, s, j, RegisterFFDataref);
  }

  /** Without a name or a link REG_FFDATA is refused with 1. */
  lemma IncompleteFlight(w: World, env: Env, s: System, j: Json)
    requires Serves(s) && Carries(j, "Operation", Str("REG_FFDATA")) && s.ffReady
    requires Lacks(j, "Name") || Lacks(j, "Link")
    ensures Refused(Execute(w, env, s, j), s, j, 1)
  {
    hide Execute, Closed;
    Dispatch(w, env, s, j, RegisterFFDataref);
  }

  /** The factor a request asks for. */
  predicate AsksFactor(j: Json, factor: string) {
    Carries(j, "ConversionFactor", Str(factor)) || (Lacks(j, "ConversionFactor") && factor == "1.0f")
  }

  /** REG_FFDATA for a link FlightFactor knows. */
  predicate RegistersFlight(w: World, j: Json, n: string, link: string, id: nat, factor: string) {
    && Wants(j, "REG_FFDATA", n) && Carries(j, "Link", Str(link)) && AsksFactor(j, factor)
    && link in w.sharedIds && w.sharedIds[link] == id && id in w.sharedTypes
    && id in w.sharedNames && id in w.sharedTexts
  }

  /** It makes a FlightFactor dataref of the id and the type FlightFactor gives the link. */
  lemma FlightIsRegistered(w: World, env: Env, s: System, j: Json, n: string, link: string, id: nat, factor: string)
    requires Serves(s) && s.ffReady && RegistersFlight(w, j, n, link, id, factor) && n !in s.reg.named
    ensures var r := Execute(w, env, s, j);
      && r.code == Ok(0) && Serves(r.s)
      && r.s.reg.named == s.reg.named[n := s.reg.clock]
      && r.s.objects == s.objects[s.reg.clock := Flight(F.View(link, id, w.sharedTypes[id], factor, false, ""))]
      && r.s.mem == s.mem && r.s.ffReady == s.ffReady && r.s.table == s.table
      && r.s.reg.consts == s.reg.consts && r.s.reg.subscribed == s.reg.subscribed
  {
    hide Execute, OperationName, Insert;
    FlightInserts(w, env, s, j, n, link, id, factor);
    InsertKeeps(s, n, Flight(F.View(link, id, w.sharedTypes[id], factor, false, "")));
    NewName(s, n, Flight(F.View(link, id, w.sharedTypes[id], factor, false, "")));
  }

  lemma NewName(s: System, n: string, obj: Obj)
    requires n !in s.reg.named
    ensures var t := Insert(s, n, obj);
      && t.reg.named == s.reg.named[n := s.reg.clock] && t.objects == s.objects[s.reg.clock := obj]
      && t.mem == s.mem && t.ffReady == s.ffReady && t.table == s.table
      && t.reg.consts == s.reg.consts && t.reg.subscribed == s.reg.subscribed
  {
  }

  lemma FlightInserts(w: World, env: Env, s: System, j: Json, n: string, link: string, id: nat, factor: string)
    requires Serves(s) && s.ffReady && RegistersFlight(w, j, n, link, id, factor)
    ensures Execute(w, env, s, j).code == Ok(0)
    ensures Execute(w, env, s, j).s ==
      Insert(s, n, Flight(F.View(link, id, w.sharedTypes[id], factor, false, "")))
  {
    hide Execute, Emplace, Insert, Closed;
    Dispatch(w, env, s, j, RegisterFFDataref);
  }

  function FieldOf(j: Json, key: string): Option<Json> {
    if Lacks(j, key) then None else Some(j.fields[key])
  }

  lemma EmplaceField(j: Json, key: string, v: Json, other: string)
    requires j.Obj?
    ensures Emplace(j, key, v).Obj?
    ensures FieldOf(Emplace(j, key, v), other) ==
      if other == key && FieldOf(j, key).None? then Some(v) else FieldOf(j, other)
  {
  }

  /** What FlightFactor says of a value, each under its own key; the request's own fields stay. */
  lemma DescribedField(w: World, f: F.View, j: Json, key: string)
    requires j.Obj? && Described(w, f, j).Ok?
    ensures FieldOf(Described(w, f, j).value, key) ==
      if FieldOf(j, key).Some? then FieldOf(j, key)
      else if key == "ID" then Some(Int(f.id))
      else if key == "Type" then Some(Int(f.typ))
      else if key == "Flag" then Some(Int(F.TypeOf(w, f.id)))
      else if key == "Unit" then Some(Int(F.UnitOf(w, f.id)))
      else if key == "Name" then Some(Str(F.NameOf(w, f.id).value))
      else if key == "Description" then Some(Str(F.TextOf(w, f.id).value))
      else None
  {
    hide Emplace, F.TypeOf, F.UnitOf, F.NameOf, F.TextOf, FieldOf;
    var name, text := F.NameOf(w, f.id).value, F.TextOf(w, f.id).value;
    EmplaceField(j, "ID", Int(f.id), key);
    var a := Emplace(j, "ID", Int(f.id));
    EmplaceField(a, "Type", Int(f.typ), key);
    var b := Emplace(a, "Type", Int(f.typ));
    EmplaceField(b, "Flag", Int(F.TypeOf(w, f.id)), key);
    var c := Emplace(b, "Flag", Int(F.TypeOf(w, f.id)));
    EmplaceField(c, "Unit", Int(F.UnitOf(w, f.id)), key);
    var d := Emplace(c, "Unit", Int(F.UnitOf(w, f.id)));
    EmplaceField(d, "Name", Str(name), key);
    EmplaceField(Emplace(d, "Name", Str(name)), "Description", Str(text), key);
  }

  /** The reply is the request with what FlightFactor says of the value, each under its own key
      unless the request has that key itself. */
  lemma FlightIsDescribed(w: World, env: Env, s: System, j: Json, n: string, link: string, id: nat, factor: string)
    requires Serves(s) && s.ffReady && RegistersFlight(w, j, n, link, id, factor)
    ensures var reply := Execute(w, env, s, j).j;
      && (Lacks(j, "ID") ==> Carries(reply, "ID", Int(id)))
      && (Lacks(j, "Type") ==> Carries(reply, "Type", Int(w.sharedTypes[id])))
      && (Lacks(j, "Flag") ==> Carries(reply, "Flag", Int(w.sharedTypes[id])))
      && (Lacks(j, "Unit") ==> Carries(reply, "Unit", Int(if id in w.sharedUnits then w.sharedUnits[id] else 0)))
      && (Lacks(j, "Description") ==> Carries(reply, "Description", Str(w.sharedTexts[id])))
      && forall key | !Lacks(j, key) :: Carries(reply, key, j.fields[key])
  {
    var f := F.View(link, id, w.sharedTypes[id], factor, false, "");
    FlightReplyIs(w, env, s, j, n, link, id, factor, f);
    hide Execute, Closed, Described;
    forall key | !Lacks(j, key)
      ensures Carries(Described(w, f, j).value, key, j.fields[key])
    {
      DescribedField(w, f, j, key);
    }
    DescribedField(w, f, j, "ID");
    DescribedField(w, f, j, "Type");
    DescribedField(w, f, j, "Flag");
    DescribedField(w, f, j, "Unit");
    DescribedField(w, f, j, "Description");
  }

  lemma FlightReplyIs(w: World, env: Env, s: System, j: Json, n: string, link: string, id: nat, factor: string,
                      f: F.View)
    requires Serves(s) && s.ffReady && RegistersFlight(w, j, n, link, id, factor)
    requires f == F.View(link, id, w.sharedTypes[id], factor, false, "")
    ensures j.Obj? && Described(w, f, j).Ok? && Execute(w, env, s, j).j == Described(w, f, j).value
  {
    hide Execute, Closed, Insert, Emplace;
    Dispatch(w, env, s, j, RegisterFFDataref);
  }

  /** A link FlightFactor does not know has no name, and building it from null is undefined. */
  lemma UnknownFlightThrows(w: World, env: Env, s: System, j: Json, n: string, link: string)
    requires Serves(s) && s.ffReady && Wants(j, "REG_FFDATA", n) && Carries(j, "Link", Str(link))
    requires link !in w.sharedIds && -1 !in w.sharedNames
    ensures Execute(w, env, s, j) == Reply(s, Abort, j)
  {
    hide Execute, Closed, Insert;
    Dispatch(w, env, s, j, RegisterFFDataref);
  }
}
