/** What clients of the plugin can rely on over whole runs. */
module Guarantees {
  import opened Prelude
  import opened KeyOrder
  import opened Numerals
  import opened JsonTree
  import opened Simulation
  import opened System
  import opened Requests
  import opened Frames
  import opened Runs
  import opened Retirement
  import R = Registry
  import CallbackTable
  import Overlay
  import Csv
  import D = Datarefs
  import F = FlightFactor

  // ----- Constants over runs -------------------------------------------------------------

  /** Whatever happens later, a constant stays and stays bound to its object. */
  lemma ConstantsStay(w: World, s: System, past: seq<Event>, future: seq<Event>, n: string)
    requires Initial(s) && n in After(w, s, past).reg.consts
    ensures var before, now := After(w, s, past), After(w, s, past + future);
      && n in now.reg.consts && now.reg.consts[n].id == before.reg.consts[n].id
      && now.reg.consts[n].id in now.objects
      && Later(before.objects[before.reg.consts[n].id], now.objects[now.reg.consts[n].id])
  {
    RegistryIsLog(w, s, past);
    RegistryIsLog(w, s, past + future);
    AfterConcat(w, s, past, future);
    R.ConstForever(Log(w, s, past), Log(w, After(w, s, past), future), n);
  }

  /** A constant on an X-Plane dataref is written in every later constant pass, also after
      its name was unregistered or registered anew: the pass puts its value wherever it
      reaches, unless a greater constant name writes there too. */
  lemma PlainConstantOutlivesItsName(w: World, s: System, past: seq<Event>, future: seq<Event>, n: string, l: Loc)
    requires Initial(s) && n in After(w, s, past).reg.consts
    requires After(w, s, past).objects[After(w, s, past).reg.consts[n].id].Plain?
    ensures var now := After(w, s, past + future);
      var d := After(w, s, past).objects[After(w, s, past).reg.consts[n].id].d;
      && n in now.reg.consts
      && var write := D.WriteOf(w, d, now.reg.consts[n].value); var (after, ok) := ConstantPass(w, now);
      && (ok ==> write.Ok?)
      && (ok && l in write.value && LastToWrite(w, now, n, l) ==> l in after.mem && after.mem[l] == write.value[l])
  {
    hide D.WriteOf, Step, EventOps, ConstantPass;
    ConstantsStay(w, s, past, future, n);
    var now := After(w, s, past + future);
    ConstantPassCompletes(w, now);
    if ConstantPass(w, now).1 && l in ConstEffect(w, now, n).value {
      GreatestConstantWins(w, now, n, l);
    }
  }

  /** A constant on a FlightFactor dataref whose object left named never reaches the
      simulator again, even if the name is registered anew. In every later state a frame does
      the same without the constant, and from the day the object left no run depends on what
      it holds. */
  lemma FlightConstantDiesWithItsName(w: World, s: System, past: seq<Event>, future: seq<Event>, n: string, f: F.View)
    requires Initial(s) && n in After(w, s, past).reg.consts
    requires var t := After(w, s, past); var k := t.reg.consts[n].id;
      t.objects[k].Flight? && k !in t.reg.named.Values
    ensures var now := After(w, s, past + future); var k := After(w, s, past).reg.consts[n].id;
      && n in now.reg.consts && now.reg.consts[n].id == k && k in now.objects && k !in now.reg.named.Values
      && ConstEffect(w, now, n) == Ok(map[])
      && var without := WithoutConstant(now, n);
      && Closed(without) && FlightFrame(w, without).0.mem == FlightFrame(w, now).0.mem
      && FlightFrame(w, without).1 == FlightFrame(w, now).1
    ensures var t := After(w, s, past); var k := t.reg.consts[n].id;
      Closed(With(t, k, f)) && SameBut(After(w, s, past + future), After(w, With(t, k, f), future), k)
  {
    hide Step, EventOps, FlightFrame, With, SameBut;
    ConstantsStay(w, s, past, future, n);
    var t := After(w, s, past);
    var k := t.reg.consts[n].id;
    var now := After(w, s, past + future);
    RegistryIsLog(w, s, past);
    RegistryIsLog(w, s, past + future);
    AfterConcat(w, s, past, future);
    R.ConstIdName(Log(w, s, past), n);
    R.RetiredForever(Log(w, s, past), Log(w, t, future), k);
    RetiredConstantIsInert(w, now, n);
    RetiredTargetIsNeverSeen(w, t, k, f, future);
  }

  /** While the name is registered as the object the constant is bound to, every FlightFactor
      frame that completes leaves the constant in the simulator, whatever was set before. */
  lemma FlightConstantHolds(w: World, s: System, events: seq<Event>, n: string, f: F.View, a: Atom)
    requires Initial(s)
    requires var t := After(w, s, events);
      && n in t.reg.consts && n in t.reg.named && t.reg.consts[n].id == t.reg.named[n]
      && t.objects[t.reg.named[n]] == Flight(f)
    ensures var t := After(w, s, events); var (after, ok) := FlightFrame(w, t);
      ok && F.TargetAtom(w, f.id, t.reg.consts[n].value) == Ok(Some(a)) && GreatestWithId(t, n, f.id) ==>
        Shared(f.id) in after.mem && after.mem[Shared(f.id)] == a
  {
    hide Step, EventOps, FlightFrame, F.TargetAtom, GreatestWithId;
    var t := After(w, s, events);
    RegistryIsLog(w, s, events);
    forall m | m in t.reg.consts && m != n
      ensures t.reg.consts[m].id != t.reg.consts[n].id
    {
      R.ConstIdName(Log(w, s, events), m);
      R.ConstIdName(Log(w, s, events), n);
    }
    ConstantDecidesTarget(w, t, n);
    FlightFrameWritesTarget(w, t, n, f.(needUpdate := true, target := t.reg.consts[n].value), a);
  }

  /** A registered FlightFactor dataref that was ever set stays pending: every later frame
      that completes writes the target it has then, unless a greater name shares its id. */
  lemma FlightTargetIsReapplied(w: World, s: System, past: seq<Event>, future: seq<Event>, n: string, f: F.View,
                                a: Atom)
    requires Initial(s)
    requires var t := After(w, s, past);
      n in t.reg.named && t.objects[t.reg.named[n]] == Flight(f) && f.needUpdate
    ensures var t, u := After(w, s, past), After(w, s, past + future);
      var (after, ok) := FlightFrame(w, u);
      ok && n in u.reg.named && u.reg.named[n] == t.reg.named[n] ==>
        && AtPush(u, u.reg.named[n]).Flight?
        && var now := AtPush(u, u.reg.named[n]).f;
        && now.id == f.id && now.needUpdate
        && (F.TargetAtom(w, f.id, now.target) == Ok(Some(a)) && GreatestWithId(u, n, f.id) ==>
              Shared(f.id) in after.mem && after.mem[Shared(f.id)] == a)
  {
    hide Step, EventOps, FlightFrame, F.TargetAtom, Noted, GreatestWithId;
    var t, u := After(w, s, past), After(w, s, past + future);
    AfterConcat(w, s, past, future);
    var k := t.reg.named[n];
    assert Later(t.objects[k], u.objects[k]);
    if FlightFrame(w, u).1 && n in u.reg.named && u.reg.named[n] == k {
      FlightFrameWritesTarget(w, u, n, AtPush(u, k).f, a);
    }
  }

  // ----- The callback table and FlightFactor's values over runs ----------------------------

  /** The two memories hold the same FlightFactor value under id. */
  predicate SharedAlike(a: Memory, b: Memory, id: int) {
    (Shared(id) in a <==> Shared(id) in b) && (Shared(id) in a ==> a[Shared(id)] == b[Shared(id)])
  }

  /** An X-Plane dataref never writes a FlightFactor value. */
  lemma PlainWritesCells(w: World, d: D.View, value: string)
    ensures D.WriteOf(w, d, value).Ok? ==> forall l | l in D.WriteOf(w, d, value).value :: l.Cell?
  {
    hide Stod, StodAsInt, D.ScaledDown, D.Padded;
  }

  lemma FramesKeepTable(w: World, s: System)
    requires Closed(s)
    ensures ConstantPass(w, s).0.table == s.table && FlightFrame(w, s).0.table == s.table
  {
    hide SetConstants, PushTargets, SortedKeys, PushEffects, Overlay.Pass;
    SetConstantsKeeps(w, s, SortedKeys(s.reg.consts.Keys));
    var t := ConstantPass(w, s).0;
    PushTargetsIsOnePatch(w, t, SortedKeys(t.reg.named.Keys));
  }

  /** A callback keeps FlightFactor's values. Only LOAD_DLL touches the table, by loading
      one list. */
  ghost predicate Confined(w: World, env: Env, s: System, cb: Callback, j: Json)
    requires Closed(s)
  {
    var t := Call(w, env, s, cb, j).s;
    (forall id :: SharedAlike(s.mem, t.mem, id)) && t.table == TableAfter(env, s.table, cb, j)
  }

  function TableAfter(env: Env, table: map<string, Callback>, cb: Callback, j: Json): map<string, Callback> {
    if cb.LoadDll? && TextAt(j, "DLLPath").Ok? && TextAt(j, "DLLPath").value in env.libraries
    then CallbackTable.Loaded(table, env.libraries[TextAt(j, "DLLPath").value]) else table
  }

  lemma Unmoved(m: Memory)
    ensures forall id :: SharedAlike(m, m, id)
  {
  }

  lemma InsertConfined(s: System, name: string, obj: Obj)
    ensures Insert(s, name, obj).mem == s.mem && Insert(s, name, obj).table == s.table
  {
    hide R.Apply;
  }

  lemma RegisterConfined(w: World, env: Env, s: System, cb: Callback, j: Json)
    requires Closed(s) && (cb.RegisterDataref? || cb.RegisterFFDataref?)
    ensures Confined(w, env, s, cb, j)
  {
    hide AskedType, AskedFactor, Insert, D.Loaded, F.Loaded, Described, TextAt, SharedAlike;
    Unmoved(s.mem);
    forall name, obj
      ensures Insert(s, name, obj).mem == s.mem && Insert(s, name, obj).table == s.table
    {
      InsertConfined(s, name, obj);
    }
  }

  lemma GetConfined(w: World, env: Env, s: System, cb: Callback, j: Json)
    requires Closed(s) && (cb.GetRegisterDatarefValue? || cb.GetDatarefValue?)
    ensures Confined(w, env, s, cb, j)
  {
    hide D.ReadOf, ReadObject, Direct, TextAt, SharedAlike;
    Unmoved(s.mem);
  }

  lemma WritesApart(w: World, m: Memory)
    ensures forall d, value :: D.WriteOf(w, d, value).Ok? ==>
      forall id :: SharedAlike(m, m + D.WriteOf(w, d, value).value, id)
  {
    hide D.WriteOf, SharedAlike;
    forall d, value
      ensures D.WriteOf(w, d, value).Ok? ==> forall id :: SharedAlike(m, m + D.WriteOf(w, d, value).value, id)
    {
      PlainWritesCells(w, d, value);
      if D.WriteOf(w, d, value).Ok? {
        CellsApart(m, D.WriteOf(w, d, value).value);
      }
    }
  }

  lemma SetConfined(w: World, env: Env, s: System, j: Json)
    requires Closed(s)
    ensures Confined(w, env, s, SetRegisterDatarefValue, j)
  {
    hide D.WriteOf, ExtractValue, TextAt, SharedAlike;
    Unmoved(s.mem);
    WritesApart(w, s.mem);
  }

  lemma SetDirectConfined(w: World, env: Env, s: System, j: Json)
    requires Closed(s)
    ensures Confined(w, env, s, SetDatarefValue, j)
  {
    hide D.WriteOf, Direct, ExtractValue, TextAt, SharedAlike, Closed;
    Unmoved(s.mem);
    WritesApart(w, s.mem);
  }

  lemma CellsApart(m: Memory, p: Patch)
    requires forall l | l in p :: l.Cell?
    ensures forall id :: SharedAlike(m, m + p, id)
  {
  }

  lemma LoadConfined(w: World, env: Env, s: System, j: Json)
    requires Closed(s)
    ensures Confined(w, env, s, LoadRegisterDataref, j)
  {
    hide LoadLines;
    if TextAt(j, "FileIn").Ok? && TextAt(j, "FileIn").value in env.files {
      LoadKeepsRest(w, s, env.files[TextAt(j, "FileIn").value]);
    }
  }

  lemma NamesConfined(w: World, env: Env, s: System, cb: Callback, j: Json)
    requires Closed(s)
    requires cb.UnregisterDataref? || cb.SubscribeDataref? || cb.UnsubscribeDataref? || cb.AddConstantDataref?
    ensures Confined(w, env, s, cb, j)
  {
    hide R.Apply, TextAt, SharedAlike, Closed;
    Unmoved(s.mem);
  }

  lemma OtherConfined(w: World, env: Env, s: System, cb: Callback, j: Json)
    requires Closed(s) && (cb.Speak? || cb.InitFlightFactorA320?)
    ensures Confined(w, env, s, cb, j)
  {
    hide TextAt, SharedAlike;
    Unmoved(s.mem);
  }

  lemma LoadDllConfined(w: World, env: Env, s: System, j: Json)
    requires Closed(s)
    ensures Confined(w, env, s, LoadDll, j)
  {
    hide TextAt, CallbackTable.Loaded, SharedAlike, Closed;
    Unmoved(s.mem);
  }

  lemma CallConfined(w: World, env: Env, s: System, cb: Callback, j: Json)
    requires Closed(s)
    ensures Confined(w, env, s, cb, j)
  {
    hide Confined;
    match cb {
      case RegisterDataref => RegisterConfined(w, env, s, cb, j);
      case RegisterFFDataref => RegisterConfined(w, env, s, cb, j);
      case GetRegisterDatarefValue => GetConfined(w, env, s, cb, j);
      case SetRegisterDatarefValue => SetConfined(w, env, s, j);
      case GetDatarefValue => GetConfined(w, env, s, cb, j);
      case SetDatarefValue => SetDirectConfined(w, env, s, j);
      case LoadRegisterDataref => LoadConfined(w, env, s, j);
      case UnregisterDataref => NamesConfined(w, env, s, cb, j);
      case SubscribeDataref => NamesConfined(w, env, s, cb, j);
      case UnsubscribeDataref => NamesConfined(w, env, s, cb, j);
      case AddConstantDataref => NamesConfined(w, env, s, cb, j);
      case LoadDll => LoadDllConfined(w, env, s, j);
      case _ => OtherConfined(w, env, s, cb, j);
    }
  }

  lemma StepTable(w: World, s: System, e: Event, op: string)
    requires Closed(s) && op in s.table
    ensures op in Step(w, s, e).table && Step(w, s, e).table[op] == s.table[op]
  {
    hide Call, ConstantPass, FlightFrame, CallbackTable.Loaded, TextAt;
    FramesKeepTable(w, s);
    if e.Request? && TextAt(e.j, "Operation").Ok? && TextAt(e.j, "Operation").value in s.table {
      CallConfined(w, e.env, s, s.table[TextAt(e.j, "Operation").value], e.j);
      if TextAt(e.j, "DLLPath").Ok? && TextAt(e.j, "DLLPath").value in e.env.libraries {
        CallbackTable.FirstOfferWins(s.table, e.env.libraries[TextAt(e.j, "DLLPath").value], op);
      }
    }
  }

  lemma {:induction false} LoadKeepsRest(w: World, s: System, lines: seq<string>)
    ensures LoadLines(w, s, lines).0.table == s.table && LoadLines(w, s, lines).0.mem == s.mem
    decreases |lines|
  {
    if lines != [] {
      var f := Csv.Fields(lines[0]);
      if IsComment(lines[0]) {
        LoadKeepsRest(w, s, lines[1..]);
      } else if |f| >= 4 {
        LoadKeepsRest(w, LoadRow(w, s, f), lines[1..]);
      }
    }
  }

  /** An operation once bound keeps its callback through every later event. */
  lemma {:induction false} BindingsStay(w: World, s: System, events: seq<Event>, op: string)
    requires Closed(s) && op in s.table
    ensures op in After(w, s, events).table && After(w, s, events).table[op] == s.table[op]
    decreases |events|
  {
    hide Step;
    if events != [] {
      BindingsStay(w, s, events[..|events| - 1], op);
      StepTable(w, After(w, s, events[..|events| - 1]), events[|events| - 1], op);
    }
  }

  /** The types of FlightFactor values DoSetValue writes; setting another has no effect. */
  predicate Written(w: World, id: int) {
    F.TypeOf(w, id) == F.SINT32 || F.TypeOf(w, id) == F.FLOAT32 || F.TypeOf(w, id) == F.FLOAT64
  }

  lemma PassKeepsShared(w: World, s: System, id: int)
    requires Closed(s)
    ensures SharedAlike(s.mem, ConstantPass(w, s).0.mem, id)
  {
    hide D.WriteOf, ConstantPass;
    forall m | m in s.reg.consts && ConstEffect(w, s, m).Ok?
      ensures Shared(id) !in ConstEffect(w, s, m).value
    {
      var o := s.objects[s.reg.consts[m].id];
      if o.Plain? {
        PlainWritesCells(w, o.d, s.reg.consts[m].value);
      }
    }
    ConstantPassFrame(w, s, Shared(id));
  }

  lemma FrameKeepsUnwritten(w: World, s: System, id: int)
    requires Closed(s) && !Written(w, id)
    ensures SharedAlike(s.mem, FlightFrame(w, s).0.mem, id)
  {
    hide SetConstants, PushTargets, SortedKeys, ConstantPass, F.TargetAtom;
    PassKeepsShared(w, s, id);
    if ConstantPass(w, s).1 {
      var t := FlightFrameParts(w, s);
      var keys := SortedKeys(s.reg.named.Keys);
      var rs := PushEffects(w, t, keys);
      var ps := Overlay.Performed(rs);
      forall j | 0 <= j < |ps|
        ensures Shared(id) !in ps[j]
      {
        assert keys[j] in keys && rs[j] == Ok(ps[j]) && rs[j] == PushEffect(w, t, keys[j]);
        UnwrittenHasNoAtom(w, t, keys[j], id);
      }
      Overlay.NoWriter(ps, Shared(id));
    }
  }

  lemma UnwrittenHasNoAtom(w: World, s: System, key: string, id: int)
    requires Closed(s) && key in s.reg.named && !Written(w, id)
    ensures PushEffect(w, s, key).Ok? ==> Shared(id) !in PushEffect(w, s, key).value
  {
    hide Stod, Stoi;
  }

  lemma StepKeepsShared(w: World, s: System, e: Event, id: int)
    requires Closed(s) && !e.Outside? && (e.FlightUpdate? ==> !Written(w, id))
    ensures SharedAlike(s.mem, Step(w, s, e).mem, id)
  {
    hide Call, ConstantPass, FlightFrame, TextAt;
    match e {
      case Request(env, j) =>
        if TextAt(j, "Operation").Ok? && TextAt(j, "Operation").value in s.table {
          CallConfined(w, env, s, s.table[TextAt(j, "Operation").value], j);
        }
      case ConstFrame => PassKeepsShared(w, s, id);
      case FlightUpdate => FrameKeepsUnwritten(w, s, id);
    }
  }

  /** The plugin writes FlightFactor values nowhere but in FlightFactor's own frames, and
      there only int, float and double ones: whatever is requested, a run keeps all others. */
  lemma {:induction false} SharedStays(w: World, s: System, events: seq<Event>, id: int)
    requires Closed(s) && forall e | e in events :: !e.Outside? && (e.FlightUpdate? ==> !Written(w, id))
    ensures SharedAlike(s.mem, After(w, s, events).mem, id)
    decreases |events|
  {
    hide Step;
    if events != [] {
      var init, last := events[..|events| - 1], events[|events| - 1];
      assert last in events && forall e | e in init :: e in events;
      SharedStays(w, s, init, id);
      StepKeepsShared(w, After(w, s, init), last, id);
    }
  }

  // ----- Bulk load against single requests ---------------------------------------------------

  /** The requests a client would send instead of a file; comment lines have none. */
  function RequestsFor(env: Env, lines: seq<string>): seq<Event>
    requires forall line | line in lines :: IsComment(line) || |Csv.Fields(line)| >= 4
    decreases |lines|
  {
    if lines == [] then [] else
      assert lines[0] in lines;
      var f := Csv.Fields(lines[0]);
      (if IsComment(lines[0]) then [] else [Request(env, RegisterRequest(f)), Request(env, SubscribeRequest(f))])
      + RequestsFor(env, lines[1..])
  }

  /** The operations a client needs in place of a bulk load are the default ones. */
  predicate BindsRows(table: map<string, Callback>) {
    Binds(table, "REG_DATA", RegisterDataref) && Binds(table, "SUB_DATA", SubscribeDataref)
  }

  lemma OneStep(w: World, s: System, e: Event)
    requires Closed(s)
    ensures After(w, s, [e]) == Step(w, s, e)
  {
    hide Step;
    assert [e][..0] == [];
  }

  lemma RegisterDispatch(w: World, env: Env, s: System, f: seq<string>)
    requires Closed(s) && BindsRows(s.table) && |f| >= 4
    ensures Step(w, s, Request(env, RegisterRequest(f))) == OnRegister(w, s, RegisterRequest(f)).s
    ensures OnRegister(w, s, RegisterRequest(f)).s.table == s.table
  {
    hide AskedType, AskedFactor, D.Loaded, RegisterRequest, R.Apply;
    OperationOf(f);
  }

  lemma SubscribeDispatch(w: World, env: Env, s: System, f: seq<string>)
    requires Closed(s) && BindsRows(s.table) && |f| >= 4
    ensures Step(w, s, Request(env, SubscribeRequest(f))) == OnSubscribe(s, SubscribeRequest(f)).s
  {
    hide SubscribeRequest, OnSubscribe;
    OperationOf(f);
  }

  lemma OperationOf(f: seq<string>)
    requires |f| >= 4
    ensures TextAt(RegisterRequest(f), "Operation") == Ok("REG_DATA")
    ensures TextAt(SubscribeRequest(f), "Operation") == Ok("SUB_DATA")
  {
  }

  /** Going down the file, every data row has a name taken by then or a type both ways of
      registering read alike. */
  predicate RowsAgree(w: World, taken: set<string>, lines: seq<string>)
    requires forall line | line in lines :: IsComment(line) || |Csv.Fields(line)| >= 4
    decreases |lines|
  {
    lines == [] ||
    (assert lines[0] in lines;
     var f := Csv.Fields(lines[0]);
     if IsComment(lines[0]) then RowsAgree(w, taken, lines[1..])
     else (f[0] in taken || SameDataref(w, f)) && RowsAgree(w, taken + {f[0]}, lines[1..]))
  }

  lemma RowByRow(w: World, env: Env, s: System, f: seq<string>)
    requires Closed(s) && BindsRows(s.table) && |f| >= 4
    ensures After(w, s, [Request(env, RegisterRequest(f)), Request(env, SubscribeRequest(f))]) == RowByRequests(w, s, f)
  {
    hide OnRegister, OnSubscribe, Csv.Fields;
    var a, b := Request(env, RegisterRequest(f)), Request(env, SubscribeRequest(f));
    assert [a, b] == [a] + [b];
    AfterConcat(w, s, [a], [b]);
    OneStep(w, s, a);
    RegisterDispatch(w, env, s, f);
    var t := OnRegister(w, s, RegisterRequest(f)).s;
    OneStep(w, t, b);
    SubscribeDispatch(w, env, t, f);
  }

  /** The object a row makes for a new name, loaded and requested. */
  lemma RowObjects(w: World, s: System, f: seq<string>)
    requires |f| >= 4 && f[0] !in s.reg.named
    ensures LoadRow(w, s, f).objects == s.objects[s.reg.clock := Plain(RowDataref(w, f))]
    ensures RowByRequests(w, s, f).objects == s.objects[s.reg.clock := Plain(AskedDataref(w, f))]
  {
    hide OnRegister, OnSubscribe, AskedDataref, RowDataref, R.Apply;
    RequestsInsert(w, s, f);
  }

  lemma RowNames(w: World, s: System, f: seq<string>)
    requires |f| >= 4
    ensures LoadRow(w, s, f).reg.named.Keys == s.reg.named.Keys + {f[0]}
  {
    hide RowDataref, R.Apply;
    var r := R.Apply(s.reg, R.Reg(f[0]));
    RegisteredNames(s.reg, f[0]);
    SubscribingKeepsNames(r, f[0]);
    assert LoadRow(w, s, f).reg == R.Apply(r, R.Sub(f[0]));
  }

  lemma SubscribingKeepsNames(r: R.Registry, name: string)
    ensures R.Apply(r, R.Sub(name)).named == r.named
  {
  }

  /** A data row in front of lines already compared. */
  lemma RowInFront(w: World, env: Env, s: System, f: seq<string>, rest: seq<string>)
    requires Closed(s) && BindsRows(s.table) && |f| >= 4 && Closed(LoadRow(w, s, f))
    requires forall line | line in rest :: IsComment(line) || |Csv.Fields(line)| >= 4
    requires LoadLines(w, LoadRow(w, s, f), rest).0 == After(w, LoadRow(w, s, f), RequestsFor(env, rest))
      <==> RowsAgree(w, LoadRow(w, s, f).reg.named.Keys, rest)
    ensures var row := [Request(env, RegisterRequest(f)), Request(env, SubscribeRequest(f))];
      LoadLines(w, LoadRow(w, s, f), rest).0 == After(w, s, row + RequestsFor(env, rest))
      <==> (f[0] in s.reg.named || SameDataref(w, f)) && RowsAgree(w, s.reg.named.Keys + {f[0]}, rest)
  {
    hide LoadRow, RowByRequests, SameDataref, BindsRows, After, AskedDataref, RowDataref, LoadLines, RequestsFor,
      RowsAgree, RegisterRequest, SubscribeRequest;
    RowByRow(w, env, s, f);
    RowEqualsRequests(w, s, f);
    RowNames(w, s, f);
    AfterConcat(w, s, [Request(env, RegisterRequest(f)), Request(env, SubscribeRequest(f))], RequestsFor(env, rest));
    if LoadRow(w, s, f) != RowByRequests(w, s, f) {
      DifferenceStays(w, env, s, f, rest);
    }
  }

  /** Loading a file of complete rows ends in the state of sending REG_DATA and SUB_DATA for
      each row exactly when its rows agree. */
  lemma {:induction false} BulkLoadIsRequests(w: World, env: Env, s: System, lines: seq<string>)
    requires Closed(s) && BindsRows(s.table)
    requires forall line | line in lines :: IsComment(line) || |Csv.Fields(line)| >= 4
    ensures LoadLines(w, s, lines).1
    ensures LoadLines(w, s, lines).0 == After(w, s, RequestsFor(env, lines)) <==> RowsAgree(w, s.reg.named.Keys, lines)
    decreases |lines|
  {
    hide LoadRow, SameDataref, BindsRows, Step, RegisterRequest, SubscribeRequest;
    if lines != [] {
      assert lines[0] in lines;
      var rest := lines[1..];
      if IsComment(lines[0]) {
        assert [] + RequestsFor(env, rest) == RequestsFor(env, rest);
        BulkLoadIsRequests(w, env, s, rest);
      } else {
        var f := Csv.Fields(lines[0]);
        RowKeeps(w, s, f);
        BulkLoadIsRequests(w, env, LoadRow(w, s, f), rest);
        RowInFront(w, env, s, f, rest);
      }
    }
  }

  /** Once a row made two different objects, nothing later makes the states equal again. */
  lemma DifferenceStays(w: World, env: Env, s: System, f: seq<string>, rest: seq<string>)
    requires Closed(s) && BindsRows(s.table) && |f| >= 4 && LoadRow(w, s, f) != RowByRequests(w, s, f)
    requires Closed(LoadRow(w, s, f)) && Closed(RowByRequests(w, s, f))
    requires forall line | line in rest :: IsComment(line) || |Csv.Fields(line)| >= 4
    ensures LoadLines(w, LoadRow(w, s, f), rest).0 != After(w, RowByRequests(w, s, f), RequestsFor(env, rest))
  {
    hide LoadRow, RowByRequests, LoadLines, RequestsFor, Step, AskedDataref, RowDataref, SameDataref, BindsRows;
    RowEqualsRequests(w, s, f);
    AskedIsRow(w, f);
    RowObjects(w, s, f);
    LoadKeeps(w, LoadRow(w, s, f), rest);
    var a, b := LoadLines(w, LoadRow(w, s, f), rest).0, After(w, RowByRequests(w, s, f), RequestsFor(env, rest));
    assert Later(LoadRow(w, s, f).objects[s.reg.clock], a.objects[s.reg.clock]);
    assert Later(RowByRequests(w, s, f).objects[s.reg.clock], b.objects[s.reg.clock]);
  }

  function LoadRequest(path: string): Json {
    Obj(map["Operation" := Str("LOAD_REG_DATA"), "FileIn" := Str(path)])
  }

  lemma LoadDispatch(w: World, env: Env, s: System, path: string)
    requires Closed(s) && Binds(s.table, "LOAD_REG_DATA", LoadRegisterDataref) && path in env.files
    ensures Step(w, s, Request(env, LoadRequest(path))) == LoadLines(w, s, env.files[path]).0
  {
    hide LoadLines;
    assert TextAt(LoadRequest(path), "Operation") == Ok("LOAD_REG_DATA");
    assert TextAt(LoadRequest(path), "FileIn") == Ok(path);
  }

  /** With the default callbacks, one LOAD_REG_DATA request is the requests for its rows,
      exactly when the rows agree. */
  lemma LoadRequestIsRequests(w: World, env: Env, s: System, path: string)
    requires Closed(s) && BindsRows(s.table) && Binds(s.table, "LOAD_REG_DATA", LoadRegisterDataref)
    requires path in env.files
    requires forall line | line in env.files[path] :: IsComment(line) || |Csv.Fields(line)| >= 4
    ensures After(w, s, [Request(env, LoadRequest(path))]) == After(w, s, RequestsFor(env, env.files[path]))
      <==> RowsAgree(w, s.reg.named.Keys, env.files[path])
  {
    hide BindsRows, Step, LoadRow, LoadLines, LoadRequest, Binds, RowsAgree;
    OneStep(w, s, Request(env, LoadRequest(path)));
    LoadDispatch(w, env, s, path);
    BulkLoadIsRequests(w, env, s, env.files[path]);
  }

  lemma RowKeeps(w: World, s: System, f: seq<string>)
    requires Closed(s) && |f| >= 4
    ensures Closed(LoadRow(w, s, f)) && LoadRow(w, s, f).table == s.table
  {
    hide RowDataref;
    InsertKeeps(s, f[0], Plain(RowDataref(w, f)));
    DoKeeps(Insert(s, f[0], Plain(RowDataref(w, f))), R.Sub(f[0]));
  }
}
