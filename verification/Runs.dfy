/** Whole runs of the plugin: any sequence of requests, constant passes, FlightFactor
    frames and changes of the simulator's memory from outside. */
module Runs {
  import opened Prelude
  import opened KeyOrder
  import opened JsonTree
  import opened Simulation
  import opened System
  import opened Requests
  import opened Frames
  import opened Overlay
  import R = Registry
  import CallbackTable
  import Csv
  import D = Datarefs
  import F = FlightFactor

  datatype Event =
    | Request(env: Env, j: Json)
    | ConstFrame
    | FlightUpdate
    | Outside(mem: Memory)

  function Step(w: World, s: System, e: Event): System
    requires Closed(s)
  {
    match e
    case Request(env, j) => Execute(w, env, s, j).s
    case ConstFrame => ConstantPass(w, s).0
    case FlightUpdate => FlightFrame(w, s).0
    case Outside(m) => s.(mem := m)
  }

  // ----- The operations an event performs --------------------------------------------------

  /** A bulk load is a registration and a subscription for each row it gets through. */
  function LineOps(lines: seq<string>): seq<R.Op> {
    if lines == [] then []
    else if IsComment(lines[0]) then LineOps(lines[1..])
    else
      var f := Csv.Fields(lines[0]);
      if |f| < 4 then [] else [R.Reg(f[0]), R.Sub(f[0])] + LineOps(lines[1..])
  }

  function Name(j: Json): string {
    match TextAt(j, "Name") case Ok(n) => n case Abort => ""
  }

  function CallOps(w: World, env: Env, s: System, cb: Callback, j: Json): seq<R.Op>
    requires Closed(s)
  {
    var done := Call(w, env, s, cb, j).code == Ok(0);
    match cb
    case RegisterDataref => if done then [R.Reg(Name(j))] else []
    case RegisterFFDataref => if done then [R.Reg(Name(j))] else []
    case UnregisterDataref => if TextAt(j, "Name").Ok? then [R.Unreg(Name(j))] else []
    case SubscribeDataref => if done then [R.Sub(Name(j))] else []
    case UnsubscribeDataref => if done then [R.Unsub(Name(j))] else []
    case AddConstantDataref => if done then [R.Const(Name(j), TextAt(j, "Value").value)] else []
    case LoadRegisterDataref =>
      if TextAt(j, "FileIn").Ok? && TextAt(j, "FileIn").value in env.files
      then LineOps(env.files[TextAt(j, "FileIn").value]) else []
    case _ => []
  }

  function EventOps(w: World, s: System, e: Event): seq<R.Op>
    requires Closed(s)
  {
    if e.Request? && TextAt(e.j, "Operation").Ok? && TextAt(e.j, "Operation").value in s.table
    then CallOps(w, e.env, s, s.table[TextAt(e.j, "Operation").value], e.j) else []
  }

  /** What every step keeps: objects are never lost; an X-Plane object never changes, and a
      FlightFactor object only gets a new target and stays pending. */
  ghost predicate Keeps(s: System, t: System) {
    && Closed(t)
    && s.objects.Keys <= t.objects.Keys
    && forall k | k in s.objects :: Later(s.objects[k], t.objects[k])
  }

  predicate Later(a: Obj, b: Obj) {
    match a
    case Plain(_) => b == a
    case Flight(f) =>
      b.Flight? && b.f == f.(needUpdate := b.f.needUpdate, target := b.f.target)
      && (f.needUpdate ==> b.f.needUpdate)
      && (b.f != f ==> b.f.needUpdate)
  }

  lemma RegisteredNames(r: R.Registry, name: string)
    ensures var t := R.Apply(r, R.Reg(name));
      && t.named == (if name in r.named then r.named else r.named[name := r.clock])
      && t.subscribed == r.subscribed && t.consts == r.consts && t.clock == r.clock + 1
  {
  }

  lemma InsertKeeps(s: System, name: string, obj: Obj)
    requires Closed(s)
    ensures Keeps(s, Insert(s, name, obj)) && Insert(s, name, obj).reg == R.Apply(s.reg, R.Reg(name))
  {
    hide R.Apply, Keeps, Closed;
    RegisteredNames(s.reg, name);
    var t := Insert(s, name, obj);
    RegisteredCloses(s, t, name, obj);
    SameObjectsKeep(s, t);
  }

  lemma RegisteredCloses(s: System, t: System, name: string, obj: Obj)
    requires Closed(s) && t.reg.subscribed == s.reg.subscribed && t.reg.consts == s.reg.consts
    requires t.reg.clock == s.reg.clock + 1
    requires if name in s.reg.named then t.reg.named == s.reg.named && t.objects == s.objects
      else t.reg.named == s.reg.named[name := s.reg.clock] && t.objects == s.objects[s.reg.clock := obj]
    ensures Closed(t) && s.reg.clock !in s.objects
  {
  }

  lemma SameObjectsKeep(s: System, t: System)
    requires Closed(t) && forall k | k in s.objects :: k in t.objects && t.objects[k] == s.objects[k]
    ensures Keeps(s, t)
  {
  }

  lemma DoKeeps(s: System, op: R.Op)
    requires Closed(s) && (op.Reg? ==> op.name in s.reg.named)
    ensures Keeps(s, Do(s, op))
  {
    var t := Do(s, op);
    assert forall n | n in t.reg.named :: n in s.reg.named;
    assert forall n | n in t.reg.consts :: n in s.reg.consts || n in s.reg.named;
  }

  lemma SetObjectSteps(w: World, s: System, id: nat, value: string)
    requires Closed(s) && id in s.objects
    ensures Keeps(s, SetObject(w, s, id, value).0) && SetObject(w, s, id, value).0.reg == s.reg
  {
    hide D.WriteOf;
  }

  lemma KeepsTransitive(s: System, t: System, u: System)
    requires Keeps(s, t) && Keeps(t, u)
    ensures Keeps(s, u)
  {
    forall k | k in s.objects
      ensures k in u.objects && Later(s.objects[k], u.objects[k])
    {
      assert Later(s.objects[k], t.objects[k]) && Later(t.objects[k], u.objects[k]);
    }
  }

  lemma {:induction false} LoadKeeps(w: World, s: System, lines: seq<string>)
    requires Closed(s)
    ensures Keeps(s, LoadLines(w, s, lines).0)
    ensures LoadLines(w, s, lines).0.reg == R.ApplyAll(s.reg, LineOps(lines))
    decreases |lines|
  {
    if lines != [] {
      var f := Csv.Fields(lines[0]);
      if IsComment(lines[0]) {
        LoadKeeps(w, s, lines[1..]);
      } else if |f| >= 4 {
        var t := Insert(s, f[0], Plain(RowDataref(w, f)));
        InsertKeeps(s, f[0], Plain(RowDataref(w, f)));
        DoKeeps(t, R.Sub(f[0]));
        var u := LoadRow(w, s, f);
        KeepsTransitive(s, t, u);
        LoadKeeps(w, u, lines[1..]);
        KeepsTransitive(s, u, LoadLines(w, u, lines[1..]).0);
        TwoOps(s.reg, R.Reg(f[0]), R.Sub(f[0]));
        R.ApplyAllConcat(s.reg, [R.Reg(f[0]), R.Sub(f[0])], LineOps(lines[1..]));
      }
    }
  }

  lemma OneOp(r: R.Registry, a: R.Op)
    ensures R.ApplyAll(r, [a]) == R.Apply(r, a)
  {
    assert [a][..0] == [];
  }

  lemma TwoOps(r: R.Registry, a: R.Op, b: R.Op)
    ensures R.ApplyAll(r, [a, b]) == R.Apply(R.Apply(r, a), b)
  {
    assert [a, b][..1] == [a];
    OneOp(r, a);
  }

  /** A callback keeps what must be kept and performs just its operations. */
  ghost predicate Behaves(w: World, env: Env, s: System, cb: Callback, j: Json)
    requires Closed(s)
  {
    var t := Call(w, env, s, cb, j).s;
    Keeps(s, t) && t.reg == R.ApplyAll(s.reg, CallOps(w, env, s, cb, j))
  }

  lemma RegisterBehaves(w: World, env: Env, s: System, cb: Callback, j: Json)
    requires Closed(s) && (cb.RegisterDataref? || cb.RegisterFFDataref?)
    ensures Behaves(w, env, s, cb, j)
  {
    hide D.Loaded, F.Loaded, R.Apply, AskedType;
    var name := Name(j);
    OneOp(s.reg, R.Reg(name));
    forall obj
      ensures Keeps(s, Insert(s, name, obj)) && Insert(s, name, obj).reg == R.Apply(s.reg, R.Reg(name))
    {
      InsertKeeps(s, name, obj);
    }
  }

  lemma OperationBehaves(w: World, env: Env, s: System, cb: Callback, j: Json)
    requires Closed(s)
    requires cb.UnregisterDataref? || cb.SubscribeDataref? || cb.UnsubscribeDataref? || cb.AddConstantDataref?
    ensures Behaves(w, env, s, cb, j)
  {
    hide R.Apply, Keeps;
    var name, value := Name(j), match TextAt(j, "Value") case Ok(v) => v case Abort => "";
    var op := match cb
      case UnregisterDataref => R.Unreg(name)
      case SubscribeDataref => R.Sub(name)
      case UnsubscribeDataref => R.Unsub(name)
      case _ => R.Const(name, value);
    OneOp(s.reg, op);
    AsideKeeps(s, s);
    DoKeeps(s, op);
  }

  lemma LoadBehaves(w: World, env: Env, s: System, j: Json)
    requires Closed(s)
    ensures Behaves(w, env, s, LoadRegisterDataref, j)
  {
    if TextAt(j, "FileIn").Ok? && TextAt(j, "FileIn").value in env.files {
      LoadKeeps(w, s, env.files[TextAt(j, "FileIn").value]);
    }
  }

  lemma SetBehaves(w: World, env: Env, s: System, j: Json)
    requires Closed(s)
    ensures Behaves(w, env, s, SetRegisterDatarefValue, j)
  {
    hide D.WriteOf, SetObject;
    if Name(j) in s.reg.named && ExtractValue(w.codec, j).Ok? {
      SetObjectSteps(w, s, s.reg.named[Name(j)], ExtractValue(w.codec, j).value);
    }
  }

  /** Memory, table and readiness are outside what must be kept. */
  lemma AsideKeeps(s: System, t: System)
    requires Closed(s) && t.reg == s.reg && t.objects == s.objects
    ensures Keeps(s, t)
  {
  }

  lemma LinkBehaves(w: World, env: Env, s: System, cb: Callback, j: Json)
    requires Closed(s) && (cb.GetRegisterDatarefValue? || cb.GetDatarefValue? || cb.SetDatarefValue?)
    ensures Behaves(w, env, s, cb, j)
  {
    hide D.WriteOf, D.ReadOf, ReadObject, ExtractValue, Direct, TextAt, Put, Keeps;
    AsideKeeps(s, Call(w, env, s, cb, j).s);
  }

  lemma NeutralBehaves(w: World, env: Env, s: System, cb: Callback, j: Json)
    requires Closed(s) && (cb.LoadDll? || cb.Speak? || cb.InitFlightFactorA320?)
    ensures Behaves(w, env, s, cb, j)
  {
    hide TextAt, CallbackTable.Loaded, Keeps;
    AsideKeeps(s, Call(w, env, s, cb, j).s);
  }

  lemma CallBehaves(w: World, env: Env, s: System, cb: Callback, j: Json)
    requires Closed(s)
    ensures Behaves(w, env, s, cb, j)
  {
    hide Behaves;
    match cb {
      case RegisterDataref => RegisterBehaves(w, env, s, cb, j);
      case RegisterFFDataref => RegisterBehaves(w, env, s, cb, j);
      case UnregisterDataref => OperationBehaves(w, env, s, cb, j);
      case SubscribeDataref => OperationBehaves(w, env, s, cb, j);
      case UnsubscribeDataref => OperationBehaves(w, env, s, cb, j);
      case AddConstantDataref => OperationBehaves(w, env, s, cb, j);
      case LoadRegisterDataref => LoadBehaves(w, env, s, j);
      case SetRegisterDatarefValue => SetBehaves(w, env, s, j);
      case GetRegisterDatarefValue => LinkBehaves(w, env, s, cb, j);
      case GetDatarefValue => LinkBehaves(w, env, s, cb, j);
      case SetDatarefValue => LinkBehaves(w, env, s, cb, j);
      case _ => NeutralBehaves(w, env, s, cb, j);
    }
  }

  // ----- Frames ----------------------------------------------------------------------------

  lemma ConstantPassKeeps(w: World, s: System)
    requires Closed(s)
    ensures Keeps(s, ConstantPass(w, s).0) && ConstantPass(w, s).0.reg == s.reg
  {
    hide D.WriteOf, Noted, SortedKeys, Pass, Performed, SetConstants;
    SetConstantsKeeps(w, s, ConstKeys(s));
    SetConstantsIsOnePatch(w, s, ConstKeys(s));
  }

  lemma FramesKeep(w: World, s: System)
    requires Closed(s)
    ensures Keeps(s, ConstantPass(w, s).0) && ConstantPass(w, s).0.reg == s.reg
    ensures Keeps(s, FlightFrame(w, s).0) && FlightFrame(w, s).0.reg == s.reg
  {
    hide SortedKeys, Pass, Performed, PushTargets, Later, ConstantPass;
    ConstantPassKeeps(w, s);
    var t := ConstantPass(w, s).0;
    PushTargetsIsOnePatch(w, t, SortedKeys(t.reg.named.Keys));
  }

  lemma StepKeeps(w: World, s: System, e: Event)
    requires Closed(s)
    ensures Keeps(s, Step(w, s, e))
    ensures Step(w, s, e).reg == R.ApplyAll(s.reg, EventOps(w, s, e))
  {
    hide Call, CallOps, SetConstants, PushTargets, R.Apply;
    match e {
      case Request(env, j) =>
        if TextAt(j, "Operation").Ok? && TextAt(j, "Operation").value in s.table {
          CallBehaves(w, env, s, s.table[TextAt(j, "Operation").value], j);
        }
      case Outside(_) =>
      case _ => FramesKeep(w, s);
    }
  }

  // ----- Runs ------------------------------------------------------------------------------

  /** A plugin that has just been enabled. */
  predicate Initial(s: System) { s.reg == R.EMPTY && s.objects == map[] }

  /** The state after some events. */
  function After(w: World, s: System, events: seq<Event>): (t: System)
    requires Closed(s)
    ensures Keeps(s, t)
    decreases |events|
  {
    if events == [] then s else
      var t := After(w, s, events[..|events| - 1]);
      StepKeeps(w, t, events[|events| - 1]);
      KeepsTransitive(s, t, Step(w, t, events[|events| - 1]));
      Step(w, t, events[|events| - 1])
  }

  /** All registry operations of a run. */
  function Log(w: World, s: System, events: seq<Event>): seq<R.Op>
    requires Closed(s)
    decreases |events|
  {
    if events == [] then [] else
      var init := events[..|events| - 1];
      Log(w, s, init) + EventOps(w, After(w, s, init), events[|events| - 1])
  }

  /** In every reachable state the maps and the counter are a function of the operation log. */
  lemma {:induction false} RegistryIsLog(w: World, s: System, events: seq<Event>)
    requires Initial(s)
    ensures After(w, s, events).reg == R.Run(Log(w, s, events))
    decreases |events|
  {
    if events != [] {
      hide Step, EventOps;
      var init, last := events[..|events| - 1], events[|events| - 1];
      RegistryIsLog(w, s, init);
      StepKeeps(w, After(w, s, init), last);
      R.ApplyAllConcat(R.EMPTY, Log(w, s, init), EventOps(w, After(w, s, init), last));
    }
  }

  lemma {:induction false} AfterConcat(w: World, s: System, a: seq<Event>, b: seq<Event>)
    requires Closed(s)
    ensures After(w, s, a + b) == After(w, After(w, s, a), b)
    ensures Log(w, s, a + b) == Log(w, s, a) + Log(w, After(w, s, a), b)
    decreases |b|
  {
    hide Step, EventOps, R.Apply, Later;
    if b == [] {
      assert a + b == a;
    } else {
      assert (a + b)[..|a + b| - 1] == a + b[..|b| - 1];
      AfterConcat(w, s, a, b[..|b| - 1]);
    }
  }
}
