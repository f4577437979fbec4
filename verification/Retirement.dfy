/** A FlightFactor object that left named is out of reach: no later run shows its target. */
module Retirement {
  import opened Prelude
  import KeyOrder
  import opened JsonTree
  import opened Simulation
  import opened Overlay
  import opened System
  import opened Requests
  import opened Frames
  import opened Runs
  import R = Registry
  import CallbackTable
  import Csv
  import D = Datarefs
  import F = FlightFactor

  /** Object k is a FlightFactor object that is not registered. */
  ghost predicate Retired(s: System, k: nat) {
    Closed(s) && k in s.objects && s.objects[k].Flight? && k !in s.reg.named.Values
  }

  /** The system with other data in object k. */
  function With(s: System, k: nat, f: F.View): System { s.(objects := s.objects[k := Flight(f)]) }

  /** Two systems that differ in object k at most. */
  ghost predicate SameBut(s: System, t: System, k: nat) {
    && s.reg == t.reg && s.mem == t.mem && s.table == t.table && s.ffReady == t.ffReady
    && s.objects.Keys == t.objects.Keys
    && forall id | id in s.objects && id != k :: s.objects[id] == t.objects[id]
  }

  lemma WithCloses(s: System, k: nat, f: F.View)
    requires Retired(s, k)
    ensures Retired(With(s, k, f), k)
  {
  }

  lemma UpdatesCommute<V>(m: map<nat, V>, a: nat, x: V, b: nat, y: V)
    requires a != b
    ensures m[a := x][b := y] == m[b := y][a := x]
  {
  }

  lemma InsertUnseen(s: System, k: nat, f: F.View, name: string, obj: Obj)
    requires Retired(s, k)
    ensures Insert(With(s, k, f), name, obj) == With(Insert(s, name, obj), k, f) && Retired(Insert(s, name, obj), k)
  {
    hide R.Apply;
    InsertKeeps(s, name, obj);
    RegisteredNames(s.reg, name);
    UpdatesCommute(s.objects, s.reg.clock, obj, k, Flight(f));
    var t := Insert(s, name, obj);
    forall n | n in t.reg.named
      ensures t.reg.named[n] != k
    {
      assert n in s.reg.named ==> s.reg.named[n] in s.reg.named.Values;
    }
  }

  lemma DoUnseen(s: System, k: nat, f: F.View, op: R.Op)
    requires Retired(s, k) && (op.Reg? ==> op.name in s.reg.named)
    ensures Do(With(s, k, f), op) == With(Do(s, op), k, f) && Retired(Do(s, op), k)
  {
    DoKeeps(s, op);
    forall n | n in Do(s, op).reg.named
      ensures Do(s, op).reg.named[n] != k
    {
      assert n in s.reg.named && s.reg.named[n] in s.reg.named.Values;
    }
  }

  lemma {:induction false} LoadUnseen(w: World, s: System, k: nat, f: F.View, lines: seq<string>)
    requires Retired(s, k)
    ensures var (t, ok) := LoadLines(w, s, lines);
      LoadLines(w, With(s, k, f), lines) == (With(t, k, f), ok) && Retired(t, k)
    decreases |lines|
  {
    hide Retired, Insert, Do, RowDataref, With;
    if lines != [] {
      var row := Csv.Fields(lines[0]);
      if IsComment(lines[0]) {
        LoadUnseen(w, s, k, f, lines[1..]);
      } else if |row| >= 4 {
        var obj := Plain(RowDataref(w, row));
        InsertUnseen(s, k, f, row[0], obj);
        DoUnseen(Insert(s, row[0], obj), k, f, R.Sub(row[0]));
        LoadUnseen(w, LoadRow(w, s, row), k, f, lines[1..]);
      }
    }
  }

  lemma SetUnseen(w: World, s: System, k: nat, f: F.View, id: nat, value: string)
    requires Retired(s, k) && id in s.objects && id != k
    ensures var (t, ok) := SetObject(w, s, id, value);
      SetObject(w, With(s, k, f), id, value) == (With(t, k, f), ok) && Retired(t, k)
  {
    hide D.WriteOf;
    SetObjectSteps(w, s, id, value);
    if s.objects[id].Flight? {
      UpdatesCommute(s.objects, id, Flight(s.objects[id].f.(needUpdate := true, target := value)), k, Flight(f));
    }
  }

  /** The callback treats the two systems alike. */
  ghost predicate Unseen(w: World, env: Env, s: System, k: nat, f: F.View, cb: Callback, j: Json)
    requires Retired(s, k)
  {
    WithCloses(s, k, f);
    var r := Call(w, env, s, cb, j);
    Retired(r.s, k) && Call(w, env, With(s, k, f), cb, j) == Reply(With(r.s, k, f), r.code, r.j)
  }

  lemma RegisterUnseen(w: World, env: Env, s: System, k: nat, f: F.View, cb: Callback, j: Json)
    requires Retired(s, k) && (cb.RegisterDataref? || cb.RegisterFFDataref?)
    ensures Unseen(w, env, s, k, f, cb, j)
  {
    hide D.Loaded, F.Loaded, AskedType, AskedFactor, Described, TextAt, Insert;
    WithCloses(s, k, f);
    forall name, obj
      ensures Insert(With(s, k, f), name, obj) == With(Insert(s, name, obj), k, f) && Retired(Insert(s, name, obj), k)
    {
      InsertUnseen(s, k, f, name, obj);
    }
  }

  lemma OperationUnseen(w: World, env: Env, s: System, k: nat, f: F.View, cb: Callback, j: Json)
    requires Retired(s, k)
    requires cb.UnregisterDataref? || cb.SubscribeDataref? || cb.UnsubscribeDataref? || cb.AddConstantDataref?
    ensures Unseen(w, env, s, k, f, cb, j)
  {
    hide Do;
    WithCloses(s, k, f);
    var name, value := Name(j), match TextAt(j, "Value") case Ok(v) => v case Abort => "";
    var op := match cb
      case UnregisterDataref => R.Unreg(name)
      case SubscribeDataref => R.Sub(name)
      case UnsubscribeDataref => R.Unsub(name)
      case _ => R.Const(name, value);
    DoUnseen(s, k, f, op);
  }

  lemma LoadCallUnseen(w: World, env: Env, s: System, k: nat, f: F.View, j: Json)
    requires Retired(s, k)
    ensures Unseen(w, env, s, k, f, LoadRegisterDataref, j)
  {
    hide LoadLines;
    WithCloses(s, k, f);
    if TextAt(j, "FileIn").Ok? && TextAt(j, "FileIn").value in env.files {
      LoadUnseen(w, s, k, f, env.files[TextAt(j, "FileIn").value]);
    }
  }

  lemma ObjectUnseen(w: World, env: Env, s: System, k: nat, f: F.View, cb: Callback, j: Json)
    requires Retired(s, k) && (cb.SetRegisterDatarefValue? || cb.GetRegisterDatarefValue?)
    ensures Unseen(w, env, s, k, f, cb, j)
  {
    hide SetObject, ReadObject, ExtractValue;
    WithCloses(s, k, f);
    if Name(j) in s.reg.named {
      assert s.reg.named[Name(j)] in s.reg.named.Values;
      if ExtractValue(w.codec, j).Ok? {
        SetUnseen(w, s, k, f, s.reg.named[Name(j)], ExtractValue(w.codec, j).value);
      }
    }
  }

  lemma LinkUnseen(w: World, env: Env, s: System, k: nat, f: F.View, cb: Callback, j: Json)
    requires Retired(s, k) && (cb.GetDatarefValue? || cb.SetDatarefValue?)
    ensures Unseen(w, env, s, k, f, cb, j)
  {
    hide D.WriteOf, D.ReadOf, ExtractValue, Direct, TextAt, Put;
    WithCloses(s, k, f);
  }

  lemma OtherUnseen(w: World, env: Env, s: System, k: nat, f: F.View, cb: Callback, j: Json)
    requires Retired(s, k) && (cb.Speak? || cb.InitFlightFactorA320?)
    ensures Unseen(w, env, s, k, f, cb, j)
  {
    hide TextAt;
    WithCloses(s, k, f);
  }

  lemma LoadDllUnseen(w: World, env: Env, s: System, k: nat, f: F.View, j: Json)
    requires Retired(s, k)
    ensures Unseen(w, env, s, k, f, LoadDll, j)
  {
    hide TextAt, CallbackTable.Loaded, With, Retired;
    WithCloses(s, k, f);
    RetiredIsClosed(s, k);
    RetiredIsClosed(With(s, k, f), k);
    forall table
      ensures With(s.(table := table), k, f) == With(s, k, f).(table := table) && Retired(s.(table := table), k)
    {
      WithTable(s, k, f, table);
    }
    assert With(s, k, f).table == s.table by { WithTable(s, k, f, s.table); }
  }

  lemma WithTable(s: System, k: nat, f: F.View, table: map<string, Callback>)
    requires Retired(s, k)
    ensures With(s.(table := table), k, f) == With(s, k, f).(table := table) && Retired(s.(table := table), k)
    ensures With(s, k, f).table == s.table
  {
  }

  lemma CallUnseen(w: World, env: Env, s: System, k: nat, f: F.View, cb: Callback, j: Json)
    requires Retired(s, k)
    ensures Unseen(w, env, s, k, f, cb, j)
  {
    hide Unseen, Retired;
    match cb {
      case RegisterDataref => RegisterUnseen(w, env, s, k, f, cb, j);
      case RegisterFFDataref => RegisterUnseen(w, env, s, k, f, cb, j);
      case UnregisterDataref => OperationUnseen(w, env, s, k, f, cb, j);
      case SubscribeDataref => OperationUnseen(w, env, s, k, f, cb, j);
      case UnsubscribeDataref => OperationUnseen(w, env, s, k, f, cb, j);
      case AddConstantDataref => OperationUnseen(w, env, s, k, f, cb, j);
      case LoadRegisterDataref => LoadCallUnseen(w, env, s, k, f, j);
      case SetRegisterDatarefValue => ObjectUnseen(w, env, s, k, f, cb, j);
      case GetRegisterDatarefValue => ObjectUnseen(w, env, s, k, f, cb, j);
      case GetDatarefValue => LinkUnseen(w, env, s, k, f, cb, j);
      case SetDatarefValue => LinkUnseen(w, env, s, k, f, cb, j);
      case LoadDll => LoadDllUnseen(w, env, s, k, f, j);
      case _ => OtherUnseen(w, env, s, k, f, cb, j);
    }
  }

  lemma MarkUnseen(s: System, k: nat, f: F.View, m: Memory, keys: seq<string>) returns (g: F.View)
    requires Retired(s, k) && forall x | x in keys :: x in s.reg.consts
    ensures var t := With(s, k, f);
      t.(mem := m, objects := MarkAll(t, keys)) == With(s.(mem := m, objects := MarkAll(s, keys)), k, g)
    ensures Retired(s.(mem := m, objects := MarkAll(s, keys)), k)
  {
    hide Noted;
    g := Mark(Flight(f), Noted(s.reg.consts, keys, k)).f;
    var t := With(s, k, f);
    assert MarkAll(t, keys) == MarkAll(s, keys)[k := Flight(g)];
  }

  lemma PassUnseen(w: World, s: System, k: nat, f: F.View) returns (g: F.View)
    requires Retired(s, k)
    ensures Closed(With(s, k, f))
    ensures var (t, ok) := ConstantPass(w, s);
      ConstantPass(w, With(s, k, f)) == (With(t, k, g), ok) && Retired(t, k)
  {
    hide D.WriteOf, MarkAll, ConstEffect, Pass, Performed, SetConstants;
    WithCloses(s, k, f);
    var keys := ConstKeys(s);
    OtherConstEffects(w, s, k, f, keys);
    SetConstantsIsOnePatch(w, s, keys);
    SetConstantsIsOnePatch(w, With(s, k, f), keys);
    g := MarkUnseen(s, k, f, s.mem + Pass(ConstEffects(w, s, keys)), Reached(w, s, keys));
  }

  lemma FrameUnseen(w: World, s: System, k: nat, f: F.View) returns (g: F.View)
    requires Retired(s, k)
    ensures Closed(With(s, k, f))
    ensures var (t, ok) := FlightFrame(w, s);
      FlightFrame(w, With(s, k, f)) == (With(t, k, g), ok) && Retired(t, k)
  {
    hide ConstantPass, PushTargets, PushEffect, KeyOrder.SortedKeys, Pass, Performed;
    g := PassUnseen(w, s, k, f);
    var (t, ok) := ConstantPass(w, s);
    SetConstantsKeeps(w, s, ConstKeys(s));
    if ok {
      WithCloses(t, k, g);
      var keys := KeyOrder.SortedKeys(t.reg.named.Keys);
      PushTargetsIsOnePatch(w, t, keys);
      PushTargetsIsOnePatch(w, With(t, k, g), keys);
      OtherPushEffects(w, t, With(t, k, g), k, keys);
    }
  }

  /** One event keeps the two systems alike. */
  lemma StepUnseen(w: World, s: System, k: nat, f: F.View, e: Event) returns (g: F.View)
    requires Retired(s, k)
    ensures Closed(With(s, k, f))
    ensures Step(w, With(s, k, f), e) == With(Step(w, s, e), k, g) && Retired(Step(w, s, e), k)
  {
    hide Call, ConstantPass, FlightFrame;
    WithCloses(s, k, f);
    g := f;
    match e {
      case Request(env, j) =>
        if TextAt(j, "Operation").Ok? && TextAt(j, "Operation").value in s.table {
          CallUnseen(w, env, s, k, f, s.table[TextAt(j, "Operation").value], j);
        }
      case ConstFrame => g := PassUnseen(w, s, k, f);
      case FlightUpdate => g := FrameUnseen(w, s, k, f);
      case Outside(_) =>
    }
  }

  lemma {:induction false} AfterUnseen(w: World, s: System, k: nat, f: F.View, events: seq<Event>) returns (g: F.View)
    requires Retired(s, k)
    ensures Closed(With(s, k, f))
    ensures After(w, With(s, k, f), events) == With(After(w, s, events), k, g) && Retired(After(w, s, events), k)
    decreases |events|
  {
    hide Step, Retired, With;
    WithCloses(s, k, f);
    RetiredIsClosed(With(s, k, f), k);
    RetiredIsClosed(s, k);
    g := f;
    if events != [] {
      g := AfterUnseen(w, s, k, f, events[..|events| - 1]);
      g := StepUnseen(w, After(w, s, events[..|events| - 1]), k, g, events[|events| - 1]);
    }
  }

  lemma RetiredIsClosed(s: System, k: nat)
    requires Retired(s, k)
    ensures Closed(s) && k in s.objects && s.objects[k].Flight? && k !in s.reg.named.Values
  {
  }

  /** Whatever an unregistered FlightFactor object holds, every run from here on agrees on the
      maps, the memory, the table and all other objects. */
  lemma RetiredTargetIsNeverSeen(w: World, s: System, k: nat, f: F.View, events: seq<Event>)
    requires Retired(s, k)
    ensures Closed(With(s, k, f)) && SameBut(After(w, s, events), After(w, With(s, k, f), events), k)
  {
    hide After;
    var g := AfterUnseen(w, s, k, f, events);
  }
}
