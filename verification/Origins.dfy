/** Where every dataref object comes from: the request, or the row of a file, that made it. */
module Origins {
  import opened Prelude
  import KeyOrder
  import opened JsonTree
  import opened Simulation
  import opened System
  import opened Requests
  import opened Frames
  import opened Runs
  import R = Registry
  import CallbackTable
  import Csv
  import D = Datarefs
  import F = FlightFactor

  /** REG_DATA document j makes o under the name: what it links to, with the type and the
      factor it asks for. */
  predicate PlainFrom(w: World, j: Json, name: string, o: Obj) {
    && TextAt(j, "Link").Ok? && TextAt(j, "Name") == Ok(name) && AskedFactor(j).Ok?
    && var link := TextAt(j, "Link").value;
       o == Plain(D.Loaded(w, link).(typ := AskedType(w, j, link), factor := AskedFactor(j).value))
  }

  /** So does a REG_FFDATA document: the type is always FlightFactor's. */
  predicate FlightFrom(w: World, j: Json, name: string, o: Obj) {
    && TextAt(j, "Link").Ok? && TextAt(j, "Name") == Ok(name) && AskedFactor(j).Ok?
    && o == Flight(F.Loaded(w, TextAt(j, "Link").value).(factor := AskedFactor(j).value))
  }

  /** Row r of a file makes o under the name as object k, when the operations of the file are
      counted from clock. */
  predicate RowFrom(w: World, lines: seq<string>, r: nat, clock: nat, k: nat, name: string, o: Obj) {
    && r < |lines| && !IsComment(lines[r]) && k == clock + |LineOps(lines[..r])|
    && (forall i | 0 <= i < r :: IsComment(lines[i]) || |Csv.Fields(lines[i])| >= 4)
    && var f := Csv.Fields(lines[r]);
       |f| >= 4 && name == f[0] && o == Plain(RowDataref(w, f))
  }

  /** A callback makes o under the name as object k. */
  ghost predicate CallMakes(w: World, env: Env, s: System, cb: Callback, j: Json, k: nat, name: string, o: Obj)
    requires Closed(s)
  {
    match cb
    case RegisterDataref => Call(w, env, s, cb, j).code == Ok(0) && k == s.reg.clock && PlainFrom(w, j, name, o)
    case RegisterFFDataref => Call(w, env, s, cb, j).code == Ok(0) && k == s.reg.clock && FlightFrom(w, j, name, o)
    case LoadRegisterDataref =>
      && TextAt(j, "FileIn").Ok? && TextAt(j, "FileIn").value in env.files
      && exists r: nat :: RowFrom(w, env.files[TextAt(j, "FileIn").value], r, s.reg.clock, k, name, o)
    case _ => false
  }

  ghost predicate Makes(w: World, s: System, e: Event, k: nat, name: string, o: Obj)
    requires Closed(s)
  {
    && e.Request? && TextAt(e.j, "Operation").Ok? && TextAt(e.j, "Operation").value in s.table
    && CallMakes(w, e.env, s, s.table[TextAt(e.j, "Operation").value], e.j, k, name, o)
  }

  // ----- One step ---------------------------------------------------------------------------

  /** An object that Insert adds is the one given, with the number of the operation. */
  lemma InsertMakes(s: System, name: string, obj: Obj, k: nat)
    ensures k !in s.objects && k in Insert(s, name, obj).objects ==>
      k == s.reg.clock && Insert(s, name, obj).objects[k] == obj
    ensures Insert(s, name, obj).reg.clock == s.reg.clock + 1
  {
  }

  lemma RowClock(w: World, s: System, f: seq<string>, k: nat)
    requires |f| >= 4
    ensures LoadRow(w, s, f).reg.clock == s.reg.clock + 2
    ensures k !in s.objects && k in LoadRow(w, s, f).objects ==>
      k == s.reg.clock && LoadRow(w, s, f).objects[k] == Plain(RowDataref(w, f))
  {
    hide RowDataref;
    InsertMakes(s, f[0], Plain(RowDataref(w, f)), k);
  }

  lemma RowCloses(w: World, s: System, f: seq<string>)
    requires Closed(s) && |f| >= 4
    ensures Closed(LoadRow(w, s, f))
  {
    hide RowDataref;
    InsertKeeps(s, f[0], Plain(RowDataref(w, f)));
    DoKeeps(Insert(s, f[0], Plain(RowDataref(w, f))), R.Sub(f[0]));
  }

  lemma LaterRow(w: World, lines: seq<string>, r: nat, clock: nat, k: nat, name: string, o: Obj)
    requires lines != [] && (IsComment(lines[0]) || |Csv.Fields(lines[0])| >= 4)
    requires RowFrom(w, lines[1..], r, if IsComment(lines[0]) then clock else clock + 2, k, name, o)
    ensures RowFrom(w, lines, r + 1, clock, k, name, o)
  {
    hide Csv.Fields, RowDataref;
    assert lines[1..][..r] == lines[..r + 1][1..];
    assert forall i | 1 <= i < r + 1 :: lines[i] == lines[1..][i - 1];
  }

  lemma {:induction false} LoadMakes(w: World, s: System, lines: seq<string>, k: nat)
    requires Closed(s) && k !in s.objects && k in LoadLines(w, s, lines).0.objects
    ensures exists r: nat, name ::
      RowFrom(w, lines, r, s.reg.clock, k, name, LoadLines(w, s, lines).0.objects[k])
    decreases |lines|
  {
    hide LoadRow, RowDataref, RowFrom, Closed;
    var o := LoadLines(w, s, lines).0.objects[k];
    var f := Csv.Fields(lines[0]);
    if IsComment(lines[0]) {
      LoadMakes(w, s, lines[1..], k);
      var r: nat, name :| RowFrom(w, lines[1..], r, s.reg.clock, k, name, o);
      LaterRow(w, lines, r, s.reg.clock, k, name, o);
    } else {
      var t := LoadRow(w, s, f);
      RowCloses(w, s, f);
      RowClock(w, s, f, k);
      if k in t.objects {
        LoadKeeps(w, t, lines[1..]);
        FirstRow(w, lines, k, o);
      } else {
        LoadMakes(w, t, lines[1..], k);
        var r: nat, name :| RowFrom(w, lines[1..], r, t.reg.clock, k, name, o);
        LaterRow(w, lines, r, s.reg.clock, k, name, o);
      }
    }
  }

  lemma FirstRow(w: World, lines: seq<string>, k: nat, o: Obj)
    requires lines != [] && !IsComment(lines[0]) && |Csv.Fields(lines[0])| >= 4
    requires o == Plain(RowDataref(w, Csv.Fields(lines[0])))
    ensures RowFrom(w, lines, 0, k, k, Csv.Fields(lines[0])[0], o)
  {
    assert lines[..0] == [];
  }

  /** An object that was not there before a callback. */
  ghost predicate New(w: World, env: Env, s: System, cb: Callback, j: Json, k: nat)
    requires Closed(s)
  {
    k !in s.objects && k in Call(w, env, s, cb, j).s.objects
  }

  /** What makes object k, if it is new. */
  ghost predicate Explained(w: World, env: Env, s: System, cb: Callback, j: Json, k: nat)
    requires Closed(s)
  {
    New(w, env, s, cb, j, k) ==>
      exists name :: CallMakes(w, env, s, cb, j, k, name, Call(w, env, s, cb, j).s.objects[k])
  }

  lemma RegisterExplained(w: World, env: Env, s: System, cb: Callback, j: Json, k: nat)
    requires Closed(s) && (cb.RegisterDataref? || cb.RegisterFFDataref?)
    ensures Explained(w, env, s, cb, j, k)
  {
    hide AskedType, AskedFactor, D.Loaded, F.Loaded, Described, TextAt, Insert;
    var t := Call(w, env, s, cb, j).s;
    forall name, obj
      ensures k !in s.objects && k in Insert(s, name, obj).objects ==>
        k == s.reg.clock && Insert(s, name, obj).objects[k] == obj
    {
      InsertMakes(s, name, obj, k);
    }
    if New(w, env, s, cb, j, k) {
      assert CallMakes(w, env, s, cb, j, k, TextAt(j, "Name").value, t.objects[k]);
    }
  }

  lemma LoadExplained(w: World, env: Env, s: System, j: Json, k: nat)
    requires Closed(s)
    ensures Explained(w, env, s, LoadRegisterDataref, j, k)
  {
    hide LoadLines, RowFrom;
    if New(w, env, s, LoadRegisterDataref, j, k) {
      var lines := env.files[TextAt(j, "FileIn").value];
      LoadMakes(w, s, lines, k);
      var o := LoadLines(w, s, lines).0.objects[k];
      var r: nat, name :| RowFrom(w, lines, r, s.reg.clock, k, name, o);
      assert CallMakes(w, env, s, LoadRegisterDataref, j, k, name, o);
    }
  }

  lemma SetExplained(w: World, env: Env, s: System, cb: Callback, j: Json, k: nat)
    requires Closed(s) && (cb.SetRegisterDatarefValue? || cb.SetDatarefValue?)
    ensures !New(w, env, s, cb, j, k)
  {
    hide D.WriteOf, ExtractValue, Direct, TextAt;
  }

  lemma OtherExplained(w: World, env: Env, s: System, cb: Callback, j: Json, k: nat)
    requires Closed(s) && !cb.SetRegisterDatarefValue? && !cb.SetDatarefValue? && !cb.LoadRegisterDataref?
    requires !cb.RegisterDataref? && !cb.RegisterFFDataref?
    ensures !New(w, env, s, cb, j, k)
  {
    hide R.Apply, TextAt, ReadObject, D.ReadOf, Direct, Put, CallbackTable.Loaded;
  }

  lemma CallExplained(w: World, env: Env, s: System, cb: Callback, j: Json, k: nat)
    requires Closed(s)
    ensures Explained(w, env, s, cb, j, k)
  {
    hide Call, CallMakes, New;
    match cb {
      case RegisterDataref => RegisterExplained(w, env, s, cb, j, k);
      case RegisterFFDataref => RegisterExplained(w, env, s, cb, j, k);
      case LoadRegisterDataref => LoadExplained(w, env, s, j, k);
      case SetRegisterDatarefValue => SetExplained(w, env, s, cb, j, k);
      case SetDatarefValue => SetExplained(w, env, s, cb, j, k);
      case _ => OtherExplained(w, env, s, cb, j, k);
    }
  }

  lemma StepExplained(w: World, s: System, e: Event, k: nat)
    requires Closed(s) && k !in s.objects && k in Step(w, s, e).objects
    ensures exists name :: Makes(w, s, e, k, name, Step(w, s, e).objects[k])
  {
    hide Call, CallMakes, SetConstants, PushTargets, KeyOrder.SortedKeys, Closed;
    match e {
      case Request(env, j) =>
        CallExplained(w, env, s, s.table[TextAt(j, "Operation").value], j, k);
        var name :| CallMakes(w, env, s, s.table[TextAt(j, "Operation").value], j, k, name, Step(w, s, e).objects[k]);
        assert Makes(w, s, e, k, name, Step(w, s, e).objects[k]);
      case Outside(_) =>
      case _ => FramesAddNothing(w, s);
    }
  }

  lemma FramesAddNothing(w: World, s: System)
    requires Closed(s)
    ensures ConstantPass(w, s).0.objects.Keys == s.objects.Keys
    ensures FlightFrame(w, s).0.objects.Keys == s.objects.Keys
  {
    hide SetConstants, PushTargets, KeyOrder.SortedKeys, PushEffects;
    SetConstantsKeeps(w, s, ConstKeys(s));
    var t := ConstantPass(w, s).0;
    PushTargetsIsOnePatch(w, t, KeyOrder.SortedKeys(t.reg.named.Keys));
  }

  // ----- Over runs ----------------------------------------------------------------------------

  /** Event i of a run made object k as o. */
  ghost predicate MadeAt(w: World, s: System, events: seq<Event>, i: nat, k: nat, name: string, o: Obj)
    requires Closed(s)
  {
    i < |events| && Makes(w, After(w, s, events[..i]), events[i], k, name, o)
  }

  lemma MadeEarlier(w: World, s: System, init: seq<Event>, last: Event, i: nat, k: nat, name: string, o: Obj)
    requires Closed(s)
    ensures MadeAt(w, s, init, i, k, name, o) ==> MadeAt(w, s, init + [last], i, k, name, o)
    ensures Makes(w, After(w, s, init), last, k, name, o) ==> MadeAt(w, s, init + [last], |init|, k, name, o)
  {
    hide Makes, After;
    assert i <= |init| ==> (init + [last])[..i] == init[..i];
    assert init[..|init|] == init && (init + [last])[..|init|] == init;
  }

  /** In every reachable state each object was made by one request or row of the run and is
      still as it was made, but for the target and the pending flag. */
  lemma {:induction false} ObjectOrigin(w: World, s: System, events: seq<Event>, k: nat)
    requires Initial(s) && k in After(w, s, events).objects
    ensures exists i: nat, name, o ::
      MadeAt(w, s, events, i, k, name, o) && Later(o, After(w, s, events).objects[k])
    decreases |events|
  {
    hide Step, Makes, MadeAt;
    var init, last := events[..|events| - 1], events[|events| - 1];
    assert events == init + [last];
    var t, u := After(w, s, init), After(w, s, events);
    if k in t.objects {
      ObjectOrigin(w, s, init, k);
      var i: nat, name, o :| MadeAt(w, s, init, i, k, name, o) && Later(o, t.objects[k]);
      MadeEarlier(w, s, init, last, i, k, name, o);
      StepKeeps(w, t, last);
      LaterTwice(o, t.objects[k], u.objects[k]);
    } else {
      StepExplained(w, t, last, k);
      var name :| Makes(w, t, last, k, name, u.objects[k]);
      MadeEarlier(w, s, init, last, |init|, k, name, u.objects[k]);
      LaterTwice(u.objects[k], u.objects[k], u.objects[k]);
    }
  }

  lemma LaterTwice(a: Obj, b: Obj, c: Obj)
    ensures Later(a, b) && Later(b, c) ==> Later(a, c)
    ensures a == b == c ==> Later(a, c)
  {
  }

  // ----- The operation log ---------------------------------------------------------------------

  lemma {:induction false} RowOps(lines: seq<string>, r: nat)
    requires r < |lines| && !IsComment(lines[r]) && |Csv.Fields(lines[r])| >= 4
    requires forall i | 0 <= i < r :: IsComment(lines[i]) || |Csv.Fields(lines[i])| >= 4
    ensures var n := |LineOps(lines[..r])|;
      n < |LineOps(lines)| && LineOps(lines)[n] == R.Reg(Csv.Fields(lines[r])[0])
    decreases r
  {
    hide Csv.Fields;
    if r == 0 {
      assert lines[..0] == [];
    } else {
      var rest := lines[1..];
      assert rest[..r - 1] == lines[..r][1..];
      RowOps(rest, r - 1);
    }
  }

  lemma MakesInOps(w: World, s: System, e: Event, k: nat, name: string, o: Obj)
    requires Closed(s) && Makes(w, s, e, k, name, o)
    ensures var ops := EventOps(w, s, e);
      s.reg.clock <= k < s.reg.clock + |ops| && ops[k - s.reg.clock] == R.Reg(name)
  {
    hide Call, AskedFactor, AskedType, D.Loaded, F.Loaded, LineOps, RowDataref, Csv.Fields;
    if s.table[TextAt(e.j, "Operation").value].LoadRegisterDataref? {
      var lines := e.env.files[TextAt(e.j, "FileIn").value];
      var r: nat :| RowFrom(w, lines, r, s.reg.clock, k, name, o);
      RowOps(lines, r);
    }
  }

  /** The operations of event i in the log of the run. */
  lemma OpsInLog(w: World, s: System, events: seq<Event>, i: nat)
    requires Initial(s) && i < |events|
    ensures var past := events[..i]; var t := After(w, s, past);
      var before, ops, log := Log(w, s, past), EventOps(w, t, events[i]), Log(w, s, events);
      && t.reg.clock == |before| && before + ops <= log
  {
    hide Step, EventOps, R.Run;
    var past, e, rest := events[..i], events[i], events[i + 1..];
    var t := After(w, s, past);
    assert events == past + ([e] + rest);
    AfterConcat(w, s, past, [e] + rest);
    AfterConcat(w, t, [e], rest);
    OneEvent(w, t, e);
    RegistryIsLog(w, s, past);
    R.ClockCounts(Log(w, s, past));
  }

  lemma OneEvent(w: World, s: System, e: Event)
    requires Closed(s)
    ensures Log(w, s, [e]) == EventOps(w, s, e)
  {
    hide Step, EventOps;
    assert [e][..0] == [];
  }

  /** The number of an object is that of its registration in the log. */
  lemma MadeInLog(w: World, s: System, events: seq<Event>, i: nat, k: nat, name: string, o: Obj)
    requires Initial(s) && MadeAt(w, s, events, i, k, name, o)
    ensures k < |Log(w, s, events)| && Log(w, s, events)[k] == R.Reg(name)
  {
    hide After, Log, Makes, EventOps;
    OpsInLog(w, s, events, i);
    MakesInOps(w, After(w, s, events[..i]), events[i], k, name, o);
  }
}
