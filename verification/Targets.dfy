/** Where the target of a FlightFactor dataref comes from: the last value noted on its
    object, by a SET_REG_DATA request or by a constant. */
module Targets {
  import opened Prelude
  import opened KeyOrder
  import opened JsonTree
  import opened Simulation
  import opened System
  import opened Requests
  import opened Frames
  import opened Runs
  import R = Registry
  import Overlay
  import CallbackTable
  import Csv
  import D = Datarefs
  import F = FlightFactor

  /** j is a SET_REG_DATA request that reaches object k with a value. */
  predicate Sets(w: World, s: System, j: Json, k: nat) {
    && TextAt(j, "Operation").Ok? && Binds(s.table, TextAt(j, "Operation").value, SetRegisterDatarefValue)
    && TextAt(j, "Name").Ok? && TextAt(j, "Name").value in s.reg.named && s.reg.named[TextAt(j, "Name").value] == k
    && ExtractValue(w.codec, j).Ok? && ExtractValue(w.codec, j).value != ""
  }

  /** The value event e notes on object k, if any. */
  function Note(w: World, s: System, e: Event, k: nat): Option<string>
    requires Closed(s)
  {
    match e
    case Request(_, j) => if Sets(w, s, j, k) then Some(ExtractValue(w.codec, j).value) else None
    case Outside(_) => None
    case _ => Noted(s.reg.consts, Reached(w, s, ConstKeys(s)), k)
  }

  /** What a frame notes on an object is the value of a constant bound to it; it notes
      something exactly when it sets such a constant. */
  lemma {:induction false} NotedIsConstant(consts: map<string, R.Constant>, keys: seq<string>, k: nat)
    requires forall x | x in keys :: x in consts
    ensures Noted(consts, keys, k).Some? <==> exists n :: n in keys && consts[n].id == k
    ensures Noted(consts, keys, k).Some? ==>
      exists n :: n in keys && consts[n] == R.Constant(Noted(consts, keys, k).value, k)
    decreases |keys|
  {
    if keys != [] {
      var init, last := keys[..|keys| - 1], keys[|keys| - 1];
      assert last in keys && keys == init + [last];
      NotedIsConstant(consts, init, k);
      if consts[last].id != k && Noted(consts, init, k).Some? {
        var n :| n in init && consts[n] == R.Constant(Noted(consts, init, k).value, k);
        assert n in keys;
      }
    }
  }

  /** Event e gives object k the value: a SET_REG_DATA request whose name stands for it, or a
      frame that sets a constant bound to it. */
  ghost predicate Gives(w: World, s: System, e: Event, k: nat, value: string)
    requires Closed(s)
  {
    match e
    case Request(_, j) => Sets(w, s, j, k) && ExtractValue(w.codec, j) == Ok(value)
    case Outside(_) => false
    case _ => exists n :: n in Reached(w, s, ConstKeys(s)) && s.reg.consts[n] == R.Constant(value, k)
  }

  /** Noting a value is being given it. */
  lemma NoteIsGiven(w: World, s: System, e: Event, k: nat)
    requires Closed(s)
    ensures Note(w, s, e, k).Some? ==> Gives(w, s, e, k, Note(w, s, e, k).value)
    ensures Note(w, s, e, k).None? ==> forall value :: !Gives(w, s, e, k, value)
  {
    hide Sets, ExtractValue, ConstEffect, Noted;
    if e.ConstFrame? || e.FlightUpdate? {
      assert forall x | x in Reached(w, s, ConstKeys(s)) :: x in ConstKeys(s);
      NotedIsConstant(s.reg.consts, Reached(w, s, ConstKeys(s)), k);
    } else if e.Request? {
      SetsHasValue(w, s, e.j, k);
    }
  }

  lemma SetsHasValue(w: World, s: System, j: Json, k: nat)
    ensures Sets(w, s, j, k) ==> ExtractValue(w.codec, j).Ok?
  {
  }

  /** A FlightFactor object just made is as loaded and was never set. */
  predicate Untouched(w: World, o: Obj) {
    o.Flight? ==> !o.f.needUpdate && o.f == F.Loaded(w, o.f.link).(factor := o.f.factor)
  }

  /** From s to t object k got the note, and objects new in t are untouched. */
  ghost predicate Marks(w: World, s: System, t: System, k: nat, note: Option<string>) {
    && (k in s.objects ==> k in t.objects && t.objects[k] == Mark(s.objects[k], note))
    && (k !in s.objects && k in t.objects ==> Untouched(w, t.objects[k]))
  }

  lemma {:induction false} LoadMarks(w: World, s: System, lines: seq<string>, k: nat)
    requires Closed(s)
    ensures Marks(w, s, LoadLines(w, s, lines).0, k, None)
    decreases |lines|
  {
    hide R.Apply, RowDataref;
    if lines != [] {
      var f := Csv.Fields(lines[0]);
      if IsComment(lines[0]) {
        LoadMarks(w, s, lines[1..], k);
      } else if |f| >= 4 {
        InsertKeeps(s, f[0], Plain(RowDataref(w, f)));
        DoKeeps(Insert(s, f[0], Plain(RowDataref(w, f))), R.Sub(f[0]));
        LoadMarks(w, LoadRow(w, s, f), lines[1..], k);
      }
    }
  }

  lemma RegisterMarks(w: World, env: Env, s: System, cb: Callback, j: Json, k: nat)
    requires Closed(s) && (cb.RegisterDataref? || cb.RegisterFFDataref?)
    ensures Marks(w, s, Call(w, env, s, cb, j).s, k, None)
  {
    hide R.Apply, AskedType, AskedFactor, Described, TextAt, D.Loaded, F.TypeOf, F.IdOf;
  }

  lemma SetMarks(w: World, env: Env, s: System, j: Json, k: nat)
    requires Closed(s) && Contains(j, "Operation") && TextAt(j, "Operation").Ok?
    requires Binds(s.table, TextAt(j, "Operation").value, SetRegisterDatarefValue)
    ensures Marks(w, s, Call(w, env, s, SetRegisterDatarefValue, j).s, k, Note(w, s, Request(env, j), k))
  {
    assert !Contains(j, "Value") ==> ExtractValue(w.codec, j) == Abort;
    hide D.WriteOf, ExtractValue;
  }

  lemma LoadCallMarks(w: World, env: Env, s: System, j: Json, k: nat)
    requires Closed(s)
    ensures Marks(w, s, Call(w, env, s, LoadRegisterDataref, j).s, k, None)
  {
    hide LoadLines;
    if TextAt(j, "FileIn").Ok? && TextAt(j, "FileIn").value in env.files {
      LoadMarks(w, s, env.files[TextAt(j, "FileIn").value], k);
    }
  }

  lemma OtherMarks(w: World, env: Env, s: System, cb: Callback, j: Json, k: nat)
    requires Closed(s) && !cb.SetRegisterDatarefValue? && !cb.LoadRegisterDataref?
    requires !cb.RegisterDataref? && !cb.RegisterFFDataref?
    ensures Marks(w, s, Call(w, env, s, cb, j).s, k, None)
  {
    hide R.Apply, TextAt, ReadObject, D.ReadOf, D.WriteOf, ExtractValue, Direct, Put, CallbackTable.Loaded;
  }

  lemma RequestMarks(w: World, s: System, env: Env, j: Json, k: nat)
    requires Closed(s)
    ensures Marks(w, s, Execute(w, env, s, j).s, k, Note(w, s, Request(env, j), k))
  {
    hide Call, ExtractValue, Marks;
    NoChange(w, s, k);
    if TextAt(j, "Operation").Ok? && TextAt(j, "Operation").value in s.table {
      var cb := s.table[TextAt(j, "Operation").value];
      match cb {
        case SetRegisterDatarefValue => SetMarks(w, env, s, j, k);
        case LoadRegisterDataref => LoadCallMarks(w, env, s, j, k);
        case RegisterDataref => RegisterMarks(w, env, s, cb, j, k);
        case RegisterFFDataref => RegisterMarks(w, env, s, cb, j, k);
        case _ => OtherMarks(w, env, s, cb, j, k);
      }
    }
  }

  lemma NoChange(w: World, s: System, k: nat)
    ensures Marks(w, s, s, k, None)
  {
  }

  lemma FrameMarks(w: World, s: System, k: nat)
    requires Closed(s)
    ensures Marks(w, s, ConstantPass(w, s).0, k, Note(w, s, ConstFrame, k))
    ensures Marks(w, s, FlightFrame(w, s).0, k, Note(w, s, FlightUpdate, k))
  {
    hide Noted, Mark, SetConstants, PushTargets, PushEffects, SortedKeys, Overlay.Pass, Overlay.Performed, ConstEffect;
    SetConstantsKeeps(w, s, ConstKeys(s));
    SetConstantsIsOnePatch(w, s, ConstKeys(s));
    var t := ConstantPass(w, s).0;
    PushTargetsIsOnePatch(w, t, SortedKeys(t.reg.named.Keys));
  }

  lemma StepMarks(w: World, s: System, e: Event, k: nat)
    requires Closed(s)
    ensures Marks(w, s, Step(w, s, e), k, Note(w, s, e, k))
  {
    hide Execute, ConstantPass, FlightFrame, Sets;
    match e {
      case Request(env, j) => RequestMarks(w, s, env, j, k);
      case Outside(_) =>
      case _ => FrameMarks(w, s, k);
    }
  }

  // ----- Over runs --------------------------------------------------------------------------

  /** In every reachable state a FlightFactor object has the id and the type its link had when
      it was loaded, which are those FlightFactor gives it for good. */
  lemma {:induction false} LoadedForGood(w: World, s: System, events: seq<Event>, k: nat)
    requires Initial(s) && k in After(w, s, events).objects && After(w, s, events).objects[k].Flight?
    ensures var f := After(w, s, events).objects[k].f;
      f.id == F.IdOf(w, f.link) && f.typ == if f.id < 0 then F.DELETED else F.TypeOf(w, f.id)
    decreases |events|
  {
    hide Step, Note;
    var init, last := events[..|events| - 1], events[|events| - 1];
    var t := After(w, s, init);
    StepMarks(w, t, last, k);
    if k in t.objects {
      LoadedForGood(w, s, init, k);
    }
  }

  /** The value event i of a run notes on object k, if any. */
  function NoteAt(w: World, s: System, events: seq<Event>, k: nat, i: nat): Option<string>
    requires Closed(s)
  {
    if i < |events| then NoteNow(w, After(w, s, events[..i]), events[i], k) else None
  }

  function NoteNow(w: World, s: System, e: Event, k: nat): Option<string>
    requires Closed(s)
  {
    if k in s.objects then Note(w, s, e, k) else None
  }

  /** Event i is the last to note a value on object k. */
  ghost predicate LastNote(w: World, s: System, events: seq<Event>, k: nat, i: nat)
    requires Closed(s)
  {
    NoteAt(w, s, events, k, i).Some? && forall j: nat | j > i :: NoteAt(w, s, events, k, j).None?
  }

  lemma NoteAtExtend(w: World, s: System, init: seq<Event>, last: Event, k: nat, i: nat)
    requires Closed(s)
    ensures i < |init| ==> NoteAt(w, s, init + [last], k, i) == NoteAt(w, s, init, k, i)
    ensures i == |init| ==>
      NoteAt(w, s, init + [last], k, i) == NoteNow(w, After(w, s, init), last, k)
    ensures i > |init| ==> NoteAt(w, s, init + [last], k, i).None?
  {
    hide After, Note;
    assert i <= |init| ==> (init + [last])[..i] == init[..i];
    assert init[..|init|] == init;
  }

  lemma AfterOneMore(w: World, s: System, events: seq<Event>, e: Event)
    requires Closed(s)
    ensures After(w, s, events + [e]) == Step(w, After(w, s, events), e)
  {
    hide Step;
    assert (events + [e])[..|events + [e]| - 1] == events;
  }

  /** Event i of a run gives object k the value; the object exists by then. */
  ghost predicate GivenAt(w: World, s: System, events: seq<Event>, k: nat, i: nat, value: string)
    requires Closed(s)
  {
    i < |events| && var t := After(w, s, events[..i]); k in t.objects && Gives(w, t, events[i], k, value)
  }

  lemma NoteAtIsGiven(w: World, s: System, events: seq<Event>, k: nat, i: nat)
    requires Closed(s)
    ensures NoteAt(w, s, events, k, i).Some? ==> GivenAt(w, s, events, k, i, NoteAt(w, s, events, k, i).value)
    ensures NoteAt(w, s, events, k, i).None? ==> forall value :: !GivenAt(w, s, events, k, i, value)
  {
    hide Note, Gives, After;
    if i < |events| {
      NoteIsGiven(w, After(w, s, events[..i]), events[i], k);
    }
  }

  /** In every reachable state a FlightFactor object is pending exactly when some event of the
      run gave it a value. */
  lemma PendingHistory(w: World, s: System, events: seq<Event>, k: nat)
    requires Initial(s) && k in After(w, s, events).objects && After(w, s, events).objects[k].Flight?
    ensures After(w, s, events).objects[k].f.needUpdate <==> exists i: nat, v :: GivenAt(w, s, events, k, i, v)
  {
    hide NoteAt, GivenAt, After;
    PendingNoted(w, s, events, k);
    if i: nat :| NoteAt(w, s, events, k, i).Some? {
      NoteAtIsGiven(w, s, events, k, i);
    } else if i: nat, v :| GivenAt(w, s, events, k, i, v) {
      NoteAtIsGiven(w, s, events, k, i);
    }
  }

  lemma {:induction false} PendingNoted(w: World, s: System, events: seq<Event>, k: nat)
    requires Initial(s) && k in After(w, s, events).objects && After(w, s, events).objects[k].Flight?
    ensures After(w, s, events).objects[k].f.needUpdate <==> exists i: nat :: NoteAt(w, s, events, k, i).Some?
    decreases |events|
  {
    hide Step, Note, NoteAt;
    var init, last := events[..|events| - 1], events[|events| - 1];
    assert events == init + [last];
    var t := After(w, s, init);
    StepMarks(w, t, last, k);
    forall i: nat
      ensures i < |init| ==> NoteAt(w, s, events, k, i) == NoteAt(w, s, init, k, i)
      ensures i == |init| ==> NoteAt(w, s, events, k, i) == NoteNow(w, t, last, k)
      ensures i > |init| ==> NoteAt(w, s, events, k, i).None?
      ensures i >= |init| ==> NoteAt(w, s, init, k, i).None?
    {
      NoteAtExtend(w, s, init, last, k, i);
      PastTheEnd(w, s, init, k, i);
    }
    if k in t.objects {
      PendingNoted(w, s, init, k);
      if i: nat :| NoteAt(w, s, init, k, i).Some? {
        assert NoteAt(w, s, events, k, i).Some?;
      } else if Note(w, t, last, k).Some? {
        assert NoteAt(w, s, events, k, |init|).Some?;
      }
    } else {
      forall i: nat
        ensures NoteAt(w, s, events, k, i).None?
      {
        AbsentBefore(w, s, init, k, i);
      }
    }
  }

  lemma PastTheEnd(w: World, s: System, events: seq<Event>, k: nat, i: nat)
    requires Closed(s)
    ensures i >= |events| ==> NoteAt(w, s, events, k, i).None?
  {
  }

  /** An object that does not exist yet was not noted before. */
  lemma AbsentBefore(w: World, s: System, events: seq<Event>, k: nat, i: nat)
    requires Closed(s) && k !in After(w, s, events).objects
    ensures NoteAt(w, s, events, k, i).None?
  {
    hide Step, Note;
    if i < |events| {
      assert events == events[..i] + events[i..];
      AfterConcat(w, s, events[..i], events[i..]);
    }
  }

  /** An object noted once stays in existence. */
  lemma StillThere(w: World, s: System, events: seq<Event>, k: nat, i: nat)
    requires Closed(s) && i < |events| && NoteAt(w, s, events, k, i).Some?
    ensures k in After(w, s, events).objects
  {
    hide Step, Note;
    assert events == events[..i] + events[i..];
    AfterConcat(w, s, events[..i], events[i..]);
  }

  /** In a reachable state an event gives an object one value at most: no two constants are
      bound to one object. */
  lemma GivenOnce(w: World, s: System, events: seq<Event>, k: nat, i: nat, a: string, b: string)
    requires Initial(s) && GivenAt(w, s, events, k, i, a) && GivenAt(w, s, events, k, i, b)
    ensures a == b
  {
    hide After, Sets, ExtractValue, Reached, R.Run;
    var past := events[..i];
    var t := After(w, s, past);
    ReachedConstants(w, t);
    if events[i].ConstFrame? || events[i].FlightUpdate? {
      var m :| m in Reached(w, t, ConstKeys(t)) && t.reg.consts[m] == R.Constant(a, k);
      var n :| n in Reached(w, t, ConstKeys(t)) && t.reg.consts[n] == R.Constant(b, k);
      RegistryIsLog(w, s, past);
      R.ConstIdName(Log(w, s, past), m);
      R.ConstIdName(Log(w, s, past), n);
    }
  }

  lemma ReachedConstants(w: World, s: System)
    requires Closed(s)
    ensures forall n | n in Reached(w, s, ConstKeys(s)) :: n in s.reg.consts
  {
    hide ConstEffect, SortedKeys;
    assert forall n | n in Reached(w, s, ConstKeys(s)) :: n in ConstKeys(s);
  }

  /** Event i gives object k the value, and no later event gives it any. */
  ghost predicate LastGiven(w: World, s: System, events: seq<Event>, k: nat, i: nat, value: string)
    requires Closed(s)
  {
    GivenAt(w, s, events, k, i, value) && forall j: nat, v | j > i :: !GivenAt(w, s, events, k, j, v)
  }

  lemma LastGivenIsNoted(w: World, s: System, events: seq<Event>, k: nat, i: nat, value: string)
    requires Initial(s) && LastGiven(w, s, events, k, i, value)
    ensures LastNote(w, s, events, k, i) && NoteAt(w, s, events, k, i).value == value
  {
    hide NoteAt, GivenAt, After;
    forall j: nat
      ensures NoteAt(w, s, events, k, j).Some? ==> GivenAt(w, s, events, k, j, NoteAt(w, s, events, k, j).value)
      ensures NoteAt(w, s, events, k, j).None? ==> forall v :: !GivenAt(w, s, events, k, j, v)
    {
      NoteAtIsGiven(w, s, events, k, j);
    }
    GivenOnce(w, s, events, k, i, value, NoteAt(w, s, events, k, i).value);
  }

  /** In every reachable state the target of a FlightFactor object is the value it was given
      last. */
  lemma TargetHistory(w: World, s: System, events: seq<Event>, k: nat, i: nat, value: string)
    requires Initial(s) && LastGiven(w, s, events, k, i, value)
    requires k in After(w, s, events).objects && After(w, s, events).objects[k].Flight?
    ensures After(w, s, events).objects[k].f.target == value
  {
    hide NoteAt, LastGiven, LastNote, After;
    LastGivenIsNoted(w, s, events, k, i, value);
    TargetNoted(w, s, events, k, i);
  }

  lemma {:induction false} TargetNoted(w: World, s: System, events: seq<Event>, k: nat, i: nat)
    requires Closed(s) && LastNote(w, s, events, k, i)
    requires k in After(w, s, events).objects && After(w, s, events).objects[k].Flight?
    ensures After(w, s, events).objects[k].f.target == NoteAt(w, s, events, k, i).value
    decreases |events|
  {
    hide Step, Note, After, NoteAt;
    PastTheEnd(w, s, events, k, i);
    var init, last := events[..|events| - 1], events[|events| - 1];
    assert events == init + [last];
    var t := After(w, s, init);
    AfterOneMore(w, s, init, last);
    StepMarks(w, t, last, k);
    NoteAtExtend(w, s, init, last, k, i);
    NoteAtExtend(w, s, init, last, k, |init|);
    if i < |init| {
      StillThere(w, s, init, k, i);
      forall j: nat | j > i
        ensures NoteAt(w, s, init, k, j).None?
      {
        NoteAtExtend(w, s, init, last, k, j);
        PastTheEnd(w, s, init, k, j);
      }
      TargetNoted(w, s, init, k, i);
    }
  }

  /** The last value a registered FlightFactor dataref was given is in the simulator after
      every frame that completes, if it suits the type and no greater name shares the id. The
      frame itself counts: it gives the values of the constants. */
  lemma LastRequestIsWritten(w: World, s: System, events: seq<Event>, n: string, f: F.View, i: nat, value: string,
                             a: Atom)
    requires Initial(s)
    requires var t := After(w, s, events);
      && n in t.reg.named && t.objects[t.reg.named[n]] == Flight(f)
      && LastGiven(w, s, events + [FlightUpdate], t.reg.named[n], i, value)
    ensures var t := After(w, s, events);
      var (after, ok) := FlightFrame(w, t);
      ok && GreatestWithId(t, n, f.id) && F.TargetAtom(w, f.id, value) == Ok(Some(a))
      ==> Shared(f.id) in after.mem && after.mem[Shared(f.id)] == a
  {
    hide Note, NoteAt, LastNote, LastGiven, GreatestWithId, F.TargetAtom, FlightFrame, After, Noted;
    var t, all := After(w, s, events), events + [FlightUpdate];
    var k := t.reg.named[n];
    AfterOneMore(w, s, events, FlightUpdate);
    LastGivenIsNoted(w, s, all, k, i, value);
    if FlightFrame(w, t).1 {
      FrameTarget(w, t, k);
      NotesExist(w, s, all, k, i);
      PendingNoted(w, s, all, k);
      TargetNoted(w, s, all, k, i);
      FlightFrameWritesTarget(w, t, n, AtPush(t, k).f, a);
    }
  }

  lemma NotesExist(w: World, s: System, events: seq<Event>, k: nat, i: nat)
    requires Closed(s) && LastNote(w, s, events, k, i)
    ensures exists j: nat :: NoteAt(w, s, events, k, j).Some?
  {
  }

  /** What a frame that completes pushes for object k is the object as the frame leaves it. */
  lemma FrameTarget(w: World, s: System, k: nat)
    requires Closed(s) && k in s.objects && FlightFrame(w, s).1
    ensures k in FlightFrame(w, s).0.objects && AtPush(s, k) == FlightFrame(w, s).0.objects[k]
  {
    hide Noted, Mark, SetConstants, PushTargets, PushEffects, SortedKeys;
    var t := FlightFrameParts(w, s);
  }
}
