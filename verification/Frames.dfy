/** What a frame does to the simulator: the constant pass and the FlightFactor callback
    as single patches, aliasing, idempotence, and the effect on each dataref. */
module Frames {
  import opened Prelude
  import opened KeyOrder
  import opened Numerals
  import opened Simulation
  import opened Overlay
  import opened Registry
  import opened System
  import D = Datarefs
  import F = FlightFactor

  // ----- The constant pass as one patch -------------------------------------------------

  /** The write constant n makes at once. A FlightFactor dataref only takes a note. */
  function ConstEffect(w: World, s: System, n: string): Result<Patch>
    requires Closed(s) && n in s.reg.consts
  {
    match s.objects[s.reg.consts[n].id]
    case Plain(d) => D.WriteOf(w, d, s.reg.consts[n].value)
    case Flight(_) => Ok(map[])
  }

  function ConstEffects(w: World, s: System, keys: seq<string>): (rs: seq<Result<Patch>>)
    requires Closed(s) && forall k | k in keys :: k in s.reg.consts
    ensures |rs| == |keys|
  {
    seq(|keys|, i requires 0 <= i < |keys| => assert keys[i] in keys; ConstEffect(w, s, keys[i]))
  }

  /** The value of the last key in keys whose constant is object id. */
  function Noted(consts: map<string, Constant>, keys: seq<string>, id: nat): Option<string>
    requires forall k | k in keys :: k in consts
    decreases |keys|
  {
    if keys == [] then None else
      var last := keys[|keys| - 1];
      assert last in keys;
      if consts[last].id == id then Some(consts[last].value) else Noted(consts, keys[..|keys| - 1], id)
  }

  function Mark(o: Obj, note: Option<string>): Obj {
    if o.Flight? && note.Some? then Flight(o.f.(needUpdate := true, target := note.value)) else o
  }

  function MarkAll(s: System, keys: seq<string>): map<nat, Obj>
    requires forall k | k in keys :: k in s.reg.consts
  {
    map id | id in s.objects :: Mark(s.objects[id], Noted(s.reg.consts, keys, id))
  }

  lemma {:induction false} NotedCons(consts: map<string, Constant>, k: string, keys: seq<string>, id: nat)
    requires k in consts && forall x | x in keys :: x in consts
    ensures forall x | x in [k] + keys :: x in consts
    ensures Noted(consts, [k] + keys, id) ==
      if Noted(consts, keys, id).Some? then Noted(consts, keys, id)
      else if consts[k].id == id then Some(consts[k].value) else None
    decreases |keys|
  {
    var all := [k] + keys;
    if keys == [] {
      assert all[..|all| - 1] == [];
    } else {
      assert all[..|all| - 1] == [k] + keys[..|keys| - 1];
      NotedCons(consts, k, keys[..|keys| - 1], id);
    }
  }

  /** The keys a constant pass over keys gets through. */
  function Reached(w: World, s: System, keys: seq<string>): seq<string>
    requires Closed(s) && forall k | k in keys :: k in s.reg.consts
  {
    keys[..|Performed(ConstEffects(w, s, keys))|]
  }

  lemma NothingMarked(s: System)
    ensures MarkAll(s, []) == s.objects
  {
  }

  lemma NothingPerformed(m: Memory)
    ensures Performed([]) == [] && m + Pass([]) == m
  {
  }

  /** Setting constants one by one is one patch of the memory and one round of notes; it
      stops early exactly when a write does not return. */
  lemma {:induction false} SetConstantsIsOnePatch(w: World, s: System, keys: seq<string>)
    requires Closed(s) && forall k | k in keys :: k in s.reg.consts
    ensures SetConstants(w, s, keys) ==
      (s.(mem := s.mem + Pass(ConstEffects(w, s, keys)), objects := MarkAll(s, Reached(w, s, keys))),
       Completes(ConstEffects(w, s, keys)))
    decreases |keys|
  {
    hide D.WriteOf, Performed, Pass, Noted, Mark, MarkAll, SortedKeys, SetObject, ConstEffect;
    var rs := ConstEffects(w, s, keys);
    NothingMarked(s);
    if keys == [] {
      NothingPerformed(s.mem);
      assert rs == [];
    } else {
      var k, rest := keys[0], keys[1..];
      assert k in keys && rs[0] == ConstEffect(w, s, k);
      var c := s.reg.consts[k];
      var (t, ok) := SetObject(w, s, c.id, c.value);
      SetObjectIsEffect(w, s, k);
      PassStep(s.mem, rs);
      if ok {
        EffectsAfterOne(w, s, k, rest);
        assert rs[1..] == ConstEffects(w, t, rest);
        SetConstantsIsOnePatch(w, t, rest);
        var reached := Reached(w, t, rest);
        assert Reached(w, s, keys) == [k] + reached;
        MarkAfterOne(w, s, k, reached);
      } else {
        assert Reached(w, s, keys) == [];
      }
    }
  }

  lemma SetObjectIsEffect(w: World, s: System, k: string)
    requires Closed(s) && k in s.reg.consts
    ensures var (t, ok) := SetObject(w, s, s.reg.consts[k].id, s.reg.consts[k].value);
      ok == ConstEffect(w, s, k).Ok? && t.objects.Keys == s.objects.Keys &&
      if ok then t == s.(mem := s.mem + ConstEffect(w, s, k).value, objects := t.objects) else t == s
  {
    hide D.WriteOf;
  }

  lemma EffectsAfterOne(w: World, s: System, k: string, rest: seq<string>)
    requires Closed(s) && k in s.reg.consts && forall x | x in rest :: x in s.reg.consts
    ensures var t := SetObject(w, s, s.reg.consts[k].id, s.reg.consts[k].value).0;
      Closed(t) && t.reg == s.reg && ConstEffects(w, t, rest) == ConstEffects(w, s, rest)
  {
    hide D.WriteOf;
    var t := SetObject(w, s, s.reg.consts[k].id, s.reg.consts[k].value).0;
    forall i | 0 <= i < |rest|
      ensures rest[i] in rest && ConstEffect(w, t, rest[i]) == ConstEffect(w, s, rest[i])
    {
      assert rest[i] in rest;
    }
  }

  lemma MarkAfterOne(w: World, s: System, k: string, keys: seq<string>)
    requires Closed(s) && k in s.reg.consts && forall x | x in keys :: x in s.reg.consts
    ensures forall x | x in [k] + keys :: x in s.reg.consts
    ensures var t := SetObject(w, s, s.reg.consts[k].id, s.reg.consts[k].value).0;
      t.reg == s.reg && MarkAll(t, keys) == MarkAll(s, [k] + keys)
  {
    hide D.WriteOf, Noted;
    var t := SetObject(w, s, s.reg.consts[k].id, s.reg.consts[k].value).0;
    forall id | id in s.objects
      ensures Mark(t.objects[id], Noted(s.reg.consts, keys, id))
           == Mark(s.objects[id], Noted(s.reg.consts, [k] + keys, id))
    {
      NotedCons(s.reg.consts, k, keys, id);
    }
  }

  // ----- The constant pass as a whole --------------------------------------------------

  /** The constants in the order they are set. */
  function ConstKeys(s: System): seq<string> { SortedKeys(s.reg.consts.Keys) }

  /** The pass completes exactly when every constant's value suits its dataref. */
  lemma ConstantPassCompletes(w: World, s: System)
    requires Closed(s)
    ensures ConstantPass(w, s).1 <==> forall n | n in s.reg.consts :: ConstEffect(w, s, n).Ok?
  {
    hide ConstEffect, Pass, MarkAll, Performed;
    var keys := ConstKeys(s);
    var rs := ConstEffects(w, s, keys);
    SetConstantsIsOnePatch(w, s, keys);
    CompletesIffAllReturn(rs);
    assert forall i | 0 <= i < |rs| :: keys[i] in keys && rs[i] == ConstEffect(w, s, keys[i]);
    forall n | n in s.reg.consts
      ensures exists i :: 0 <= i < |keys| && keys[i] == n && rs[i] == ConstEffect(w, s, n)
    {
      assert n in keys;
    }
  }

  /** No constant with a greater name writes to l. */
  predicate LastToWrite(w: World, s: System, n: string, l: Loc)
    requires Closed(s)
  {
    forall m {:trigger ConstEffect(w, s, m)} | m in s.reg.consts && Less(n, m) ::
      ConstEffect(w, s, m).Ok? ==> l !in ConstEffect(w, s, m).value
  }

  /** Aliasing: a location several constants cover holds what the greatest of their names
      writes, whatever was stored before. */
  lemma GreatestConstantWins(w: World, s: System, n: string, l: Loc)
    requires Closed(s) && n in s.reg.consts && ConstEffect(w, s, n).Ok? && l in ConstEffect(w, s, n).value
    ensures var (t, ok) := ConstantPass(w, s);
      ok && LastToWrite(w, s, n, l) ==> l in t.mem && t.mem[l] == ConstEffect(w, s, n).value[l]
  {
    hide D.WriteOf;
    if !ConstantPass(w, s).1 || !LastToWrite(w, s, n, l) {
      return;
    }
    var keys := ConstKeys(s);
    var rs := ConstEffects(w, s, keys);
    SetConstantsIsOnePatch(w, s, keys);
    var ps := Performed(rs);
    assert n in keys;
    var k :| 0 <= k < |keys| && keys[k] == n;
    assert rs[k] == Ok(ps[k]);
    forall j | k < j < |ps|
      ensures l !in ps[j]
    {
      assert Less(keys[k], keys[j]) && keys[j] in keys;
      assert rs[j] == Ok(ps[j]) && rs[j] == ConstEffect(w, s, keys[j]);
    }
    LastWriter(ps, l, k);
  }

  /** What no constant covers stays as it was. */
  lemma ConstantPassFrame(w: World, s: System, l: Loc)
    requires Closed(s)
    requires forall m | m in s.reg.consts && ConstEffect(w, s, m).Ok? :: l !in ConstEffect(w, s, m).value
    ensures l in ConstantPass(w, s).0.mem <==> l in s.mem
    ensures l in s.mem ==> ConstantPass(w, s).0.mem[l] == s.mem[l]
  {
    hide D.WriteOf;
    var keys := ConstKeys(s);
    var rs := ConstEffects(w, s, keys);
    SetConstantsIsOnePatch(w, s, keys);
    var ps := Performed(rs);
    forall j | 0 <= j < |ps|
      ensures l !in ps[j]
    {
      assert keys[j] in keys;
      assert rs[j] == Ok(ps[j]) && rs[j] == ConstEffect(w, s, keys[j]);
    }
    NoWriter(ps, l);
  }

  /** Marking objects changes no effect of a constant. */
  lemma EffectsAfterPass(w: World, s: System, m: Memory, reached: seq<string>, keys: seq<string>)
    requires Closed(s) && (forall k | k in keys :: k in s.reg.consts) && (forall k | k in reached :: k in s.reg.consts)
    ensures var t := s.(mem := m, objects := MarkAll(s, reached));
      Closed(t) && ConstEffects(w, t, keys) == ConstEffects(w, s, keys) && MarkAll(t, reached) == t.objects
  {
    hide D.WriteOf, Noted;
    var t := s.(mem := m, objects := MarkAll(s, reached));
    forall i | 0 <= i < |keys|
      ensures keys[i] in keys && ConstEffect(w, t, keys[i]) == ConstEffect(w, s, keys[i])
    {
      assert keys[i] in keys;
    }
  }

  /** Running the constant pass again changes nothing, for every type of dataref and also
      when the pass stops early. */
  lemma ConstantPassIdempotent(w: World, s: System)
    requires Closed(s)
    ensures var (t, ok) := ConstantPass(w, s);
      Closed(t) && ConstantPass(w, t) == (t, ok)
  {
    hide D.WriteOf, Noted, Mark, MarkAll, Performed, Pass, SortedKeys;
    var keys := ConstKeys(s);
    var rs := ConstEffects(w, s, keys);
    SetConstantsIsOnePatch(w, s, keys);
    var t := ConstantPass(w, s).0;
    EffectsAfterPass(w, s, t.mem, Reached(w, s, keys), keys);
    SetConstantsIsOnePatch(w, t, keys);
    Repeated(s.mem, Pass(rs), map[]);
    assert t.mem + Pass(rs) == t.mem;
  }

  // ----- The FlightFactor callback --------------------------------------------------------

  function PushEffects(w: World, s: System, keys: seq<string>): (rs: seq<Result<Patch>>)
    requires Closed(s) && forall k | k in keys :: k in s.reg.named
    ensures |rs| == |keys|
  {
    seq(|keys|, i requires 0 <= i < |keys| => assert keys[i] in keys; PushEffect(w, s, keys[i]))
  }

  lemma {:induction false} PushTargetsIsOnePatch(w: World, s: System, keys: seq<string>)
    requires Closed(s) && forall k | k in keys :: k in s.reg.named
    ensures PushTargets(w, s, keys) ==
      (s.(mem := s.mem + Pass(PushEffects(w, s, keys))), Completes(PushEffects(w, s, keys)))
    decreases |keys|
  {
    hide F.WriteOf, Performed, Pass;
    var rs := PushEffects(w, s, keys);
    if keys == [] {
      NothingPerformed(s.mem);
      assert rs == [];
    } else {
      assert keys[0] in keys && rs[0] == PushEffect(w, s, keys[0]);
      PassStep(s.mem, rs);
      if rs[0].Ok? {
        var t := s.(mem := s.mem + rs[0].value);
        assert rs[1..] == PushEffects(w, t, keys[1..]);
        PushTargetsIsOnePatch(w, t, keys[1..]);
      }
    }
  }

  /** The state of an object when the FlightFactor loop runs: constants are noted first. */
  function AtPush(s: System, id: nat): Obj
    requires id in s.objects
  {
    Mark(s.objects[id], Noted(s.reg.consts, ConstKeys(s), id))
  }

  lemma FlightFrameParts(w: World, s: System) returns (t: System)
    requires Closed(s) && ConstantPass(w, s).1
    ensures t == ConstantPass(w, s).0 && Closed(t) && t.reg == s.reg
    ensures t.objects == MarkAll(s, ConstKeys(s))
    ensures var rs := PushEffects(w, t, SortedKeys(s.reg.named.Keys));
      FlightFrame(w, s) == (t.(mem := t.mem + Pass(rs)), Completes(rs))
  {
    hide D.WriteOf, F.WriteOf, Noted, Mark, MarkAll, SortedKeys;
    var keys := ConstKeys(s);
    t := ConstantPass(w, s).0;
    SetConstantsKeeps(w, s, keys);
    SetConstantsIsOnePatch(w, s, keys);
    assert Reached(w, s, keys) == keys;
    PushTargetsIsOnePatch(w, t, SortedKeys(s.reg.named.Keys));
  }

  lemma LastPushWins(w: World, t: System, n: string, l: Loc, a: Atom)
    requires Closed(t) && n in t.reg.named && PushEffect(w, t, n) == Ok(map[l := a])
    requires forall m | m in t.reg.named && Less(n, m) && PushEffect(w, t, m).Ok? :: l !in PushEffect(w, t, m).value
    requires Completes(PushEffects(w, t, SortedKeys(t.reg.named.Keys)))
    ensures var p := Pass(PushEffects(w, t, SortedKeys(t.reg.named.Keys)));
      l in p && p[l] == a
  {
    hide PushEffect;
    var keys := SortedKeys(t.reg.named.Keys);
    var rs := PushEffects(w, t, keys);
    var ps := Performed(rs);
    assert n in keys;
    var k :| 0 <= k < |keys| && keys[k] == n;
    assert rs[k] == Ok(ps[k]) && rs[k] == PushEffect(w, t, n);
    forall j | k < j < |ps|
      ensures l !in ps[j]
    {
      assert keys[j] in keys && Less(keys[k], keys[j]);
      assert rs[j] == Ok(ps[j]) && rs[j] == PushEffect(w, t, keys[j]);
    }
    LastWriter(ps, l, k);
  }

  /** No greater name in named has FlightFactor id id. */
  predicate GreatestWithId(s: System, n: string, id: int)
    requires Closed(s)
  {
    forall m {:trigger s.reg.named[m]} | m in s.reg.named && Less(n, m) && s.objects[s.reg.named[m]].Flight? ::
      s.objects[s.reg.named[m]].f.id != id
  }

  lemma MarkedIds(s: System, t: System, n: string, id: int)
    requires Closed(s) && Closed(t) && t.reg == s.reg && t.objects == MarkAll(s, ConstKeys(s))
    ensures GreatestWithId(s, n, id) ==> GreatestWithId(t, n, id)
  {
    hide Noted, SortedKeys, Less;
  }

  lemma NoLaterPush(w: World, t: System, n: string, id: int)
    requires Closed(t) && GreatestWithId(t, n, id)
    ensures forall m | m in t.reg.named && Less(n, m) && PushEffect(w, t, m).Ok? ::
      Shared(id) !in PushEffect(w, t, m).value
  {
    hide F.TargetAtom, Less;
  }

  /** After a FlightFactor frame the value with id f.id of a registered, pending dataref is
      its target, if the target suits the type and no greater name has the same id. The
      target is the constant's value when a constant holds the same object. */
  lemma FlightFrameWritesTarget(w: World, s: System, n: string, f: F.View, a: Atom)
    requires Closed(s) && n in s.reg.named && AtPush(s, s.reg.named[n]) == Flight(f) && f.needUpdate
    ensures var (t, ok) := FlightFrame(w, s);
      ok && F.TargetAtom(w, f.id, f.target) == Ok(Some(a)) && GreatestWithId(s, n, f.id) ==>
        Shared(f.id) in t.mem && t.mem[Shared(f.id)] == a
  {
    if FlightFrame(w, s).1 && F.TargetAtom(w, f.id, f.target) == Ok(Some(a)) && GreatestWithId(s, n, f.id) {
      CompletedFrameWritesTarget(w, s, n, f, a);
    }
  }

  lemma CompletedFrameWritesTarget(w: World, s: System, n: string, f: F.View, a: Atom)
    requires Closed(s) && FlightFrame(w, s).1
    requires n in s.reg.named && AtPush(s, s.reg.named[n]) == Flight(f)
    requires f.needUpdate && F.TargetAtom(w, f.id, f.target) == Ok(Some(a)) && GreatestWithId(s, n, f.id)
    ensures Shared(f.id) in FlightFrame(w, s).0.mem && FlightFrame(w, s).0.mem[Shared(f.id)] == a
  {
    hide D.WriteOf, F.TargetAtom, Noted, Mark, SetConstants, PushTargets, SortedKeys, Less, Performed, Sum,
      GreatestWithId;
    var t := FlightFrameParts(w, s);
    assert t.objects[s.reg.named[n]] == AtPush(s, s.reg.named[n]);
    MarkedIds(s, t, n, f.id);
    NoLaterPush(w, t, n, f.id);
    LastPushWins(w, t, n, Shared(f.id), a);
  }

  /** A constant bound to a registered FlightFactor dataref decides its target, whatever
      was set between the frames. */
  lemma ConstantDecidesTarget(w: World, s: System, n: string)
    requires Closed(s) && n in s.reg.consts && s.objects[s.reg.consts[n].id].Flight?
    requires forall m | m in s.reg.consts && m != n :: s.reg.consts[m].id != s.reg.consts[n].id
    ensures var id := s.reg.consts[n].id;
      AtPush(s, id) == Flight(s.objects[id].f.(needUpdate := true, target := s.reg.consts[n].value))
  {
    assert n in ConstKeys(s);
    OnlyNote(s.reg.consts, ConstKeys(s), n);
  }

  lemma {:induction false} OnlyNote(consts: map<string, Constant>, keys: seq<string>, n: string)
    requires n in keys && forall k | k in keys :: k in consts
    requires forall m | m in consts && m != n :: consts[m].id != consts[n].id
    ensures Noted(consts, keys, consts[n].id) == Some(consts[n].value)
    decreases |keys|
  {
    var init, last := keys[..|keys| - 1], keys[|keys| - 1];
    assert last in keys;
    if last != n {
      assert keys == init + [last] && n in init;
      OnlyNote(consts, init, n);
    }
  }

  /** A second FlightFactor frame right after the first changes nothing: nothing is ever
      taken off the list, and it is applied afresh. */
  lemma FlightFrameRepeats(w: World, s: System)
    requires Closed(s) && FlightFrame(w, s).1
    ensures Closed(FlightFrame(w, s).0) && FlightFrame(w, FlightFrame(w, s).0) == FlightFrame(w, s)
  {
    hide D.WriteOf, F.WriteOf, Noted, Mark, MarkAll, SortedKeys, Pass, Performed;
    var keys := ConstKeys(s);
    var t := FlightFrameParts(w, s);
    var u := FlightFrame(w, s).0;
    SetConstantsIsOnePatch(w, s, keys);
    assert Reached(w, s, keys) == keys;
    EffectsAfterPass(w, s, u.mem, keys, keys);
    SetConstantsIsOnePatch(w, u, keys);
    var v := FlightFrameParts(w, u);
    var named := SortedKeys(s.reg.named.Keys);
    assert PushEffects(w, v, named) == PushEffects(w, t, named);
    Repeated(s.mem, Pass(ConstEffects(w, s, keys)), Pass(PushEffects(w, t, named)));
  }

  // ----- When a frame completes ----------------------------------------------------------

  /** The FlightFactor loop gets past entry n: its pending target, if any, is in range. */
  predicate Pushable(w: World, s: System, n: string)
    requires Closed(s) && n in s.reg.named
  {
    var o := AtPush(s, s.reg.named[n]);
    o.Flight? && o.f.needUpdate ==> F.TargetAtom(w, o.f.id, o.f.target).Ok?
  }

  /** A frame completes exactly when every constant's value suits its dataref and every
      pending registered target is in range. */
  lemma FlightFrameCompletes(w: World, s: System)
    requires Closed(s)
    ensures FlightFrame(w, s).1 <==>
      (forall n | n in s.reg.consts :: ConstEffect(w, s, n).Ok?) && (forall n | n in s.reg.named :: Pushable(w, s, n))
  {
    hide ConstEffect, Pushable, PushEffect, SetConstants, PushTargets, Performed, Mark, Noted;
    ConstantPassCompletes(w, s);
    if ConstantPass(w, s).1 {
      var t := FlightFrameParts(w, s);
      var keys := SortedKeys(s.reg.named.Keys);
      var rs := PushEffects(w, t, keys);
      CompletesIffAllReturn(rs);
      forall n | n in s.reg.named
        ensures exists i :: 0 <= i < |keys| && keys[i] == n && rs[i] == PushEffect(w, t, n)
        ensures PushEffect(w, t, n).Ok? <==> Pushable(w, s, n)
      {
        assert n in keys;
        PushableIsEffect(w, s, t, n);
      }
      assert forall i | 0 <= i < |rs| :: keys[i] in keys && rs[i] == PushEffect(w, t, keys[i]);
    }
  }

  lemma PushableIsEffect(w: World, s: System, t: System, n: string)
    requires Closed(s) && Closed(t) && t.reg == s.reg && t.objects == MarkAll(s, ConstKeys(s)) && n in s.reg.named
    ensures PushEffect(w, t, n).Ok? <==> Pushable(w, s, n)
  {
    hide F.TargetAtom, Noted, SortedKeys;
    assert t.objects[s.reg.named[n]] == AtPush(s, s.reg.named[n]);
  }

  /** Only a number out of the range of its type stops a push: text that is no number is
      passed over. */
  lemma OnlyOutOfRangeStops(w: World, id: int, text: string)
    ensures F.TargetAtom(w, id, text) == Abort <==>
      || (F.TypeOf(w, id) == F.SINT32 && Stoi(text) == OutOfRange)
      || (F.TypeOf(w, id) == F.FLOAT32 && Stof(text) == OutOfRange)
      || (F.TypeOf(w, id) == F.FLOAT64 && Stod(text) == OutOfRange)
  {
    hide Stoi, Sto;
  }

  /** A pending double target "1e999" stops the frame. */
  lemma HugeTargetStopsFrame(w: World, s: System, n: string, f: F.View)
    requires Closed(s) && n in s.reg.named && AtPush(s, s.reg.named[n]) == Flight(f)
    requires f.needUpdate && f.target == "1e999" && F.TypeOf(w, f.id) == F.FLOAT64
    ensures !FlightFrame(w, s).1
  {
    hide Sto, FlightFrame, AtPush;
    HugeIsOutOfRange();
    assert !Pushable(w, s, n);
    FlightFrameCompletes(w, s);
  }

  /** A constant "1e999" on a writable double dataref stops every constant pass. */
  lemma HugeConstantStopsPass(w: World, s: System, n: string, d: D.View)
    requires Closed(s) && n in s.reg.consts && s.objects[s.reg.consts[n].id] == Plain(d)
    requires d.handle.Some? && d.handle.value in w.writable && d.typ == DoubleType && s.reg.consts[n].value == "1e999"
    ensures !ConstantPass(w, s).1
  {
    hide Sto, ConstantPass;
    HugeIsOutOfRange();
    assert ConstEffect(w, s, n) == Abort;
    ConstantPassCompletes(w, s);
  }

  // ----- Objects outside named -------------------------------------------------------------

  lemma OtherConstEffects(w: World, s: System, k: nat, f: F.View, keys: seq<string>)
    requires Closed(s) && k in s.objects && s.objects[k].Flight? && forall x | x in keys :: x in s.reg.consts
    ensures var t := s.(objects := s.objects[k := Flight(f)]);
      Closed(t) && ConstEffects(w, t, keys) == ConstEffects(w, s, keys)
  {
    hide D.WriteOf;
    var t := s.(objects := s.objects[k := Flight(f)]);
    forall i | 0 <= i < |keys|
      ensures keys[i] in keys && ConstEffect(w, t, keys[i]) == ConstEffect(w, s, keys[i])
    {
      assert keys[i] in keys;
    }
  }

  /** Objects outside named make no difference to the FlightFactor loop. */
  lemma OtherPushEffects(w: World, s: System, t: System, k: nat, keys: seq<string>)
    requires Closed(s) && Closed(t) && s.reg.named == t.reg.named && k !in s.reg.named.Values
    requires forall id | id in s.objects && id != k :: id in t.objects && t.objects[id] == s.objects[id]
    requires forall x | x in keys :: x in s.reg.named
    ensures PushEffects(w, t, keys) == PushEffects(w, s, keys)
  {
    hide F.WriteOf;
    forall i | 0 <= i < |keys|
      ensures keys[i] in keys && PushEffect(w, t, keys[i]) == PushEffect(w, s, keys[i])
    {
      assert keys[i] in keys && s.reg.named[keys[i]] in s.reg.named.Values;
    }
  }

  /** An object outside named takes no part in a FlightFactor frame: whatever its target is
      and whether or not it is pending, the memory ends up the same. */
  lemma UnregisteredIsInert(w: World, s: System, k: nat, f: F.View)
    requires Closed(s) && k in s.objects && s.objects[k].Flight? && k !in s.reg.named.Values
    ensures var t := s.(objects := s.objects[k := Flight(f)]);
      Closed(t) && FlightFrame(w, t).0.mem == FlightFrame(w, s).0.mem && FlightFrame(w, t).1 == FlightFrame(w, s).1
  {
    hide ConstEffect, PushEffect, Noted, SortedKeys, Pass, Performed, SetConstants, PushTargets;
    var t := s.(objects := s.objects[k := Flight(f)]);
    var keys := ConstKeys(s);
    OtherConstEffects(w, s, k, f, keys);
    SetConstantsIsOnePatch(w, s, keys);
    SetConstantsIsOnePatch(w, t, keys);
    if ConstantPass(w, s).1 {
      var a := FlightFrameParts(w, s);
      var b := FlightFrameParts(w, t);
      OtherPushEffects(w, a, b, k, SortedKeys(s.reg.named.Keys));
    }
  }

  /** The system without constant n. */
  function WithoutConstant(s: System, n: string): System {
    s.(reg := s.reg.(consts := s.reg.consts - {n}))
  }

  lemma {:induction false} NotedWithout(consts: map<string, Constant>, n: string, a: seq<string>, b: seq<string>,
                                        id: nat)
    requires n in consts && consts[n].id != id
    requires (forall x | x in a :: x in consts && x != n) && (forall x | x in b :: x in consts && x != n)
    ensures forall x | x in a + [n] + b :: x in consts
    ensures forall x | x in a + b :: x in consts - {n}
    ensures Noted(consts, a + [n] + b, id) == Noted(consts - {n}, a + b, id)
    decreases |b|
  {
    var with, without := a + [n] + b, a + b;
    if b == [] {
      assert with[..|with| - 1] == a && without == a;
      SubmapNoted(consts, n, a, id);
    } else {
      var init := b[..|b| - 1];
      assert with[..|with| - 1] == a + [n] + init && without[..|without| - 1] == a + init;
      assert with[|with| - 1] == b[|b| - 1] == without[|without| - 1] && b[|b| - 1] in b;
      NotedWithout(consts, n, a, init, id);
    }
  }

  lemma {:induction false} SubmapNoted(consts: map<string, Constant>, n: string, keys: seq<string>, id: nat)
    requires forall x | x in keys :: x in consts && x != n
    ensures Noted(consts, keys, id) == Noted(consts - {n}, keys, id)
    decreases |keys|
  {
    if keys != [] {
      assert keys[|keys| - 1] in keys;
      SubmapNoted(consts, n, keys[..|keys| - 1], id);
    }
  }

  lemma WithoutSilentConstant(w: World, s: System, n: string)
    requires Closed(s) && n in s.reg.consts && ConstEffect(w, s, n) == Ok(map[])
    ensures var t := WithoutConstant(s, n);
      Closed(t)
      && Pass(ConstEffects(w, t, ConstKeys(t))) == Pass(ConstEffects(w, s, ConstKeys(s)))
      && (Completes(ConstEffects(w, t, ConstKeys(t))) <==> Completes(ConstEffects(w, s, ConstKeys(s))))
      && forall id | id != s.reg.consts[n].id ::
           Noted(t.reg.consts, ConstKeys(t), id) == Noted(s.reg.consts, ConstKeys(s), id)
  {
    hide ConstEffect, Pass, Completes, Noted, SortedKeys, Closed;
    var t := WithoutConstant(s, n);
    var keys := ConstKeys(s);
    assert n in keys;
    var i :| 0 <= i < |keys| && keys[i] == n;
    var a, b := keys[..i], keys[i + 1..];
    assert t.reg.consts.Keys == s.reg.consts.Keys - {n};
    SortedKeysWithout(s.reg.consts.Keys, i);
    assert ConstKeys(t) == a + b && keys == a + [n] + b;
    assert forall x | x in a + b :: x in ConstKeys(t);
    assert forall x | x in a :: x in a + b;
    assert forall x | x in b :: x in a + b;
    SilentEffects(w, s, n, a, b);
    forall id | id != s.reg.consts[n].id
      ensures Noted(t.reg.consts, ConstKeys(t), id) == Noted(s.reg.consts, ConstKeys(s), id)
    {
      NotedWithout(s.reg.consts, n, a, b, id);
    }
  }

  lemma SilentEffects(w: World, s: System, n: string, a: seq<string>, b: seq<string>)
    requires Closed(s) && n in s.reg.consts && ConstEffect(w, s, n) == Ok(map[])
    requires forall x | x in a + b :: x in s.reg.consts && x != n
    ensures forall x | x in a + [n] + b :: x in s.reg.consts
    ensures var t := WithoutConstant(s, n);
      Closed(t)
      && Pass(ConstEffects(w, t, a + b)) == Pass(ConstEffects(w, s, a + [n] + b))
      && (Completes(ConstEffects(w, t, a + b)) <==> Completes(ConstEffects(w, s, a + [n] + b)))
  {
    hide Pass, Completes, D.WriteOf;
    var t := WithoutConstant(s, n);
    assert forall x | x in a :: x in a + b;
    assert forall x | x in b :: x in a + b;
    var ra, rb := ConstEffects(w, s, a), ConstEffects(w, s, b);
    assert ConstEffects(w, s, a + [n] + b) == ra + [Ok(map[])] + rb;
    assert ConstEffects(w, t, a + b) == ra + rb;
    PassSkip(ra, rb);
  }

  /** Taking away a constant whose FlightFactor object is not registered makes no difference
      to a frame: same memory, and it completes or not as before. */
  lemma RetiredConstantIsInert(w: World, s: System, n: string)
    requires Closed(s) && n in s.reg.consts
    requires s.objects[s.reg.consts[n].id].Flight? && s.reg.consts[n].id !in s.reg.named.Values
    ensures var t := WithoutConstant(s, n);
      Closed(t) && FlightFrame(w, t).0.mem == FlightFrame(w, s).0.mem && FlightFrame(w, t).1 == FlightFrame(w, s).1
  {
    hide ConstEffect, PushEffect, Noted, SortedKeys, Pass, Performed, SetConstants, PushTargets;
    var t, k := WithoutConstant(s, n), s.reg.consts[n].id;
    FlightConstantIsSilent(w, s, n);
    WithoutSilentConstant(w, s, n);
    SetConstantsIsOnePatch(w, s, ConstKeys(s));
    SetConstantsIsOnePatch(w, t, ConstKeys(t));
    if ConstantPass(w, s).1 {
      var a := FlightFrameParts(w, s);
      var b := FlightFrameParts(w, t);
      OtherPushEffects(w, a, b, k, SortedKeys(s.reg.named.Keys));
    }
  }

  lemma FlightConstantIsSilent(w: World, s: System, n: string)
    requires Closed(s) && n in s.reg.consts && s.objects[s.reg.consts[n].id].Flight?
    ensures ConstEffect(w, s, n) == Ok(map[])
  {
  }
}
