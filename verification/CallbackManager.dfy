/** The CallbackManager object: maps of references to dataref objects, mutated in place.
    Ghost fields tie it to the state of module System: abs is that state, and heap says
    which object stands for each identity. */
module CallbackManager {
  import opened Prelude
  import opened KeyOrder
  import opened JsonTree
  import opened Simulation
  import opened Registry
  import opened System
  import D = Datarefs
  import F = FlightFactor

  /** AbstractDataref*: a reference with its DatarefType. */
  datatype AnyDataref = PlainRef(d: D.Dataref) | FlightRef(f: F.FFDataref)

  datatype ConstantDataref = ConstantDataref(name: string, value: string, dataref: AnyDataref)

  function RefOf(a: AnyDataref): object {
    match a case PlainRef(d) => d case FlightRef(f) => f
  }

  ghost function ValueOf(a: AnyDataref): Obj
    reads RefOf(a)
  {
    match a case PlainRef(d) => Plain(d.Value()) case FlightRef(f) => Flight(f.Value())
  }

  ghost function Refs(heap: map<nat, AnyDataref>): set<object> {
    set k | k in heap :: RefOf(heap[k])
  }

  /** heap holds distinct objects with the values given. */
  ghost predicate Represents(heap: map<nat, AnyDataref>, objects: map<nat, Obj>)
    reads Refs(heap)
  {
    && heap.Keys == objects.Keys
    && (forall k | k in heap :: ValueOf(heap[k]) == objects[k])
    && (forall j, k | j in heap && k in heap && j != k :: heap[j] != heap[k])
  }

  /** A map of references is a map of identities. */
  ghost predicate Matches(refs: map<string, AnyDataref>, ids: map<string, nat>, heap: map<nat, AnyDataref>) {
    && refs.Keys == ids.Keys
    && forall n | n in ids :: ids[n] in heap && refs[n] == heap[ids[n]]
  }

  ghost predicate ConstsMatch(refs: map<string, ConstantDataref>, consts: map<string, Constant>,
                              heap: map<nat, AnyDataref>)
  {
    && refs.Keys == consts.Keys
    && forall n | n in consts ::
         consts[n].id in heap && refs[n] == ConstantDataref(n, consts[n].value, heap[consts[n].id])
  }

  lemma SubscribedMatches(s: System, named: map<string, AnyDataref>, subscribed: map<string, AnyDataref>,
                          heap: map<nat, AnyDataref>, name: string)
    requires Closed(s) && Matches(named, s.reg.named, heap) && Matches(subscribed, s.reg.subscribed, heap)
    requires name in named
    ensures AddSubscribed(s.reg, name)
         == s.reg.(subscribed := AddSubscribed(s.reg, name).subscribed, count := Bump(s.reg.count, 1))
    ensures Closed(s.(reg := AddSubscribed(s.reg, name)))
    ensures Matches(if name in subscribed then subscribed else subscribed[name := named[name]],
                    AddSubscribed(s.reg, name).subscribed, heap)
  {
  }

  lemma ConstantMatches(s: System, named: map<string, AnyDataref>, consts: map<string, ConstantDataref>,
                        heap: map<nat, AnyDataref>, name: string, value: string)
    requires Closed(s) && Matches(named, s.reg.named, heap) && ConstsMatch(consts, s.reg.consts, heap)
    requires name in named
    ensures Closed(s.(reg := AddConstant(s.reg, name, value)))
    ensures ConstsMatch(
      consts[name := if name in consts then consts[name].(value := value)
                     else ConstantDataref(name, value, named[name])],
      AddConstant(s.reg, name, value).consts, heap)
  {
  }

  lemma NewObject(s: System, name: string, obj: Obj)
    requires Closed(s)
    ensures Closed(Insert(s, name, obj))
    ensures var t := Insert(s, name, obj);
      && t.reg.subscribed == s.reg.subscribed && t.reg.consts == s.reg.consts && t.reg.count == s.reg.count
      && t.reg.named == (if name in s.reg.named then s.reg.named else s.reg.named[name := s.reg.clock])
      && t.objects == (if name in s.reg.named then s.objects else s.objects[s.reg.clock := obj])
      && t.mem == s.mem && t.ffReady == s.ffReady && t.table == s.table
  {
    var t := Insert(s, name, obj);
    assert forall n | n in t.reg.named :: n in s.reg.named || n == name;
  }

  lemma EffectOf(w: World, s: System, key: string, o: Obj)
    requires Closed(s) && key in s.reg.named && s.objects[s.reg.named[key]] == o
    ensures PushEffect(w, s, key) ==
      if o.Flight? && o.f.needUpdate then F.WriteOf(w, o.f.id, o.f.target) else Ok(map[])
  {
  }

  /** Adding a key to the heap disturbs no reference already there. */
  lemma HeapGrows(refs: map<string, AnyDataref>, ids: map<string, nat>, consts: map<string, ConstantDataref>,
                  cs: map<string, Constant>, heap: map<nat, AnyDataref>, k: nat, a: AnyDataref)
    requires k !in heap
    ensures Matches(refs, ids, heap) ==> Matches(refs, ids, heap[k := a])
    ensures ConstsMatch(consts, cs, heap) ==> ConstsMatch(consts, cs, heap[k := a])
  {
  }

  lemma InsertTaken(s: System, name: string, obj: Obj)
    requires name in s.reg.named
    ensures Insert(s, name, obj) == s.(reg := s.reg.(clock := s.reg.clock + 1))
  {
  }

  lemma NamesOf(refs: map<string, AnyDataref>, ids: map<string, nat>, heap: map<nat, AnyDataref>)
    requires Matches(refs, ids, heap)
    ensures refs.Keys == ids.Keys && forall n | n in ids :: ids[n] in heap && refs[n] == heap[ids[n]]
  {
  }

  lemma ConstsOf(refs: map<string, ConstantDataref>, consts: map<string, Constant>, heap: map<nat, AnyDataref>)
    requires ConstsMatch(refs, consts, heap)
    ensures refs.Keys == consts.Keys
    ensures forall n | n in consts ::
      consts[n].id in heap && refs[n] == ConstantDataref(n, consts[n].value, heap[consts[n].id])
  {
  }

  lemma Separate(heap: map<nat, AnyDataref>, objects: map<nat, Obj>, id: nat)
    requires Represents(heap, objects) && id in heap
    ensures RefOf(heap[id]) in Refs(heap)
    ensures forall k | k in heap :: ValueOf(heap[k]) == objects[k] && (k != id ==> RefOf(heap[k]) != RefOf(heap[id]))
  {
    assert RefOf(heap[id]) in Refs(heap);
    assert forall k | k in heap && k != id :: heap[k] != heap[id];
  }

  lemma OneObjectChanged(heap: map<nat, AnyDataref>, objects: map<nat, Obj>, id: nat)
    requires id in heap && heap.Keys == objects.Keys
    requires forall k | k in heap && k != id :: ValueOf(heap[k]) == objects[k]
    requires forall j, k | j in heap && k in heap && j != k :: heap[j] != heap[k]
    ensures Represents(heap, objects[id := ValueOf(heap[id])])
  {
  }

  lemma Distinct(heap: map<nat, AnyDataref>, objects: map<nat, Obj>)
    requires Represents(heap, objects)
    ensures heap.Keys == objects.Keys
    ensures forall j, k | j in heap && k in heap && j != k :: heap[j] != heap[k]
  {
  }

  lemma RefsAdded(heap: map<nat, AnyDataref>, k: nat, a: AnyDataref)
    requires k !in heap
    ensures Refs(heap[k := a]) == Refs(heap) + {RefOf(a)}
    ensures RefOf(a) !in Refs(heap) ==> forall j | j in heap :: heap[j] != a
  {
    var h := heap[k := a];
    assert RefOf(h[k]) in Refs(h);
    assert forall j | j in heap :: h[j] == heap[j] && RefOf(heap[j]) in Refs(heap) && RefOf(h[j]) in Refs(h);
    assert forall j | j in h :: j == k || j in heap;
  }

  lemma ObjectAdded(heap: map<nat, AnyDataref>, objects: map<nat, Obj>, k: nat, a: AnyDataref)
    requires Represents(heap, objects) && k !in objects && RefOf(a) !in Refs(heap)
    ensures k !in heap && Represents(heap[k := a], objects[k := ValueOf(a)])
    ensures Refs(heap[k := a]) == Refs(heap) + {RefOf(a)}
  {
    hide Refs;
    RefsAdded(heap, k, a);
  }

  lemma NameAdded(refs: map<string, AnyDataref>, ids: map<string, nat>, heap: map<nat, AnyDataref>, name: string,
                  k: nat)
    requires Matches(refs, ids, heap) && k in heap
    ensures Matches(refs[name := heap[k]], ids[name := k], heap)
  {
  }

  lemma ValueKnown(heap: map<nat, AnyDataref>, objects: map<nat, Obj>, id: nat)
    requires Represents(heap, objects) && id in heap
    ensures id in objects && ValueOf(heap[id]) == objects[id]
  {
  }

  lemma ClockIsFree(s: System)
    requires Closed(s)
    ensures s.reg.clock !in s.objects
  {
  }

  lemma SetObjectCloses(w: World, s: System, id: nat, value: string)
    requires Closed(s) && id in s.objects
    ensures Closed(SetObject(w, s, id, value).0)
  {
    hide D.WriteOf;
  }

  lemma FlightNoted(w: World, s: System, id: nat, value: string, f: F.View)
    requires Closed(s) && id in s.objects && s.objects[id] == Flight(f)
    ensures var t := s.(objects := s.objects[id := Flight(f.(needUpdate := true, target := value))]);
      Closed(t) && SetObject(w, s, id, value) == (t, true)
  {
  }

  lemma MemoryReplaced(s: System, m: Memory)
    requires Closed(s)
    ensures Closed(s.(mem := m))
  {
  }

  lemma SubscriptionIgnored(r: Registry, name: string)
    requires name !in r.named
    ensures AddSubscribed(r, name) == r
  {
  }

  lemma ConstantIgnored(r: Registry, name: string, value: string)
    requires name !in r.named
    ensures AddConstant(r, name, value) == r
  {
  }

  lemma ConstantKeeps(r: Registry, name: string, value: string)
    ensures AddConstant(r, name, value) == r.(consts := AddConstant(r, name, value).consts)
  {
  }

  /** Everything Valid asks for, after a new name was given a new object. */
  lemma NewEntry(s: System, named: map<string, AnyDataref>, subscribed: map<string, AnyDataref>,
                 consts: map<string, ConstantDataref>, heap: map<nat, AnyDataref>, name: string, a: AnyDataref)
    requires Closed(s) && Represents(heap, s.objects) && RefOf(a) !in Refs(heap) && name !in named
    requires Matches(named, s.reg.named, heap) && Matches(subscribed, s.reg.subscribed, heap)
    requires ConstsMatch(consts, s.reg.consts, heap)
    ensures var t, h := Insert(s, name, ValueOf(a)), heap[s.reg.clock := a];
      && Closed(t) && Represents(h, t.objects) && Refs(h) == Refs(heap) + {RefOf(a)}
      && Matches(named[name := a], t.reg.named, h) && Matches(subscribed, t.reg.subscribed, h)
      && ConstsMatch(consts, t.reg.consts, h)
      && t.reg.count == s.reg.count && t.table == s.table && t.ffReady == s.ffReady && t.mem == s.mem
  {
    hide Closed, Matches, ConstsMatch, Represents, Insert, Refs;
    var k := s.reg.clock;
    NamesOf(named, s.reg.named, heap);
    NewObject(s, name, ValueOf(a));
    ClockIsFree(s);
    ObjectAdded(heap, s.objects, k, a);
    HeapGrows(named, s.reg.named, consts, s.reg.consts, heap, k, a);
    HeapGrows(subscribed, s.reg.subscribed, consts, s.reg.consts, heap, k, a);
    NameAdded(named, s.reg.named, heap[k := a], name, k);
  }

  class CallbackManager {
    const sim: Simulator
    var named: map<string, AnyDataref>
    var subscribed: map<string, AnyDataref>
    var consts: map<string, ConstantDataref>
    var count: nat
    var callbacks: map<string, Callback>
    var ffReady: bool
    ghost var abs: System
    ghost var heap: map<nat, AnyDataref>

    ghost predicate Valid()
      reads this, sim, Refs(heap)
    {
      && Faithful(sim.world.codec)
      && Closed(abs)
      && this !in Refs(heap) && sim !in Refs(heap)
      && Represents(heap, abs.objects)
      && Matches(named, abs.reg.named, heap)
      && Matches(subscribed, abs.reg.subscribed, heap)
      && ConstsMatch(consts, abs.reg.consts, heap)
      && count == abs.reg.count && callbacks == abs.table && ffReady == abs.ffReady && sim.mem == abs.mem
    }

    constructor (sim: Simulator)
      requires Faithful(sim.world.codec)
      ensures Valid() && this.sim == sim && heap == map[]
      ensures abs == System(EMPTY, map[], sim.mem, false, map[])
    {
      this.sim := sim;
      named, subscribed, consts, count := map[], map[], map[], 0;
      callbacks, ffReady := map[], false;
      abs, heap := System(EMPTY, map[], sim.mem, false, map[]), map[];
    }

    // The methods below change the maps; the callbacks that call them end with Tick.

    method AddSubscribedDataref(name: string)
      requires Valid()
      modifies this`subscribed, this`count, this`abs
      ensures Valid()
      ensures abs == old(abs).(reg := AddSubscribed(old(abs).reg, name))
    {
      hide Faithful, Represents, ConstsMatch, Bump, Closed, Matches, AddSubscribed;
      NamesOf(named, abs.reg.named, heap);
      if name !in named {
        SubscriptionIgnored(abs.reg, name);
        return;
      }
      SubscribedMatches(abs, named, subscribed, heap, name);
      if name !in subscribed {
        subscribed := subscribed[name := named[name]];
      }
      count := Bump(count, 1);
      abs := abs.(reg := AddSubscribed(abs.reg, name));
    }

    method RemoveSubscribedDataref(name: string)
      requires Valid()
      modifies this`subscribed, this`count, this`abs
      ensures Valid()
      ensures abs == old(abs).(reg := RemoveSubscribed(old(abs).reg, name))
    {
      hide Faithful, Represents, ConstsMatch, Bump;
      if name !in subscribed {
        return;
      }
      subscribed := subscribed - {name};
      count := Bump(count, -1);
      abs := abs.(reg := RemoveSubscribed(abs.reg, name));
    }

    method AddConstantDataref(name: string, value: string)
      requires Valid()
      modifies this`consts, this`abs
      ensures Valid()
      ensures abs == old(abs).(reg := AddConstant(old(abs).reg, name, value))
    {
      hide Faithful, Represents, ConstsMatch, Closed, Matches, AddConstant;
      NamesOf(named, abs.reg.named, heap);
      if name !in named {
        assert AddConstant(abs.reg, name, value) == abs.reg by { ConstantIgnored(abs.reg, name, value); }
        return;
      }
      ConstantMatches(abs, named, consts, heap, name, value);
      ConstantKeeps(abs.reg, name, value);
      if name in consts {
        consts := consts[name := consts[name].(value := value)];
      } else {
        consts := consts[name := ConstantDataref(name, value, named[name])];
      }
      abs := abs.(reg := AddConstant(abs.reg, name, value));
    }

    /** Not reachable from the network: no callback calls it. */
    method RemoveConstantDataref(name: string)
      requires Valid()
      modifies this`consts, this`abs
      ensures Valid()
      ensures abs == old(abs).(reg := old(abs).reg.(consts := old(abs).reg.consts - {name}))
    {
      hide Faithful, Represents;
      if name in consts {
        consts := consts - {name};
      }
      abs := abs.(reg := abs.reg.(consts := abs.reg.consts - {name}));
      assert name !in old(consts) ==> abs.reg.consts == old(abs).reg.consts;
    }

    /** named->erase(name). */
    method Erase(name: string)
      requires Valid()
      modifies this`named, this`abs
      ensures Valid()
      ensures abs == old(abs).(reg := old(abs).reg.(named := old(abs).reg.named - {name}))
    {
      hide Faithful, Represents, ConstsMatch;
      named := named - {name};
      abs := abs.(reg := abs.reg.(named := abs.reg.named - {name}));
    }

    /** named->emplace(name, dataref): a name already there keeps its object. */
    method Emplace(name: string, dataref: AnyDataref)
      requires Valid() && RefOf(dataref) !in Refs(heap) && RefOf(dataref) != this && RefOf(dataref) != sim
      modifies this`named, this`abs, this`heap
      ensures Valid()
      ensures abs == Insert(old(abs), name, ValueOf(dataref))
      ensures heap == if name in old(named) then old(heap) else old(heap)[old(abs).reg.clock := dataref]
      ensures old(abs).reg.clock !in old(heap)
    {
      hide Faithful, Closed, Matches, ConstsMatch, Represents, Insert, Refs;
      NamesOf(named, abs.reg.named, heap);
      Distinct(heap, abs.objects);
      ClockIsFree(abs);
      if name in named {
        InsertTaken(abs, name, ValueOf(dataref));
        Tick();
      } else {
        EmplaceNew(name, dataref);
      }
    }

    method EmplaceNew(name: string, dataref: AnyDataref)
      requires Valid() && RefOf(dataref) !in Refs(heap) && RefOf(dataref) != this && RefOf(dataref) != sim
      requires name !in named
      modifies this`named, this`abs, this`heap
      ensures Valid()
      ensures abs == Insert(old(abs), name, ValueOf(dataref))
      ensures heap == old(heap)[old(abs).reg.clock := dataref]
    {
      hide Faithful, Closed, Matches, ConstsMatch, Represents, Insert, Refs;
      ghost var s, k := abs, abs.reg.clock;
      NewEntry(s, named, subscribed, consts, heap, name, dataref);
      heap := heap[k := dataref];
      named := named[name := dataref];
      abs := Insert(s, name, ValueOf(dataref));
    }

    ghost method Tick()
      requires Valid()
      modifies this`abs
      ensures Valid()
      ensures abs == old(abs).(reg := old(abs).reg.(clock := old(abs).reg.clock + 1))
    {
      abs := abs.(reg := abs.reg.(clock := abs.reg.clock + 1));
    }

    method SetReady(ready: bool)
      requires Valid()
      modifies this`ffReady, this`abs
      ensures Valid() && abs == old(abs).(ffReady := ready)
    {
      ffReady := ready;
      abs := abs.(ffReady := ready);
    }

    method SetTable(table: map<string, Callback>)
      requires Valid()
      modifies this`callbacks, this`abs
      ensures Valid() && abs == old(abs).(table := table)
    {
      callbacks := table;
      abs := abs.(table := table);
    }

    /** The virtual call target->SetValue(value). */
    method SetValue(target: AnyDataref, ghost id: nat, value: string) returns (ok: bool)
      requires Valid() && id in heap && heap[id] == target
      modifies sim`mem, RefOf(target), this`abs
      ensures Valid()
      ensures (abs, ok) == SetObject(sim.world, old(abs), id, value)
    {
      match target {
        case PlainRef(d) =>
          ok := SetPlain(d, id, value);
        case FlightRef(f) =>
          SetFlight(f, id, value);
          ok := true;
      }
    }

    method SetPlain(d: D.Dataref, ghost id: nat, value: string) returns (ok: bool)
      requires Valid() && id in heap && heap[id] == PlainRef(d)
      modifies sim`mem, this`abs
      ensures Valid()
      ensures (abs, ok) == SetObject(sim.world, old(abs), id, value)
    {
      hide Matches, ConstsMatch, D.WriteOf, Represents, Closed;
      ValueKnown(heap, abs.objects, id);
      SetObjectCloses(sim.world, abs, id, value);
      ok := d.SetValue(sim, value);
      abs := SetObject(sim.world, abs, id, value).0;
    }

    method SetFlight(f: F.FFDataref, ghost id: nat, value: string)
      requires Valid() && id in heap && heap[id] == FlightRef(f)
      modifies f, this`abs
      ensures Valid()
      ensures (abs, true) == SetObject(sim.world, old(abs), id, value)
    {
      hide Faithful, Matches, ConstsMatch, Closed, Represents, SetObject, Refs;
      Separate(heap, abs.objects, id);
      Distinct(heap, abs.objects);
      FlightNoted(sim.world, abs, id, value, f.Value());
      f.SetValue(value);
      OneObjectChanged(heap, abs.objects, id);
      abs := abs.(objects := abs.objects[id := Flight(f.Value())]);
    }

    method GetValue(target: AnyDataref, ghost id: nat) returns (r: Result<string>)
      requires Valid() && id in heap && heap[id] == target
      ensures r == ReadObject(sim.world, abs.objects[id], abs.mem)
    {
      hide Faithful, Matches, ConstsMatch, D.ReadOf, F.ReadOf, Represents, Closed;
      ValueKnown(heap, abs.objects, id);
      match target {
        case PlainRef(d) => r := d.GetValue(sim);
        case FlightRef(f) => r := f.GetValue(sim);
      }
    }

    /** The body of the loop over the constants. */
    method SetConstant(key: string) returns (ok: bool)
      requires Valid() && key in consts
      modifies sim`mem, Refs(heap), this`abs
      ensures Valid()
      ensures key in old(abs).reg.consts
      ensures (abs, ok) == SetObject(sim.world, old(abs), old(abs).reg.consts[key].id, old(abs).reg.consts[key].value)
    {
      hide Faithful, Matches, Represents, SetObject, Closed, ConstsMatch;
      ConstsOf(consts, abs.reg.consts, heap);
      var kv := consts[key];
      ghost var id := abs.reg.consts[key].id;
      Separate(heap, abs.objects, id);
      ok := SetValue(kv.dataref, id, kv.value);
    }

    /** false when a write does not return. */
    method ExecuteConstantDataref() returns (ok: bool)
      requires Valid()
      modifies sim`mem, Refs(heap), this`abs
      ensures Valid()
      ensures (abs, ok) == ConstantPass(sim.world, old(abs))
    {
      hide Faithful, Matches, Represents, SetObject, ConstsMatch;
      var keys := SortedKeys(consts.Keys);
      ConstsOf(consts, abs.reg.consts, heap);
      for i := 0 to |keys|
        invariant Valid() && abs.reg == old(abs).reg
        invariant SetConstants(sim.world, abs, keys[i..]) == ConstantPass(sim.world, old(abs))
      {
        assert keys[i] in keys;
        ghost var c := abs.reg.consts[keys[i]];
        SetObjectKeeps(sim.world, abs, c.id, c.value);
        ok := SetConstant(keys[i]);
        if !ok {
          return;
        }
      }
      ok := true;
    }

    /** FF320_Callback, which FlightFactor calls in every update of its data. */
    method FF320Callback() returns (ok: bool)
      requires Valid()
      modifies sim`mem, Refs(heap), this`abs
      ensures Valid()
      ensures (abs, ok) == FlightFrame(sim.world, old(abs))
    {
      hide Faithful, Represents, ConstsMatch, Matches, Closed, SetConstants, PushEffect;
      SetConstantsKeeps(sim.world, abs, SortedKeys(abs.reg.consts.Keys));
      NamesOf(named, abs.reg.named, heap);
      ok := ExecuteConstantDataref();
      if !ok {
        return;
      }
      var keys := SortedKeys(named.Keys);
      for i := 0 to |keys|
        invariant Valid() && abs.reg == old(abs).reg
        invariant PushTargets(sim.world, abs, keys[i..]) == FlightFrame(sim.world, old(abs))
      {
        assert keys[i] in keys;
        ok := PushTarget(keys[i]);
        if !ok {
          return;
        }
      }
      ok := true;
    }

    /** ffdata->DoSetValue(ffdata->GetTargetValue()). */
    method Push(ffdata: F.FFDataref, ghost id: nat) returns (ok: bool)
      requires Valid() && id in heap && heap[id] == FlightRef(ffdata)
      modifies sim`mem, this`abs
      ensures Valid()
      ensures id in old(abs).objects && old(abs).objects[id] == Flight(ffdata.Value())
      ensures match F.WriteOf(sim.world, ffdata.id, ffdata.target)
        case Ok(p) => ok && abs == old(abs).(mem := old(abs).mem + p)
        case Abort => !ok && abs == old(abs)
    {
      hide Faithful, ConstsMatch, F.WriteOf, Represents, Matches, Closed;
      ValueKnown(heap, abs.objects, id);
      ok := ffdata.DoSetValue(sim, ffdata.target);
      MemoryReplaced(abs, sim.mem);
      abs := abs.(mem := sim.mem);
    }

    /** The body of the loop over named. */
    method PushTarget(key: string) returns (ok: bool)
      requires Valid() && key in named
      modifies sim`mem, this`abs
      ensures Valid()
      ensures match PushEffect(sim.world, old(abs), key)
        case Ok(p) => ok && abs == old(abs).(mem := old(abs).mem + p)
        case Abort => !ok && abs == old(abs)
    {
      hide Faithful, ConstsMatch, F.WriteOf, Represents, Matches, Closed, PushEffect;
      NamesOf(named, abs.reg.named, heap);
      ghost var id := abs.reg.named[key];
      ValueKnown(heap, abs.objects, id);
      EffectOf(sim.world, abs, key, ValueOf(named[key]));
      if named[key].FlightRef? && named[key].f.needUpdate {
        ok := Push(named[key].f, id);
      } else {
        assert abs.mem + map[] == abs.mem;
        ok := true;
      }
    }
  }
}
