/** The plugin's flight-loop callbacks: the network callback with its client list, and the
    export of subscribed datarefs. */
module Server {
  import opened Prelude
  import opened KeyOrder
  import opened JsonTree
  import opened Simulation
  import opened System
  import opened Requests
  import opened Runs
  import opened CallbackManager
  import R = Registry
  import Callbacks
  import CallbackTable
  import opened Guarantees
  import opened Replies

  datatype Client = Client(ip: string, port: int)

  datatype Packet = Packet(data: string, to: Client)

  datatype Datagram = Datagram(ip: string, data: string)

  /** The plugin with what it has sent so far. */
  datatype Host = Host(sys: System, clients: seq<Client>, sent: seq<Packet>)

  function ToAll(data: string, clients: seq<Client>): seq<Packet> {
    seq(|clients|, i requires 0 <= i < |clients| => Packet(data, clients[i]))
  }

  function Remember(clients: seq<Client>, c: Client): seq<Client> {
    if c in clients then clients else clients + [c]
  }

  predicate Arrived(d: Option<Datagram>) { d.Some? && d.value.data != "" }

  /** The constants NetworkCallback sets first, unless FlightFactor's frames do it. */
  function BeforeRequest(w: World, s: System): (r: (System, bool))
    requires Closed(s)
    ensures Closed(r.0)
  {
    SetConstantsKeeps(w, s, SortedKeys(s.reg.consts.Keys));
    if s.ffReady then (s, true) else ConstantPass(w, s)
  }

  /** NetworkCallback; false when it does not return. The reply goes to the clients known
      before this request; every client is answered on the outbound port. */
  function Serve(w: World, env: Env, outPort: int, h: Host, datagram: Option<Datagram>): (Host, bool)
    requires Closed(h.sys)
  {
    var (s, ok) := BeforeRequest(w, h.sys);
    if !ok then (h.(sys := s), false)
    else if !Arrived(datagram) then (h.(sys := s), true)
    else
      match w.codec.parse(datagram.value.data)
      case None => (h.(sys := s), false)
      case Some(operation) =>
        var done := Execute(w, env, s, operation);
        if done.code.Abort? then (h.(sys := done.s), false)
        else (Host(done.s, Remember(h.clients, Client(datagram.value.ip, outPort)),
                   h.sent + ToAll(w.codec.dump(done.j), h.clients)), true)
  }

  function ExportEntry(name: string, value: string): Json {
    Obj(map["Name" := Str(name), "Value" := Str(value)])
  }

  /** The entries for the given subscribed names, if every value can be read. */
  function ExportEntries(w: World, s: System, keys: seq<string>): Result<seq<Json>>
    requires Closed(s) && forall k | k in keys :: k in s.reg.subscribed
    decreases |keys|
  {
    if keys == [] then Ok([]) else
      assert keys[0] in keys;
      match (ReadObject(w, s.objects[s.reg.subscribed[keys[0]]], s.mem), ExportEntries(w, s, keys[1..]))
      case (Ok(v), Ok(js)) => Ok([ExportEntry(keys[0], v)] + js)
      case _ => Abort
  }

  function ExportMessage(js: seq<Json>): Json {
    Obj(map["Operation" := Str("ExportDataref"), "Datarefs" := Arr(js)])
  }

  /** ExportSubscribedDataref. */
  function Export(w: World, h: Host): (Host, bool)
    requires Closed(h.sys)
  {
    match ExportEntries(w, h.sys, SortedKeys(h.sys.reg.subscribed.Keys))
    case Ok(js) => (h.(sent := h.sent + ToAll(w.codec.dump(ExportMessage(js)), h.clients)), true)
    case Abort => (h, false)
  }

  // ----- Whole runs --------------------------------------------------------------------------

  datatype Input =
    | Network(env: Env, datagram: Option<Datagram>)
    | ExportDue
    | FlightDue
    | Announced(data: string)  // a simulator event or the beacon
    | Changed(mem: Memory)

  function HostStep(w: World, outPort: int, h: Host, i: Input): (Host, bool)
    requires Closed(h.sys)
  {
    match i
    case Network(env, datagram) => Serve(w, env, outPort, h, datagram)
    case ExportDue => Export(w, h)
    case FlightDue => var (s, ok) := FlightFrame(w, h.sys); (h.(sys := s), ok)
    case Announced(data) => (h.(sent := h.sent + ToAll(data, h.clients)), true)
    case Changed(m) => (h.(sys := h.sys.(mem := m)), true)
  }

  /** What an input is to the system. */
  function InputEvents(w: World, h: Host, i: Input): seq<Event>
    requires Closed(h.sys)
  {
    match i
    case Network(env, datagram) =>
      var first := if h.sys.ffReady then [] else [ConstFrame];
      var ok := h.sys.ffReady || ConstantPass(w, h.sys).1;
      if ok && Arrived(datagram) && w.codec.parse(datagram.value.data).Some?
      then first + [Request(env, w.codec.parse(datagram.value.data).value)] else first
    case ExportDue => []
    case Announced(_) => []
    case FlightDue => [FlightUpdate]
    case Changed(m) => [Outside(m)]
  }

  lemma ServeIsRun(w: World, env: Env, outPort: int, h: Host, datagram: Option<Datagram>)
    requires Closed(h.sys)
    ensures Serve(w, env, outPort, h, datagram).0.sys == After(w, h.sys, InputEvents(w, h, Network(env, datagram)))
  {
    hide Execute, ConstantPass, EventOps, Remember, ToAll;
    var s := BeforeRequest(w, h.sys).0;
    var first := if h.sys.ffReady then [] else [ConstFrame];
    OneStep(w, h.sys, ConstFrame);
    assert After(w, h.sys, first) == s;
    if Arrived(datagram) && w.codec.parse(datagram.value.data).Some? {
      var e := Request(env, w.codec.parse(datagram.value.data).value);
      OneStep(w, s, e);
      AfterConcat(w, h.sys, first, [e]);
    }
  }

  lemma HostStepIsRun(w: World, outPort: int, h: Host, i: Input)
    requires Closed(h.sys)
    ensures HostStep(w, outPort, h, i).0.sys == After(w, h.sys, InputEvents(w, h, i))
  {
    hide Serve, SetConstants, PushTargets, SortedKeys, ExportEntries;
    match i {
      case Network(env, datagram) => ServeIsRun(w, env, outPort, h, datagram);
      case FlightDue => OneStep(w, h.sys, FlightUpdate);
      case Changed(m) => OneStep(w, h.sys, Outside(m));
      case _ =>
    }
  }

  /** The host after some inputs, and whether every step returned. */
  function HostAfter(w: World, outPort: int, h: Host, inputs: seq<Input>): (r: (Host, bool))
    requires Closed(h.sys)
    ensures Closed(r.0.sys)
    decreases |inputs|
  {
    if inputs == [] then (h, true) else
      var (t, ok) := HostAfter(w, outPort, h, inputs[..|inputs| - 1]);
      if !ok then (t, false) else
        HostStepIsRun(w, outPort, t, inputs[|inputs| - 1]);
        HostStep(w, outPort, t, inputs[|inputs| - 1])
  }

  function HostEvents(w: World, outPort: int, h: Host, inputs: seq<Input>): seq<Event>
    requires Closed(h.sys)
    decreases |inputs|
  {
    if inputs == [] then [] else
      var init := inputs[..|inputs| - 1];
      var (t, ok) := HostAfter(w, outPort, h, init);
      HostEvents(w, outPort, h, init) + if ok then InputEvents(w, t, inputs[|inputs| - 1]) else []
  }

  /** A run of the host is a run of the system, so all that holds of those holds here. */
  lemma {:induction false} HostRunIsSystemRun(w: World, outPort: int, h: Host, inputs: seq<Input>)
    requires Closed(h.sys)
    ensures HostAfter(w, outPort, h, inputs).0.sys == After(w, h.sys, HostEvents(w, outPort, h, inputs))
    decreases |inputs|
  {
    hide HostStep, InputEvents, Step;
    if inputs != [] {
      var init, last := inputs[..|inputs| - 1], inputs[|inputs| - 1];
      HostRunIsSystemRun(w, outPort, h, init);
      var (t, ok) := HostAfter(w, outPort, h, init);
      if ok {
        HostStepIsRun(w, outPort, t, last);
        AfterConcat(w, h.sys, HostEvents(w, outPort, h, init), InputEvents(w, t, last));
      } else {
        assert HostEvents(w, outPort, h, inputs) == HostEvents(w, outPort, h, init);
      }
    }
  }

  // ----- Clients --------------------------------------------------------------------------------

  /** c sent a non-empty datagram among the inputs. */
  ghost predicate Spoke(inputs: seq<Input>, outPort: int, c: Client) {
    exists k :: 0 <= k < |inputs| && From(inputs[k], outPort, c)
  }

  predicate From(i: Input, outPort: int, c: Client) {
    i.Network? && Arrived(i.datagram) && c == Client(i.datagram.value.ip, outPort)
  }

  predicate Distinct(cs: seq<Client>) { forall i, j | 0 <= i < j < |cs| :: cs[i] != cs[j] }

  lemma StepClients(w: World, outPort: int, h: Host, i: Input)
    requires Closed(h.sys) && HostStep(w, outPort, h, i).1
    ensures HostStep(w, outPort, h, i).0.clients ==
      if i.Network? && Arrived(i.datagram) then Remember(h.clients, Client(i.datagram.value.ip, outPort)) else h.clients
  {
    hide Execute, BeforeRequest, ConstantPass, FlightFrame, ExportEntries;
  }

  /** The client list holds each sender of a non-empty request once, at the outbound port. */
  lemma {:induction false} ClientsAreSenders(w: World, outPort: int, h: Host, inputs: seq<Input>)
    requires Closed(h.sys) && h.clients == [] && HostAfter(w, outPort, h, inputs).1
    ensures var clients := HostAfter(w, outPort, h, inputs).0.clients;
      Distinct(clients) && forall c :: c in clients <==> Spoke(inputs, outPort, c)
    decreases |inputs|
  {
    hide HostStep, HostEvents;
    if inputs != [] {
      var init, last := inputs[..|inputs| - 1], inputs[|inputs| - 1];
      ClientsAreSenders(w, outPort, h, init);
      var t := HostAfter(w, outPort, h, init).0;
      StepClients(w, outPort, t, last);
      forall c
        ensures Spoke(inputs, outPort, c) <==> Spoke(init, outPort, c) || From(last, outPort, c)
      {
        SpokeExtend(init, last, outPort, c);
        assert inputs == init + [last];
      }
    }
  }

  lemma SpokeExtend(init: seq<Input>, last: Input, outPort: int, c: Client)
    ensures Spoke(init + [last], outPort, c) <==> Spoke(init, outPort, c) || From(last, outPort, c)
  {
    var all := init + [last];
    assert all[|init|] == last;
    if Spoke(init, outPort, c) {
      var k :| 0 <= k < |init| && From(init[k], outPort, c);
      assert all[k] == init[k];
    }
  }

  /** The list only grows at its end. */
  lemma {:induction false} ClientsGrow(w: World, outPort: int, h: Host, inputs: seq<Input>, more: seq<Input>)
    requires Closed(h.sys) && HostAfter(w, outPort, h, inputs + more).1
    ensures HostAfter(w, outPort, h, inputs).1
    ensures HostAfter(w, outPort, h, inputs).0.clients <= HostAfter(w, outPort, h, inputs + more).0.clients
    decreases |more|
  {
    hide HostStep;
    if more == [] {
      assert inputs + more == inputs;
    } else {
      var init, last := more[..|more| - 1], more[|more| - 1];
      assert (inputs + more)[..|inputs + more| - 1] == inputs + init;
      ClientsGrow(w, outPort, h, inputs, init);
      StepClients(w, outPort, HostAfter(w, outPort, h, inputs + init).0, last);
    }
  }

  /** The text NetworkCallback broadcasts for a request. */
  function ReplyText(w: World, env: Env, s: System, datagram: Datagram): string
    requires Closed(s) && w.codec.parse(datagram.data).Some?
  {
    w.codec.dump(Execute(w, env, BeforeRequest(w, s).0, w.codec.parse(datagram.data).value).j)
  }

  lemma ServedReply(w: World, env: Env, outPort: int, h: Host, datagram: Option<Datagram>)
    requires Closed(h.sys) && Arrived(datagram) && Serve(w, env, outPort, h, datagram).1
    ensures w.codec.parse(datagram.value.data).Some?
    ensures Serve(w, env, outPort, h, datagram).0.sent ==
      h.sent + ToAll(ReplyText(w, env, h.sys, datagram.value), h.clients)
  {
    hide Execute, BeforeRequest;
  }

  lemma ToAllReaches(text: string, clients: seq<Client>)
    requires Distinct(clients)
    ensures forall c :: Packet(text, c) in ToAll(text, clients) <==> c in clients
    ensures var added := ToAll(text, clients); forall i, j | 0 <= i < j < |added| :: added[i] != added[j]
  {
    forall c | c in clients
      ensures Packet(text, c) in ToAll(text, clients)
    {
      var i :| 0 <= i < |clients| && clients[i] == c;
      assert ToAll(text, clients)[i] == Packet(text, c);
    }
  }

  lemma HostAfterOneMore(w: World, outPort: int, h: Host, inputs: seq<Input>, last: Input)
    requires Closed(h.sys)
    ensures var (t, ok) := HostAfter(w, outPort, h, inputs);
      HostAfter(w, outPort, h, inputs + [last]) == if ok then HostStep(w, outPort, t, last) else (t, false)
  {
    hide HostStep;
    assert (inputs + [last])[..|inputs + [last]| - 1] == inputs;
  }

  /** The reply to a request is sent once to every sender of an earlier request and to no
      one else: a first-time sender does not get it. */
  lemma RepliesGoToEarlierSenders(w: World, outPort: int, h: Host, inputs: seq<Input>, env: Env,
                                  datagram: Option<Datagram>)
    requires Closed(h.sys) && h.clients == [] && Arrived(datagram)
    requires HostAfter(w, outPort, h, inputs + [Network(env, datagram)]).1
    ensures w.codec.parse(datagram.value.data).Some?
    ensures
      var t := HostAfter(w, outPort, h, inputs).0;
      var text := ReplyText(w, env, t.sys, datagram.value);
      var after := HostAfter(w, outPort, h, inputs + [Network(env, datagram)]).0.sent;
      var added := ToAll(text, t.clients);
      && after == t.sent + added
      && (forall c :: Packet(text, c) in added <==> Spoke(inputs, outPort, c))
      && (forall i, j | 0 <= i < j < |added| :: added[i] != added[j])
  {
    hide HostStep, Serve, ReplyText, HostAfter, ToAll, Spoke;
    HostAfterOneMore(w, outPort, h, inputs, Network(env, datagram));
    var t := HostAfter(w, outPort, h, inputs).0;
    ClientsAreSenders(w, outPort, h, inputs);
    NetworkIsServe(w, outPort, t, env, datagram);
    ServedReply(w, env, outPort, t, datagram);
    ToAllReaches(ReplyText(w, env, t.sys, datagram.value), t.clients);
  }

  lemma NetworkIsServe(w: World, outPort: int, h: Host, env: Env, datagram: Option<Datagram>)
    requires Closed(h.sys)
    ensures HostStep(w, outPort, h, Network(env, datagram)) == Serve(w, env, outPort, h, datagram)
  {
    hide Serve;
  }

  // ----- Export ---------------------------------------------------------------------------------

  lemma {:induction false} EntriesAre(w: World, s: System, keys: seq<string>)
    requires Closed(s) && forall k | k in keys :: k in s.reg.subscribed
    ensures var r := ExportEntries(w, s, keys);
      && (r.Ok? <==> forall k | k in keys :: ReadObject(w, s.objects[s.reg.subscribed[k]], s.mem).Ok?)
      && (r.Ok? ==> |r.value| == |keys| && forall i | 0 <= i < |keys| ::
            keys[i] in keys && ReadObject(w, s.objects[s.reg.subscribed[keys[i]]], s.mem).Ok? &&
            r.value[i] == ExportEntry(keys[i], ReadObject(w, s.objects[s.reg.subscribed[keys[i]]], s.mem).value))
    decreases |keys|
  {
    hide ReadObject;
    if keys != [] {
      var rest := keys[1..];
      assert keys[0] in keys && keys == [keys[0]] + rest;
      EntriesAre(w, s, rest);
      assert forall k | k in keys :: k == keys[0] || k in rest;
    }
  }

  lemma GetAnswer(w: World, s: System, n: string)
    requires Closed(s) && n in s.reg.named
    ensures var r := ReadObject(w, s.objects[s.reg.named[n]], s.mem);
      OnGet(w, s, Ask(n)) == if r.Ok? then Reply(s, Ok(0), ExportEntry(n, r.value)) else Reply(s, Abort, Ask(n))
  {
    hide ReadObject;
    var r := ReadObject(w, s.objects[s.reg.named[n]], s.mem);
    if r.Ok? {
      assert Put(Ask(n), "Value", Str(r.value)) == ExportEntry(n, r.value);
    }
  }

  /** In every reachable state an export lists the subscribed names in increasing order,
      each once, each with the value GET_REG_DATA replies in that state; it fails exactly
      when one of those requests would. */
  lemma ExportAgreesWithGet(w: World, s: System, events: seq<Event>)
    requires Initial(s)
    ensures var t := After(w, s, events);
      var keys := SortedKeys(t.reg.subscribed.Keys);
      var r := ExportEntries(w, t, keys);
      && Increasing(keys) && (forall n :: n in keys <==> R.Subscribed(Log(w, s, events), n))
      && (r.Ok? <==> forall n | n in keys :: OnGet(w, t, Ask(n)).code == Ok(0))
      && (r.Ok? ==> |r.value| == |keys| && forall i | 0 <= i < |keys| ::
            OnGet(w, t, Ask(keys[i])) == Reply(t, Ok(0), r.value[i]))
  {
    hide ReadObject, Step, EventOps, OnGet, After, SortedKeys, R.Subscribed, ExportEntries;
    var t := After(w, s, events);
    var keys := SortedKeys(t.reg.subscribed.Keys);
    RegistryIsLog(w, s, events);
    EntriesAre(w, t, keys);
    forall n
      ensures n in keys <==> R.Subscribed(Log(w, s, events), n)
      ensures n in keys ==> n in t.reg.named && t.reg.named[n] == t.reg.subscribed[n]
    {
      R.SubscribedHistory(Log(w, s, events), n);
      R.Coherent(Log(w, s, events), n);
    }
    forall n | n in keys
      ensures var r := ReadObject(w, t.objects[t.reg.subscribed[n]], t.mem);
        OnGet(w, t, Ask(n)) == if r.Ok? then Reply(t, Ok(0), ExportEntry(n, r.value)) else Reply(t, Abort, Ask(n))
    {
      GetAnswer(w, t, n);
    }
  }

  // ----- The objects ----------------------------------------------------------------------------

  function Prepend(done: seq<Json>, r: Result<seq<Json>>): Result<seq<Json>> {
    match r case Ok(js) => Ok(done + js) case Abort => Abort
  }

  lemma PrependNothing(r: Result<seq<Json>>)
    ensures Prepend([], r) == r
  {
    assert r.Ok? ==> [] + r.value == r.value;
  }

  lemma NextEntry(w: World, s: System, keys: seq<string>, i: nat, done: seq<Json>)
    requires Closed(s) && i < |keys| && forall k | k in keys :: k in s.reg.subscribed
    ensures keys[i] in keys
    ensures var v := ReadObject(w, s.objects[s.reg.subscribed[keys[i]]], s.mem);
      Prepend(done, ExportEntries(w, s, keys[i..])) ==
        if v.Ok? then Prepend(done + [ExportEntry(keys[i], v.value)], ExportEntries(w, s, keys[i + 1..])) else Abort
  {
    hide ReadObject, ExportEntry;
    assert keys[i] in keys && keys[i..][1..] == keys[i + 1..];
    var rest := ExportEntries(w, s, keys[i + 1..]);
    var v := ReadObject(w, s.objects[s.reg.subscribed[keys[i]]], s.mem);
    if v.Ok? && rest.Ok? {
      var entry := [ExportEntry(keys[i], v.value)];
      assert done + (entry + rest.value) == (done + entry) + rest.value;
    }
  }

  lemma LastEntry(w: World, s: System, done: seq<Json>)
    requires Closed(s)
    ensures Prepend(done, ExportEntries(w, s, [])) == Ok(done)
  {
    assert done + [] == done;
  }

  class Plugin {
    const manager: CallbackManager
    const outPort: int
    var clients: seq<Client>
    var sent: seq<Packet>

    constructor (manager: CallbackManager, outPort: int)
      ensures this.manager == manager && this.outPort == outPort && clients == [] && sent == []
    {
      this.manager, this.outPort := manager, outPort;
      clients, sent := [], [];
    }

    ghost function Value(): Host
      reads this, manager
    {
      Host(manager.abs, clients, sent)
    }

    method BroadCastData(data: string)
      modifies this`sent
      ensures sent == old(sent) + ToAll(data, clients)
    {
      for i := 0 to |clients|
        invariant sent == old(sent) + ToAll(data, clients[..i])
      {
        sent := sent + [Packet(data, clients[i])];
        assert clients[..i + 1] == clients[..i] + [clients[i]];
      }
      assert clients[..|clients|] == clients;
    }

    /** The search in CLIENTS and the push that follows it. */
    method Note(cli: Client)
      modifies this`clients
      ensures clients == Remember(old(clients), cli)
    {
      var foundClient := false;
      for i := 0 to |clients|
        invariant !foundClient && cli !in clients[..i]
      {
        if clients[i].ip == cli.ip && clients[i].port == cli.port {
          foundClient := true;
          break;
        }
      }
      if !foundClient {
        clients := clients + [cli];
      }
    }

    /** The constants, when FlightFactor's frames do not set them. */
    method RunConstants() returns (ok: bool)
      requires manager.Valid()
      modifies manager.sim`mem, Refs(manager.heap), manager`abs
      ensures manager.Valid()
      ensures (manager.abs, ok) == BeforeRequest(manager.sim.world, old(manager.abs))
    {
      hide Faithful, Closed, Represents, Matches, ConstsMatch, ConstantPass;
      ok := true;
      if !manager.ffReady {
        ok := manager.ExecuteConstantDataref();
      }
    }

    /** false when the call does not return. */
    method NetworkCallback(datagram: Option<Datagram>, env: Env) returns (ok: bool)
      requires manager.Valid() && this !in Refs(manager.heap)
      modifies this`clients, this`sent, manager, manager.sim`mem, Refs(manager.heap)
      ensures manager.Valid() && Callbacks.Grows(manager)
      ensures (Value(), ok) == Serve(manager.sim.world, env, outPort, old(Value()), datagram)
    {
      hide Faithful, Closed, Represents, Matches, ConstsMatch, Execute, BeforeRequest;
      ok := RunConstants();
      if !ok {
        return;
      }
      if datagram.None? || |datagram.value.data| < 1 {
        return true;
      }
      var operation := manager.sim.world.codec.parse(datagram.value.data);
      if operation.None? {
        return false;
      }
      var code, reply := Callbacks.ExecuteCallback(operation.value, manager, env);
      if code.Abort? {
        return false;
      }
      BroadCastData(manager.sim.world.codec.dump(reply));
      Note(Client(datagram.value.ip, outPort));
      ok := true;
    }

    /** snd->GetValue() for one entry of subscribed. */
    method ReadEntry(key: string) returns (r: Result<string>)
      requires manager.Valid() && key in manager.abs.reg.subscribed
      ensures r == ReadObject(manager.sim.world, manager.abs.objects[manager.abs.reg.subscribed[key]], manager.abs.mem)
    {
      hide Faithful, Represents, Matches, ConstsMatch, ReadObject;
      NamesOf(manager.subscribed, manager.abs.reg.subscribed, manager.heap);
      r := manager.GetValue(manager.subscribed[key], manager.abs.reg.subscribed[key]);
    }

    /** The loop of ExportSubscribedDataref. */
    method ReadSubscribed() returns (r: Result<seq<Json>>)
      requires manager.Valid()
      ensures r == ExportEntries(manager.sim.world, manager.abs, SortedKeys(manager.abs.reg.subscribed.Keys))
    {
      hide Faithful, Represents, Matches, ConstsMatch, ReadObject, Closed, ExportEntries, Prepend, ExportEntry,
        SortedKeys;
      NamesOf(manager.subscribed, manager.abs.reg.subscribed, manager.heap);
      var keys := SortedKeys(manager.subscribed.Keys);
      var datarefs: seq<Json> := [];
      ghost var w, s := manager.sim.world, manager.abs;
      PrependNothing(ExportEntries(w, s, keys));
      assert keys[0..] == keys;
      for i := 0 to |keys|
        invariant Prepend(datarefs, ExportEntries(w, s, keys[i..])) == ExportEntries(w, s, keys)
      {
        NextEntry(w, s, keys, i, datarefs);
        var val := ReadEntry(keys[i]);
        if val.Abort? {
          return Abort;
        }
        datarefs := datarefs + [ExportEntry(keys[i], val.value)];
      }
      LastEntry(w, s, datarefs);
      r := Ok(datarefs);
    }

    /** false when the call does not return. */
    method ExportSubscribedDataref() returns (ok: bool)
      requires manager.Valid()
      modifies this`sent
      ensures (Value(), ok) == Export(manager.sim.world, old(Value()))
    {
      hide Faithful, Represents, Matches, ConstsMatch, Closed, ExportEntries;
      var datarefs := ReadSubscribed();
      if datarefs.Abort? {
        return false;
      }
      BroadCastData(manager.sim.world.codec.dump(ExportMessage(datarefs.value)));
      ok := true;
    }

    /** Something else in the simulator writes to its memory. */
    method Disturb(m: Memory)
      requires manager.Valid()
      modifies manager.sim`mem, manager`abs
      ensures manager.Valid() && manager.abs == old(manager.abs).(mem := m)
    {
      hide Faithful, Represents, Matches, ConstsMatch, Closed;
      MemoryReplaced(manager.abs, m);
      manager.sim.mem := m;
      manager.abs := manager.abs.(mem := m);
    }

    /** One call from the simulator; false when it does not return. */
    method Handle(i: Input) returns (ok: bool)
      requires manager.Valid() && this !in Refs(manager.heap)
      modifies this`clients, this`sent, manager, manager.sim`mem, Refs(manager.heap)
      ensures manager.Valid() && Callbacks.Grows(manager)
      ensures (Value(), ok) == HostStep(manager.sim.world, outPort, old(Value()), i)
    {
      hide Faithful, Closed, Represents, Matches, ConstsMatch, Serve, Export, FlightFrame;
      ok := true;
      match i {
        case Network(env, datagram) => ok := NetworkCallback(datagram, env);
        case ExportDue => ok := ExportSubscribedDataref();
        case FlightDue => ok := manager.FF320Callback();
        case Announced(data) => BroadCastData(data);
        case Changed(m) => Disturb(m);
      }
    }
  }

  // ----- The plugin's life ------------------------------------------------------------------

  /** The plugin as XPluginEnable leaves it, with one library loaded. */
  function Enabled(m: Memory, library: seq<CallbackTable.Entry<Callback>>): Host {
    Host(System(R.EMPTY, map[], m, false, CallbackTable.Loaded(map[], library)), [], [])
  }

  /** Once a call did not return there are no more. */
  lemma {:induction false} Stopped(w: World, outPort: int, h: Host, inputs: seq<Input>, more: seq<Input>)
    requires Closed(h.sys) && !HostAfter(w, outPort, h, inputs).1
    ensures HostAfter(w, outPort, h, inputs + more) == HostAfter(w, outPort, h, inputs)
    decreases |more|
  {
    hide HostStep;
    if more == [] {
      assert inputs + more == inputs;
    } else {
      assert (inputs + more)[..|inputs + more| - 1] == inputs + more[..|more| - 1];
      Stopped(w, outPort, h, inputs, more[..|more| - 1]);
    }
  }

  /** The objects the plugin works on, made when it is enabled. */
  method Enable(w: World, m: Memory, outPort: int, library: seq<CallbackTable.Entry<Callback>>) returns (plugin: Plugin)
    requires Faithful(w.codec)
    ensures fresh(plugin) && fresh(plugin.manager) && fresh(plugin.manager.sim)
    ensures plugin.outPort == outPort && plugin.manager.sim.world == w && plugin.manager.heap == map[]
    ensures plugin.manager.Valid() && plugin.Value() == Enabled(m, library)
  {
    hide Faithful, Represents, Matches, ConstsMatch, Closed, CallbackTable.Loaded;
    var sim := new Simulator(w, m);
    var manager := new CallbackManager(sim);
    var table := CallbackTable.Load(manager.callbacks, library);
    manager.SetTable(table);
    plugin := new Plugin(manager, outPort);
  }

  /** The plugin from the moment it is enabled, through any sequence of calls: what its
      objects end up with is what the run on values says. */
  method Live(w: World, m: Memory, outPort: int, library: seq<CallbackTable.Entry<Callback>>, inputs: seq<Input>)
    returns (clients: seq<Client>, sent: seq<Packet>, mem: Memory, ok: bool)
    requires Faithful(w.codec)
    ensures Closed(Enabled(m, library).sys)
    ensures var (t, done) := HostAfter(w, outPort, Enabled(m, library), inputs);
      ok == done && clients == t.clients && sent == t.sent && mem == t.sys.mem
  {
    hide Faithful, Represents, Matches, ConstsMatch, HostStep, HostAfter, Enabled;
    var plugin := Enable(w, m, outPort, library);
    ghost var start := Enabled(m, library);
    NothingYet(w, outPort, start);
    ok := true;
    for i := 0 to |inputs|
      invariant ok && plugin.manager.Valid() && plugin !in Refs(plugin.manager.heap)
      invariant forall k | k in plugin.manager.heap :: fresh(RefOf(plugin.manager.heap[k]))
      invariant (plugin.Value(), true) == HostAfter(w, outPort, start, inputs[..i])
    {
      assert inputs[..i + 1] == inputs[..i] + [inputs[i]];
      HostAfterOneMore(w, outPort, start, inputs[..i], inputs[i]);
      ok := plugin.Handle(inputs[i]);
      if !ok {
        Stopped(w, outPort, start, inputs[..i + 1], inputs[i + 1..]);
        assert inputs[..i + 1] + inputs[i + 1..] == inputs;
        return plugin.clients, plugin.sent, plugin.manager.sim.mem, false;
      }
    }
    assert inputs[..|inputs|] == inputs;
    clients, sent, mem := plugin.clients, plugin.sent, plugin.manager.sim.mem;
  }

  lemma NothingYet(w: World, outPort: int, h: Host)
    requires Closed(h.sys)
    ensures HostAfter(w, outPort, h, []) == (h, true)
  {
  }
}
