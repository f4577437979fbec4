/** What is in the packets the plugin sends. */
module Packets {
  import opened Prelude
  import opened KeyOrder
  import opened Numerals
  import opened JsonTree
  import opened Simulation
  import opened System
  import opened Requests
  import opened Runs
  import opened Guarantees
  import opened Server
  import opened Protocol
  import opened Conversations
  import opened ArrayWrites
  import RoundTrips
  import R = Registry
  import Frames
  import D = Datarefs

  /** Each client in turn is sent the data. */
  predicate SentTo(before: seq<Packet>, after: seq<Packet>, clients: seq<Client>, data: string) {
    |after| == |before| + |clients|
    && (forall i | 0 <= i < |before| :: after[i] == before[i])
    && (forall i | 0 <= i < |clients| :: after[|before| + i] == Packet(data, clients[i]))
  }

  lemma ToAllSends(before: seq<Packet>, clients: seq<Client>, data: string)
    ensures SentTo(before, before + ToAll(data, clients), clients, data)
  {
  }

  // ----- Replies ------------------------------------------------------------------------------

  /** A request: first the constants, unless FlightFactor's frames set them; then what it asks
      for. Each client known before is sent the resulting document, and the sender is a client
      from then on. */
  lemma RequestPackets(w: World, env: Env, outPort: int, h: Host, datagram: Datagram, j: Json)
    requires Closed(h.sys) && datagram.data != "" && w.codec.parse(datagram.data) == Some(j)
    ensures var u := if h.sys.ffReady then (h.sys, true) else ConstantPass(w, h.sys);
      Closed(u.0) &&
      var r, c := Execute(w, env, u.0, j), Client(datagram.ip, outPort);
      var (t, ok) := HostStep(w, outPort, h, Network(env, Some(datagram)));
      && (ok <==> u.1 && r.code.Ok?)
      && t.sys == (if u.1 then r.s else u.0)
      && t.clients == (if ok && c !in h.clients then h.clients + [c] else h.clients)
      && if ok then SentTo(h.sent, t.sent, h.clients, w.codec.dump(r.j)) else t.sent == h.sent
  {
    hide Execute, ConstantPass, Closed, ToAll, SentTo;
    FramesKeep(w, h.sys);
    var u := if h.sys.ffReady then (h.sys, true) else ConstantPass(w, h.sys);
    ToAllSends(h.sent, h.clients, w.codec.dump(Execute(w, env, u.0, j).j));
  }

  /** Nothing arrived: the constants are set and nothing is sent. Text that is no JSON throws. */
  lemma SilentSteps(w: World, env: Env, outPort: int, h: Host, datagram: Option<Datagram>)
    requires Closed(h.sys)
    requires datagram.None? || datagram.value.data == "" || w.codec.parse(datagram.value.data).None?
    ensures var u := if h.sys.ffReady then (h.sys, true) else ConstantPass(w, h.sys);
      HostStep(w, outPort, h, Network(env, datagram)) ==
        (h.(sys := u.0), u.1 && (datagram.None? || datagram.value.data == ""))
  {
    hide Execute, ConstantPass, Closed;
    FramesKeep(w, h.sys);
  }

  /** An announcement is sent as it is; a frame and a change from outside send nothing. */
  lemma OtherSteps(w: World, outPort: int, h: Host, data: string, m: Memory)
    requires Closed(h.sys)
    ensures var (t, ok) := HostStep(w, outPort, h, Announced(data));
      ok && SentTo(h.sent, t.sent, h.clients, data) && t.sys == h.sys && t.clients == h.clients
    ensures var (t, ok) := HostStep(w, outPort, h, FlightDue);
      (t.sys, ok) == FlightFrame(w, h.sys) && t.sent == h.sent && t.clients == h.clients
    ensures HostStep(w, outPort, h, Changed(m)) == (h.(sys := h.sys.(mem := m)), true)
  {
    hide ToAll, SentTo, FlightFrame, Closed;
    ToAllSends(h.sent, h.clients, data);
  }

  // ----- Exports ------------------------------------------------------------------------------

  /** e is the entry of name n: the name and the text GET_REG_DATA replies for it. */
  predicate IsEntry(w: World, env: Env, s: System, n: string, e: Json)
    requires Closed(s)
  {
    !Lacks(e, "Value") && e.fields["Value"].Str?
    && e == Obj(map["Name" := Str(n), "Value" := e.fields["Value"]])
    && Answers(Execute(w, env, s, GetDoc(n)), GetDoc(n), e.fields["Value"].text)
  }

  /** data is the JSON text of an export: one entry for each of the names, in their order. */
  predicate Exports(w: World, env: Env, s: System, names: seq<string>, data: string)
    requires Closed(s)
  {
    var j := w.codec.parse(data);
    && j.Some? && j.value.Obj? && j.value.fields.Keys == {"Operation", "Datarefs"}
    && j.value.fields["Operation"] == Str("ExportDataref") && j.value.fields["Datarefs"].Arr?
    && var es := j.value.fields["Datarefs"].elems;
    |es| == |names| && forall i | 0 <= i < |es| :: IsEntry(w, env, s, names[i], es[i])
  }

  lemma GetDocAnswer(w: World, env: Env, s: System, n: string)
    requires Serves(s) && n in s.reg.named
    ensures var r := ReadObject(w, s.objects[s.reg.named[n]], s.mem);
      if r.Ok? then Answers(Execute(w, env, s, GetDoc(n)), GetDoc(n), r.value)
      else Execute(w, env, s, GetDoc(n)).code == Abort
  {
    hide Execute, ReadObject, Closed;
    Dispatch(w, env, s, GetDoc(n), GetRegisterDatarefValue);
  }

  lemma EntryIs(w: World, env: Env, s: System, n: string, v: string)
    requires Closed(s) && Answers(Execute(w, env, s, GetDoc(n)), GetDoc(n), v)
    ensures IsEntry(w, env, s, n, ExportEntry(n, v))
  {
    hide Execute, Answers, GetDoc;
    var e := ExportEntry(n, v);
    assert e.fields["Value"] == Str(v);
    assert e.fields == map["Name" := Str(n), "Value" := Str(v)];
  }

  lemma MessageExports(w: World, env: Env, s: System, names: seq<string>, es: seq<Json>)
    requires Closed(s) && Faithful(w.codec) && |es| == |names|
    requires forall i | 0 <= i < |es| :: IsEntry(w, env, s, names[i], es[i])
    ensures Exports(w, env, s, names, w.codec.dump(ExportMessage(es)))
  {
    hide IsEntry, Closed;
    var j := ExportMessage(es);
    assert j.fields["Operation"] == Str("ExportDataref") && j.fields["Datarefs"] == Arr(es);
    assert j.fields.Keys == {"Operation", "Datarefs"};
  }

  lemma NamesHaveObjects(s: System)
    requires Closed(s)
    ensures forall n | n in s.reg.subscribed :: s.reg.subscribed[n] in s.objects
  {
  }

  /** An export in a state where every subscription holds the object its name stands for. */
  lemma ExportIs(w: World, env: Env, h: Host, names: seq<string>)
    requires Serves(h.sys) && Faithful(w.codec) && names == SortedKeys(h.sys.reg.subscribed.Keys)
    requires forall n | n in h.sys.reg.subscribed ::
      n in h.sys.reg.named && h.sys.reg.named[n] == h.sys.reg.subscribed[n]
    ensures var (t, ok) := Export(w, h);
      && t.sys == h.sys && t.clients == h.clients
      && (ok <==> forall n | n in names :: Execute(w, env, h.sys, GetDoc(n)).code.Ok?)
      && (if ok then exists data :: SentTo(h.sent, t.sent, h.clients, data) && Exports(w, env, h.sys, names, data)
          else t.sent == h.sent)
  {
    hide Execute, ReadObject, Closed, SentTo, ToAll, ExportEntries, SortedKeys, OperationName, IsEntry, Exports,
      ExportMessage, ExportEntry, GetDoc, Binds;
    var s := h.sys;
    EntriesAre(w, s, names);
    NamesHaveObjects(s);
    forall n | n in names
      ensures var r := ReadObject(w, s.objects[s.reg.subscribed[n]], s.mem);
        if r.Ok? then Answers(Execute(w, env, s, GetDoc(n)), GetDoc(n), r.value)
        else Execute(w, env, s, GetDoc(n)).code == Abort
    {
      GetDocAnswer(w, env, s, n);
    }
    var r := ExportEntries(w, s, names);
    if r.Ok? {
      forall i | 0 <= i < |names|
        ensures IsEntry(w, env, s, names[i], r.value[i])
      {
        assert names[i] in names;
        EntryIs(w, env, s, names[i], ReadObject(w, s.objects[s.reg.subscribed[names[i]]], s.mem).value);
      }
      MessageExports(w, env, s, names, r.value);
      ToAllSends(h.sent, h.clients, w.codec.dump(ExportMessage(r.value)));
    }
  }

  /** In every run: an export sends each client one packet with exactly the subscribed names, in
      increasing order, each with the text GET_REG_DATA replies for it in that state. It throws
      exactly when one of those requests would. */
  lemma ExportPackets(w: World, env: Env, outPort: int, h: Host, inputs: seq<Input>)
    requires Initial(h.sys) && Serves(h.sys) && Faithful(w.codec) && HostAfter(w, outPort, h, inputs).1
    ensures var t := HostAfter(w, outPort, h, inputs).0;
      var (u, ok) := HostAfter(w, outPort, h, inputs + [ExportDue]);
      var names, log := SortedKeys(t.sys.reg.subscribed.Keys), Log(w, h.sys, HostEvents(w, outPort, h, inputs));
      && Increasing(names) && (forall n :: n in names <==> R.Subscribed(log, n))
      && u.sys == t.sys && u.clients == t.clients
      && (ok <==> forall n | n in names :: Execute(w, env, t.sys, GetDoc(n)).code.Ok?)
      && (if ok then exists data :: SentTo(t.sent, u.sent, t.clients, data) && Exports(w, env, t.sys, names, data)
          else u.sent == t.sent)
  {
    hide HostStep, HostAfter, HostEvents, After, Execute, Log, Export, SortedKeys, R.Subscribed, Exports, SentTo,
      OperationName, Closed, R.Run, GetDoc, Increasing;
    var t, events := HostAfter(w, outPort, h, inputs).0, HostEvents(w, outPort, h, inputs);
    HostRunIsSystemRun(w, outPort, h, inputs);
    HostAfterOneMore(w, outPort, h, inputs, ExportDue);
    ServesForever(w, h.sys, events);
    RegistryIsLog(w, h.sys, events);
    forall n
      ensures n in t.sys.reg.subscribed <==> R.Subscribed(Log(w, h.sys, events), n)
      ensures n in t.sys.reg.subscribed ==>
        n in t.sys.reg.named && t.sys.reg.named[n] == t.sys.reg.subscribed[n]
    {
      R.SubscribedHistory(Log(w, h.sys, events), n);
      R.Coherent(Log(w, h.sys, events), n);
    }
    ExportStep(w, outPort, t);
    ExportIs(w, env, t, SortedKeys(t.sys.reg.subscribed.Keys));
  }

  lemma ExportStep(w: World, outPort: int, h: Host)
    requires Closed(h.sys)
    ensures HostStep(w, outPort, h, ExportDue) == Export(w, h)
  {
    hide Export, Closed;
  }

  // ----- An example -----------------------------------------------------------------------------

  function Say(w: World, env: Env, ip: string, j: Json): Input {
    Network(env, Some(Datagram(ip, w.codec.dump(j))))
  }

  lemma NoConstants(w: World, s: System)
    requires Closed(s) && s.reg.consts == map[]
    ensures ConstantPass(w, s) == (s, true)
  {
    assert s.reg.consts.Keys == {};
  }

  lemma SayIs(w: World, env: Env, outPort: int, h: Host, ip: string, j: Json)
    requires Closed(h.sys) && Faithful(w.codec) && h.sys.reg.consts == map[] && Execute(w, env, h.sys, j).code.Ok?
    requires h.clients == [] || h.clients == [Client(ip, outPort)]
    ensures var r := Execute(w, env, h.sys, j);
      HostStep(w, outPort, h, Say(w, env, ip, j)) ==
        (Host(r.s, [Client(ip, outPort)],
              h.sent + if h.clients == [] then [] else [Packet(w.codec.dump(r.j), h.clients[0])]), true)
  {
    hide Execute, ConstantPass, Closed, HostStep, Faithful;
    NoConstants(w, h.sys);
    DumpParses(w.codec, j);
    RequestPackets(w, env, outPort, h, Datagram(ip, w.codec.dump(j)), j);
    var (t, ok) := HostStep(w, outPort, h, Say(w, env, ip, j));
    assert ok && t.sys == Execute(w, env, h.sys, j).s;
    assert h.clients != [] ==> h.clients[0] == Client(ip, outPort);
    assert t.clients == [Client(ip, outPort)];
    var text := w.codec.dump(Execute(w, env, h.sys, j).j);
    assert t.sent == h.sent + if h.clients == [] then [] else [Packet(text, h.clients[0])];
  }

  lemma DumpParses(c: Codec, j: Json)
    requires Faithful(c)
    ensures c.dump(j) != "" && c.parse(c.dump(j)) == Some(j)
  {
  }

  /** A client registers an Int dataref, sets it and reads it. The first reply finds no client;
      the other two come back to it. */
  lemma WireExample(w: World, env: Env, outPort: int, m: Memory, ip: string, n: string, link: string, h: Handle, v: int)
    requires Faithful(w.codec) && link in w.links && w.links[link] == h && Stored(w, h, IntShape) && InInt32(v)
    ensures Closed(Enabled(m, DEFAULTS).sys)
    ensures var me := Client(ip, outPort);
      var (t, ok) := HostAfter(w, outPort, Enabled(m, DEFAULTS),
        [Say(w, env, ip, RegisterDoc(n, link, "INT")), Say(w, env, ip, SetDoc(n, Int(v))), Say(w, env, ip, GetDoc(n))]);
      && ok && t.clients == [me] && t.sys.mem == m[Cell(h, 0) := IntAtom(v)]
      && t.sent == [Packet(w.codec.dump(SetDoc(n, Int(v))), me), Packet(w.codec.dump(ValueDoc(n, PrintInt(v))), me)]
  {
    hide Execute, HostStep, HostAfter, Closed, RegisterDoc, SetDoc, GetDoc, PrintInt, Enabled, OperationName;
    EnabledServes(m);
    NewHost(m);
    var start := Enabled(m, DEFAULTS);
    var a, b, c := RegisterDoc(n, link, "INT"), SetDoc(n, Int(v)), GetDoc(n);
    IntSteps(w, env, start.sys, n, link, h, v);
    ThreeSteps(w, env, outPort, start, ip, a, b, c);
  }

  lemma IntSteps(w: World, env: Env, s: System, n: string, link: string, h: Handle, v: int)
    requires Serves(s) && n !in s.reg.named && s.reg.consts == map[]
    requires link in w.links && w.links[link] == h && Stored(w, h, IntShape) && InInt32(v)
    ensures var a := Execute(w, env, s, RegisterDoc(n, link, "INT"));
      && a.code.Ok? && Closed(a.s) && a.s.reg.consts == map[]
      && var b := Execute(w, env, a.s, SetDoc(n, Int(v)));
      && b.code.Ok? && Closed(b.s) && b.s.reg.consts == map[] && b.j == SetDoc(n, Int(v))
      && b.s.mem == s.mem[Cell(h, 0) := IntAtom(v)]
      && var c := Execute(w, env, b.s, GetDoc(n));
      && c.code.Ok? && c.j == ValueDoc(n, PrintInt(v)) && c.s == b.s
  {
    hide Execute, RegisterDoc, SetDoc, GetDoc, PrintInt, OperationName, Registers, SetsAndGets, Closed;
    RegisterDocRegisters(w, env, n, link, h, "INT", IntType);
    RegistrationIs(w, env, s, RegisterDoc(n, link, "INT"), n, link, h, IntType, "1.0f");
    DocsSetAndGet(n, Int(v));
    var t, d := Execute(w, env, s, RegisterDoc(n, link, "INT")).s, D.View(link, Some(h), IntType, "1.0f");
    DocText(w, n, v);
    ByDefaultFactor(w, d, s.mem, v);
    PairIs(w, env, t, SetDoc(n, Int(v)), GetDoc(n), n, Int(v), d, PrintInt(v));
    AnswerDoc(SetThenGet(w, env, t, SetDoc(n, Int(v)), GetDoc(n)), n, PrintInt(v));
    SetKeepsServing(w, env, t, SetDoc(n, Int(v)));
  }

  lemma DocText(w: World, n: string, v: int)
    requires InInt32(v)
    ensures ExtractValue(w.codec, SetDoc(n, Int(v))) == Ok(PrintInt(v)) && PrintInt(v) != ""
  {
    hide ExtractValue, PrintInt, Stoi;
    IntText(w, SetDoc(n, Int(v)), v);
  }

  lemma ByDefaultFactor(w: World, d: D.View, m: Memory, v: int)
    requires d.handle.Some? && Stored(w, d.handle.value, IntShape) && d.typ == IntType && d.factor == "1.0f"
    requires InInt32(v)
    ensures D.WriteOf(w, d, PrintInt(v)).Ok?
    ensures m + D.WriteOf(w, d, PrintInt(v)).value == m[Cell(d.handle.value, 0) := IntAtom(v)]
    ensures D.ReadOf(w, d, m[Cell(d.handle.value, 0) := IntAtom(v)]) == Ok(PrintInt(v))
  {
    hide D.WriteOf, D.ReadOf, PrintInt, StodAsInt, Stoi, TruncDiv, TruncRem, Sto;
    RoundTrips.DefaultFactorIsOne();
    StoiPrintInt(v);
    DivideByOne(v);
    RemainderByOne(v);
    IntComesBack(w, d, m, PrintInt(v), v, 1);
    assert v - TruncRem(v, 1) == v;
    assert m + map[Cell(d.handle.value, 0) := IntAtom(v)] == m[Cell(d.handle.value, 0) := IntAtom(v)];
  }

  lemma AnswerDoc(r: Reply, n: string, text: string)
    ensures Answers(r, GetDoc(n), text) ==> r.j == ValueDoc(n, text)
  {
    assert GetDoc(n).fields["Value" := Str(text)] == ValueDoc(n, text).fields;
  }

  ghost predicate Returned(r: Reply) { r.code.Ok? && Closed(r.s) && r.s.reg.consts == map[] }

  /** Three requests of one client. */
  lemma ThreeSteps(w: World, env: Env, outPort: int, h: Host, ip: string, a: Json, b: Json, c: Json)
    requires Closed(h.sys) && Faithful(w.codec) && h.clients == [] && h.sent == [] && h.sys.reg.consts == map[]
    requires Returned(Execute(w, env, h.sys, a))
    requires Returned(Execute(w, env, Execute(w, env, h.sys, a).s, b))
    requires Execute(w, env, Execute(w, env, Execute(w, env, h.sys, a).s, b).s, c).code.Ok?
    ensures var me := Client(ip, outPort);
      var q := Execute(w, env, Execute(w, env, h.sys, a).s, b);
      var p := Execute(w, env, q.s, c);
      HostAfter(w, outPort, h, [Say(w, env, ip, a), Say(w, env, ip, b), Say(w, env, ip, c)]) ==
        (Host(p.s, [me], [Packet(w.codec.dump(q.j), me), Packet(w.codec.dump(p.j), me)]), true)
  {
    hide Execute, HostStep, HostAfter, Closed, Faithful, Say;
    var x, y, z := Say(w, env, ip, a), Say(w, env, ip, b), Say(w, env, ip, c);
    var none: seq<Input> := [];
    NothingYet(w, outPort, h);
    HostAfterOneMore(w, outPort, h, none, x);
    assert none + [x] == [x] && [x] + [y] == [x, y] && [x, y] + [z] == [x, y, z];
    SayIs(w, env, outPort, h, ip, a);
    var f := HostStep(w, outPort, h, x).0;
    assert HostAfter(w, outPort, h, [x]) == (f, true);
    HostAfterOneMore(w, outPort, h, [x], y);
    SayIs(w, env, outPort, f, ip, b);
    var g := HostStep(w, outPort, f, y).0;
    assert HostAfter(w, outPort, h, [x, y]) == (g, true);
    HostAfterOneMore(w, outPort, h, [x, y], z);
    SayIs(w, env, outPort, g, ip, c);
    var me, r := Client(ip, outPort), Execute(w, env, f.sys, b);
    assert g.sent == [Packet(w.codec.dump(r.j), me)] by { assert f.sent == []; }
    var e := Execute(w, env, g.sys, c);
    assert g.sent + [Packet(w.codec.dump(e.j), me)] == [Packet(w.codec.dump(r.j), me), Packet(w.codec.dump(e.j), me)];
  }

  /** The plugin when it was just enabled: nothing is registered, FlightFactor's interface is not
      ready, no client is known and nothing was sent. */
  lemma NewHost(m: Memory)
    ensures var h := Enabled(m, DEFAULTS);
      && h.clients == [] && h.sent == [] && !h.sys.ffReady && h.sys.mem == m && h.sys.objects == map[]
      && h.sys.reg.named == map[] && h.sys.reg.subscribed == map[] && h.sys.reg.consts == map[]
  {
    hide DEFAULTS;
  }
}
