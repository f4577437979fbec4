/** Everything a client is ever sent, over whole runs of the plugin. */
module Broadcasts {
  import opened Prelude
  import opened JsonTree
  import opened Simulation
  import opened System
  import opened Requests
  import opened Server
  import KeyOrder
  import R = Registry

  /** The text an input makes the plugin broadcast, if the step returns: the reply to a request,
      an export, an announcement. */
  function Said(w: World, outPort: int, h: Host, i: Input): seq<string>
    requires Closed(h.sys)
  {
    if !HostStep(w, outPort, h, i).1 then [] else
      match i
      case Network(env, datagram) =>
        if Arrived(datagram) && w.codec.parse(datagram.value.data).Some?
        then [ReplyText(w, env, h.sys, datagram.value)] else []
      case ExportDue =>
        (match ExportEntries(w, h.sys, KeyOrder.SortedKeys(h.sys.reg.subscribed.Keys))
         case Ok(js) => [w.codec.dump(ExportMessage(js))]
         case Abort => [])
      case Announced(data) => [data]
      case _ => []
  }

  /** What the inputs from a given one on say, in order. */
  function SaidFrom(w: World, outPort: int, h: Host, inputs: seq<Input>, from: nat): seq<string>
    requires Closed(h.sys)
    decreases |inputs|
  {
    if |inputs| <= from then [] else
      var (t, ok) := HostAfter(w, outPort, h, inputs[..|inputs| - 1]);
      SaidFrom(w, outPort, h, inputs[..|inputs| - 1], from)
      + if ok then Said(w, outPort, t, inputs[|inputs| - 1]) else []
  }

  /** The texts of the packets to c, in order. */
  function Heard(sent: seq<Packet>, c: Client): seq<string>
    decreases |sent|
  {
    if sent == [] then [] else
      var last := sent[|sent| - 1];
      Heard(sent[..|sent| - 1], c) + if last.to == c then [last.data] else []
  }

  /** Which input is the first non-empty request from c; their number when none is. */
  function FirstWord(inputs: seq<Input>, outPort: int, c: Client): (k: nat)
    ensures k <= |inputs|
    ensures k < |inputs| ==> From(inputs[k], outPort, c)
    ensures forall i | 0 <= i < k :: !From(inputs[i], outPort, c)
    decreases |inputs|
  {
    if inputs == [] then 0 else
      var init := inputs[..|inputs| - 1];
      var k := FirstWord(init, outPort, c);
      assert forall i | 0 <= i < k :: init[i] == inputs[i];
      if k < |init| || From(inputs[|init|], outPort, c) then k else |inputs|
  }

  lemma SpokeIff(inputs: seq<Input>, outPort: int, c: Client)
    ensures Spoke(inputs, outPort, c) <==> FirstWord(inputs, outPort, c) < |inputs|
  {
  }

  lemma {:induction false} HeardConcat(a: seq<Packet>, b: seq<Packet>, c: Client)
    ensures Heard(a + b, c) == Heard(a, c) + Heard(b, c)
    decreases |b|
  {
    if b == [] {
      assert a + b == a;
    } else {
      var init := b[..|b| - 1];
      assert (a + b)[..|a + b| - 1] == a + init;
      HeardConcat(a, init, c);
    }
  }

  /** A broadcast reaches each client once. */
  lemma {:induction false} HeardByAll(text: string, clients: seq<Client>, c: Client)
    requires Distinct(clients)
    ensures Heard(ToAll(text, clients), c) == if c in clients then [text] else []
    decreases |clients|
  {
    if clients != [] {
      var init, last := clients[..|clients| - 1], clients[|clients| - 1];
      assert clients == init + [last];
      assert ToAll(text, clients)[..|clients| - 1] == ToAll(text, init);
      HeardByAll(text, init, c);
      assert last !in init;
    }
  }

  /** A step sends what it says to the clients known before it. */
  lemma StepSends(w: World, outPort: int, h: Host, i: Input)
    requires Closed(h.sys)
    ensures var said := Said(w, outPort, h, i);
      && |said| <= 1
      && HostStep(w, outPort, h, i).0.sent == h.sent + if said == [] then [] else ToAll(said[0], h.clients)
  {
    hide Execute, BeforeRequest, FlightFrame, ExportEntries, ExportMessage, ToAll, KeyOrder.SortedKeys;
    match i {
      case Network(env, datagram) => RequestSends(w, outPort, h, env, datagram);
      case ExportDue =>
      case _ =>
    }
  }

  lemma RequestSends(w: World, outPort: int, h: Host, env: Env, datagram: Option<Datagram>)
    requires Closed(h.sys)
    ensures var said := Said(w, outPort, h, Network(env, datagram));
      Serve(w, env, outPort, h, datagram).0.sent == h.sent + if said == [] then [] else ToAll(said[0], h.clients)
  {
    hide Execute, BeforeRequest, ToAll;
  }

  /** Over a whole run a client is sent, in this order and once each, the replies, exports and
      announcements of the inputs after its first request, and nothing before. */
  lemma {:induction false} ClientHears(w: World, outPort: int, h: Host, inputs: seq<Input>, c: Client)
    requires Closed(h.sys) && h.clients == [] && h.sent == []
    ensures Heard(HostAfter(w, outPort, h, inputs).0.sent, c)
         == SaidFrom(w, outPort, h, inputs, FirstWord(inputs, outPort, c) + 1)
    decreases |inputs|
  {
    hide HostStep, Said, ToAll, Spoke, Distinct;
    if inputs != [] {
      var init, last := inputs[..|inputs| - 1], inputs[|inputs| - 1];
      ClientHears(w, outPort, h, init, c);
      var (t, ok) := HostAfter(w, outPort, h, init);
      if ok {
        ClientsAreSenders(w, outPort, h, init);
        SpokeIff(init, outPort, c);
        StepHeard(w, outPort, t, last, c);
      }
    }
  }

  lemma StepHeard(w: World, outPort: int, t: Host, i: Input, c: Client)
    requires Closed(t.sys) && Distinct(t.clients)
    ensures Heard(HostStep(w, outPort, t, i).0.sent, c)
         == Heard(t.sent, c) + if c in t.clients then Said(w, outPort, t, i) else []
  {
    hide HostStep, Said, Heard, ToAll, Distinct;
    StepSends(w, outPort, t, i);
    var said := Said(w, outPort, t, i);
    if said != [] {
      assert said == [said[0]];
      HeardConcat(t.sent, ToAll(said[0], t.clients), c);
      HeardByAll(said[0], t.clients, c);
    } else {
      assert t.sent + [] == t.sent;
    }
  }
}
