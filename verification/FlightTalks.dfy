/** Whole conversations about a FlightFactor dataref: register it, set it, let a frame pass,
    read it. */
module FlightTalks {
  import opened Prelude
  import opened KeyOrder
  import opened Rounding
  import opened Numerals
  import opened JsonTree
  import opened Simulation
  import opened System
  import opened Requests
  import opened Frames
  import opened Runs
  import opened Guarantees
  import opened Protocol
  import opened Conversations
  import opened FlightRoundTrips
  import Replies
  import D = Datarefs
  import F = FlightFactor

  /** No constant and no pending dataref would stop a frame, and none of a greater name than n is
      the FlightFactor value id. */
  predicate Quiet(w: World, s: System, n: string, id: int)
    requires Closed(s)
  {
    && (forall c | c in s.reg.consts :: ConstEffect(w, s, c).Ok?)
    && (forall m | m in s.reg.named :: Pushable(w, s, m))
    && GreatestWithId(s, n, id)
  }

  /** REG_FFDATA, SET_REG_DATA and a frame: the state, and whether the frame completed. */
  function AfterFrame(w: World, env: Env, s: System, reg: Json, put: Json): (r: (System, bool))
    requires Closed(s)
    ensures Closed(r.0)
  {
    StepKeeps(w, s, Request(env, reg));
    var a := Execute(w, env, s, reg).s;
    StepKeeps(w, a, Request(env, put));
    var b := Execute(w, env, a, put).s;
    StepKeeps(w, b, FlightUpdate);
    FlightFrame(w, b)
  }

  /** reg registers the new name n for value id of FlightFactor, put sets it, get reads it. */
  ghost predicate FlightTalk(w: World, s: System, reg: Json, put: Json, get: Json, n: string, link: string, id: nat,
                             factor: string, v: Json)
  {
    && Serves(s) && s.ffReady && RegistersFlight(w, reg, n, link, id, factor) && n !in s.reg.named
    && Quiet(w, s, n, id) && SetsAndGets(put, get, n, v)
  }

  /** The object such a registration makes. */
  function Made(w: World, link: string, id: nat, factor: string): F.View
    requires id in w.sharedTypes
  {
    F.View(link, id, w.sharedTypes[id], factor, false, "")
  }

  lemma InsertSettles(w: World, s: System, n: string, f: F.View)
    requires Closed(s) && n !in s.reg.named && Quiet(w, s, n, f.id)
    requires w.sharedTypes.Keys >= {f.id} && f.typ == w.sharedTypes[f.id]
    ensures var t := Insert(s, n, Flight(f));
      && Closed(t) && IsFlight(t, n) && t.objects[t.reg.named[n]].f == f && Typed(w, t, n, w.sharedTypes[f.id])
      && Settled(w, t, n)
  {
    hide Insert, Quiet, Settled;
    InsertKeeps(s, n, Flight(f));
    NewName(s, n, Flight(f));
    NewIsSettled(w, s, Insert(s, n, Flight(f)), n, f);
  }

  lemma NewIsSettled(w: World, s: System, t: System, n: string, f: F.View)
    requires Closed(s) && Closed(t) && n !in s.reg.named && Quiet(w, s, n, f.id)
    requires t.reg.named == s.reg.named[n := s.reg.clock] && t.objects == s.objects[s.reg.clock := Flight(f)]
    requires t.reg.consts == s.reg.consts
    ensures Settled(w, t, n)
  {
    hide D.WriteOf, F.TargetAtom, Less, Pushable, ConstEffect;
    LessTotal(n, n);
    forall c | c in s.reg.consts
      ensures ConstEffect(w, t, c) == ConstEffect(w, s, c)
    {
      SameEffect(w, s, t, c);
    }
    forall m | m in s.reg.named
      ensures Pushable(w, t, m) == Pushable(w, s, m)
    {
      SamePush(w, s, t, m);
    }
  }

  lemma SameEffect(w: World, s: System, t: System, c: string)
    requires Closed(s) && Closed(t) && c in s.reg.consts && t.reg.consts == s.reg.consts
    requires t.objects[s.reg.consts[c].id] == s.objects[s.reg.consts[c].id]
    ensures ConstEffect(w, t, c) == ConstEffect(w, s, c)
  {
    hide D.WriteOf;
  }

  lemma SamePush(w: World, s: System, t: System, m: string)
    requires Closed(s) && Closed(t) && m in s.reg.named && m in t.reg.named && t.reg.named[m] == s.reg.named[m]
    requires t.objects[s.reg.named[m]] == s.objects[s.reg.named[m]] && t.reg.consts == s.reg.consts
    ensures Pushable(w, t, m) == Pushable(w, s, m)
  {
    hide F.TargetAtom;
  }

  /** Once registered and set to a text that denotes the atom, the frame stores it, and the reply
      is what Answer says. */
  lemma FlightTalkIs(w: World, env: Env, s: System, reg: Json, put: Json, get: Json, n: string, link: string, id: nat,
                     factor: string, v: Json, text: string, a: Atom)
    requires FlightTalk(w, s, reg, put, get, n, link, id, factor, v)
    requires ExtractValue(w.codec, put) == Ok(text) && text != "" && F.TargetAtom(w, id, text) == Ok(Some(a))
    ensures Closed(s) && id in w.sharedTypes
    ensures var t := Execute(w, env, s, reg).s; var (u, ok) := AfterFrame(w, env, s, reg, put);
      && ok && Shared(id) in u.mem && u.mem[Shared(id)] == a
      && Closed(t) && Typed(w, t, n, w.sharedTypes[id]) && Settled(w, t, n)
      && t.objects[t.reg.named[n]].f == Made(w, link, id, factor)
      && Answer(w, t, put, get) == Ok(Execute(w, env, u, get))
  {
    hide Execute, FlightFrame, Insert, Closed, Settled, Quiet, ExtractValue, F.TargetAtom, OnSet, OnGet, OperationName,
      Typed;
    var f := Made(w, link, id, factor);
    FlightInserts(w, env, s, reg, n, link, id, factor);
    InsertSettles(w, s, n, f);
    var t := Insert(s, n, Flight(f));
    FlightServes(w, env, s, reg, put);
    SetIsDispatched(w, env, t, put, n);
    SetIsTargeted(w, t, put, n, text);
    SetThenFrame(w, t, n, text, a);
    GetIsDispatched(w, env, AfterFrame(w, env, s, reg, put).0, get, n);
  }

  lemma SetIsDispatched(w: World, env: Env, s: System, j: Json, n: string)
    requires Serves(s) && Wants(j, "SET_REG_DATA", n)
    ensures Execute(w, env, s, j) == OnSet(w, s, j) && Replies.AsksFor(j, n)
  {
    hide Execute, OnSet;
    Dispatch(w, env, s, j, SetRegisterDatarefValue);
  }

  lemma GetIsDispatched(w: World, env: Env, s: System, j: Json, n: string)
    requires Serves(s) && Wants(j, "GET_REG_DATA", n)
    ensures Execute(w, env, s, j) == OnGet(w, s, j) && Replies.AsksFor(j, n)
  {
    hide Execute, OnGet;
    Dispatch(w, env, s, j, GetRegisterDatarefValue);
  }

  lemma FlightServes(w: World, env: Env, s: System, reg: Json, put: Json)
    requires Serves(s)
    ensures Serves(Execute(w, env, s, reg).s) && Serves(AfterFrame(w, env, s, reg, put).0)
  {
    hide Execute, FlightFrame, OperationName, Closed;
    SetKeepsServing(w, env, s, reg);
    SetKeepsServing(w, env, Execute(w, env, s, reg).s, put);
    FrameKeepsServing(w, Execute(w, env, Execute(w, env, s, reg).s, put).s);
  }

  lemma FrameKeepsServing(w: World, s: System)
    requires Serves(s)
    ensures Serves(FlightFrame(w, s).0)
  {
    hide After, FlightFrame, OperationName;
    ServesForever(w, s, [FlightUpdate]);
    OneStep(w, s, FlightUpdate);
  }

  /** An int of FlightFactor (type 6): the frame stores the number set, and the reply is its
      product with the factor, wrapped to 32 bits. */
  lemma FlightIntTalk(w: World, env: Env, s: System, reg: Json, put: Json, get: Json, n: string, link: string, id: nat,
                      factor: string, k: int, v: int)
    requires FlightTalk(w, s, reg, put, get, n, link, id, factor, Int(v))
      || FlightTalk(w, s, reg, put, get, n, link, id, factor, Str(PrintInt(v)))
    requires id in w.sharedTypes && w.sharedTypes[id] == 6 && StodAsInt(factor) == Ok(k) && InInt32(v)
    ensures Closed(s)
    ensures var (u, ok) := AfterFrame(w, env, s, reg, put);
      && ok && Shared(id) in u.mem && u.mem[Shared(id)] == IntAtom(v)
      && Answers(Execute(w, env, u, get), get, PrintInt(Wrap(v * k)))
  {
    hide Execute, Closed, Settled, Quiet, ExtractValue, OnSet, OnGet, AfterFrame, Answer, StodAsInt, PrintInt, Wrap,
      Stoi;
    IntText(w, put, v);
    FlightTalkIs(w, env, s, reg, put, get, n, link, id, factor, put.fields["Value"], PrintInt(v), IntAtom(v));
    SetFrameGetInteger(w, Execute(w, env, s, reg).s, put, get, n, v, k);
  }

  /** A float or double of FlightFactor (types 8 and 9): the frame stores the number the text is
      read as in that type, and the reply is its product with the factor in that type. */
  lemma FlightRealTalk(w: World, env: Env, s: System, reg: Json, put: Json, get: Json, n: string, link: string,
                       id: nat, factor: string, f: Format, text: string, v: Double, x: Double)
    requires FlightTalk(w, s, reg, put, get, n, link, id, factor, Str(text))
    requires id in w.sharedTypes && (f == SINGLE || f == DOUBLE) && w.sharedTypes[id] == if f == SINGLE then 8 else 9
    requires Stod(factor) == Number(x) && Sto(f, text) == Number(v)
    ensures Closed(s)
    ensures var (u, ok) := AfterFrame(w, env, s, reg, put);
      && ok && Shared(id) in u.mem && u.mem[Shared(id)] == RealAtom(v)
      && Answers(Execute(w, env, u, get), get, PrintDouble(Mul(f, v, Rounded(f, x))))
  {
    hide Execute, Closed, Settled, Quiet, ExtractValue, OnSet, OnGet, AfterFrame, Answer, Sto, PrintDouble, Mul,
      Rounded;
    TextOfValue(w, put, Str(text));
    NumberIsText(f, text);
    FlightTalkIs(w, env, s, reg, put, get, n, link, id, factor, Str(text), text, RealAtom(v));
    SetFrameGetReal(w, Execute(w, env, s, reg).s, put, get, n, f, text, v, x);
  }

  /** A value without id and type, and types that are no numbers, read as notices; reading a
      string is undefined. */
  lemma FlightNotices(w: World, env: Env, s: System, get: Json, n: string, f: F.View)
    requires Serves(s) && Wants(get, "GET_REG_DATA", n) && IsFlight(s, n) && s.objects[s.reg.named[n]] == Flight(f)
    requires f.typ < 2 || f.typ > 9
    ensures f.id < 0 && f.typ == 0 ==> Answers(Execute(w, env, s, get), get, "ID OR TYPE INVALID")
    ensures f.typ == 10 ==> Execute(w, env, s, get).code == Abort
    ensures !(f.id < 0 && f.typ == 0) && f.typ != 10 && Stod(f.factor).Number? ==>
      Answers(Execute(w, env, s, get), get, "N/A")
  {
    hide Execute, Sto, Closed;
    GetIsDispatched(w, env, s, get, n);
    GetIsRead(w, s, get, n);
  }

  /** Text that is no number is noted, and the frames write nothing for it; nor for a value of any
      other type, or of none. */
  lemma NoNumberIsNotPushed(w: World, s: System, n: string, f: F.View)
    requires Closed(s) && IsFlight(s, n) && s.objects[s.reg.named[n]] == Flight(f) && f.needUpdate
    requires match if f.id in w.sharedTypes then w.sharedTypes[f.id] else 0
      case 6 => Stoi(f.target) == InvalidArgument
      case 8 => Stof(f.target) == InvalidArgument
      case 9 => Stod(f.target) == InvalidArgument
      case _ => true
    ensures PushEffect(w, s, n) == Ok(map[])
  {
    hide Sto, Stoi;
  }
}
