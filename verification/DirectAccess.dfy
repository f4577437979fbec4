/** GET_DATA and SET_DATA: an X-Plane dataref by its link, without a name. They do what the
    requests for a name do to a dataref registered with factor one. */
module DirectAccess {
  import opened Prelude
  import opened Numerals
  import opened Rounding
  import opened JsonTree
  import opened Simulation
  import opened System
  import opened Requests
  import opened Runs
  import opened Guarantees
  import opened Protocol
  import opened Conversations
  import Replies
  import RoundTrips
  import opened ArrayWrites
  import D = Datarefs

  /** j is about the dataref h behind link, as the type. */
  predicate Reaches(w: World, j: Json, operation: string, link: string, h: Handle, typ: DataType) {
    && Carries(j, "Operation", Str(operation)) && Carries(j, "Link", Str(link))
    && link in w.links && w.links[link] == h && AsksType(w, j, h, typ)
  }

  /** The dataref such a request means. */
  function Meant(link: string, h: Handle, typ: DataType): D.View { D.View(link, Some(h), typ, "1.0") }

  lemma DirectIsMeant(w: World, j: Json, link: string, h: Handle, typ: DataType)
    requires Carries(j, "Link", Str(link)) && link in w.links && w.links[link] == h && AsksType(w, j, h, typ)
    ensures TextAt(j, "Link") == Ok(link) && Direct(w, j, link) == Meant(link, h, typ)
  {
    hide AsksType, AskedType;
    AskedIs(w, j, link, h, typ);
  }

  lemma GetsLink(w: World, env: Env, s: System, j: Json, link: string, h: Handle, typ: DataType)
    requires Serves(s) && Reaches(w, j, "GET_DATA", link, h, typ)
    ensures j.Obj?
    ensures var read := D.ReadOf(w, Meant(link, h, typ), s.mem);
      Execute(w, env, s, j) ==
        if read.Ok? then Reply(s, Ok(0), Obj(j.fields["Value" := Str(read.value)])) else Reply(s, Abort, j)
  {
    hide Execute, D.ReadOf, Direct, AsksType, Closed, Meant;
    Dispatch(w, env, s, j, GetDatarefValue);
    DirectIsMeant(w, j, link, h, typ);
  }

  lemma SetsLink(w: World, env: Env, s: System, j: Json, link: string, h: Handle, typ: DataType, text: string)
    requires Serves(s) && Reaches(w, j, "SET_DATA", link, h, typ)
    requires !Lacks(j, "Value") && ExtractValue(w.codec, j) == Ok(text) && text != ""
    ensures var write := D.WriteOf(w, Meant(link, h, typ), text);
      Execute(w, env, s, j) ==
        if write.Ok? then Reply(s.(mem := s.mem + write.value), Ok(0), j) else Reply(s, Abort, j)
  {
    hide Execute, D.WriteOf, Direct, AsksType, Closed, Meant, ExtractValue;
    Dispatch(w, env, s, j, SetDatarefValue);
    DirectIsMeant(w, j, link, h, typ);
  }

  /** GET_DATA replies what GET_REG_DATA replies for a name that stands for the link. */
  lemma GetDataIsGetRegData(w: World, env: Env, s: System, j: Json, get: Json, n: string, link: string, h: Handle,
                            typ: DataType)
    requires Serves(s) && Reaches(w, j, "GET_DATA", link, h, typ)
    requires Known(s, n, D.View(link, Some(h), typ, "1.0")) && Wants(get, "GET_REG_DATA", n)
    ensures Execute(w, env, s, j).s == s && Execute(w, env, s, j).code == Execute(w, env, s, get).code
    ensures forall text :: Answers(Execute(w, env, s, get), get, text) ==> Answers(Execute(w, env, s, j), j, text)
  {
    hide Execute, D.ReadOf, AsksType, Closed;
    GetsLink(w, env, s, j, link, h, typ);
    Dispatch(w, env, s, get, GetRegisterDatarefValue);
    var read := D.ReadOf(w, Meant(link, h, typ), s.mem);
    if read.Ok? {
      forall text | Answers(Execute(w, env, s, get), get, text)
        ensures text == read.value
      {
        OneAnswer(Execute(w, env, s, get), get, text, read.value);
      }
    }
  }

  /** SET_DATA changes the memory as SET_REG_DATA does. */
  lemma SetDataIsSetRegData(w: World, env: Env, s: System, j: Json, put: Json, n: string, link: string, h: Handle,
                            typ: DataType, v: Json)
    requires Serves(s) && Reaches(w, j, "SET_DATA", link, h, typ) && Carries(j, "Value", v)
    requires Known(s, n, D.View(link, Some(h), typ, "1.0"))
    requires Wants(put, "SET_REG_DATA", n) && Carries(put, "Value", v)
    ensures Execute(w, env, s, j).s == Execute(w, env, s, put).s
    ensures Execute(w, env, s, j).code == Execute(w, env, s, put).code && Execute(w, env, s, j).j == j
  {
    hide Execute, D.WriteOf, AsksType, Closed, Direct;
    Dispatch(w, env, s, j, SetDatarefValue);
    Dispatch(w, env, s, put, SetRegisterDatarefValue);
    DirectIsMeant(w, j, link, h, typ);
    SameValueSameText(w.codec, j, put);
  }

  lemma SameValueSameText(c: Codec, a: Json, b: Json)
    requires Contains(a, "Value") && Contains(b, "Value") && a.fields["Value"] == b.fields["Value"]
    ensures ExtractValue(c, a) == ExtractValue(c, b)
  {
    hide Wrap, PrintInt, PrintDouble, FloatValue, Narrow;
  }

  /** SET_DATA to nothing that can be set is refused with 3. */
  lemma NothingByLink(w: World, env: Env, s: System, j: Json)
    requires Serves(s) && Carries(j, "Operation", Str("SET_DATA")) && !Lacks(j, "Link") && !Lacks(j, "Value")
    requires j.fields["Value"].Null? || j.fields["Value"].Bool? || j.fields["Value"] == Str("")
    ensures Refused(Execute(w, env, s, j), s, j, 3)
  {
    hide Execute, Closed, PrintNat;
    Dispatch(w, env, s, j, SetDatarefValue);
  }

  lemma OneIsOne()
    ensures Stod("1.0") == Number(Finite(false, 1.0)) && StodAsInt("1.0") == Ok(1)
  {
    hide Denoted, NatOf, Nearest, Limit, Pow2;
    DenotedFixed(false, "1", "0", []);
    Powers();
    NaturalsStay(DOUBLE, 1);
    assert PrintNat(1) == "1" && PrintNat(10) == "10" && "1" + "0" == "10";
    NatOfPrintNat(10);
    assert Pow10(1) == 10 * Pow10(0);
    assert Decimal(10, 1, 1.0) == 1.0;
    assert "" + ("1" + "." + "0" + []) == "1.0";
  }

  /** An int set by SET_DATA is in the one cell behind the link, and GET_DATA replies it. */
  lemma IntByLink(w: World, env: Env, s: System, put: Json, get: Json, link: string, h: Handle, v: int)
    requires Serves(s) && Stored(w, h, IntShape) && InInt32(v)
    requires Reaches(w, put, "SET_DATA", link, h, IntType) && Reaches(w, get, "GET_DATA", link, h, IntType)
    requires Carries(put, "Value", Int(v)) || Carries(put, "Value", Str(PrintInt(v)))
    ensures var t := s.(mem := s.mem[Cell(h, 0) := IntAtom(v)]);
      && Execute(w, env, s, put) == Reply(t, Ok(0), put) && Serves(t)
      && Answers(Execute(w, env, t, get), get, PrintInt(v))
  {
    hide Execute, D.WriteOf, D.ReadOf, Reaches, Meant, PrintInt, ExtractValue, OperationName;
    var text, m := PrintInt(v), s.mem[Cell(h, 0) := IntAtom(v)];
    IntText(w, put, v);
    IntByOne(w, link, h, s.mem, v);
    SetsLink(w, env, s, put, link, h, IntType, text);
    assert s.mem + map[Cell(h, 0) := IntAtom(v)] == m;
    GetsLink(w, env, s.(mem := m), get, link, h, IntType);
  }

  lemma IntByOne(w: World, link: string, h: Handle, m: Memory, v: int)
    requires Stored(w, h, IntShape) && InInt32(v)
    ensures D.WriteOf(w, Meant(link, h, IntType), PrintInt(v)) == Ok(map[Cell(h, 0) := IntAtom(v)])
    ensures D.ReadOf(w, Meant(link, h, IntType), m[Cell(h, 0) := IntAtom(v)]) == Ok(PrintInt(v))
  {
    hide D.WriteOf, D.ReadOf, PrintInt, Stoi, StodAsInt, TruncDiv, TruncRem, Sto;
    StoiPrintInt(v);
    OneIsOne();
    RemainderByOne(v);
    DivideByOne(v);
    IntComesBack(w, Meant(link, h, IntType), m, PrintInt(v), v, 1);
    assert v - TruncRem(v, 1) == v;
  }

  /** In documents: the link and the type "INT". */
  function SetLinkDoc(link: string, v: int): Json {
    Obj(map["Operation" := Str("SET_DATA"), "Link" := Str(link), "Type" := Str("INT"), "Value" := Int(v)])
  }

  function GetLinkDoc(link: string): Json {
    Obj(map["Operation" := Str("GET_DATA"), "Link" := Str(link), "Type" := Str("INT")])
  }

  lemma LinkDocs(w: World, link: string, h: Handle, v: int)
    requires link in w.links && w.links[link] == h
    ensures Reaches(w, SetLinkDoc(link, v), "SET_DATA", link, h, IntType)
    ensures Reaches(w, GetLinkDoc(link), "GET_DATA", link, h, IntType)
    ensures Carries(SetLinkDoc(link, v), "Value", Int(v))
  {
  }

  lemma LinkExample(w: World, env: Env, s: System, link: string, h: Handle, v: int)
    requires Serves(s) && Stored(w, h, IntShape) && InInt32(v) && link in w.links && w.links[link] == h
    ensures var t := Execute(w, env, s, SetLinkDoc(link, v)).s;
      && Closed(t) && t == s.(mem := s.mem[Cell(h, 0) := IntAtom(v)])
      && Answers(Execute(w, env, t, GetLinkDoc(link)), GetLinkDoc(link), PrintInt(v))
  {
    hide Execute, Reaches, PrintInt, SetLinkDoc, GetLinkDoc, OperationName;
    LinkDocs(w, link, h, v);
    IntByLink(w, env, s, SetLinkDoc(link, v), GetLinkDoc(link), link, h, v);
  }
}
