/** Whole conversations of a client with the plugin about an X-Plane dataref: register it, by a
    request or a file, set it, read it. */
module Conversations {
  import opened Prelude
  import opened Rounding
  import opened Numerals
  import opened Accuracy
  import opened JsonTree
  import opened Simulation
  import opened System
  import opened Requests
  import opened Runs
  import opened Guarantees
  import opened Protocol
  import opened ArrayWrites
  import opened Replies
  import R = Registry
  import RoundTrips
  import RealTrips
  import Csv
  import D = Datarefs

  // ----- Registering ----------------------------------------------------------------------------

  /** The type a text names; any other text names none. */
  predicate Names(text: string, typ: DataType) {
    || (text == "INT" && typ == IntType) || (text == "FLOAT" && typ == FloatType)
    || (text == "DOUBLE" && typ == DoubleType) || (text == "INT_ARRAY" && typ == IntArrayType)
    || (text == "FLOAT_ARRAY" && typ == FloatArrayType) || (text == "DATA" && typ == BytesType)
    || (text !in ["INT", "FLOAT", "DOUBLE", "INT_ARRAY", "FLOAT_ARRAY", "DATA"] && typ == UnknownType)
  }

  /** The type the simulator's bits mean: whatever can be had as float or double is a double. */
  predicate MeansBits(bits: set<DataType>, typ: DataType) {
    if FloatType in bits || DoubleType in bits then typ == DoubleType
    else
      || (bits == {IntType} && typ == IntType) || (bits == {IntArrayType} && typ == IntArrayType)
      || (bits == {FloatArrayType} && typ == FloatArrayType) || (bits == {BytesType} && typ == BytesType)
      || (bits == {} && typ == UnknownType)
      || (bits !in [{}, {IntType}, {IntArrayType}, {FloatArrayType}, {BytesType}] && typ == MixedType)
  }

  /** The type a request means for the dataref h: the one it names, the simulator's if it names
      none, no string, or "UNKNWON". */
  predicate AsksType(w: World, j: Json, h: Handle, typ: DataType) {
    if !Lacks(j, "Type") && j.fields["Type"].Str? && j.fields["Type"].text != "UNKNWON"
    then Names(j.fields["Type"].text, typ)
    else h in w.types && MeansBits(w.types[h], typ)
  }

  /** A row of the file: four fields with a semicolon after each. */
  function Row(n: string, link: string, typename: string, factor: string, rest: string): string {
    n + ";" + link + ";" + typename + ";" + factor + ";" + rest
  }

  /** A file that is one such row, after any comments. */
  ghost predicate OneRow(lines: seq<string>, n: string, link: string, typ: DataType, factor: string) {
    exists typename, rest ::
      && lines != [] && lines[|lines| - 1] == Row(n, link, typename, factor, rest)
      && (forall i | 0 <= i < |lines| - 1 :: lines[i] != "" && lines[i][0] == '#')
      && n != "" && n[0] != '#' && (forall t | t in [n, link, typename, factor, rest] :: ';' !in t)
      && Names(typename, typ)
  }

  /** j registers name n for the dataref h behind link, with the type and the factor: a REG_DATA
      request, or a LOAD_REG_DATA one for a file with that row. */
  ghost predicate Registers(w: World, env: Env, j: Json, n: string, link: string, h: Handle, typ: DataType,
                            factor: string) {
    && link in w.links && w.links[link] == h
    && (|| (Wants(j, "REG_DATA", n) && Carries(j, "Link", Str(link)) && AsksType(w, j, h, typ) && AsksFactor(j, factor))
        || (Carries(j, "Operation", Str("LOAD_REG_DATA")) && !Lacks(j, "FileIn") && j.fields["FileIn"].Str?
            && j.fields["FileIn"].text in env.files
            && OneRow(env.files[j.fields["FileIn"].text], n, link, typ, factor)))
  }

  lemma NamesIs(text: string, typ: DataType)
    requires Names(text, typ)
    ensures D.NamedType(text) == typ
  {
  }

  lemma BitsAre(w: World, h: Handle, typ: DataType)
    requires h in w.types && MeansBits(w.types[h], typ)
    ensures D.LoadedType(w, Some(h)) == typ
  {
  }

  lemma AskedIs(w: World, j: Json, link: string, h: Handle, typ: DataType)
    requires link in w.links && w.links[link] == h && AsksType(w, j, h, typ)
    ensures AskedType(w, j, link) == typ
  {
    hide Names, MeansBits, D.NamedType, D.LoadedType;
    if !Lacks(j, "Type") && j.fields["Type"].Str? && j.fields["Type"].text != "UNKNWON" {
      NamesIs(j.fields["Type"].text, typ);
    } else {
      BitsAre(w, h, typ);
    }
  }

  /** A name in a state stands for an X-Plane dataref. */
  predicate Known(s: System, n: string, d: D.View) {
    n in s.reg.named && s.reg.named[n] in s.objects && s.objects[s.reg.named[n]] == Plain(d)
  }

  lemma InsertKnown(s: System, n: string, d: D.View)
    requires Serves(s) && n !in s.reg.named
    ensures Serves(Insert(s, n, Plain(d))) && Known(Insert(s, n, Plain(d)), n, d)
    ensures Insert(s, n, Plain(d)).mem == s.mem && Insert(s, n, Plain(d)).objects == s.objects[s.reg.clock := Plain(d)]
    ensures Insert(s, n, Plain(d)).reg.named == s.reg.named[n := s.reg.clock]
    ensures Insert(s, n, Plain(d)).reg.consts == s.reg.consts
  {
    hide OperationName;
    InsertKeeps(s, n, Plain(d));
  }

  /** REG_DATA makes the dataref under a new name. */
  lemma RequestRegisters(w: World, env: Env, s: System, j: Json, n: string, link: string, h: Handle, typ: DataType,
                         factor: string)
    requires Serves(s) && n !in s.reg.named && link in w.links && w.links[link] == h
    requires Wants(j, "REG_DATA", n) && Carries(j, "Link", Str(link)) && AsksType(w, j, h, typ) && AsksFactor(j, factor)
    ensures Execute(w, env, s, j) == Reply(Insert(s, n, Plain(D.View(link, Some(h), typ, factor))), Ok(0), j)
  {
    hide Execute, Insert, Closed, AskedType, AsksType;
    AskedIs(w, j, link, h, typ);
    Dispatch(w, env, s, j, RegisterDataref);
  }

  lemma RowFields(n: string, link: string, typename: string, factor: string, rest: string)
    requires forall t | t in [n, link, typename, factor, rest] :: ';' !in t
    ensures Csv.Fields(Row(n, link, typename, factor, rest)) == [n, link, typename, factor]
  {
    hide Csv.Fields;
    var fields := [n, link, typename, factor];
    Csv.FieldsOfJoin(fields, rest);
    JoinFour(n, link, typename, factor);
    assert Csv.Join(fields) + rest == Row(n, link, typename, factor, rest);
  }

  lemma JoinStep(f: string, fields: seq<string>, joined: string)
    requires joined == Csv.Join(fields)
    ensures Csv.Join([f] + fields) == f + ";" + joined
  {
    assert ([f] + fields)[1..] == fields;
  }

  lemma JoinFour(a: string, b: string, c: string, d: string)
    ensures Csv.Join([a, b, c, d]) == a + ";" + b + ";" + c + ";" + d + ";"
  {
    hide Csv.Join;
    NoFields();
    JoinStep(d, [], []);
    var one, two, three := d + ";", c + ";" + (d + ";"), b + ";" + (c + ";" + (d + ";"));
    assert [d] + [] == [d] && one + [] == one;
    JoinStep(c, [d], one);
    assert [c] + [d] == [c, d];
    JoinStep(b, [c, d], two);
    assert [b] + [c, d] == [b, c, d];
    JoinStep(a, [b, c, d], three);
    assert [a] + [b, c, d] == [a, b, c, d];
    assert a + ";" + three == a + ";" + b + ";" + c + ";" + d + ";";
  }

  lemma NoFields()
    ensures Csv.Join([]) == []
  {
  }

  /** Lines that start with '#' are skipped. */
  lemma {:induction false} CommentsSkipped(w: World, s: System, lines: seq<string>, last: string)
    requires forall line | line in lines :: line != "" && line[0] == '#'
    ensures LoadLines(w, s, lines + [last]) == LoadLines(w, s, [last])
    decreases |lines|
  {
    hide LoadRow, Csv.Fields;
    if lines == [] {
      assert [] + [last] == [last];
    } else {
      assert (lines + [last])[0] == lines[0] && (lines + [last])[1..] == lines[1..] + [last];
      assert lines[0] in lines && forall line | line in lines[1..] :: line in lines;
      CommentsSkipped(w, s, lines[1..], last);
    }
  }

  lemma RowLoads(w: World, s: System, n: string, link: string, h: Handle, typename: string, typ: DataType,
                 factor: string, rest: string)
    requires link in w.links && w.links[link] == h && Names(typename, typ)
    requires n != "" && n[0] != '#' && forall t | t in [n, link, typename, factor, rest] :: ';' !in t
    ensures LoadLines(w, s, [Row(n, link, typename, factor, rest)]) ==
      (Do(Insert(s, n, Plain(D.View(link, Some(h), typ, factor))), R.Sub(n)), true)
  {
    hide Csv.Fields, Insert, Do, Names, D.NamedType;
    var line := Row(n, link, typename, factor, rest);
    RowFields(n, link, typename, factor, rest);
    NamesIs(typename, typ);
    assert line[0] == n[0];
    var none: seq<string> := [];
    assert [line][1..] == none;
    NoLines(w, LoadRow(w, s, [n, link, typename, factor]));
  }

  lemma NoLines(w: World, s: System)
    ensures LoadLines(w, s, []) == (s, true)
  {
  }

  lemma FileRegisters(w: World, env: Env, s: System, j: Json, n: string, link: string, h: Handle, typ: DataType,
                      factor: string)
    requires Serves(s) && n !in s.reg.named && link in w.links && w.links[link] == h
    requires Carries(j, "Operation", Str("LOAD_REG_DATA")) && !Lacks(j, "FileIn") && j.fields["FileIn"].Str?
    requires j.fields["FileIn"].text in env.files && OneRow(env.files[j.fields["FileIn"].text], n, link, typ, factor)
    ensures Execute(w, env, s, j) ==
      Reply(Do(Insert(s, n, Plain(D.View(link, Some(h), typ, factor))), R.Sub(n)), Ok(0), j)
  {
    hide Execute, Insert, Do, Closed, LoadLines, Names;
    var lines := env.files[j.fields["FileIn"].text];
    var typename, rest :|
      && lines != [] && lines[|lines| - 1] == Row(n, link, typename, factor, rest)
      && (forall i | 0 <= i < |lines| - 1 :: lines[i] != "" && lines[i][0] == '#')
      && n != "" && n[0] != '#' && (forall t | t in [n, link, typename, factor, rest] :: ';' !in t)
      && Names(typename, typ);
    var init := lines[..|lines| - 1];
    assert lines == init + [lines[|lines| - 1]];
    CommentsSkipped(w, s, init, lines[|lines| - 1]);
    RowLoads(w, s, n, link, h, typename, typ, factor, rest);
    Dispatch(w, env, s, j, LoadRegisterDataref);
  }

  /** A registration puts the dataref under the new name, with its own number, and keeps all
      others, the memory and the operations. A row of a file subscribes it too. */
  lemma RegistrationIs(w: World, env: Env, s: System, j: Json, n: string, link: string, h: Handle, typ: DataType,
                       factor: string)
    requires Serves(s) && n !in s.reg.named && Registers(w, env, j, n, link, h, typ, factor)
    ensures var r := Execute(w, env, s, j); var d := D.View(link, Some(h), typ, factor);
      && r.code == Ok(0) && r.j == j && Serves(r.s) && Known(r.s, n, d) && r.s.mem == s.mem
      && r.s.reg.named == s.reg.named[n := s.reg.clock] && r.s.objects == s.objects[s.reg.clock := Plain(d)]
      && r.s.reg.consts == s.reg.consts
      && (Carries(j, "Operation", Str("LOAD_REG_DATA")) ==> n in r.s.reg.subscribed)
  {
    hide Execute, Insert, AsksType, AsksFactor, OneRow, OperationName;
    var d := D.View(link, Some(h), typ, factor);
    InsertKnown(s, n, d);
    if Carries(j, "Operation", Str("LOAD_REG_DATA")) {
      FileRegisters(w, env, s, j, n, link, h, typ, factor);
      SubscribedAfter(Insert(s, n, Plain(d)), n);
    } else {
      RequestRegisters(w, env, s, j, n, link, h, typ, factor);
    }
  }

  lemma SubscribedAfter(s: System, n: string)
    requires Closed(s) && n in s.reg.named
    ensures var t := Do(s, R.Sub(n));
      && Closed(t) && t.reg.named == s.reg.named && t.objects == s.objects && t.mem == s.mem && t.table == s.table
      && n in t.reg.subscribed && t.reg.consts == s.reg.consts
  {
  }

  // ----- Setting and reading ----------------------------------------------------------------------

  /** The two requests of a client that sets n to a value and reads it. */
  predicate SetsAndGets(put: Json, get: Json, n: string, v: Json) {
    Wants(put, "SET_REG_DATA", n) && Carries(put, "Value", v) && Wants(get, "GET_REG_DATA", n)
  }

  lemma ExchangeIs(w: World, put: Json, get: Json, n: string, v: Json, text: string)
    requires SetsAndGets(put, get, n, v) && ExtractValue(w.codec, put) == Ok(text)
    ensures Exchange(w, put, get, n, text)
  {
    hide ExtractValue;
  }

  /** What the text of a value is: itself for a string, the number for an integer, the JSON text
      for an object or an array. */
  lemma TextOfValue(w: World, put: Json, v: Json)
    requires Carries(put, "Value", v)
    ensures v.Str? ==> ExtractValue(w.codec, put) == Ok(v.text)
    ensures v.Int? && InInt32(v.n) ==> ExtractValue(w.codec, put) == Ok(PrintInt(v.n))
    ensures v.Int? && 0 <= v.n < 0x1_0000_0000 ==> ExtractValue(w.codec, put) == Ok(PrintInt(v.n))
    ensures v.Obj? || v.Arr? ==> ExtractValue(w.codec, put) == Ok(w.codec.dump(v))
    ensures v.Null? || v.Bool? ==> ExtractValue(w.codec, put) == Ok("")
  {
    hide PrintNat;
  }

  /** SET_REG_DATA, then GET_REG_DATA through the dispatch. */
  function SetThenGet(w: World, env: Env, s: System, put: Json, get: Json): Reply
    requires Closed(s)
  {
    StepKeeps(w, s, Request(env, put));
    Execute(w, env, Execute(w, env, s, put).s, get)
  }

  lemma DispatchedPair(w: World, env: Env, s: System, put: Json, get: Json, n: string, v: Json)
    requires Serves(s) && SetsAndGets(put, get, n, v)
    ensures Execute(w, env, s, put) == OnSet(w, s, put) && Execute(w, env, s, put).j == put
    ensures SetThenGet(w, env, s, put, get).s == Execute(w, env, s, put).s
    ensures SetThenGet(w, env, s, put, get) == Answered(w, s, put, get)
  {
    hide Execute, OnSet, OnGet;
    Dispatch(w, env, s, put, SetRegisterDatarefValue);
    SetCloses(w, s, put);
    SetRepliesItself(w, s, put);
    GetChangesNothing(w, OnSet(w, s, put).s, get);
    SetKeepsServing(w, env, s, put);
    Dispatch(w, env, OnSet(w, s, put).s, get, GetRegisterDatarefValue);
  }

  lemma SetRepliesItself(w: World, s: System, j: Json)
    requires Closed(s)
    ensures OnSet(w, s, j).j == j
  {
    hide ExtractValue, D.WriteOf;
  }

  lemma GetChangesNothing(w: World, s: System, j: Json)
    requires Closed(s)
    ensures OnGet(w, s, j).s == s
  {
    hide ReadObject;
  }

  lemma SetKeepsServing(w: World, env: Env, s: System, j: Json)
    requires Serves(s)
    ensures Serves(Execute(w, env, s, j).s)
  {
    hide After, Execute, OperationName;
    ServesForever(w, s, [Request(env, j)]);
    OneStep(w, s, Request(env, j));
  }

  lemma PairIs(w: World, env: Env, s: System, put: Json, get: Json, n: string, v: Json, d: D.View, text: string)
    requires Serves(s) && Known(s, n, d) && SetsAndGets(put, get, n, v)
    requires ExtractValue(w.codec, put) == Ok(text) && text != ""
    ensures Execute(w, env, s, put).code == if D.WriteOf(w, d, text).Ok? then Ok(0) else Abort
    ensures Execute(w, env, s, put).j == put
    ensures SetThenGet(w, env, s, put, get).s == Execute(w, env, s, put).s
    ensures D.WriteOf(w, d, text).Ok? ==>
      && Execute(w, env, s, put).s == s.(mem := s.mem + D.WriteOf(w, d, text).value)
      && var read := D.ReadOf(w, d, s.mem + D.WriteOf(w, d, text).value);
      if read.Ok? then Answers(SetThenGet(w, env, s, put, get), get, read.value)
      else SetThenGet(w, env, s, put, get).code == Abort
  {
    hide Execute, D.WriteOf, D.ReadOf, ExtractValue, Answered, SetThenGet, OperationName;
    DispatchedPair(w, env, s, put, get, n, v);
    ExchangeIs(w, put, get, n, v, text);
    SetThenGetPlain(w, s, put, get, n, d, text);
    if D.WriteOf(w, d, text).Ok? {
      SetMoves(w, s, put, n, d, text);
    }
  }

  lemma SetMoves(w: World, s: System, put: Json, n: string, d: D.View, text: string)
    requires Closed(s) && Known(s, n, d) && AsksFor(put, n) && Contains(put, "Value")
    requires ExtractValue(w.codec, put) == Ok(text) && text != "" && D.WriteOf(w, d, text).Ok?
    ensures OnSet(w, s, put).s == s.(mem := s.mem + D.WriteOf(w, d, text).value)
  {
    hide ExtractValue, D.WriteOf;
  }

  // ----- Without effect ---------------------------------------------------------------------------

  /** When writing the text puts nothing anywhere, the request returns all the same. */
  lemma NothingSet(w: World, env: Env, s: System, put: Json, get: Json, n: string, v: Json, d: D.View, text: string)
    requires Serves(s) && Known(s, n, d) && SetsAndGets(put, get, n, v)
    requires ExtractValue(w.codec, put) == Ok(text) && text != "" && D.WriteOf(w, d, text) == Ok(map[])
    ensures Refused(Execute(w, env, s, put), s, put, 0)
    ensures D.ReadOf(w, d, s.mem).Ok? ==> Answers(Execute(w, env, s, get), get, D.ReadOf(w, d, s.mem).value)
  {
    hide Execute, D.WriteOf, D.ReadOf, ExtractValue, OperationName, Known, SetsAndGets;
    assert s.mem + map[] == s.mem;
    PairIs(w, env, s, put, get, n, v, d, text);
  }

  /** A link the simulator does not know is registered all the same; it reads as the empty text
      and setting it does nothing. */
  lemma LostLinkIsEmpty(w: World, env: Env, s: System, put: Json, get: Json, n: string, d: D.View, v: int)
    requires Serves(s) && Known(s, n, d) && d.handle.None? && SetsAndGets(put, get, n, Int(v)) && InInt32(v)
    ensures Refused(Execute(w, env, s, put), s, put, 0)
    ensures Answers(Execute(w, env, s, get), get, "")
  {
    hide Execute, OperationName, Known, SetsAndGets, PrintInt, Stoi, ExtractValue;
    assert Carries(put, "Value", Int(v)) by { TheirValue(put, get, n, Int(v)); }
    IntText(w, put, v);
    NothingSet(w, env, s, put, get, n, Int(v), d, PrintInt(v));
  }

  lemma TheirValue(put: Json, get: Json, n: string, v: Json)
    requires SetsAndGets(put, get, n, v)
    ensures Carries(put, "Value", v)
  {
  }

  /** A dataref that cannot be written, or whose type is none, is set without effect; without a
      type it reads as the empty text. */
  lemma ReadOnlyStays(w: World, env: Env, s: System, put: Json, get: Json, n: string, d: D.View, v: int)
    requires Serves(s) && Known(s, n, d) && d.handle.Some? && SetsAndGets(put, get, n, Int(v)) && InInt32(v)
    requires d.handle.value !in w.writable || d.typ == UnknownType || d.typ == MixedType
    ensures Refused(Execute(w, env, s, put), s, put, 0)
    ensures d.typ == UnknownType || d.typ == MixedType ==> Answers(Execute(w, env, s, get), get, "")
  {
    hide Execute, OperationName, Known, SetsAndGets, PrintInt, Stoi, ExtractValue;
    TheirValue(put, get, n, Int(v));
    IntText(w, put, v);
    NothingSet(w, env, s, put, get, n, Int(v), d, PrintInt(v));
  }

  /** Text that is no number of the type, or a factor that is none, throws, and nothing changes. */
  lemma NoNumberThrows(w: World, env: Env, s: System, put: Json, get: Json, n: string, d: D.View, text: string)
    requires Serves(s) && Known(s, n, d) && d.handle.Some? && text != ""
    requires SetsAndGets(put, get, n, Str(text))
    requires d.typ == IntType || d.typ == FloatType || d.typ == DoubleType
    ensures d.handle.value in w.writable && (match d.typ
        case IntType => !Stoi(text).Number? || StodAsInt(d.factor).Abort?
        case FloatType => !Stof(text).Number? || !Stod(d.factor).Number?
        case _ => !Stod(text).Number? || !Stod(d.factor).Number?) ==>
      Execute(w, env, s, put) == Reply(s, Abort, put)
    ensures (if d.typ == IntType then StodAsInt(d.factor).Abort? else !Stod(d.factor).Number?) ==>
      Execute(w, env, s, get) == Reply(s, Abort, get)
  {
    hide Execute, Stoi, StodAsInt, Sto, Closed, Div, Mul, Rounded, PrintDouble, PrintInt;
    Dispatch(w, env, s, put, SetRegisterDatarefValue);
    Dispatch(w, env, s, get, GetRegisterDatarefValue);
  }

  /** The simulator stores the dataref in another way than its type: it is set without effect, and
      an Int dataref reads zero. */
  lemma WrongTypeStays(w: World, env: Env, s: System, put: Json, get: Json, n: string, d: D.View, v: int, k: int)
    requires Serves(s) && Known(s, n, d) && d.handle.Some? && InInt32(v) && StodAsInt(d.factor) == Ok(k) && k > 0
    requires SetsAndGets(put, get, n, Int(v))
    requires var shape := ShapeOf(w, d.handle.value);
      (d.typ == IntType && !shape.IntShape?) || ((d.typ == FloatType || d.typ == DoubleType) && !shape.RealShape?)
    ensures Refused(Execute(w, env, s, put), s, put, 0)
    ensures d.typ == IntType ==> Answers(Execute(w, env, s, get), get, "0")
  {
    hide Execute, OperationName, Known, SetsAndGets, PrintInt, ExtractValue, D.WriteOf, D.ReadOf, StodAsInt, Stoi;
    TheirValue(put, get, n, Int(v));
    IntText(w, put, v);
    WrongTypeWrites(w, d, s.mem, v, k);
    NothingSet(w, env, s, put, get, n, Int(v), d, PrintInt(v));
  }

  lemma WrongTypeWrites(w: World, d: D.View, m: Memory, v: int, k: int)
    requires d.handle.Some? && InInt32(v) && StodAsInt(d.factor) == Ok(k) && k > 0
    requires var shape := ShapeOf(w, d.handle.value);
      (d.typ == IntType && !shape.IntShape?) || ((d.typ == FloatType || d.typ == DoubleType) && !shape.RealShape?)
    ensures D.WriteOf(w, d, PrintInt(v)) == Ok(map[])
    ensures d.typ == IntType ==> D.ReadOf(w, d, m) == Ok("0")
  {
    hide StodAsInt, Stoi, PrintInt, TruncDiv, PrintDouble, Mul, Div, Sto, Rounded;
    StoiPrintInt(v);
    IntIsReal(v, d.factor);
    RoundTrips.QuotientFits(v, k);
    ZeroText();
  }

  /** A float or double one reads zero, too, at a factor that is neither negative nor infinite. */
  lemma WrongTypeReads(w: World, env: Env, s: System, get: Json, n: string, d: D.View, f: Format, c: real)
    requires Serves(s) && Known(s, n, d) && d.handle.Some? && Wants(get, "GET_REG_DATA", n)
    requires Usual(f) && d.typ == RealType(f) && !ShapeOf(w, d.handle.value).RealShape? && c >= 0.0
    requires Stod(d.factor).Number? && Rounded(f, Stod(d.factor).value) == Finite(false, c)
    ensures Answers(Execute(w, env, s, get), get, "0.000000")
  {
    hide Execute, Sto, Closed, PrintDouble, Mul, Rounded;
    Dispatch(w, env, s, get, GetRegisterDatarefValue);
    ZeroReply(f, c);
  }

  lemma ZeroReply(f: Format, c: real)
    requires Usual(f) && c >= 0.0
    ensures PrintDouble(Mul(f, Rounded(f, ZERO), Finite(false, c))) == "0.000000"
  {
    hide Nearest, Limit, Fixed, Round;
    ZeroStays(f);
    LimitPositive(f);
    assert 0.0 * c == 0.0;
    assert Round(0.0 * 1000000.0) == 0 by { RoundOfNat(0, 0.0); }
    ZeroFixed();
  }

  lemma LimitPositive(f: Format)
    requires Usual(f)
    ensures 0.0 < Limit(f)
  {
    hide Limit, Pow2;
    LimitIs(f);
  }

  lemma ZeroFixed()
    ensures Fixed(false, 0) == "0.000000"
  {
    assert PrintNat(0) == "0" && PadNat(0, 3) == "000" && PadNat(0, 6) == "000000";
  }

  lemma ZeroText()
    ensures PrintInt(0) == "0"
  {
  }

  lemma IntIsReal(v: int, factor: string)
    requires InInt32(v) && StodAsInt(factor).Ok?
    ensures Stof(PrintInt(v)).Number? && Stod(PrintInt(v)).Number? && Stod(factor).Number?
  {
    hide Denoted, PrintInt, Nearest, Limit;
    DenotedInt(v);
    NotOutOf(SINGLE, Abs(v));
    NotOutOf(DOUBLE, Abs(v));
  }

  lemma NotOutOf(f: Format, n: nat)
    requires Usual(f) && n <= TWO_31
    ensures !OutOf(f, Finite(false, n as real)) && !OutOf(f, Finite(true, n as real))
  {
    hide Nearest, Limit, Pow2, Normal;
    LimitIs(f);
    Powers();
    Room(f);
    Pow2Grows(33, f.top - f.low);
    if n > 0 {
      MillionthIsNormal(f);
      NormalIsNotLost(f, n as real);
    }
  }

  /** A factor that is no number: an array without elements is replied all the same, any other
      throws. */
  lemma BadFactorArrays(w: World, env: Env, s: System, get: Json, n: string, d: D.View)
    requires Serves(s) && Known(s, n, d) && d.handle.Some? && Wants(get, "GET_REG_DATA", n)
    ensures d.typ == IntArrayType && StodAsInt(d.factor).Abort? ==>
      if ArraySize(w, d.handle.value) == 0 then Answers(Execute(w, env, s, get), get, w.codec.dump(Arr([])))
      else Execute(w, env, s, get) == Reply(s, Abort, get)
    ensures d.typ == FloatArrayType && !Stod(d.factor).Number? ==>
      if RealsSize(w, d.handle.value) == 0 then Answers(Execute(w, env, s, get), get, w.codec.dumpReals([]))
      else Execute(w, env, s, get) == Reply(s, Abort, get)
  {
    hide Execute, StodAsInt, Sto, Closed;
    Dispatch(w, env, s, get, GetRegisterDatarefValue);
  }

  /** A link h the simulator lets the plugin write, stored in the given shape. */
  predicate Stored(w: World, h: Handle, shape: Shape) {
    h in w.writable && h in w.shapes && w.shapes[h] == shape
  }

  /** REG_DATA or a file's row, then SET_REG_DATA, then GET_REG_DATA. */
  function Talk(w: World, env: Env, s: System, reg: Json, put: Json, get: Json): Reply
    requires Closed(s)
  {
    StepKeeps(w, s, Request(env, reg));
    SetThenGet(w, env, Execute(w, env, s, reg).s, put, get)
  }

  /** The state between registering and reading. */
  function AfterSet(w: World, env: Env, s: System, reg: Json, put: Json): Reply
    requires Closed(s)
  {
    StepKeeps(w, s, Request(env, reg));
    Execute(w, env, Execute(w, env, s, reg).s, put)
  }

  /** Once registered, only the dataref matters: writing the text, then reading. */
  lemma TalkIs(w: World, env: Env, s: System, reg: Json, put: Json, get: Json, n: string, link: string, h: Handle,
               typ: DataType, factor: string, v: Json, text: string)
    requires Serves(s) && n !in s.reg.named && Registers(w, env, reg, n, link, h, typ, factor)
    requires SetsAndGets(put, get, n, v) && ExtractValue(w.codec, put) == Ok(text) && text != ""
    ensures var d := D.View(link, Some(h), typ, factor);
      && AfterSet(w, env, s, reg, put).code == (if D.WriteOf(w, d, text).Ok? then Ok(0) else Abort)
      && (D.WriteOf(w, d, text).Ok? ==>
        && AfterSet(w, env, s, reg, put).s.mem == s.mem + D.WriteOf(w, d, text).value
        && var read := D.ReadOf(w, d, s.mem + D.WriteOf(w, d, text).value);
        if read.Ok? then Answers(Talk(w, env, s, reg, put, get), get, read.value)
        else Talk(w, env, s, reg, put, get).code == Abort)
  {
    hide Execute, D.WriteOf, D.ReadOf, ExtractValue, SetThenGet, OperationName, Registers, Closed;
    RegistrationIs(w, env, s, reg, n, link, h, typ, factor);
    PairIs(w, env, Execute(w, env, s, reg).s, put, get, n, v, D.View(link, Some(h), typ, factor), text);
  }

  /** An Int dataref, by request or file, by name or by the simulator's bits: setting v stores its
      quotient by the factor, and the reply is v less its remainder, so v itself at factor one. */
  lemma IntTalk(w: World, env: Env, s: System, reg: Json, put: Json, get: Json, n: string, link: string, h: Handle,
                factor: string, k: int, v: int)
    requires Serves(s) && n !in s.reg.named && Registers(w, env, reg, n, link, h, IntType, factor)
    requires Stored(w, h, IntShape) && StodAsInt(factor) == Ok(k) && k != 0 && !(v == -TWO_31 && k == -1)
    requires InInt32(v) && (SetsAndGets(put, get, n, Int(v)) || SetsAndGets(put, get, n, Str(PrintInt(v))))
    ensures AfterSet(w, env, s, reg, put).code == Ok(0)
    ensures AfterSet(w, env, s, reg, put).s.mem == s.mem[Cell(h, 0) := IntAtom(TruncDiv(v, k))]
    ensures Answers(Talk(w, env, s, reg, put, get), get, PrintInt(v - TruncRem(v, k)))
    ensures k == 1 ==> Answers(Talk(w, env, s, reg, put, get), get, PrintInt(v))
  {
    hide AfterSet, Talk, Registers, Serves, Answers, SetsAndGets, D.WriteOf, D.ReadOf, PrintInt, StodAsInt, Stoi,
      TruncDiv, TruncRem, ExtractValue, RoundTrips.Writable;
    var d, text := D.View(link, Some(h), IntType, factor), PrintInt(v);
    var value := IntSets(w, put, get, n, v);
    IntComesBack(w, d, s.mem, text, v, k);
    TalkIs(w, env, s, reg, put, get, n, link, h, IntType, factor, value, text);
    RemainderByOne(v);
  }

  lemma IntSets(w: World, put: Json, get: Json, n: string, v: int) returns (value: Json)
    requires InInt32(v) && (SetsAndGets(put, get, n, Int(v)) || SetsAndGets(put, get, n, Str(PrintInt(v))))
    ensures SetsAndGets(put, get, n, value)
    ensures ExtractValue(w.codec, put) == Ok(PrintInt(v)) && PrintInt(v) != "" && Stoi(PrintInt(v)) == Number(v)
  {
    hide ExtractValue, PrintInt, Stoi;
    value := put.fields["Value"];
    IntText(w, put, v);
  }

  lemma IntText(w: World, put: Json, v: int)
    requires InInt32(v) && (Carries(put, "Value", Int(v)) || Carries(put, "Value", Str(PrintInt(v))))
    ensures ExtractValue(w.codec, put) == Ok(PrintInt(v)) && PrintInt(v) != "" && Stoi(PrintInt(v)) == Number(v)
  {
    hide ExtractValue, PrintInt, Stoi;
    TextOfValue(w, put, put.fields["Value"]);
    StoiPrintInt(v);
    NotEmpty(PrintInt(v));
  }

  lemma IntComesBack(w: World, d: D.View, m: Memory, text: string, v: int, k: int)
    requires d.handle.Some? && Stored(w, d.handle.value, IntShape) && d.typ == IntType
    requires StodAsInt(d.factor) == Ok(k) && k != 0 && !(v == -TWO_31 && k == -1) && Stoi(text) == Number(v)
    ensures D.WriteOf(w, d, text) == Ok(map[Cell(d.handle.value, 0) := IntAtom(TruncDiv(v, k))])
    ensures D.ReadOf(w, d, m[Cell(d.handle.value, 0) := IntAtom(TruncDiv(v, k))]) == Ok(PrintInt(v - TruncRem(v, k)))
  {
    hide D.WriteOf, D.ReadOf, PrintInt, StodAsInt, Stoi, TruncDiv, TruncRem;
    IntWriteIs(w, d, text, v, k);
    RoundTrips.IntGetAfterSet(w, d, m, text, v, k);
    assert m + map[Cell(d.handle.value, 0) := IntAtom(TruncDiv(v, k))]
        == m[Cell(d.handle.value, 0) := IntAtom(TruncDiv(v, k))];
  }

  lemma IntWriteIs(w: World, d: D.View, text: string, v: int, k: int)
    requires RoundTrips.Writable(w, d, IntType, IntShape) && StodAsInt(d.factor) == Ok(k) && Stoi(text) == Number(v)
    requires k != 0 && !(v == -TWO_31 && k == -1)
    ensures D.WriteOf(w, d, text) == Ok(map[Cell(d.handle.value, 0) := IntAtom(TruncDiv(v, k))])
  {
    hide StodAsInt, Stoi, TruncDiv;
    RoundTrips.QuotientFits(v, k);
  }

  lemma RemainderByOne(v: int)
    ensures TruncRem(v, 1) == 0
  {
    DivideByOne(v);
  }

  /** What a request asks for in plain words: the type and no factor. */
  function RegisterDoc(n: string, link: string, typename: string): Json {
    Obj(map["Operation" := Str("REG_DATA"), "Name" := Str(n), "Link" := Str(link), "Type" := Str(typename)])
  }

  function SetDoc(n: string, v: Json): Json {
    Obj(map["Operation" := Str("SET_REG_DATA"), "Name" := Str(n), "Value" := v])
  }

  function GetDoc(n: string): Json { Obj(map["Operation" := Str("GET_REG_DATA"), "Name" := Str(n)]) }

  /** The reply to GetDoc. */
  function ValueDoc(n: string, text: string): Json {
    Obj(map["Operation" := Str("GET_REG_DATA"), "Name" := Str(n), "Value" := Str(text)])
  }

  lemma RegisterDocFields(n: string, link: string, typename: string)
    ensures var j := RegisterDoc(n, link, typename);
      Wants(j, "REG_DATA", n) && Carries(j, "Link", Str(link)) && Carries(j, "Type", Str(typename))
      && Lacks(j, "ConversionFactor")
  {
  }

  lemma RegisterDocRegisters(w: World, env: Env, n: string, link: string, h: Handle, typename: string, typ: DataType)
    requires link in w.links && w.links[link] == h && typename != "UNKNWON" && Names(typename, typ)
    ensures Registers(w, env, RegisterDoc(n, link, typename), n, link, h, typ, "1.0f")
  {
    hide RegisterDoc, Names, OneRow;
    RegisterDocFields(n, link, typename);
  }

  lemma DocsSetAndGet(n: string, v: Json)
    ensures SetsAndGets(SetDoc(n, v), GetDoc(n), n, v)
  {
  }

  /** In documents: registered as "INT", set to v, the dataref reads v. */
  lemma IntExample(w: World, env: Env, s: System, n: string, link: string, h: Handle, v: int)
    requires Serves(s) && n !in s.reg.named && link in w.links && w.links[link] == h && Stored(w, h, IntShape)
    requires InInt32(v)
    ensures Talk(w, env, s, RegisterDoc(n, link, "INT"), SetDoc(n, Int(v)), GetDoc(n)).code == Ok(0)
    ensures Talk(w, env, s, RegisterDoc(n, link, "INT"), SetDoc(n, Int(v)), GetDoc(n)).j == ValueDoc(n, PrintInt(v))
  {
    hide Talk, AfterSet, Serves, PrintInt, Sto, StodAsInt, Registers, SetsAndGets, RegisterDoc, SetDoc;
    RoundTrips.DefaultFactorIsOne();
    RegisterDocRegisters(w, env, n, link, h, "INT", IntType);
    DocsSetAndGet(n, Int(v));
    IntTalk(w, env, s, RegisterDoc(n, link, "INT"), SetDoc(n, Int(v)), GetDoc(n), n, link, h, "1.0f", 1, v);
  }

  /** The type of a float or double dataref. */
  function RealType(f: Format): DataType { if f == SINGLE then FloatType else DoubleType }

  /** A float or double dataref registered by reg and set to a number of six decimals by put. */
  ghost predicate TalksReal(w: World, env: Env, s: System, reg: Json, put: Json, get: Json, n: string, link: string,
                            h: Handle, factor: string, f: Format, neg: bool, q: nat)
  {
    && Serves(s) && n !in s.reg.named && Registers(w, env, reg, n, link, h, RealType(f), factor)
    && Usual(f) && Stored(w, h, RealShape) && Stod(factor).Number?
    && SetsAndGets(put, get, n, Str(Fixed(neg, q)))
  }

  /** The number the text is read as, divided by the factor. */
  function QuotientAtom(f: Format, neg: bool, q: nat, c: Double): Atom {
    RealAtom(Div(f, Finite(neg, Nearest(f, FixedValue(q))), c))
  }

  /** RealGetAfterSet's condition for the text to come back. */
  predicate ComesBack(f: Format, q: nat, c: Double) {
    f.bits >= 22 && q < Pow2(f.bits - 22) * MILLION
    && c.Finite? && c.mag > 0.0 && Nearest(f, FixedValue(q)) / c.mag < Limit(f)
  }

  /** Both requests return, and the last reply is the text. */
  predicate Returns(w: World, env: Env, s: System, reg: Json, put: Json, get: Json, text: string)
    requires Closed(s)
  {
    AfterSet(w, env, s, reg, put).code == Ok(0) && Answers(Talk(w, env, s, reg, put, get), get, text)
  }

  /** The quotient, in the arithmetic of the type, is stored, and the reply is the text set for
      any number below 2^(bits - 22), if the factor is not zero and the quotient in range. */
  lemma RealTalk(w: World, env: Env, s: System, reg: Json, put: Json, get: Json, n: string, link: string, h: Handle,
                 factor: string, f: Format, neg: bool, q: nat, c: Double)
    requires TalksReal(w, env, s, reg, put, get, n, link, h, factor, f, neg, q) && FixedValue(q) < Limit(f)
    requires c == Rounded(f, Stod(factor).value)
    ensures AfterSet(w, env, s, reg, put).code == Ok(0)
    ensures AfterSet(w, env, s, reg, put).s.mem == s.mem[Cell(h, 0) := QuotientAtom(f, neg, q, c)]
    ensures ComesBack(f, q, c) ==> Returns(w, env, s, reg, put, get, Fixed(neg, q))
  {
    hide AfterSet, Talk, TalksReal, Answers, D.WriteOf, D.ReadOf, Fixed, Sto, Rounded, Div, Nearest, Limit, ComesBack,
      FixedValue, RealTrips.WritableReal, QuotientAtom;
    var d := D.View(link, Some(h), RealType(f), factor);
    RealTalkIs(w, env, s, reg, put, get, n, link, h, factor, f, neg, q);
    RealComesBack(w, d, s.mem, f, neg, q, c);
  }

  lemma RealComesBack(w: World, d: D.View, m: Memory, f: Format, neg: bool, q: nat, c: Double)
    requires RealTrips.WritableReal(w, d, f) && Usual(f) && FixedValue(q) < Limit(f)
    requires Stod(d.factor).Number? && c == Rounded(f, Stod(d.factor).value)
    ensures var write := D.WriteOf(w, d, Fixed(neg, q));
      && write.Ok? && m + write.value == m[Cell(d.handle.value, 0) := QuotientAtom(f, neg, q, c)]
      && (ComesBack(f, q, c) ==> D.ReadOf(w, d, m + write.value) == Ok(Fixed(neg, q)))
  {
    hide D.WriteOf, D.ReadOf, Fixed, Sto, Rounded, Div, Nearest, Limit, Pow2, FixedValue, RealTrips.WritableReal;
    StoFixed(f, neg, q);
    RealWriteIs(w, d, f, Fixed(neg, q), Finite(neg, Nearest(f, FixedValue(q))), Stod(d.factor).value);
    if ComesBack(f, q, c) {
      RealTrips.RealGetAfterSet(w, d, m, f, neg, q, Stod(d.factor).value);
    }
  }

  /** At factor one, as without one, the reply is the text set exactly when the number survives
      the type. */
  lemma RealTalkAtOne(w: World, env: Env, s: System, reg: Json, put: Json, get: Json, n: string, link: string,
                      h: Handle, factor: string, f: Format, neg: bool, q: nat)
    requires TalksReal(w, env, s, reg, put, get, n, link, h, factor, f, neg, q)
    requires Rounded(f, Stod(factor).value) == Finite(false, 1.0)
    ensures Returns(w, env, s, reg, put, get, Fixed(neg, q)) <==> Survives(f, q)
  {
    hide AfterSet, Talk, TalksReal, D.WriteOf, D.ReadOf, Fixed, Sto, Rounded, Survives;
    var d, text := D.View(link, Some(h), RealType(f), factor), Fixed(neg, q);
    RealTalkIs(w, env, s, reg, put, get, n, link, h, factor, f, neg, q);
    RealTrips.RealAtFactorOne(w, d, s.mem, f, neg, q, Stod(factor).value);
  }

  /** "1.0f", the factor of a request without one, is one for either type. */
  lemma NoFactorIsOne(f: Format)
    requires Usual(f)
    ensures Stod("1.0f").Number? && Rounded(f, Stod("1.0f").value) == Finite(false, 1.0)
  {
    hide Sto, Nearest, Limit;
    RoundTrips.DefaultFactorIsOne();
    RealTrips.OneIsLess(f);
    OneStays(f);
  }

  lemma OneStays(f: Format)
    requires Usual(f)
    ensures Nearest(f, 1.0) == 1.0
  {
    hide Nearest, Limit, Pow2;
    PowersAt(f);
    NaturalsStay(f, 1);
  }

  lemma RealTalkIs(w: World, env: Env, s: System, reg: Json, put: Json, get: Json, n: string, link: string, h: Handle,
                   factor: string, f: Format, neg: bool, q: nat)
    requires TalksReal(w, env, s, reg, put, get, n, link, h, factor, f, neg, q)
    ensures Closed(s) && Stod(factor).Number? && Usual(f)
    ensures var d, text := D.View(link, Some(h), RealType(f), factor), Fixed(neg, q);
      && RealTrips.WritableReal(w, d, f)
      && AfterSet(w, env, s, reg, put).code == (if D.WriteOf(w, d, text).Ok? then Ok(0) else Abort)
      && (D.WriteOf(w, d, text).Ok? ==>
        && AfterSet(w, env, s, reg, put).s.mem == s.mem + D.WriteOf(w, d, text).value
        && (Answers(Talk(w, env, s, reg, put, get), get, text) <==>
              D.ReadOf(w, d, s.mem + D.WriteOf(w, d, text).value) == Ok(text)))
  {
    hide AfterSet, Talk, Registers, OperationName, D.WriteOf, D.ReadOf, Fixed, Sto, ExtractValue;
    var d, text := D.View(link, Some(h), RealType(f), factor), Fixed(neg, q);
    TextOfValue(w, put, Str(text));
    FixedIsText(neg, q);
    TalkIs(w, env, s, reg, put, get, n, link, h, RealType(f), factor, Str(text), text);
    if D.WriteOf(w, d, text).Ok? {
      var read := D.ReadOf(w, d, s.mem + D.WriteOf(w, d, text).value);
      if read.Ok? {
        OneAnswer(Talk(w, env, s, reg, put, get), get, read.value, text);
      }
    }
  }

  lemma OneAnswer(r: Reply, j: Json, a: string, b: string)
    ensures Answers(r, j, a) && Answers(r, j, b) ==> a == b
  {
    if j.Obj? {
      assert Obj(j.fields["Value" := Str(a)]).fields["Value"] == Str(a);
      assert Obj(j.fields["Value" := Str(b)]).fields["Value"] == Str(b);
    }
  }

  lemma RealWriteIs(w: World, d: D.View, f: Format, text: string, v: Double, x: Double)
    requires RealTrips.WritableReal(w, d, f) && Stod(d.factor) == Number(x) && Sto(f, text) == Number(v)
    ensures D.WriteOf(w, d, text) == Ok(map[Cell(d.handle.value, 0) := RealAtom(Div(f, v, Rounded(f, x)))])
  {
    hide Sto, Div, Rounded;
  }

  // ----- Arrays and text ------------------------------------------------------------------------

  /** The value is JSON whose "Value" chain leads to leaf, in force at element at. */
  predicate Places(v: Json, k: int, leaf: Json, at: int) {
    (v.Obj? || v.Arr?) && Leads(v, 0, k, leaf, at)
  }

  lemma PlacesText(w: World, put: Json, v: Json, k: int, leaf: Json, at: int)
    requires Faithful(w.codec) && Carries(put, "Value", v) && Places(v, k, leaf, at)
    ensures ExtractValue(w.codec, put) == Ok(w.codec.dump(v)) && w.codec.dump(v) != ""
    ensures TextLeads(w, w.codec.dump(v), k, leaf, at)
  {
    hide Leads;
    TextOfValue(w, put, v);
  }

  /** What an Int array of the given elements reads as. */
  function IntsReply(w: World, cells: seq<int>, k: int): string {
    w.codec.dump(Arr(seq(|cells|, i requires 0 <= i < |cells| => Int(Wrap(cells[i] * k)))))
  }

  /** An Int array dataref set to an array of numerals at an "Offset" holds them from that element
      on and replies all its elements times the factor. */
  lemma IntArrayTalk(w: World, env: Env, s: System, reg: Json, put: Json, get: Json, n: string, link: string,
                     h: Handle, factor: string, size: nat, k: int, v: Json, js: seq<Json>, at: int)
    requires Serves(s) && n !in s.reg.named && Registers(w, env, reg, n, link, h, IntArrayType, factor)
    requires Faithful(w.codec) && Stored(w, h, IntArrayShape(size)) && StodAsInt(factor) == Ok(k)
    requires SetsAndGets(put, get, n, v) && Places(v, 1, Arr(js), at)
    requires forall j | j in js :: j.Str? && Stoi(j.text).Number?
    ensures var before, after := ReadInts(w, s.mem, h), ReadInts(w, AfterSet(w, env, s, reg, put).s.mem, h);
      && |after| == |before| == size
      && (forall i | 0 <= i < size :: after[i] == Placed(js, at, size, i, before[i]))
      && Returns(w, env, s, reg, put, get, IntsReply(w, after, k))
  {
    hide AfterSet, Talk, Registers, Serves, D.WriteOf, D.ReadOf, StodAsInt, Stoi, ExtractValue, TextLeads, ReadInts,
      Wrap;
    var d, text := D.View(link, Some(h), IntArrayType, factor), w.codec.dump(v);
    PlacesText(w, put, v, 1, Arr(js), at);
    ArrayIsWritten(w, d, s.mem, text, js, at);
    IntsRead(w, d, s.mem + D.WriteOf(w, d, text).value, k);
    TalkIs(w, env, s, reg, put, get, n, link, h, IntArrayType, factor, v, text);
  }

  lemma IntsRead(w: World, d: D.View, m: Memory, k: int)
    requires d.handle.Some? && d.typ == IntArrayType && StodAsInt(d.factor) == Ok(k)
    ensures D.ReadOf(w, d, m) == Ok(IntsReply(w, ReadInts(w, m, d.handle.value), k))
  {
    hide StodAsInt, Wrap;
    var cells := ReadInts(w, m, d.handle.value);
    assert D.ScaledInts(cells, k) == seq(|cells|, i requires 0 <= i < |cells| => Int(Wrap(cells[i] * k)));
  }

  /** Set to an integer, or a string with one, inside "Value" objects, it holds that integer in
      every element from the "Offset" on. */
  lemma IntFillTalk(w: World, env: Env, s: System, reg: Json, put: Json, get: Json, n: string, link: string,
                    h: Handle, factor: string, size: nat, k: int, v: Json, leaf: Json, a: int, at: int)
    requires Serves(s) && n !in s.reg.named && Registers(w, env, reg, n, link, h, IntArrayType, factor)
    requires Faithful(w.codec) && Stored(w, h, IntArrayShape(size)) && StodAsInt(factor) == Ok(k)
    requires SetsAndGets(put, get, n, v) && Places(v, 1, leaf, at) && InInt32(a)
    requires leaf == Int(a) || (leaf.Str? && Stoi(leaf.text) == Number(a))
    ensures var before, after := ReadInts(w, s.mem, h), ReadInts(w, AfterSet(w, env, s, reg, put).s.mem, h);
      && |after| == |before| == size
      && (forall i | 0 <= i < size :: after[i] == if at <= i < at + size then a else before[i])
      && Returns(w, env, s, reg, put, get, IntsReply(w, after, k))
  {
    hide AfterSet, Talk, Registers, Serves, D.WriteOf, D.ReadOf, StodAsInt, Stoi, ExtractValue, TextLeads, ReadInts,
      Wrap;
    var d, text := D.View(link, Some(h), IntArrayType, factor), w.codec.dump(v);
    PlacesText(w, put, v, 1, leaf, at);
    SizeOfInts(w, s.mem, h);
    if leaf.Int? {
      IntegerFills(w, d, s.mem, text, a, at);
    } else {
      NumeralFills(w, d, s.mem, text, leaf.text, at);
    }
    IntsRead(w, d, s.mem + D.WriteOf(w, d, text).value, k);
    TalkIs(w, env, s, reg, put, get, n, link, h, IntArrayType, factor, v, text);
  }

  /** The value of a request that writes one element, the third. */
  function ThirdIsSeven(): Json { Obj(map["Offset" := Str("2"), "Value" := Arr([Str("7")])]) }

  lemma ThirdLeads()
    requires Stoi("2") == Number(2)
    ensures Places(ThirdIsSeven(), 1, Arr([Str("7")]), 2)
  {
    hide Stoi;
    var v := ThirdIsSeven();
    assert v.fields["Offset"] == Str("2") && v.fields["Value"] == Arr([Str("7")]);
    assert Leads(v.fields["Value"], 2, 1, Arr([Str("7")]), 2);
  }

  /** In documents: "Offset" "2" puts the elements from the third on. */
  lemma OffsetExample(w: World, env: Env, s: System, n: string, link: string, h: Handle)
    requires Serves(s) && n !in s.reg.named && link in w.links && w.links[link] == h
    requires Faithful(w.codec) && Stored(w, h, IntArrayShape(4)) && ReadInts(w, s.mem, h) == [10, 11, 12, 13]
    ensures Returns(w, env, s, RegisterDoc(n, link, "INT_ARRAY"), SetDoc(n, ThirdIsSeven()), GetDoc(n),
                    w.codec.dump(Arr([Int(10), Int(11), Int(7), Int(13)])))
  {
    hide AfterSet, Talk, OperationName, Sto, StodAsInt, ReadInts, Stoi, Returns, Places, IntsReply, Placed, Leads,
      TextLeads, Registers, SetsAndGets, RegisterDoc, SetDoc, GetDoc;
    TwoAndSeven();
    ThirdLeads();
    RoundTrips.DefaultFactorIsOne();
    RegisterDocRegisters(w, env, n, link, h, "INT_ARRAY", IntArrayType);
    DocsSetAndGet(n, ThirdIsSeven());
    IntArrayTalk(w, env, s, RegisterDoc(n, link, "INT_ARRAY"), SetDoc(n, ThirdIsSeven()), GetDoc(n), n, link, h, "1.0f",
      4, 1, ThirdIsSeven(), [Str("7")], 2);
    assert Closed(s);
    var t := AfterSet(w, env, s, RegisterDoc(n, link, "INT_ARRAY"), SetDoc(n, ThirdIsSeven())).s;
    var after := ReadInts(w, t.mem, h);
    ThirdPlaced(ReadInts(w, s.mem, h), after);
    IntsReplyFour(w, after);
  }

  lemma ThirdPlaced(before: seq<int>, after: seq<int>)
    requires before == [10, 11, 12, 13] && |after| == 4 && Stoi("7") == Number(7)
    requires forall i | 0 <= i < 4 :: after[i] == Placed([Str("7")], 2, 4, i, before[i])
    ensures after == [10, 11, 7, 13]
  {
    hide Stoi;
  }

  lemma IntsReplyFour(w: World, cells: seq<int>)
    requires cells == [10, 11, 7, 13]
    ensures IntsReply(w, cells, 1) == w.codec.dump(Arr([Int(10), Int(11), Int(7), Int(13)]))
  {
    assert seq(4, i requires 0 <= i < 4 => Int(Wrap(cells[i] * 1))) == [Int(10), Int(11), Int(7), Int(13)];
  }

  lemma TwoAndSeven()
    ensures Stoi("2") == Number(2) && Stoi("7") == Number(7)
  {
    hide Stoi;
    assert PrintInt(2) == "2" && PrintInt(7) == "7";
    StoiPrintInt(2);
    StoiPrintInt(7);
  }

  /** A float array dataref set to an array of decimals at an "Offset", which the factor divides,
      holds them as floats from that element on and replies its elements times the factor. */
  lemma RealArrayTalk(w: World, env: Env, s: System, reg: Json, put: Json, get: Json, n: string, link: string,
                      h: Handle, factor: string, size: nat, k: int, v: Json, js: seq<Json>, at: int)
    requires Serves(s) && n !in s.reg.named && Registers(w, env, reg, n, link, h, FloatArrayType, factor)
    requires Faithful(w.codec) && Stored(w, h, RealArrayShape(size)) && StodAsInt(factor) == Ok(k)
    requires SetsAndGets(put, get, n, v) && Places(v, k, Arr(js), at)
    requires forall j | j in js :: j.Str? && Stof(j.text).Number?
    ensures Stod(factor).Number?
    ensures var before, after := ReadReals(w, s.mem, h), ReadReals(w, AfterSet(w, env, s, reg, put).s.mem, h);
      && |after| == |before| == size
      && (forall i | 0 <= i < size :: after[i] == PlacedReal(js, at, size, i, before[i]))
      && Returns(w, env, s, reg, put, get, RealsReply(w, after, Stod(factor).value))
  {
    hide AfterSet, Talk, Registers, Serves, D.WriteOf, D.ReadOf, Sto, ExtractValue, TextLeads, ReadReals, Mul, Narrow;
    var d, text := D.View(link, Some(h), FloatArrayType, factor), w.codec.dump(v);
    PlacesText(w, put, v, k, Arr(js), at);
    SizeOfReals(w, s.mem, h);
    RealArrayIsWritten(w, d, s.mem, text, k, js, at);
    RealsRead(w, d, s.mem + D.WriteOf(w, d, text).value, Stod(factor).value);
    TalkIs(w, env, s, reg, put, get, n, link, h, FloatArrayType, factor, v, text);
  }

  lemma SizeOfReals(w: World, m: Memory, h: Handle)
    ensures |ReadReals(w, m, h)| == RealsSize(w, h)
  {
    hide Narrow;
  }

  /** What a float array of the given elements reads as. */
  function RealsReply(w: World, cells: seq<Double>, x: Double): string {
    w.codec.dumpReals(seq<Double>(|cells|, i requires 0 <= i < |cells| => Mul(SINGLE, cells[i], Narrow(x))))
  }

  lemma RealsRead(w: World, d: D.View, m: Memory, x: Double)
    requires d.handle.Some? && d.typ == FloatArrayType && Stod(d.factor) == Number(x)
    ensures D.ReadOf(w, d, m) == Ok(RealsReply(w, ReadReals(w, m, d.handle.value), x))
  {
    hide Sto, Mul, Narrow;
    var cells := ReadReals(w, m, d.handle.value);
    assert D.ScaledReals(cells, x)
        == seq<Double>(|cells|, i requires 0 <= i < |cells| => Mul(SINGLE, cells[i], Narrow(x)));
  }

  /** A Data dataref set to a text shorter than its capacity and without NUL holds it, then zeros
      only, and replies it. */
  lemma TextTalk(w: World, env: Env, s: System, reg: Json, put: Json, get: Json, n: string, link: string, h: Handle,
                 factor: string, size: nat, text: string)
    requires Serves(s) && n !in s.reg.named && Registers(w, env, reg, n, link, h, BytesType, factor)
    requires Stored(w, h, BytesShape(size)) && SetsAndGets(put, get, n, Str(text)) && text != ""
    requires |text| < size && '\0' !in text
    ensures var after := ReadBytes(w, AfterSet(w, env, s, reg, put).s.mem, h);
      |after| == size && forall i | 0 <= i < size :: after[i] == if i < |text| then text[i] else '\0'
    ensures Returns(w, env, s, reg, put, get, text)
  {
    hide AfterSet, Talk, Registers, Serves, D.WriteOf, D.ReadOf, ExtractValue, D.Strlen, ReadBytes;
    var d := D.View(link, Some(h), BytesType, factor);
    TextOfValue(w, put, Str(text));
    RoundTrips.TextGetAfterSet(w, d, s.mem, text);
    RoundTrips.StrlenIs(text, |text|);
    assert text[..|text|] == text;
    BytesWritten(w, d, s.mem, text);
    TalkIs(w, env, s, reg, put, get, n, link, h, BytesType, factor, Str(text), text);
  }

  lemma BytesWritten(w: World, d: D.View, m: Memory, text: string)
    requires d.handle.Some?
    requires RoundTrips.Writable(w, d, BytesType, BytesShape(BytesSize(w, d.handle.value)))
    ensures D.WriteOf(w, d, text).Ok?
    ensures ReadBytes(w, m + D.WriteOf(w, d, text).value, d.handle.value)
         == D.Padded(text, BytesSize(w, d.handle.value))
  {
    hide BytesPatch, ReadBytes;
    RoundTrips.ReadWrittenBytes(w, m, d.handle.value, D.Padded(text, BytesSize(w, d.handle.value)));
  }
}
