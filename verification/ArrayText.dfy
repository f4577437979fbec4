/** What the text given to an array dataref asks for, stated flatly: the recursion of
    setIntArrayFromJson and setFloatArrayFromJson is in class Datarefs.Dataref. */
module ArrayText {
  import opened Prelude
  import opened Rounding
  import opened Numerals
  import opened JsonTree

  /** A code and nothing written, or exactly one bulk write. */
  datatype Request<T> = Rejected(code: int) | BulkWrite(offset: int, data: seq<T>)

  const PARSE_FAILED: int := -1
  const NO_VALUE: int := -2
  const UNKNOWN_JSON: int := 2

  /** The objects passed through by following "Value" from j, outermost first. */
  function Wrappers(j: Json): seq<Json> {
    if Contains(j, "Value") then [j] + Wrappers(j.fields["Value"]) else []
  }

  /** Where following "Value" ends. */
  function Leaf(j: Json): (leaf: Json)
    ensures !Contains(leaf, "Value")
  {
    if Contains(j, "Value") then Leaf(j.fields["Value"]) else j
  }

  /** The "Offset" of one object: a string is parsed and divided (integer arrays pass 1, float
      arrays their factor as an int), anything else counts as zero. */
  function OwnOffset(o: Json, divisor: Result<int>): Result<int>
    requires Contains(o, "Offset")
  {
    if !o.fields["Offset"].Str? then Ok(0) else
      match (Stoi(o.fields["Offset"].text), divisor)
      case (Number(n), Ok(d)) => if d != 0 && InInt32(TruncDiv(n, d)) then Ok(TruncDiv(n, d)) else Abort
      case _ => Abort
  }

  predicate BadOffset(o: Json, divisor: Result<int>) { Contains(o, "Offset") && OwnOffset(o, divisor).Abort? }

  /** The innermost "Offset" among the wrappers; the inherited one when none has any. */
  function InnermostOffset(ws: seq<Json>, inherited: int, divisor: Result<int>): int
    requires forall o | o in ws :: !BadOffset(o, divisor)
    decreases |ws|
  {
    if ws == [] then inherited else
      var last := ws[|ws| - 1];
      assert last in ws && !BadOffset(last, divisor);
      if Contains(last, "Offset") then OwnOffset(last, divisor).value
      else InnermostOffset(ws[..|ws| - 1], inherited, divisor)
  }

  /** Where the recursion through "Value" arrives, and with which offset. */
  datatype Target = Target(leaf: Json, offset: int)

  function Resolve(j: Json, inherited: int, divisor: Result<int>): Result<Target> {
    var ws := Wrappers(j);
    if exists o | o in ws :: BadOffset(o, divisor) then Abort
    else Ok(Target(Leaf(j), InnermostOffset(ws, inherited, divisor)))
  }

  function Min(a: int, b: int): int { if a < b then a else b }

  function Fill<T>(n: nat, v: T): seq<T> { seq(n, _ => v) }

  // ----- Integer arrays ------------------------------------------------------------------

  predicate IsNumeral(j: Json) { j.Str? && Stoi(j.text).Number? }

  predicate AllNumerals(js: seq<Json>) { forall j | j in js :: IsNumeral(j) }

  function ValuesOf(js: seq<Json>): (vs: seq<int>)
    requires AllNumerals(js)
    ensures |vs| == |js|
  {
    seq(|js|, i requires 0 <= i < |js| => assert js[i] in js; Stoi(js[i].text).value)
  }

  /** What a leaf writes into an integer array of the given capacity. */
  function IntLeaf(t: Target, capacity: nat): Result<Request<int>> {
    match t.leaf
    case Arr(js) =>
      if AllNumerals(js) then Ok(BulkWrite(t.offset, ValuesOf(js)[..Min(|js|, capacity)])) else Abort
    case Int(n) => Ok(BulkWrite(t.offset, Fill(capacity, Wrap(n))))
    case Str(s) =>
      if capacity == 0 then Ok(BulkWrite(t.offset, []))
      else if Stoi(s).Number? then Ok(BulkWrite(t.offset, Fill(capacity, Stoi(s).value)))
      else Abort
    case Obj(_) => Ok(Rejected(NO_VALUE))
    case _ => Ok(Rejected(UNKNOWN_JSON))
  }

  function IntText(c: Codec, text: string, inherited: int, capacity: nat): Result<Request<int>> {
    match c.parse(text)
    case None => Ok(Rejected(PARSE_FAILED))
    case Some(j) =>
      match Resolve(j, inherited, Ok(1))
      case Ok(t) => IntLeaf(t, capacity)
      case Abort => Abort
  }

  // ----- Float arrays --------------------------------------------------------------------

  predicate IsDecimal(j: Json) { j.Str? && Stof(j.text).Number? }

  predicate AllDecimals(js: seq<Json>) { forall j | j in js :: IsDecimal(j) }

  function RealsOf(js: seq<Json>): (vs: seq<Double>)
    requires AllDecimals(js)
    ensures |vs| == |js|
  {
    seq<Double>(|js|, i requires 0 <= i < |js| => assert js[i] in js; Stof(js[i].text).value)
  }

  /** What a leaf writes into a float array. A string pushes nothing, so that the resize
      fills the array with zeros; an integer is no known type. */
  function RealLeaf(t: Target, capacity: nat, factor: string): Result<Request<Double>> {
    match t.leaf
    case Arr(js) =>
      if AllDecimals(js) then Ok(BulkWrite(t.offset, RealsOf(js)[..Min(|js|, capacity)])) else Abort
    case Float(d) =>
      if capacity == 0 then Ok(BulkWrite(t.offset, []))
      else if Stod(factor).Number? then
        Ok(BulkWrite(t.offset, Fill(capacity, Div(SINGLE, Narrow(FloatValue(d)), Narrow(Stod(factor).value)))))
      else Abort
    case Str(_) => Ok(BulkWrite(t.offset, Fill(capacity, ZERO)))
    case Obj(_) => Ok(Rejected(NO_VALUE))
    case _ => Ok(Rejected(UNKNOWN_JSON))
  }

  function RealText(c: Codec, text: string, inherited: int, capacity: nat, factor: string): Result<Request<Double>> {
    match c.parse(text)
    case None => Ok(Rejected(PARSE_FAILED))
    case Some(j) =>
      match Resolve(j, inherited, StodAsInt(factor))
      case Ok(t) => RealLeaf(t, capacity, factor)
      case Abort => Abort
  }

  // ----- The recursion -------------------------------------------------------------------

  lemma {:induction false} InnermostOffsetOuter(o: Json, ws: seq<Json>, inherited: int, divisor: Result<int>)
    requires !BadOffset(o, divisor) && forall x | x in ws :: !BadOffset(x, divisor)
    ensures forall x | x in [o] + ws :: !BadOffset(x, divisor)
    ensures InnermostOffset([o] + ws, inherited, divisor)
         == InnermostOffset(ws, if Contains(o, "Offset") then OwnOffset(o, divisor).value else inherited, divisor)
    decreases |ws|
  {
    var all := [o] + ws;
    if ws == [] {
      assert all[..0] == [];
    } else {
      assert all[..|all| - 1] == [o] + ws[..|ws| - 1];
      InnermostOffsetOuter(o, ws[..|ws| - 1], inherited, divisor);
    }
  }

  /** What "innermost" means: the last wrapper that has an "Offset" decides, whatever the
      others say; without one the inherited offset stands. */
  lemma {:induction false} InnermostOffsetDecides(ws: seq<Json>, k: int, inherited: int, divisor: Result<int>)
    requires forall o | o in ws :: !BadOffset(o, divisor)
    requires -1 <= k < |ws| && forall i | k < i < |ws| :: !Contains(ws[i], "Offset")
    requires k >= 0 ==> Contains(ws[k], "Offset")
    ensures InnermostOffset(ws, inherited, divisor)
         == if k >= 0 then assert ws[k] in ws && !BadOffset(ws[k], divisor); OwnOffset(ws[k], divisor).value
            else inherited
    decreases |ws|
  {
    if ws != [] && k < |ws| - 1 {
      InnermostOffsetDecides(ws[..|ws| - 1], k, inherited, divisor);
    }
  }

  lemma NoWrapper(j: Json, inherited: int, divisor: Result<int>)
    requires !Contains(j, "Value")
    ensures Resolve(j, inherited, divisor) == Ok(Target(j, inherited))
  {
    assert Wrappers(j) == [];
  }

  /** One level of unwrapping, as the recursive call sees it. */
  lemma Unwrap(j: Json, inherited: int, divisor: Result<int>)
    requires Contains(j, "Value")
    ensures Resolve(j, inherited, divisor) ==
      if BadOffset(j, divisor) then Abort else
        Resolve(j.fields["Value"], if Contains(j, "Offset") then OwnOffset(j, divisor).value else inherited, divisor)
  {
    hide OwnOffset;
    var ws := Wrappers(j.fields["Value"]);
    assert Wrappers(j) == [j] + ws;
    assert j in Wrappers(j);
    assert forall o | o in Wrappers(j) :: o == j || o in ws;
    assert forall o | o in ws :: o in Wrappers(j);
    if !BadOffset(j, divisor) && forall o | o in ws :: !BadOffset(o, divisor) {
      InnermostOffsetOuter(j, ws, inherited, divisor);
    }
  }
}
