/** JSON values as trees, and the text form the source obtains from nlohmann::json, a
    library that is not part of this model. */
module JsonTree {
  import opened Prelude
  import opened Rounding
  import opened Numerals

  /** A finite double in JSON: digits x 10^-places, in lowest terms. */
  datatype RawFloatText = FloatText(neg: bool, digits: nat, places: nat)

  type FloatText = d: RawFloatText | d.places == 0 || d.digits % 10 != 0 witness FloatText(false, 0, 0)

  /** Int(n) is number_integer when n is negative and number_unsigned otherwise, which is how
      the parser classifies integers. */
  datatype Json =
    | Null
    | Bool(b: bool)
    | Str(text: string)
    | Int(n: int)
    | Float(d: FloatText)
    | Arr(elems: seq<Json>)
    | Obj(fields: map<string, Json>)

  /** json::parse (None: discarded), json::dump, and dump of an array of doubles, whose
      shortest decimal form is not modelled. */
  datatype Codec = Codec(parse: string -> Option<Json>, dump: Json -> string, dumpReals: seq<Double> -> string)

  /** What is assumed of the library: dumped text is not empty, and parsing it gives the tree
      back. */
  ghost predicate Faithful(c: Codec) {
    forall j :: c.dump(j) != "" && c.parse(c.dump(j)) == Some(j)
  }

  predicate Contains(j: Json, key: string) { j.Obj? && key in j.fields }

  /** j.at(key).get<std::string>(): throws when the key is missing or not a string. */
  function TextAt(j: Json, key: string): Result<string> {
    if Contains(j, key) && j.fields[key].Str? then Ok(j.fields[key].text) else Abort
  }

  function Put(j: Json, key: string, v: Json): Json
    requires j.Obj?
  {
    Obj(j.fields[key := v])
  }

  /** emplace: a key already there keeps its value. */
  function Emplace(j: Json, key: string, v: Json): (r: Json)
    requires j.Obj?
    ensures r.Obj? && Contains(r, key) && (Contains(j, key) ==> r == j)
  {
    if Contains(j, key) then j else Put(j, key, v)
  }

  function FloatValue(d: FloatText): Double {
    Rounded(DOUBLE, Finite(d.neg, Decimal(d.digits, d.places, 1.0)))
  }

  /** ExtractJsonValue: the "Value" field as text; empty for a type it does not support. A
      JSON number with a point goes through float. */
  function ExtractValue(c: Codec, j: Json): Result<string> {
    if !Contains(j, "Value") then Abort else
      match j.fields["Value"]
      case Str(s) => Ok(s)
      case Float(d) => Ok(PrintDouble(Narrow(FloatValue(d))))
      case Int(n) => Ok(PrintInt(if n < 0 then Wrap(n) else n % TWO_32))
      case Obj(_) => Ok(c.dump(j.fields["Value"]))
      case Arr(_) => Ok(c.dump(j.fields["Value"]))
      case _ => Ok("")
  }
}
