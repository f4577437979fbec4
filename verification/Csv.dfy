/** The tokeniser of the CSV loader. */
module Csv {
  function IndexOf(s: string, c: char): (i: nat)
    ensures i <= |s| && c !in s[..i]
    ensures i < |s| ==> s[i] == c
  {
    if s == [] || s[0] == c then 0 else
      var i := IndexOf(s[1..], c);
      assert s[..i + 1] == [s[0]] + s[1..][..i];
      i + 1
  }

  lemma IndexOfIs(s: string, c: char, i: nat)
    requires i <= |s| && c !in s[..i] && (i < |s| ==> s[i] == c)
    ensures IndexOf(s, c) == i
  {
    assert forall j | 0 <= j < i :: s[..i][j] != c;
    assert forall j | 0 <= j < IndexOf(s, c) :: s[..IndexOf(s, c)][j] != c;
  }

  /** The fields of a line: one for each semicolon, the text before it. */
  function Fields(line: string): (fields: seq<string>)
    ensures forall f | f in fields :: ';' !in f
  {
    var i := IndexOf(line, ';');
    if i == |line| then [] else [line[..i]] + Fields(line[i + 1..])
  }

  /** What follows the last semicolon, which the loader drops. */
  function Rest(line: string): (rest: string)
    ensures ';' !in rest
  {
    var i := IndexOf(line, ';');
    if i == |line| then line else Rest(line[i + 1..])
  }

  /** The loop of LoadRegisterDataref: it cuts the line from the front. */
  method Tokenise(text: string) returns (vecOut: seq<string>, line: string)
    ensures vecOut == Fields(text) && line == Rest(text)
  {
    hide IndexOf;
    vecOut, line := [], text;
    var pos := IndexOf(line, ';');
    while pos != |line|
      invariant pos == IndexOf(line, ';')
      invariant vecOut + Fields(line) == Fields(text) && Rest(line) == Rest(text)
      decreases |line|
    {
      var sub := line[..pos];
      assert vecOut + Fields(line) == (vecOut + [sub]) + Fields(line[pos + 1..]);
      vecOut := vecOut + [sub];
      line := line[pos + 1..];
      pos := IndexOf(line, ';');
    }
    assert vecOut + [] == vecOut;
  }

  /** Each field followed by its semicolon. */
  function Join(fields: seq<string>): string {
    if fields == [] then [] else fields[0] + ";" + Join(fields[1..])
  }

  lemma CutAt(line: string, i: nat)
    requires i < |line| && line[i] == ';'
    ensures line == line[..i] + ";" + line[i + 1..]
  {
  }

  lemma FirstField(line: string)
    ensures var i := IndexOf(line, ';');
      if i == |line| then Fields(line) == [] && Rest(line) == line
      else Fields(line) == [line[..i]] + Fields(line[i + 1..]) && Rest(line) == Rest(line[i + 1..])
  {
    hide IndexOf;
  }

  /** No character of the line is lost or changed. */
  lemma {:induction false} TokensRebuildLine(line: string)
    ensures Join(Fields(line)) + Rest(line) == line
    decreases |line|
  {
    hide IndexOf, Fields, Rest, Join;
    FirstField(line);
    var i := IndexOf(line, ';');
    if i == |line| {
      JoinNil(line);
    } else {
      var tail := line[i + 1..];
      TokensRebuildLine(tail);
      CutAt(line, i);
      JoinCons(line[..i], Fields(tail), Rest(tail));
    }
  }

  lemma JoinNil(rest: string)
    ensures Join([]) + rest == rest
  {
  }

  lemma JoinCons(f: string, fields: seq<string>, rest: string)
    ensures Join([f] + fields) + rest == f + ";" + (Join(fields) + rest)
  {
    assert ([f] + fields)[1..] == fields;
  }

  /** There is one token for each semicolon. */
  lemma {:induction false} OneTokenPerSemicolon(line: string)
    ensures |Fields(line)| == multiset(line)[';']
    decreases |line|
  {
    hide IndexOf, Join, Rest;
    FirstField(line);
    var i := IndexOf(line, ';');
    if i == |line| {
      assert line[..i] == line;
    } else {
      CutAt(line, i);
      var f, tail := line[..i], line[i + 1..];
      OneTokenPerSemicolon(tail);
      assert multiset(line) == multiset(f) + multiset(";") + multiset(tail);
    }
  }

  /** Tokenising joined fields gives the fields back. */
  lemma {:induction false} FieldsOfJoin(fields: seq<string>, rest: string)
    requires (forall f | f in fields :: ';' !in f) && ';' !in rest
    ensures Fields(Join(fields) + rest) == fields && Rest(Join(fields) + rest) == rest
  {
    if fields == [] {
      assert Join(fields) + rest == rest;
      IndexOfIs(rest, ';', |rest|);
    } else {
      var f, more := fields[0], Join(fields[1..]) + rest;
      var line := Join(fields) + rest;
      assert line == f + ";" + more;
      assert line[..|f|] == f;
      IndexOfIs(line, ';', |f|);
      assert line[|f| + 1..] == more;
      assert fields == [f] + fields[1..];
      FieldsOfJoin(fields[1..], rest);
    }
  }
}
