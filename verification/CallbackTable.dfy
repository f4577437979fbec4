/** The table of callbacks, filled from lists of (operation, function) pairs. A function
    that is missing from its library is None. */
module CallbackTable {
  import opened Prelude

  type Entry<V> = (string, Option<V>)

  /** AppendCallback: a name already in use keeps its function. */
  function Append<V>(table: map<string, V>, name: string, v: V): map<string, V> {
    if name in table then table else table[name := v]
  }

  /** The function the first entry with a function offers for name. */
  function Offer<V>(list: seq<Entry<V>>, name: string): Option<V> {
    if list == [] then None
    else if list[0].0 == name && list[0].1.Some? then list[0].1
    else Offer(list[1..], name)
  }

  /** The table after loading a list into it, entry by entry. */
  function Loaded<V>(table: map<string, V>, list: seq<Entry<V>>): map<string, V>
    decreases |list|
  {
    if list == [] then table else
      var (name, v) := list[0];
      Loaded(if v.Some? then Append(table, name, v.value) else table, list[1..])
  }

  /** The loop of LoadCallbackDLL. */
  method Load<V>(before: map<string, V>, list: seq<Entry<V>>) returns (table: map<string, V>)
    ensures table == Loaded(before, list)
  {
    table := before;
    for i := 0 to |list|
      invariant Loaded(table, list[i..]) == Loaded(before, list)
    {
      var (name, v) := list[i];
      if v.None? {
        continue;
      }
      table := Append(table, name, v.value);
    }
  }

  /** First wins: a binding is never replaced, and a new name gets the first function
      offered for it. */
  lemma {:induction false} FirstOfferWins<V>(table: map<string, V>, list: seq<Entry<V>>, name: string)
    ensures name in Loaded(table, list) <==> name in table || Offer(list, name).Some?
    ensures name in table ==> Loaded(table, list)[name] == table[name]
    ensures name !in table && Offer(list, name).Some? ==> Loaded(table, list)[name] == Offer(list, name).value
    decreases |list|
  {
    if list != [] {
      var (op, v) := list[0];
      FirstOfferWins(if v.Some? then Append(table, op, v.value) else table, list[1..], name);
    }
  }

  /** Loading a, then b, is loading a + b. */
  lemma {:induction false} LoadedConcat<V>(table: map<string, V>, a: seq<Entry<V>>, b: seq<Entry<V>>)
    ensures Loaded(Loaded(table, a), b) == Loaded(table, a + b)
    decreases |a|
  {
    if a == [] {
      assert a + b == b;
    } else {
      var (op, v) := a[0];
      assert (a + b)[1..] == a[1..] + b;
      LoadedConcat(if v.Some? then Append(table, op, v.value) else table, a[1..], b);
    }
  }

  /** Loading a list again, at any later time, changes nothing. */
  lemma ReloadChangesNothing<V>(table: map<string, V>, a: seq<Entry<V>>, b: seq<Entry<V>>)
    ensures var later := Loaded(Loaded(table, a), b); Loaded(later, a) == later
  {
    var later := Loaded(Loaded(table, a), b);
    forall name
      ensures name in Loaded(later, a) <==> name in later
      ensures name in later ==> Loaded(later, a)[name] == later[name]
    {
      FirstOfferWins(table, a, name);
      FirstOfferWins(Loaded(table, a), b, name);
      FirstOfferWins(later, a, name);
    }
  }
}
