/** A pass over a sorted map performs one write after another and stops at the first that
    does not return. Because a write never looks at what is stored, a pass is one patch. */
module Overlay {
  import opened Prelude
  import opened Simulation

  /** The writes that happen: those before the first Abort. */
  function Performed(rs: seq<Result<Patch>>): (ps: seq<Patch>)
    ensures |ps| <= |rs|
    ensures forall i | 0 <= i < |ps| :: rs[i] == Ok(ps[i])
    ensures |ps| < |rs| ==> rs[|ps|] == Abort
  {
    if rs == [] || rs[0].Abort? then [] else [rs[0].value] + Performed(rs[1..])
  }

  /** Applying the patches in order. */
  function Sum(ps: seq<Patch>): Patch {
    if ps == [] then map[] else ps[0] + Sum(ps[1..])
  }

  function Pass(rs: seq<Result<Patch>>): Patch { Sum(Performed(rs)) }

  predicate Completes(rs: seq<Result<Patch>>) { |Performed(rs)| == |rs| }

  /** All writes happen exactly when each of them returns. */
  lemma CompletesIffAllReturn(rs: seq<Result<Patch>>)
    ensures Completes(rs) <==> forall i | 0 <= i < |rs| :: rs[i].Ok?
  {
    assert Completes(rs) ==> forall i | 0 <= i < |rs| :: rs[i] == Ok(Performed(rs)[i]);
  }

  lemma PassCons(r: Result<Patch>, rs: seq<Result<Patch>>)
    ensures Pass([r] + rs) == if r.Ok? then r.value + Pass(rs) else map[]
    ensures Completes([r] + rs) <==> r.Ok? && Completes(rs)
  {
    assert ([r] + rs)[1..] == rs;
    if r.Ok? {
      assert Performed([r] + rs)[1..] == Performed(rs);
    }
  }

  /** A write that changes nothing can be left out. */
  lemma {:induction false} PassSkip(a: seq<Result<Patch>>, b: seq<Result<Patch>>)
    ensures var with, without := a + [Ok(map[])] + b, a + b;
      Pass(with) == Pass(without) && (Completes(with) <==> Completes(without))
  {
    hide Pass, Completes, Performed;
    if a == [] {
      assert a + [Ok(map[])] + b == [Ok(map[])] + b && a + b == b;
      PassCons(Ok(map[]), b);
      assert map[] + Pass(b) == Pass(b);
    } else {
      var rest := a[1..];
      assert a + [Ok(map[])] + b == [a[0]] + (rest + [Ok(map[])] + b) && a + b == [a[0]] + (rest + b);
      PassCons(a[0], rest + [Ok(map[])] + b);
      PassCons(a[0], rest + b);
      PassSkip(rest, b);
    }
  }

  lemma PassStep(m: Memory, rs: seq<Result<Patch>>)
    requires rs != []
    ensures rs[0].Abort? ==> Performed(rs) == [] && m + Pass(rs) == m
    ensures rs[0].Ok? ==> m + Pass(rs) == (m + rs[0].value) + Pass(rs[1..])
    ensures rs[0].Ok? ==> |Performed(rs)| == 1 + |Performed(rs[1..])|
  {
    if rs[0].Ok? {
      assert Performed(rs)[1..] == Performed(rs[1..]);
      AddAssociative(m, rs[0].value, Pass(rs[1..]));
    }
  }

  lemma AddAssociative(m: Memory, p: Patch, q: Patch)
    ensures m + (p + q) == (m + p) + q
  {
  }

  /** The last write that covers a location decides what it holds. */
  lemma {:induction false} LastWriter(ps: seq<Patch>, l: Loc, k: nat)
    requires k < |ps| && l in ps[k] && forall j | k < j < |ps| :: l !in ps[j]
    ensures l in Sum(ps) && Sum(ps)[l] == ps[k][l]
  {
    if k > 0 {
      LastWriter(ps[1..], l, k - 1);
    } else {
      NoWriter(ps[1..], l);
    }
  }

  lemma {:induction false} NoWriter(ps: seq<Patch>, l: Loc)
    requires forall j | 0 <= j < |ps| :: l !in ps[j]
    ensures l !in Sum(ps)
  {
    if ps != [] {
      NoWriter(ps[1..], l);
    }
  }

  /** Two passes in a row, repeated, change nothing more. */
  lemma Repeated(m: Memory, p: Patch, q: Patch)
    ensures m + p + p == m + p
    ensures m + p + q + p + q == m + p + q
  {
  }
}
