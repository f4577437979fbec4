/** The manager's maps as a step machine over registry operations, and what the maps hold
    as a function of the operation log alone. An object is identified by the position of
    the operation that registered it. */
module Registry {
  import opened Prelude
  import opened Numerals

  datatype Op =
    | Reg(name: string)
    | Unreg(name: string)
    | Sub(name: string)
    | Unsub(name: string)
    | Const(name: string, value: string)

  datatype Constant = Constant(value: string, id: nat)

  datatype Registry = Registry(
    named: map<string, nat>,
    subscribed: map<string, nat>,
    consts: map<string, Constant>,
    count: nat,  // m_subscirbeDatarefCount, an unsigned 32-bit counter
    clock: nat)

  const EMPTY := Registry(map[], map[], map[], 0, 0)

  /** The counter after ++ or --. */
  function Bump(count: int, delta: int): nat { (count + delta) % TWO_32 }

  function AddSubscribed(r: Registry, name: string): Registry {
    if name !in r.named then r else
      r.(subscribed := if name in r.subscribed then r.subscribed else r.subscribed[name := r.named[name]],
         count := Bump(r.count, 1))
  }

  function RemoveSubscribed(r: Registry, name: string): Registry {
    if name !in r.subscribed then r else
      r.(subscribed := r.subscribed - {name}, count := Bump(r.count, -1))
  }

  function AddConstant(r: Registry, name: string, value: string): Registry {
    if name !in r.named then r
    else if name in r.consts then r.(consts := r.consts[name := r.consts[name].(value := value)])
    else r.(consts := r.consts[name := Constant(value, r.named[name])])
  }

  function Register(r: Registry, name: string): Registry {
    if name in r.named then r else r.(named := r.named[name := r.clock])
  }

  function Unregister(r: Registry, name: string): Registry {
    if name !in r.named then r else
      var s := RemoveSubscribed(r, name);
      s.(named := s.named - {name})
  }

  function Apply(r: Registry, op: Op): Registry {
    var s := match op
      case Reg(n) => Register(r, n)
      case Unreg(n) => Unregister(r, n)
      case Sub(n) => AddSubscribed(r, n)
      case Unsub(n) => RemoveSubscribed(r, n)
      case Const(n, v) => AddConstant(r, n, v);
    s.(clock := r.clock + 1)
  }

  function ApplyAll(r: Registry, ops: seq<Op>): Registry
    decreases |ops|
  {
    if ops == [] then r else Apply(ApplyAll(r, ops[..|ops| - 1]), ops[|ops| - 1])
  }

  function Run(ops: seq<Op>): Registry { ApplyAll(EMPTY, ops) }

  lemma {:induction false} ApplyAllConcat(r: Registry, a: seq<Op>, b: seq<Op>)
    ensures ApplyAll(r, a + b) == ApplyAll(ApplyAll(r, a), b)
    decreases |b|
  {
    if b == [] {
      assert a + b == a;
    } else {
      assert (a + b)[..|a + b| - 1] == a + b[..|b| - 1];
      ApplyAllConcat(r, a, b[..|b| - 1]);
    }
  }

  lemma {:induction false} ClockCounts(ops: seq<Op>)
    ensures Run(ops).clock == |ops|
    decreases |ops|
  {
    if ops != [] {
      ClockCounts(ops[..|ops| - 1]);
    }
  }

  // ----- Registration ---------------------------------------------------------------

  /** Some registration of n was not undone. */
  ghost predicate Alive(ops: seq<Op>, n: string) {
    exists j :: 0 <= j < |ops| && ops[j] == Reg(n) && forall i | j < i < |ops| :: ops[i] != Unreg(n)
  }

  lemma AliveExtend(init: seq<Op>, last: Op, n: string)
    ensures Alive(init + [last], n) <==> (Alive(init, n) && last != Unreg(n)) || last == Reg(n)
  {
    var ops := init + [last];
    assert forall i | 0 <= i < |init| :: ops[i] == init[i];
    assert ops[|init|] == last;
    if Alive(init, n) && last != Unreg(n) {
      var j :| 0 <= j < |init| && init[j] == Reg(n) && forall i | j < i < |init| :: init[i] != Unreg(n);
      assert ops[j] == Reg(n);
    }
    if Alive(ops, n) && last != Reg(n) {
      var j :| 0 <= j < |ops| && ops[j] == Reg(n) && forall i | j < i < |ops| :: ops[i] != Unreg(n);
      assert init[j] == Reg(n);
    }
  }

  lemma {:induction false} NamedIffAlive(ops: seq<Op>, n: string)
    ensures n in Run(ops).named <==> Alive(ops, n)
    decreases |ops|
  {
    if ops != [] {
      var init, last := ops[..|ops| - 1], ops[|ops| - 1];
      assert ops == init + [last];
      NamedIffAlive(init, n);
      AliveExtend(init, last, n);
    }
  }

  /** Operation k is the first registration of n since the last time n was unregistered. */
  ghost predicate RegisteredBy(ops: seq<Op>, n: string, k: nat) {
    && k < |ops| && ops[k] == Reg(n)
    && (forall i | k < i < |ops| :: ops[i] != Unreg(n))
    && (forall j | 0 <= j < k && ops[j] == Reg(n) :: exists u :: j < u < k && ops[u] == Unreg(n))
  }

  lemma RegisteredByExtend(init: seq<Op>, last: Op, n: string, k: nat)
    requires k < |init|
    ensures RegisteredBy(init + [last], n, k) <==> RegisteredBy(init, n, k) && last != Unreg(n)
  {
    var ops := init + [last];
    assert forall i | 0 <= i < |init| :: ops[i] == init[i];
    if RegisteredBy(ops, n, k) {
      assert ops[|init|] != Unreg(n);
      forall j | 0 <= j < k && init[j] == Reg(n)
        ensures exists u :: j < u < k && init[u] == Unreg(n)
      {
        assert ops[j] == Reg(n);
        var u :| j < u < k && ops[u] == Unreg(n);
        assert init[u] == Unreg(n);
      }
    }
    if RegisteredBy(init, n, k) && last != Unreg(n) {
      forall j | 0 <= j < k && ops[j] == Reg(n)
        ensures exists u :: j < u < k && ops[u] == Unreg(n)
      {
        assert init[j] == Reg(n);
        var u :| j < u < k && init[u] == Unreg(n);
        assert ops[u] == Unreg(n);
      }
    }
  }

  lemma RegisteredByLast(init: seq<Op>, last: Op, n: string)
    ensures RegisteredBy(init + [last], n, |init|) <==> last == Reg(n) && !Alive(init, n)
  {
    var ops := init + [last];
    assert forall i | 0 <= i < |init| :: ops[i] == init[i];
    if RegisteredBy(ops, n, |init|) {
      forall j | 0 <= j < |init| && init[j] == Reg(n)
        ensures exists u :: j < u < |init| && init[u] == Unreg(n)
      {
        assert ops[j] == Reg(n);
        var u :| j < u < |init| && ops[u] == Unreg(n);
        assert init[u] == Unreg(n);
      }
    }
    if last == Reg(n) && !Alive(init, n) {
      forall j | 0 <= j < |init| && ops[j] == Reg(n)
        ensures exists u :: j < u < |init| && ops[u] == Unreg(n)
      {
        assert init[j] == Reg(n);
        var u :| j < u < |init| && init[u] == Unreg(n);
        assert ops[u] == Unreg(n);
      }
    }
  }

  /** named, as a function of the log. */
  lemma {:induction false} NamedHistory(ops: seq<Op>, n: string, k: nat)
    ensures (n in Run(ops).named && Run(ops).named[n] == k) <==> RegisteredBy(ops, n, k)
    decreases |ops|
  {
    if ops != [] {
      var init, last := ops[..|ops| - 1], ops[|ops| - 1];
      assert ops == init + [last];
      NamedHistory(init, n, k);
      NamedIffAlive(init, n);
      ClockCounts(init);
      if k < |init| {
        RegisteredByExtend(init, last, n, k);
      } else if k == |init| {
        RegisteredByLast(init, last, n);
        if n in Run(init).named {
          NamedHistory(init, n, Run(init).named[n]);
        }
      }
    }
  }

  /** Every object registered is registered under one name. */
  lemma NamedIsInjective(ops: seq<Op>, n: string, p: string)
    requires n in Run(ops).named && p in Run(ops).named && Run(ops).named[n] == Run(ops).named[p]
    ensures n == p
  {
    NamedHistory(ops, n, Run(ops).named[n]);
    NamedHistory(ops, p, Run(ops).named[p]);
  }

  // ----- Subscription ----------------------------------------------------------------

  /** subscribed is a submap of named. */
  lemma {:induction false} Coherent(ops: seq<Op>, n: string)
    ensures n in Run(ops).subscribed ==> n in Run(ops).named && Run(ops).subscribed[n] == Run(ops).named[n]
    decreases |ops|
  {
    if ops != [] {
      Coherent(ops[..|ops| - 1], n);
    }
  }

  /** The subscription at position s took effect and was not undone since. */
  ghost predicate SubscribedAt(ops: seq<Op>, n: string, s: nat) {
    && s < |ops| && ops[s] == Sub(n) && Alive(ops[..s], n)
    && forall i | s < i < |ops| :: ops[i] != Unsub(n) && ops[i] != Unreg(n)
  }

  ghost predicate Subscribed(ops: seq<Op>, n: string) {
    exists s: nat :: SubscribedAt(ops, n, s)
  }

  lemma SubscribedExtend(init: seq<Op>, last: Op, n: string)
    ensures Subscribed(init + [last], n) <==>
      (Subscribed(init, n) && last != Unsub(n) && last != Unreg(n)) || (last == Sub(n) && Alive(init, n))
  {
    var ops := init + [last];
    assert ops[..|init|] == init;
    if Subscribed(ops, n) {
      var s: nat :| SubscribedAt(ops, n, s);
      if s < |init| {
        assert ops[..s] == init[..s] && ops[|init|] == last;
        assert SubscribedAt(init, n, s);
      }
    }
    if Subscribed(init, n) && last != Unsub(n) && last != Unreg(n) {
      var s: nat :| SubscribedAt(init, n, s);
      assert ops[..s] == init[..s];
      assert SubscribedAt(ops, n, s);
    }
    if last == Sub(n) && Alive(init, n) {
      assert SubscribedAt(ops, n, |init|);
    }
  }

  /** subscribed, as a function of the log. */
  lemma {:induction false} SubscribedHistory(ops: seq<Op>, n: string)
    ensures n in Run(ops).subscribed <==> Subscribed(ops, n)
    decreases |ops|
  {
    if ops != [] {
      var init, last := ops[..|ops| - 1], ops[|ops| - 1];
      assert ops == init + [last];
      SubscribedHistory(init, n);
      SubscribedExtend(init, last, n);
      NamedIffAlive(init, n);
      Coherent(init, n);
    }
  }

  /** How many Sub operations hit a name already subscribed. */
  ghost function Redundant(ops: seq<Op>): nat
    decreases |ops|
  {
    if ops == [] then 0 else
      var init, last := ops[..|ops| - 1], ops[|ops| - 1];
      Redundant(init) + if last.Sub? && Subscribed(init, last.name) then 1 else 0
  }

  lemma CountStep(count: int, a: int, b: int, delta: int)
    requires count == Bump(a, b)
    ensures Bump(count, delta) == Bump(a + delta, b)
  {
    var q := (a + b) / TWO_32;
    assert a + b == q * TWO_32 + count;
    assert (q * TWO_32 + count + delta) % TWO_32 == (count + delta) % TWO_32;
  }

  lemma InsertedSize(m: map<string, nat>, n: string, v: nat)
    requires n !in m
    ensures |m[n := v]| == |m| + 1
  {
    assert m[n := v].Keys == m.Keys + {n};
    assert |m.Keys| == |m|;
  }

  lemma RemovedSize(m: map<string, nat>, n: string)
    requires n in m
    ensures |m - {n}| == |m| - 1
  {
    assert (m - {n}).Keys == m.Keys - {n};
    assert |m.Keys| == |m|;
  }

  /** How far an operation moves the number of subscriptions (d) and the counter (e). */
  lemma CounterMoves(r: Registry, op: Op) returns (d: int, e: int)
    requires forall n | n in r.subscribed :: n in r.named
    ensures |Apply(r, op).subscribed| == |r.subscribed| + d
    ensures Apply(r, op).count == if e == 0 then r.count else Bump(r.count, e)
    ensures e == d + if op.Sub? && op.name in r.subscribed then 1 else 0
  {
    hide Bump;
    var n := op.name;
    if op.Sub? && n in r.named {
      d, e := if n in r.subscribed then 0 else 1, 1;
      if n !in r.subscribed {
        InsertedSize(r.subscribed, n, r.named[n]);
      }
    } else if (op.Unsub? || op.Unreg?) && n in r.subscribed {
      d, e := -1, -1;
      RemovedSize(r.subscribed, n);
    } else {
      d, e := 0, 0;
    }
  }

  lemma {:induction false} CounterBump(ops: seq<Op>)
    ensures Run(ops).count == Bump(|Run(ops).subscribed|, Redundant(ops))
    decreases |ops|
  {
    hide Bump, Apply, Subscribed;
    if ops == [] {
      BumpSmall(0, 0);
    } else {
      var init, last := ops[..|ops| - 1], ops[|ops| - 1];
      CounterBump(init);
      SubscribedHistory(init, last.name);
      forall n | n in Run(init).subscribed
        ensures n in Run(init).named
      {
        Coherent(init, n);
      }
      var d, e := CounterMoves(Run(init), last);
      CountStep(Run(init).count, |Run(init).subscribed|, Redundant(init), e);
      BumpMove(|Run(init).subscribed| + e, Redundant(init), d - e);
    }
  }

  lemma BumpSmall(a: nat, b: nat)
    ensures a + b < TWO_32 ==> Bump(a, b) == a + b
  {
  }

  lemma BumpMove(a: int, b: int, d: int)
    ensures Bump(a, b) == Bump(a + d, b - d)
  {
  }

  /** The counter is the number of subscriptions plus the redundant calls ever made, modulo
      its width: below it only after an overflow, and equal exactly without redundant calls. */
  lemma CounterHistory(ops: seq<Op>)
    ensures Run(ops).count == (|Run(ops).subscribed| + Redundant(ops)) % TWO_32
    ensures |Run(ops).subscribed| + Redundant(ops) < TWO_32 ==>
      && Run(ops).count >= |Run(ops).subscribed|
      && (Run(ops).count == |Run(ops).subscribed| <==> Redundant(ops) == 0)
  {
    hide ApplyAll, Redundant;
    CounterBump(ops);
    BumpSmall(|Run(ops).subscribed|, Redundant(ops));
  }

  // ----- Constants ----------------------------------------------------------------------

  /** Operation c set the constant n while n was registered. */
  ghost predicate Effective(ops: seq<Op>, c: nat, n: string) {
    c < |ops| && ops[c].Const? && ops[c].name == n && Alive(ops[..c], n)
  }

  ghost predicate FirstEffective(ops: seq<Op>, c: nat, n: string) {
    Effective(ops, c, n) && forall j: nat | j < c :: !Effective(ops, j, n)
  }

  ghost predicate LastEffective(ops: seq<Op>, c: nat, n: string) {
    Effective(ops, c, n) && forall j: nat | c < j :: !Effective(ops, j, n)
  }

  lemma EffectiveExtend(init: seq<Op>, last: Op, c: nat, n: string)
    ensures c < |init| ==>
      (init + [last])[..c] == init[..c] && (Effective(init + [last], c, n) <==> Effective(init, c, n))
    ensures Effective(init + [last], |init|, n) <==> last.Const? && last.name == n && n in Run(init).named
  {
    assert c < |init| ==> (init + [last])[..c] == init[..c];
    assert (init + [last])[..|init|] == init;
    NamedIffAlive(init, n);
  }

  /** A name is a constant once a Const was issued while it was registered. */
  lemma {:induction false} ConstIffEffective(ops: seq<Op>, n: string)
    ensures n in Run(ops).consts <==> exists c: nat :: Effective(ops, c, n)
    decreases |ops|
  {
    if ops != [] {
      var init, last := ops[..|ops| - 1], ops[|ops| - 1];
      assert ops == init + [last];
      ConstIffEffective(init, n);
      if c: nat :| Effective(ops, c, n) {
        EffectiveExtend(init, last, c, n);
      }
      if c: nat :| Effective(init, c, n) {
        EffectiveExtend(init, last, c, n);
        assert Effective(ops, c, n);
      } else {
        EffectiveExtend(init, last, |init|, n);
      }
    }
  }

  /** A constant's object is the one its name had at the first effective Const. */
  lemma {:induction false} ConstObject(ops: seq<Op>, n: string, c: nat)
    requires FirstEffective(ops, c, n)
    ensures n in Run(ops).consts && RegisteredBy(ops[..c], n, Run(ops).consts[n].id)
    decreases |ops|
  {
    var init, last := ops[..|ops| - 1], ops[|ops| - 1];
    assert ops == init + [last];
    forall j: nat
      ensures j < |init| ==> (Effective(ops, j, n) <==> Effective(init, j, n))
    {
      EffectiveExtend(init, last, j, n);
    }
    EffectiveExtend(init, last, c, n);
    ConstIffEffective(init, n);
    if c == |init| {
      NamedHistory(init, n, Run(init).named[n]);
    } else {
      ConstObject(init, n, c);
    }
  }

  /** A constant's value is that of the last effective Const. */
  lemma {:induction false} ConstValue(ops: seq<Op>, n: string, c: nat)
    requires LastEffective(ops, c, n)
    ensures n in Run(ops).consts && Run(ops).consts[n].value == ops[c].value
    decreases |ops|
  {
    var init, last := ops[..|ops| - 1], ops[|ops| - 1];
    assert ops == init + [last];
    forall j: nat
      ensures j < |init| ==> (Effective(ops, j, n) <==> Effective(init, j, n))
    {
      EffectiveExtend(init, last, j, n);
    }
    EffectiveExtend(init, last, c, n);
    if c < |init| {
      ConstValue(init, n, c);
    }
  }

  // ----- What later operations cannot undo --------------------------------------------------

  lemma ConstStep(r: Registry, op: Op, n: string)
    requires n in Apply(r, op).consts
    ensures n in r.consts ==> Apply(r, op).consts[n].id == r.consts[n].id
    ensures n !in r.consts ==> n in r.named && Apply(r, op).consts[n].id == r.named[n]
  {
  }

  lemma ConstKept(r: Registry, op: Op, n: string)
    requires n in r.consts
    ensures n in Apply(r, op).consts
  {
  }

  /** A constant never disappears and keeps its object, whatever happens to the name. */
  lemma {:induction false} ConstForever(ops: seq<Op>, more: seq<Op>, n: string)
    requires n in Run(ops).consts
    ensures n in Run(ops + more).consts && Run(ops + more).consts[n].id == Run(ops).consts[n].id
    decreases |more|
  {
    hide Apply;
    if more == [] {
      assert ops + more == ops;
    } else {
      var init, last := ops + more[..|more| - 1], more[|more| - 1];
      assert (ops + more)[..|ops + more| - 1] == init;
      ConstForever(ops, more[..|more| - 1], n);
      ConstKept(Run(init), last, n);
      ConstStep(Run(init), last, n);
    }
  }

  /** An object that left named never comes back, even when its name is registered again. */
  lemma {:induction false} RetiredForever(ops: seq<Op>, more: seq<Op>, k: nat)
    requires k < |ops| && k !in Run(ops).named.Values
    ensures k !in Run(ops + more).named.Values
    decreases |more|
  {
    if more == [] {
      assert ops + more == ops;
    } else {
      var init := ops + more[..|more| - 1];
      assert (ops + more)[..|ops + more| - 1] == init;
      RetiredForever(ops, more[..|more| - 1], k);
      ClockCounts(init);
      var r, s := Run(init), Run(ops + more);
      forall n | n in s.named
        ensures s.named[n] != k
      {
        assert n in r.named && s.named[n] == r.named[n] ==> r.named[n] in r.named.Values;
      }
    }
  }

  /** The object a constant is bound to was registered under the constant's name. */
  lemma {:induction false} ConstIdName(ops: seq<Op>, n: string)
    requires n in Run(ops).consts
    ensures Run(ops).consts[n].id < |ops| && ops[Run(ops).consts[n].id] == Reg(n)
    decreases |ops|
  {
    hide Apply;
    var init, last := ops[..|ops| - 1], ops[|ops| - 1];
    ConstStep(Run(init), last, n);
    if n in Run(init).consts {
      ConstIdName(init, n);
    } else {
      NamedHistory(init, n, Run(init).named[n]);
    }
  }

  /** Subscribing a name twice leaves one subscription and a counter of two. */
  lemma SubscribingTwiceCountsTwice(n: string)
    ensures var r := Run([Reg(n), Sub(n), Sub(n)]); |r.subscribed| == 1 && r.count == 2
  {
    RunStep([], Reg(n));
    RunStep([Reg(n)], Sub(n));
    RunStep([Reg(n), Sub(n)], Sub(n));
    assert [] + [Reg(n)] == [Reg(n)] && [Reg(n)] + [Sub(n)] == [Reg(n), Sub(n)];
    assert [Reg(n), Sub(n)] + [Sub(n)] == [Reg(n), Sub(n), Sub(n)];
    assert Run([Reg(n)]) == Registry(map[n := 0], map[], map[], 0, 1);
    assert Run([Reg(n), Sub(n)]) == Registry(map[n := 0], map[n := 0], map[], 1, 2);
  }

  lemma RunStep(init: seq<Op>, last: Op)
    ensures Run(init + [last]) == Apply(Run(init), last) && Run([]) == EMPTY
  {
    assert (init + [last])[..|init + [last]| - 1] == init;
  }
}
