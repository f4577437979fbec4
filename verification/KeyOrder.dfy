/** The iteration order of std::map<std::string, ...>: keys in increasing
    lexicographic order. */
module KeyOrder {

  /** std::string's operator<. */
  predicate Less(a: string, b: string) {
    b != [] && (a == [] || a[0] < b[0] || (a[0] == b[0] && Less(a[1..], b[1..])))
  }

  /** a is less when b goes on where it ends, or where they first differ it has the smaller
      character. */
  lemma {:induction false} LessIs(a: string, b: string)
    ensures Less(a, b) <==> exists k :: LessAt(a, b, k)
    decreases |a|
  {
    if a != [] && b != [] && a[0] == b[0] {
      LessIs(a[1..], b[1..]);
      forall k
        ensures LessAt(a[1..], b[1..], k) <==> k >= 0 && LessAt(a, b, k + 1)
      {
        if k >= 0 && k < |a| && k < |b| {
          assert a[..k + 1] == [a[0]] + a[1..][..k] && b[..k + 1] == [b[0]] + b[1..][..k];
          assert a[1..][..k] == a[..k + 1][1..] && b[1..][..k] == b[..k + 1][1..];
        }
      }
      if Less(a, b) {
        var k :| LessAt(a[1..], b[1..], k);
        assert LessAt(a, b, k + 1);
      }
      if k :| LessAt(a, b, k) {
        assert k > 0;
        assert LessAt(a[1..], b[1..], k - 1);
      }
    } else if Less(a, b) {
      assert LessAt(a, b, 0);
    }
  }

  /** Up to k they are the same; there a ends or has the smaller character. */
  predicate LessAt(a: string, b: string, k: int) {
    0 <= k <= |a| && k < |b| && a[..k] == b[..k] && (k < |a| ==> a[k] < b[k])
  }

  lemma {:induction false} LessTransitive(a: string, b: string, c: string)
    requires Less(a, b) && Less(b, c)
    ensures Less(a, c)
  {
    if a != [] && a[0] == b[0] == c[0] {
      LessTransitive(a[1..], b[1..], c[1..]);
    }
  }

  lemma {:induction false} LessTotal(a: string, b: string)
    ensures Less(a, b) || Less(b, a) || a == b
    ensures !(Less(a, b) && Less(b, a))
  {
    if a != [] && b != [] && a[0] == b[0] {
      LessTotal(a[1..], b[1..]);
      assert a == [a[0]] + a[1..] && b == [b[0]] + b[1..];
    }
  }

  lemma {:induction false} LeastExists(s: set<string>)
    requires s != {}
    ensures exists k :: k in s && forall j | j in s :: !Less(j, k)
    decreases |s|
  {
    var x :| x in s;
    if s == {x} {
      LessTotal(x, x);
      assert x in s && forall j | j in s :: !Less(j, x);
    } else {
      var rest := s - {x};
      assert s == {x} + rest;
      LeastExists(rest);
      var k :| k in rest && forall j | j in rest :: !Less(j, k);
      var m := if Less(x, k) then x else k;
      forall j | j in s
        ensures !Less(j, m)
      {
        LessTotal(x, x);
        if j != x && m == x && Less(j, x) {
          LessTransitive(j, x, k);
        }
      }
      assert m in s && forall j | j in s :: !Less(j, m);
    }
  }

  function Least(s: set<string>): (k: string)
    requires s != {}
    ensures k in s && forall j | j in s :: j == k || Less(k, j)
  {
    LeastExists(s);
    assert forall a, b | a in s && b in s :: Less(a, b) || Less(b, a) || a == b by {
      forall a, b | a in s && b in s ensures Less(a, b) || Less(b, a) || a == b { LessTotal(a, b); }
    }
    var k :| k in s && forall j | j in s :: !Less(j, k);
    k
  }

  predicate Increasing(ks: seq<string>) {
    forall i, j | 0 <= i < j < |ks| :: Less(ks[i], ks[j])
  }

  /** The keys of a std::map in the order a range-for visits them. */
  function SortedKeys(s: set<string>): (ks: seq<string>)
    ensures forall k :: k in ks <==> k in s
    ensures Increasing(ks)
    decreases |s|
  {
    if s == {} then [] else
      var k := Least(s);
      var rest := SortedKeys(s - {k});
      assert forall x :: x in [k] + rest <==> x == k || x in rest;
      [k] + rest
  }

  /** Only one strictly increasing sequence lists a given set of keys. */
  lemma {:induction false} SortedKeysUnique(ks: seq<string>, s: set<string>)
    requires Increasing(ks) && forall k :: k in ks <==> k in s
    ensures ks == SortedKeys(s)
    decreases |ks|
  {
    if ks == [] {
      assert forall k | k in s :: k in ks;
    } else {
      var k := ks[0];
      assert k in ks;
      var least := Least(s);
      assert least in ks;
      LessTotal(k, least);
      assert k == least;
      var rest := ks[1..];
      forall x
        ensures x in rest <==> x in s - {k}
      {
        LessTotal(k, k);
        assert ks == [k] + rest;
        assert x in ks <==> x == k || x in rest;
        if x in rest {
          var i :| 0 <= i < |rest| && rest[i] == x;
          assert Less(ks[0], ks[i + 1]);
        }
      }
      SortedKeysUnique(rest, s - {k});
    }
  }

  /** Removing a key takes it out of its place in the order. */
  lemma SortedKeysWithout(s: set<string>, i: nat)
    requires i < |SortedKeys(s)|
    ensures SortedKeys(s - {SortedKeys(s)[i]}) == SortedKeys(s)[..i] + SortedKeys(s)[i + 1..]
  {
    hide SortedKeys, Less;
    var ks := SortedKeys(s);
    var rest := ks[..i] + ks[i + 1..];
    assert ks == ks[..i] + [ks[i]] + ks[i + 1..];
    forall x
      ensures x in rest <==> x in s - {ks[i]}
    {
      LessTotal(ks[i], ks[i]);
      assert x in ks <==> x in ks[..i] || x == ks[i] || x in ks[i + 1..];
    }
    SortedKeysUnique(rest, s - {ks[i]});
  }
}
