/** The appointment store, a map from id to record that enumerates its values
    in ascending key order, as the ordered stable map of the service does.
    Keys are compared character by character. */
module StableMap {
  import opened Appointments

  /** Strict lexicographic order on keys: a proper prefix comes first. */
  predicate KeyLess(a: string, b: string)
    decreases |a|
  {
    b != [] && (a == [] || a[0] < b[0] || (a[0] == b[0] && KeyLess(a[1..], b[1..])))
  }

  lemma {:induction false} KeyLessIrreflexive(a: string)
    ensures !KeyLess(a, a)
    decreases |a|
  {
    if a != [] {
      KeyLessIrreflexive(a[1..]);
    }
  }

  lemma {:induction false} KeyLessTransitive(a: string, b: string, c: string)
    requires KeyLess(a, b) && KeyLess(b, c)
    ensures KeyLess(a, c)
    decreases |a|
  {
    if a != [] && a[0] == b[0] && b[0] == c[0] {
      KeyLessTransitive(a[1..], b[1..], c[1..]);
    }
  }

  lemma {:induction false} KeyLessTotal(a: string, b: string)
    requires a != b
    ensures KeyLess(a, b) || KeyLess(b, a)
    decreases |a|
  {
    if a != [] && b != [] && a[0] == b[0] {
      assert a == [a[0]] + a[1..] && b == [b[0]] + b[1..];
      KeyLessTotal(a[1..], b[1..]);
    }
  }

  /** No two keys are each below the other. */
  lemma KeyLessAsymmetric()
    ensures forall a, b :: KeyLess(a, b) ==> !KeyLess(b, a)
  {
    forall a, b | KeyLess(a, b) ensures !KeyLess(b, a) {
      if KeyLess(b, a) {
        KeyLessTransitive(a, b, a);
        KeyLessIrreflexive(a);
      }
    }
  }

  /** `k` is the smallest of `keys`. */
  predicate IsLeast(k: string, keys: set<string>) {
    k in keys && forall j | j in keys && j != k :: KeyLess(k, j)
  }

  lemma {:induction false} LeastExists(keys: set<string>)
    requires keys != {}
    ensures exists k :: IsLeast(k, keys)
    decreases |keys|
  {
    var x :| x in keys;
    if keys == {x} {
      assert IsLeast(x, keys);
    } else {
      var rest := keys - {x};
      LeastExists(rest);
      var m :| IsLeast(m, rest);
      if KeyLess(x, m) {
        forall j | j in keys && j != x ensures KeyLess(x, j) {
          if j != m {
            KeyLessTransitive(x, m, j);
          }
        }
        assert IsLeast(x, keys);
      } else {
        KeyLessTotal(x, m);
        assert IsLeast(m, keys);
      }
    }
  }

  /** The smallest key of a non-empty key set. */
  function Least(keys: set<string>): (k: string)
    requires keys != {}
    ensures IsLeast(k, keys)
  {
    LeastExists(keys);
    KeyLessAsymmetric();
    var k :| IsLeast(k, keys); k
  }

  /** The keys of the store in ascending order. */
  function SortedKeys(keys: set<string>): (r: seq<string>)
    ensures |r| == |keys|
    ensures forall k :: k in r <==> k in keys
    ensures forall i, j | 0 <= i < j < |r| :: KeyLess(r[i], r[j])
    decreases |keys|
  {
    if keys == {} then []
    else
      var k := Least(keys);
      [k] + SortedKeys(keys - {k})
  }

  /** `r` lists the records of `m` under the keys `ks`, one entry per key:
      the keys are those of `m`, each exactly once. */
  predicate ListedByKeys(m: Store, r: seq<Appointment>, ks: seq<string>) {
    && |ks| == |r| == |m|
    && (forall i | 0 <= i < |ks| :: ks[i] in m && r[i] == m[ks[i]])
    && (forall i, j | 0 <= i < j < |ks| :: ks[i] != ks[j])
  }

  /** `values()`: every stored record, in ascending key order. */
  function ValuesOf(m: Store): (r: seq<Appointment>)
    ensures |r| == |m|
    ensures forall a :: a in r <==> a in m.Values
    ensures exists ks :: ListedByKeys(m, r, ks)
  {
    var ks := SortedKeys(m.Keys);
    var r := seq(|ks|, i requires 0 <= i < |ks| => m[ks[i]]);
    ListedBySortedKeys(m, ks, r);
    r
  }

  /** Reading the records of `m` under its keys in strictly ascending order
      lists each key once and every stored record. */
  lemma ListedBySortedKeys(m: Store, ks: seq<string>, r: seq<Appointment>)
    requires |ks| == |m| && forall k :: k in ks <==> k in m
    requires forall i, j | 0 <= i < j < |ks| :: KeyLess(ks[i], ks[j])
    requires |r| == |ks| && forall i | 0 <= i < |ks| :: r[i] == m[ks[i]]
    ensures ListedByKeys(m, r, ks)
    ensures forall a :: a in r <==> a in m.Values
  {
    forall i, j | 0 <= i < j < |ks|
      ensures ks[i] != ks[j]
    {
      KeyLessIrreflexive(ks[i]);
    }
    forall a | a in m.Values
      ensures a in r
    {
      var k :| k in m && m[k] == a;
      var i :| 0 <= i < |ks| && ks[i] == k;
      assert r[i] == a;
    }
  }

  /** Every stored record is listed. */
  lemma ListsStored(m: Store, k: string)
    requires k in m
    ensures m[k] in ValuesOf(m)
  {
    assert m[k] in m.Values;
  }

  /** In a store whose records sit under their own ids, `values()` lists the
      records by strictly ascending id, so no record is listed twice. */
  lemma ValuesOrderedById(m: Store)
    requires forall k | k in m :: m[k].id == k
    ensures forall i, j | 0 <= i < j < |ValuesOf(m)| :: KeyLess(ValuesOf(m)[i].id, ValuesOf(m)[j].id)
  {
  }
}
