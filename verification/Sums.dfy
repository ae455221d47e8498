/**
 Finite sums over the values of a map. They stand for SQL's `SUM`, with 0 for no rows
 (`COALESCE(SUM(...), 0)`).
 */
module Sums {

  /** The sum of all values of `w`. */
  ghost function Total<K>(w: map<K, int>): int
    decreases |w|
  {
    if w == map[] then 0
    else
      var k :| k in w;
      LessOneKey(w, k);
      w[k] + Total(w - {k})
  }

  lemma LessOneKey<K, V>(w: map<K, V>, k: K)
    requires k in w
    ensures |w - {k}| == |w| - 1
  {
    assert (w - {k}).Keys == w.Keys - {k};
    assert |w.Keys| == |w| && |(w - {k}).Keys| == |w - {k}|;
  }

  /** The sum does not depend on the order in which the rows are visited. */
  lemma {:induction false} TotalTakeOut<K>(w: map<K, int>, k: K)
    requires k in w
    ensures Total(w) == w[k] + Total(w - {k})
    decreases |w|
  {
    var x :| x in w && Total(w) == w[x] + Total(w - {x});
    if x != k {
      LessOneKey(w, x);
      LessOneKey(w, k);
      TotalTakeOut(w - {x}, k);
      TotalTakeOut(w - {k}, x);
      assert w - {x} - {k} == w - {k} - {x};
    }
  }

  lemma TotalPut<K>(w: map<K, int>, k: K, v: int)
    requires k !in w
    ensures Total(w[k := v]) == Total(w) + v
  {
    TotalTakeOut(w[k := v], k);
    assert w[k := v] - {k} == w;
  }

  /** Dropping rows, or lowering rows, never raises a sum of non-negative rows. */
  lemma {:induction false} TotalMonotone<K>(v: map<K, int>, w: map<K, int>)
    requires v.Keys <= w.Keys
    requires forall k :: k in v ==> v[k] <= w[k]
    requires forall k :: k in w ==> 0 <= w[k]
    ensures Total(v) <= Total(w)
    decreases |w|
  {
    if w == map[] {
      assert v == map[];
    } else {
      var k :| k in w;
      LessOneKey(w, k);
      TotalTakeOut(w, k);
      if k in v {
        TotalTakeOut(v, k);
        TotalMonotone(v - {k}, w - {k});
      } else {
        TotalMonotone(v, w - {k});
      }
    }
  }

  lemma SameMaps<K, V>(a: map<K, V>, b: map<K, V>)
    requires forall k :: k in a <==> k in b
    requires forall k :: k in a && k in b ==> a[k] == b[k]
    ensures a == b
  {
    assert a.Keys == b.Keys;
  }

  /** The sum of two tables that share no row. */
  lemma {:induction false} TotalSplit<K>(w: map<K, int>, a: map<K, int>, b: map<K, int>)
    requires forall k :: k in w <==> k in a || k in b
    requires forall k :: k in a ==> k !in b && w[k] == a[k]
    requires forall k :: k in b ==> w[k] == b[k]
    ensures Total(w) == Total(a) + Total(b)
    decreases |w|
  {
    if w == map[] {
      assert a == map[] && b == map[];
    } else {
      var k :| k in w;
      LessOneKey(w, k);
      TotalTakeOut(w, k);
      if k in a {
        TotalTakeOut(a, k);
        TotalSplit(w - {k}, a - {k}, b);
      } else {
        TotalTakeOut(b, k);
        TotalSplit(w - {k}, a, b - {k});
      }
    }
  }

  /** One row of a `GROUP BY`: it is there if some row belongs to the group, and holds their sum. */
  lemma GroupRow<K, G>(w: map<K, int>, g: map<K, G>, x: G)
    requires w.Keys == g.Keys
    ensures x in GroupTotals(w, g) <==> exists k :: k in g && g[k] == x
    ensures x in GroupTotals(w, g) ==> GroupTotals(w, g)[x] == Total(map k | k in w && g[k] == x :: w[k])
  {
    assert Group(w, g, x) == map k | k in w && g[k] == x :: w[k];
  }

  lemma TotalNonNegative<K>(w: map<K, int>)
    requires forall k :: k in w ==> 0 <= w[k]
    ensures 0 <= Total(w)
  {
    TotalMonotone(map[], w);
  }

  /** `SUM(a - b)` is `SUM(a) - SUM(b)`. */
  lemma {:induction false} TotalDifference<K>(a: map<K, int>, b: map<K, int>)
    requires a.Keys == b.Keys
    ensures Total(map k | k in a :: a[k] - b[k]) == Total(a) - Total(b)
    decreases |a|
  {
    var c := map k | k in a :: a[k] - b[k];
    if a == map[] {
      assert b == map[] && c == map[];
    } else {
      var k :| k in a;
      LessOneKey(a, k);
      TotalTakeOut(a, k);
      TotalTakeOut(b, k);
      TotalTakeOut(c, k);
      TotalDifference(a - {k}, b - {k});
      assert c - {k} == map i | i in a - {k} :: (a - {k})[i] - (b - {k})[i];
    }
  }

  /** The rows of `w` that `g` assigns to group `x`. */
  ghost function Group<K, G>(w: map<K, int>, g: map<K, G>, x: G): map<K, int>
    requires w.Keys == g.Keys
  {
    map k | k in w && g[k] == x :: w[k]
  }

  /** `SELECT g, SUM(w) ... GROUP BY g`. */
  ghost function GroupTotals<K, G>(w: map<K, int>, g: map<K, G>): map<G, int>
    requires w.Keys == g.Keys
  {
    map x | x in g.Values :: Total(Group(w, g, x))
  }

  /** Adding up the group totals gives the ungrouped sum, whatever the grouping column is. */
  lemma {:induction false} GroupingKeepsTotal<K, G>(w: map<K, int>, g: map<K, G>)
    requires w.Keys == g.Keys
    ensures Total(GroupTotals(w, g)) == Total(w)
    decreases |w|
  {
    var t := GroupTotals(w, g);
    if w == map[] {
      assert g == map[];
      assert t == map[];
    } else {
      var k :| k in w;
      var x := g[k];
      LessOneKey(w, k);
      var w', g' := w - {k}, g - {k};
      var t' := GroupTotals(w', g');
      GroupingKeepsTotal(w', g');
      TotalTakeOut(w, k);
      OtherGroups(w, g, k);
      assert k in Group(w, g, x);
      TotalTakeOut(Group(w, g, x), k);
      assert Group(w, g, x) - {k} == Group(w', g', x);
      TotalTakeOut(t, x);
      assert t - {x} == t' - {x};
      if x in t' {
        TotalTakeOut(t', x);
      } else {
        assert Group(w', g', x) == map[];
        assert t' - {x} == t';
      }
    }
  }

  lemma OtherGroups<K, G>(w: map<K, int>, g: map<K, G>, k: K)
    requires w.Keys == g.Keys && k in w
    ensures GroupTotals(w, g) - {g[k]} == GroupTotals(w - {k}, g - {k}) - {g[k]}
    ensures g[k] in GroupTotals(w, g)
  {
    var w', g' := w - {k}, g - {k};
    forall y | y != g[k]
      ensures y in g.Values <==> y in g'.Values
      ensures Group(w, g, y) == Group(w', g', y)
    {
      if y in g.Values {
        var j :| j in g && g[j] == y;
        assert j in g' && g'[j] == y;
      }
    }
    assert k in g;
  }

  lemma SameGroupTotals<K, G>(v: map<K, int>, w: map<K, int>, g: map<K, G>)
    requires v.Keys == g.Keys && w.Keys == g.Keys
    requires forall x :: x in g.Values ==> Total(Group(v, g, x)) == Total(Group(w, g, x))
    ensures GroupTotals(v, g) == GroupTotals(w, g)
  {
  }

  lemma MemberOfGroup<K, G>(g: map<K, G>, x: G) returns (k: K)
    requires x in g.Values
    ensures k in g && g[k] == x
  {
    k :| k in g && g[k] == x;
  }

  method AnyKey<K(==), V>(m: map<K, V>) returns (k: K)
    requires m.Keys != {}
    ensures k in m
  {
    k :| k in m.Keys;
  }

  /** Executable summation, one row after the other in any order. */
  method SumValues<K(==)>(w: map<K, int>) returns (s: int)
    ensures s == Total(w)
  {
    s := 0;
    var todo := w.Keys;
    ghost var rest := w;
    while todo != {}
      invariant rest.Keys == todo && todo <= w.Keys
      invariant forall k :: k in todo ==> rest[k] == w[k]
      invariant s + Total(rest) == Total(w)
    {
      var k :| k in todo;
      TotalTakeOut(rest, k);
      s := s + w[k];
      todo, rest := todo - {k}, rest - {k};
    }
  }
}
