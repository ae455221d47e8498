/** Picking from a finite set, and pending writes over a table. */
module Collections {
  import opened Wrappers

  method Take<K(==)>(s: set<K>) returns (k: K)
    requires s != {}
    ensures k in s
  {
    k :| k in s;
  }

  /** What a transaction sees: the committed rows under its own writes; `None` is a deleted row. */
  function Over<K, V>(base: map<K, V>, writes: map<K, Option<V>>): map<K, V> {
    map k | k in base.Keys + writes.Keys && (k in writes ==> writes[k].Some?) :: if k in writes then writes[k].value else base[k]
  }

  lemma OverAt<K, V>(base: map<K, V>, writes: map<K, Option<V>>, k: K)
    ensures k in Over(base, writes) <==> if k in writes then writes[k].Some? else k in base
    ensures k in Over(base, writes) ==> Over(base, writes)[k] == if k in writes then writes[k].value else base[k]
  {
  }

  lemma OverNothing<K, V>(base: map<K, V>)
    ensures Over(base, map[]) == base
  {
  }

  lemma OverOne<K, V>(base: map<K, V>, writes: map<K, Option<V>>, k: K, v: V)
    requires writes == map[][k := Some(v)]
    ensures Over(base, writes) == base[k := v]
  {
  }

  lemma OverPut<K, V>(base: map<K, V>, writes: map<K, Option<V>>, k: K, v: V)
    ensures Over(base, writes[k := Some(v)]) == Over(base, writes)[k := v]
  {
  }

  /** Deleting a set of rows. */
  lemma OverDelete<K, V>(base: map<K, V>, writes: map<K, Option<V>>, gone: map<K, Option<V>>, keys: set<K>)
    requires gone.Keys == keys && forall k :: k in gone ==> gone[k].None?
    ensures Over(base, writes + gone) == Over(base, writes) - keys
  {
  }

  lemma OverDeleteOne<K, V>(base: map<K, V>, writes: map<K, Option<V>>, k: K)
    ensures Over(base, writes[k := None]) == Over(base, writes) - {k}
  {
  }
}
