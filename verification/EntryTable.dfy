/** An array of optional entries read as a finite map. */
module EntryTable {
  datatype Entry<K, V> = Free | Bound(key: K, value: V)

  ghost predicate Distinct<K, V>(es: seq<Entry<K, V>>) {
    forall i, j :: 0 <= i < j < |es| && es[i].Bound? && es[j].Bound? ==> es[i].key != es[j].key
  }

  ghost predicate BoundAt<K, V>(es: seq<Entry<K, V>>, i: int, key: K) {
    0 <= i < |es| && es[i].Bound? && es[i].key == key
  }

  ghost function KeysOf<K, V>(es: seq<Entry<K, V>>): set<K> {
    set i | 0 <= i < |es| && es[i].Bound? :: es[i].key
  }

  lemma KeyIsBound<K, V>(es: seq<Entry<K, V>>, key: K)
    requires key in KeysOf(es)
    ensures exists i :: BoundAt(es, i, key)
  {
    var i :| 0 <= i < |es| && es[i].Bound? && es[i].key == key;
    assert BoundAt(es, i, key);
  }

  ghost function Lookup<K, V>(es: seq<Entry<K, V>>, key: K): V
    requires key in KeysOf(es)
  {
    KeyIsBound(es, key);
    var i :| BoundAt(es, i, key);
    es[i].value
  }

  ghost function TableOf<K, V>(es: seq<Entry<K, V>>): map<K, V> {
    map key | key in KeysOf(es) :: Lookup(es, key)
  }

  lemma TableHas<K, V>(es: seq<Entry<K, V>>, i: int)
    requires Distinct(es) && 0 <= i < |es| && es[i].Bound?
    ensures es[i].key in TableOf(es) && TableOf(es)[es[i].key] == es[i].value
  {}

  lemma TableFrom<K, V>(es: seq<Entry<K, V>>, key: K) returns (i: int)
    requires Distinct(es) && key in TableOf(es)
    ensures BoundAt(es, i, key) && TableOf(es)[key] == es[i].value
  {
    KeyIsBound(es, key);
    i :| BoundAt(es, i, key);
    TableHas(es, i);
  }

  /** Which positions the entries occupy does not matter. */
  lemma SameTable<K, V>(es: seq<Entry<K, V>>, fs: seq<Entry<K, V>>)
    requires Distinct(es) && Distinct(fs)
    requires forall i :: 0 <= i < |es| && es[i].Bound? ==> es[i] in fs
    requires forall i :: 0 <= i < |fs| && fs[i].Bound? ==> fs[i] in es
    ensures TableOf(es) == TableOf(fs)
  {}

  /** Binding a free entry, or the one that has the key already. */
  lemma TableSet<K, V>(es: seq<Entry<K, V>>, i: int, key: K, value: V)
    requires Distinct(es) && 0 <= i < |es|
    requires (es[i].Free? && key !in TableOf(es)) || BoundAt(es, i, key)
    ensures Distinct(es[i := Bound(key, value)])
    ensures TableOf(es[i := Bound(key, value)]) == TableOf(es)[key := value]
  {
    var fs := es[i := Bound(key, value)];
    forall j | 0 <= j < |es| && j != i && es[j].Bound?
      ensures es[j].key != key
    {
      TableHas(es, j);
    }
    TableHas(fs, i);
    forall k | k in TableOf(fs)
      ensures k in TableOf(es)[key := value] && TableOf(fs)[k] == TableOf(es)[key := value][k]
    {
      var j := TableFrom(fs, k);
      if j != i { TableHas(es, j); }
    }
    forall k | k in TableOf(es)
      ensures k in TableOf(fs)
    {
      var j := TableFrom(es, k);
      TableHas(fs, j);
    }
    assert TableOf(fs).Keys == TableOf(es)[key := value].Keys;
  }

  lemma TableErase<K, V>(es: seq<Entry<K, V>>, i: int, key: K)
    requires Distinct(es) && BoundAt(es, i, key)
    ensures Distinct(es[i := Free])
    ensures TableOf(es[i := Free]) == TableOf(es) - {key}
  {
    var fs := es[i := Free];
    forall k | k in TableOf(fs)
      ensures k in TableOf(es) - {key} && TableOf(fs)[k] == TableOf(es)[k]
    {
      var j := TableFrom(fs, k);
      TableHas(es, j);
    }
    forall k | k in TableOf(es) - {key}
      ensures k in TableOf(fs)
    {
      var j := TableFrom(es, k);
      TableHas(fs, j);
    }
    assert TableOf(fs).Keys == (TableOf(es) - {key}).Keys;
  }

  /** A full array has as many keys as entries. */
  lemma FullTable<K, V>(es: seq<Entry<K, V>>)
    requires Distinct(es)
    ensures |TableOf(es)| <= |es|
    ensures |TableOf(es)| == |es| <==> forall i :: 0 <= i < |es| ==> es[i].Bound?
  {
    assert TableOf(es).Keys == KeysOf(es);
    CountKeys(es);
  }

  lemma {:induction false} CountKeys<K, V>(es: seq<Entry<K, V>>)
    requires Distinct(es)
    ensures |KeysOf(es)| <= |es|
    ensures |KeysOf(es)| == |es| <==> forall i :: 0 <= i < |es| ==> es[i].Bound?
  {
    if es == [] {
      assert KeysOf(es) == {};
    } else {
      var (fs, e) := (es[..|es| - 1], es[|es| - 1]);
      CountKeys(fs);
      if e.Bound? {
        assert KeysOf(es) == KeysOf(fs) + {e.key};
        assert e.key !in KeysOf(fs);
      } else {
        assert KeysOf(es) == KeysOf(fs);
      }
    }
  }

  /** The bound entries, in order. */
  function Used<K, V>(es: seq<Entry<K, V>>): (us: seq<Entry<K, V>>)
    ensures forall i :: 0 <= i < |us| ==> us[i].Bound? && us[i] in es
    ensures forall i :: 0 <= i < |es| && es[i].Bound? ==> es[i] in us
    ensures |us| <= |es|
  {
    if es == [] then [] else (if es[0].Bound? then [es[0]] else []) + Used(es[1..])
  }

  lemma {:induction false} UsedDistinct<K, V>(es: seq<Entry<K, V>>)
    requires Distinct(es)
    ensures Distinct(Used(es))
  {
    if es != [] {
      var rest := Used(es[1..]);
      UsedDistinct(es[1..]);
      if es[0].Bound? {
        forall j | 0 <= j < |rest|
          ensures rest[j].key != es[0].key
        {
          var m :| 0 <= m < |es[1..]| && es[1..][m] == rest[j];
          assert es[1..][m] == es[m + 1];
        }
      }
    }
  }

  function Padded<K, V>(us: seq<Entry<K, V>>, capacity: nat): (ps: seq<Entry<K, V>>) {
    us + seq(if |us| < capacity then capacity - |us| else 0, _ => Free)
  }

  /** Moving the bound entries to the front and padding keeps the map. */
  lemma CompactTable<K, V>(es: seq<Entry<K, V>>, capacity: nat)
    requires Distinct(es) && |es| <= capacity
    ensures |Padded(Used(es), capacity)| == capacity
    ensures Distinct(Padded(Used(es), capacity)) && TableOf(Padded(Used(es), capacity)) == TableOf(es)
  {
    var us := Used(es);
    var ps := Padded(us, capacity);
    UsedDistinct(es);
    forall i | 0 <= i < |us| ensures us[i] in ps { assert ps[i] == us[i]; }
    forall i | 0 <= i < |es| && es[i].Bound? ensures es[i] in ps
    {
      var j :| 0 <= j < |us| && us[j] == es[i];
    }
    SameTable(ps, es);
  }
}
