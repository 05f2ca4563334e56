/** Tables of unit counts keyed by a group key, as produced by a group-by:
    one entry per key, entries kept in the order their keys first appear. */
module Tables {
  import opened Options
  import opened Counts

  datatype Entry<K> = Entry(key: K, units: Units)

  type Table<K> = seq<Entry<K>>

  /** No key occurs twice. */
  predicate Distinct<K(==)>(t: Table<K>) {
    forall i, j :: 0 <= i < j < |t| ==> t[i].key != t[j].key
  }

  function KeySet<K>(t: Table<K>): set<K> {
    set e | e in t :: e.key
  }

  /** The units of the first entry with key `k`, if any. */
  function Find<K(==)>(t: Table<K>, k: K): (r: Option<Units>) {
    if |t| == 0 then None
    else if t[0].key == k then Some(t[0].units)
    else Find(t[1..], k)
  }

  /** A lookup succeeds exactly for the keys of the table. */
  lemma {:induction false} FindInKeys<K>(t: Table<K>, k: K)
    ensures Find(t, k).Some? <==> k in KeySet(t)
  {
    if |t| > 0 {
      Cons(t[0], t[1..]);
      assert [t[0]] + t[1..] == t;
      FindInKeys(t[1..], k);
    }
  }

  /** The units under `k`, or zero units when the key is missing. */
  function FindOr0<K(==)>(t: Table<K>, k: K): Units {
    Find(t, k).GetOr(NoUnits)
  }

  /** The sum of all units in the table. */
  function Total<K>(t: Table<K>): Units {
    if |t| == 0 then NoUnits else Plus(t[0].units, Total(t[1..]))
  }

  /** In a table without repeated keys, every entry is what a lookup of its
      key finds. */
  lemma FindEntry<K>(t: Table<K>, e: Entry<K>)
    requires Distinct(t) && e in t
    ensures Find(t, e.key) == Some(e.units)
  {
    if t[0] != e {
      assert e in t[1..];
      FindEntry(t[1..], e);
    }
  }

  /** How each table query reads on a table with one more entry in front. */
  lemma Cons<K>(e: Entry<K>, t: Table<K>)
    ensures ([e] + t)[1..] == t
    ensures KeySet([e] + t) == {e.key} + KeySet(t)
    ensures Total([e] + t) == Plus(e.units, Total(t))
    ensures Distinct([e] + t) <==> e.key !in KeySet(t) && Distinct(t)
  {
    var c := [e] + t;
    assert c[1..] == t;
    assert forall f :: f in c <==> f == e || f in t;
    ConsDistinct(e, t);
  }

  lemma ConsDistinct<K>(e: Entry<K>, t: Table<K>)
    ensures Distinct([e] + t) <==> e.key !in KeySet(t) && Distinct(t)
  {
    var c := [e] + t;
    if e.key in KeySet(t) {
      var f :| f in t && f.key == e.key;
      var i :| 0 <= i < |t| && t[i] == f;
      assert c[0].key == c[i + 1].key;
    }
    if Distinct(t) && e.key !in KeySet(t) {
      forall i, j | 0 <= i < j < |c|
        ensures c[i].key != c[j].key
      {
        if i == 0 {
          assert c[j] in t;
        } else {
          assert c[i] == t[i - 1] && c[j] == t[j - 1];
        }
      }
    }
    if Distinct(c) {
      forall i, j | 0 <= i < j < |t|
        ensures t[i].key != t[j].key
      {
        assert t[i] == c[i + 1] && t[j] == c[j + 1];
      }
    }
  }

  /** Adds `u` to the units under `k`, appending a new entry when `k` is not
      yet in the table. */
  function Add<K(==,!new)>(t: Table<K>, k: K, u: Units): (r: Table<K>)
    requires Distinct(t)
    ensures Distinct(r)
    ensures KeySet(r) == KeySet(t) + {k}
    ensures Find(r, k) == Some(Plus(FindOr0(t, k), u))
    ensures forall j :: j != k ==> Find(r, j) == Find(t, j)
    ensures Total(r) == Plus(Total(t), u)
  {
    if |t| == 0 then [Entry(k, u)]
    else
      Cons(t[0], t[1..]);
      assert t == [t[0]] + t[1..];
      if t[0].key == k then
        var e := Entry(k, Plus(t[0].units, u));
        Cons(e, t[1..]);
        [e] + t[1..]
      else
        var rest := Add(t[1..], k, u);
        Cons(t[0], rest);
        [t[0]] + rest
  }

  /** One step of `Add`: the first entry absorbs the units when it has key
      `k`, otherwise it stays and the rest of the table takes them. */
  lemma AddStep<K(!new)>(t: Table<K>, k: K, u: Units)
    requires Distinct(t) && |t| > 0
    ensures t == [t[0]] + t[1..]
    ensures t[0].key == k ==> Add(t, k, u) == [Entry(k, Plus(t[0].units, u))] + t[1..]
    ensures t[0].key != k ==> Distinct(t[1..]) && Add(t, k, u) == [t[0]] + Add(t[1..], k, u)
  {
    Cons(t[0], t[1..]);
    assert t == [t[0]] + t[1..];
  }
}
