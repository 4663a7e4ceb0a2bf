/** A block's table as the serializers see it: entries in some enumeration order, and insertion. */
module Tables {
  import opened Common
  import opened KvStore

  datatype Entry = Entry(key: string, value: string)

  /** The table keeps the first value inserted for a key. */
  function Insert(t: Store, k: string, v: string): Store {
    if k in t then t else t[k := v]
  }

  ghost predicate Enumerates(es: seq<Entry>, t: Store) {
    && (forall i :: 0 <= i < |es| ==> es[i].key in t && t[es[i].key] == es[i].value)
    && (forall i, j :: 0 <= i < j < |es| ==> es[i].key != es[j].key)
    && (forall k :: k in t ==> exists i :: 0 <= i < |es| && es[i].key == k)
  }

  function InsertAll(es: seq<Entry>, t: Store): Store {
    if es == [] then t else InsertAll(es[1..], Insert(t, es[0].key, es[0].value))
  }

  lemma {:induction false} InsertAllLookup(es: seq<Entry>, t: Store, k: string)
    requires forall i, j :: 0 <= i < j < |es| ==> es[i].key != es[j].key
    ensures k in t ==> Lookup(InsertAll(es, t), k) == Some(t[k])
    ensures forall i :: 0 <= i < |es| && es[i].key == k && k !in t ==> Lookup(InsertAll(es, t), k) == Some(es[i].value)
    ensures (forall i :: 0 <= i < |es| ==> es[i].key != k) ==> Lookup(InsertAll(es, t), k) == Lookup(t, k)
  {
    if es == [] {
    } else {
      var u := Insert(t, es[0].key, es[0].value);
      InsertAllLookup(es[1..], u, k);
      forall i | 1 <= i < |es| ensures es[1..][i - 1] == es[i] {
      }
    }
  }

  lemma EnumeratedTable(es: seq<Entry>, t: Store)
    requires Enumerates(es, t)
    ensures InsertAll(es, map[]) == t
  {
    forall k ensures Lookup(InsertAll(es, map[]), k) == Lookup(t, k) {
      InsertAllLookup(es, map[], k);
    }
    StoresEqual(InsertAll(es, map[]), t);
  }
}
