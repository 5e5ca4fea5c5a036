/** The three shapes of in-memory index the Adzerk snapshot builds from its entity
    lists: a map from id to record, a key index in which the last entity with a
    key wins, and a grouping of ids by a parent key in list order. */
module Indexes {

  predicate DistinctIds<K(==), V>(entries: seq<(K, V)>)
  {
    forall i, j :: 0 <= i < j < |entries| ==> entries[i].0 != entries[j].0
  }

  /** The records of a list of `(id, record)` pairs, keyed by id. */
  function StoreOf<K(!new,==), V>(entries: seq<(K, V)>): (m: map<K, V>)
    ensures forall k :: k in m <==> exists i :: 0 <= i < |entries| && entries[i].0 == k
  {
    if |entries| == 0 then map[]
    else
      var m := StoreOf(entries[..|entries| - 1]);
      assert forall i :: 0 <= i < |entries| - 1 ==> entries[..|entries| - 1][i] == entries[i];
      m[entries[|entries| - 1].0 := entries[|entries| - 1].1]
  }

  lemma {:induction false} StoreOfAt<K(!new), V>(entries: seq<(K, V)>, i: int)
    requires DistinctIds(entries) && 0 <= i < |entries|
    ensures StoreOf(entries)[entries[i].0] == entries[i].1
  {
    var n := |entries| - 1;
    if i < n {
      var pre := entries[..n];
      assert pre[i] == entries[i];
      assert DistinctIds(pre) by {
        forall a, b | 0 <= a < b < |pre| ensures pre[a].0 != pre[b].0 {
          assert pre[a] == entries[a] && pre[b] == entries[b];
        }
      }
      StoreOfAt(pre, i);
    }
  }

  /** Some element of a non-empty set: the witness a loop over the keys of a dict
      needs before it picks the next key with `:|`. */
  lemma Member<T>(s: set<T>) returns (x: T)
    requires s != {}
    ensures x in s
  {
    if forall y :: y !in s {
      assert false;
    }
    x :| x in s;
  }

  /** A dict built by assigning `d[key] = value` for each entry in order: a later
      entry with the same key replaces an earlier one. */
  function LastWins<K, V>(entries: seq<(K, V)>): map<K, V>
  {
    if |entries| == 0 then map[]
    else LastWins(entries[..|entries| - 1])[entries[|entries| - 1].0 := entries[|entries| - 1].1]
  }

  /** Every key of the list is in the index, the index has no other keys, and the
      value a key maps to is that of the last entry with that key. */
  lemma {:induction false} LastWinsSpec<K, V>(entries: seq<(K, V)>, k: K)
    ensures k in LastWins(entries) <==> exists i :: 0 <= i < |entries| && entries[i].0 == k
    ensures k in LastWins(entries) ==>
      exists i :: 0 <= i < |entries| && entries[i] == (k, LastWins(entries)[k])
        && forall j :: i < j < |entries| ==> entries[j].0 != k
  {
    if |entries| > 0 {
      var n := |entries| - 1;
      var pre := entries[..n];
      LastWinsSpec(pre, k);
      assert forall i :: 0 <= i < n ==> pre[i] == entries[i];
      if entries[n].0 != k && k in LastWins(entries) {
        var i :| 0 <= i < n && pre[i] == (k, LastWins(pre)[k])
          && forall j :: i < j < n ==> pre[j].0 != k;
        assert entries[i] == (k, LastWins(entries)[k]);
      }
    }
  }

  /** The ids of the entries whose key is `k`, in list order. */
  function Select<K(==)>(entries: seq<(K, nat)>, k: K): (ids: seq<nat>)
    ensures |ids| <= |entries|
  {
    if |entries| == 0 then []
    else
      var n := |entries| - 1;
      Select(entries[..n], k) + (if entries[n].0 == k then [entries[n].1] else [])
  }

  /** A `defaultdict(list)` filled by `d[key].append(id)` for each entry in order. */
  function Grouped<K>(entries: seq<(K, nat)>): map<K, seq<nat>>
  {
    if |entries| == 0 then map[]
    else
      var n := |entries| - 1;
      var g := Grouped(entries[..n]);
      var k := entries[n].0;
      g[k := (if k in g then g[k] else []) + [entries[n].1]]
  }

  /** The group of a key is exactly the ids with that key, in list order, and a key
      has a group exactly when some entry carries it. */
  lemma {:induction false} GroupedSpec<K>(entries: seq<(K, nat)>, k: K)
    ensures k in Grouped(entries) <==> exists i :: 0 <= i < |entries| && entries[i].0 == k
    ensures k in Grouped(entries) ==> Grouped(entries)[k] == Select(entries, k)
    ensures k !in Grouped(entries) ==> Select(entries, k) == []
  {
    if |entries| > 0 {
      var n := |entries| - 1;
      var pre := entries[..n];
      GroupedSpec(pre, k);
      assert forall i :: 0 <= i < n ==> pre[i] == entries[i];
    }
  }

  /** Every id in a selection is the id of some entry. */
  lemma {:induction false} SelectFrom<K>(entries: seq<(K, nat)>, k: K, j: int)
    requires 0 <= j < |Select(entries, k)|
    ensures exists i :: 0 <= i < |entries| && entries[i] == (k, Select(entries, k)[j])
  {
    var n := |entries| - 1;
    var pre := entries[..n];
    if j < |Select(pre, k)| {
      SelectFrom(pre, k, j);
      var i :| 0 <= i < |pre| && pre[i] == (k, Select(pre, k)[j]);
      assert entries[i] == pre[i];
    } else {
      assert entries[n] == (k, Select(entries, k)[j]);
    }
  }

  /** An id is selected for a key exactly when some entry pairs the key with it. */
  lemma {:induction false} SelectMembers<K>(entries: seq<(K, nat)>, k: K, id: nat)
    ensures id in Select(entries, k) <==> exists i :: 0 <= i < |entries| && entries[i] == (k, id)
    decreases |entries|
  {
    if |entries| > 0 {
      var n := |entries| - 1;
      var pre := entries[..n];
      SelectMembers(pre, k, id);
      if exists i :: 0 <= i < n && pre[i] == (k, id) {
        var i :| 0 <= i < n && pre[i] == (k, id);
        assert entries[i] == pre[i];
      }
      if exists i :: 0 <= i < |entries| && entries[i] == (k, id) {
        var i :| 0 <= i < |entries| && entries[i] == (k, id);
        if i < n {
          assert pre[i] == entries[i];
        }
      }
    }
  }

  /** Concatenation of per-parent lists, as `list.extend` in a loop builds it. */
  function Flatten<T>(lists: seq<seq<T>>): (r: seq<T>)
  {
    if |lists| == 0 then [] else Flatten(lists[..|lists| - 1]) + lists[|lists| - 1]
  }

  /** The ids of a list of `(id, record)` pairs, in order. */
  function IdsOf<K, V>(entries: seq<(K, V)>): (ids: seq<K>)
    ensures |ids| == |entries|
    ensures forall i :: 0 <= i < |entries| ==> ids[i] == entries[i].0
  {
    seq(|entries|, i requires 0 <= i < |entries| => entries[i].0)
  }

  /** `(key(record), id)` for each entry, in order. */
  function KeyedIds<K, V>(entries: seq<(nat, V)>, key: V -> K): (r: seq<(K, nat)>)
    ensures |r| == |entries|
    ensures forall i :: 0 <= i < |entries| ==> r[i] == (key(entries[i].1), entries[i].0)
  {
    seq(|entries|, i requires 0 <= i < |entries| => (key(entries[i].1), entries[i].0))
  }

  /** A last-wins key index built over a list agrees with the records: each key
      leads to a record with that key, and each record's key is indexed. */
  lemma KeyIndexAgrees<K(!new), V>(entries: seq<(nat, V)>, key: V -> K)
    requires DistinctIds(entries)
    ensures forall k :: k in LastWins(KeyedIds(entries, key)) ==>
      LastWins(KeyedIds(entries, key))[k] in StoreOf(entries)
      && key(StoreOf(entries)[LastWins(KeyedIds(entries, key))[k]]) == k
    ensures forall id :: id in StoreOf(entries) ==> key(StoreOf(entries)[id]) in LastWins(KeyedIds(entries, key))
  {
    var keyed := KeyedIds(entries, key);
    var index := LastWins(keyed);
    var store := StoreOf(entries);
    forall k | k in index
      ensures index[k] in store && key(store[index[k]]) == k
    {
      LastWinsSpec(keyed, k);
      var i :| 0 <= i < |keyed| && keyed[i] == (k, index[k]) && forall j :: i < j < |keyed| ==> keyed[j].0 != k;
      StoreOfAt(entries, i);
    }
    forall id | id in store
      ensures key(store[id]) in index
    {
      var i :| 0 <= i < |entries| && entries[i].0 == id;
      StoreOfAt(entries, i);
      LastWinsSpec(keyed, key(store[id]));
      assert keyed[i].0 == key(store[id]);
    }
  }

  /** Every id a grouping lists is the id of one of the records. */
  lemma GroupedIdsStored<K, V>(entries: seq<(nat, V)>, key: V -> K)
    ensures forall k, j ::
      k in Grouped(KeyedIds(entries, key)) && 0 <= j < |Grouped(KeyedIds(entries, key))[k]| ==>
        Grouped(KeyedIds(entries, key))[k][j] in StoreOf(entries)
  {
    var keyed := KeyedIds(entries, key);
    forall k, j | k in Grouped(keyed) && 0 <= j < |Grouped(keyed)[k]|
      ensures Grouped(keyed)[k][j] in StoreOf(entries)
    {
      GroupedSpec(keyed, k);
      SelectFrom(keyed, k, j);
    }
  }

  lemma FlattenStep<T>(lists: seq<seq<T>>, i: int)
    requires 0 <= i < |lists|
    ensures Flatten(lists[..i + 1]) == Flatten(lists[..i]) + lists[i]
  {
    assert lists[..i + 1][..i] == lists[..i];
  }

  /** One more entry appended to a grouping: the entry's id joins its key's group. */
  lemma GroupedKeyedStep<K, V>(entries: seq<(nat, V)>, key: V -> K, i: int)
    requires 0 <= i < |entries|
    ensures var g := Grouped(KeyedIds(entries[..i], key));
      var k := key(entries[i].1);
      Grouped(KeyedIds(entries[..i + 1], key)) == g[k := (if k in g then g[k] else []) + [entries[i].0]]
  {
    assert KeyedIds(entries[..i + 1], key)[..i] == KeyedIds(entries[..i], key);
  }

  /** One more entry assigned into a key index: the entry's key now leads to it. */
  lemma LastWinsKeyedStep<K, V>(entries: seq<(nat, V)>, key: V -> K, i: int)
    requires 0 <= i < |entries|
    ensures LastWins(KeyedIds(entries[..i + 1], key)) == LastWins(KeyedIds(entries[..i], key))[key(entries[i].1) := entries[i].0]
  {
    assert KeyedIds(entries[..i + 1], key)[..i] == KeyedIds(entries[..i], key);
  }

  /** No two records of a map share a key. */
  ghost predicate KeysUniqueIn<K, V, J>(m: map<K, V>, key: V -> J)
  {
    forall a, b :: a in m && b in m && key(m[a]) == key(m[b]) ==> a == b
  }

  /** No two entries of a list share a key. */
  ghost predicate KeysDistinctIn<K, V, J>(entries: seq<(K, V)>, key: V -> J)
  {
    forall i, j :: 0 <= i < j < |entries| ==> key(entries[i].1) != key(entries[j].1)
  }

  /** The store of a list with distinct ids holds no two records of one key
      exactly when the list holds no two records of one key. */
  lemma StoreKeysUnique<K(!new), V, J>(entries: seq<(K, V)>, key: V -> J)
    requires DistinctIds(entries)
    ensures KeysUniqueIn(StoreOf(entries), key) <==> KeysDistinctIn(entries, key)
  {
    if KeysDistinctIn(entries, key) {
      StoreKeysFromList(entries, key);
    } else {
      var i, j :| 0 <= i < j < |entries| && key(entries[i].1) == key(entries[j].1);
      StoreOfAt(entries, i);
      StoreOfAt(entries, j);
      assert entries[i].0 in StoreOf(entries) && entries[j].0 in StoreOf(entries);
    }
  }

  lemma StoreKeysFromList<K(!new), V, J>(entries: seq<(K, V)>, key: V -> J)
    requires DistinctIds(entries) && KeysDistinctIn(entries, key)
    ensures KeysUniqueIn(StoreOf(entries), key)
  {
    var st := StoreOf(entries);
    forall a, b | a in st && b in st && key(st[a]) == key(st[b]) ensures a == b {
      var i :| 0 <= i < |entries| && entries[i].0 == a;
      var j :| 0 <= j < |entries| && entries[j].0 == b;
      StoreOfAt(entries, i);
      StoreOfAt(entries, j);
      assert !(i < j) && !(j < i);
    }
  }
}
