/**
 * The reactive map and the reactive index (data_structures.rs).  A change carries what it removed, and
 * replaying one fails on contents it does not describe.
 */
module ReactiveMaps {
  import opened Prelude
  import opened Buffers

  datatype MapChange<K, V> = Set(key: K, value: V) | Delete(key: K, previous: V) | Clear(count: nat)

  ghost function Apply<K, V>(rows: map<K, V>, change: MapChange<K, V>): Option<map<K, V>> {
    match change
    case Set(k, v) => Some(rows[k := v])
    case Delete(k, v) => if k in rows && rows[k] == v then Some(rows - {k}) else None
    case Clear(n) => if n == |rows| then Some(map[]) else None
  }

  ghost function Replay<K, V>(start: map<K, V>, changes: seq<MapChange<K, V>>): Option<map<K, V>> {
    if changes == [] then Some(start)
    else
      var before := Replay(start, changes[..|changes| - 1]);
      if before.None? then None else Apply(before.value, changes[|changes| - 1])
  }

  lemma ReplayOneMore<K, V>(start: map<K, V>, changes: seq<MapChange<K, V>>, change: MapChange<K, V>)
    ensures Replay(start, changes + [change])
            == (var before := Replay(start, changes); if before.None? then None else Apply(before.value, change))
  {
    assert (changes + [change])[..|changes|] == changes;
  }

  /** Rows written in order, a later one over an earlier one with the same key. */
  function WithEntries<K, V>(rows: map<K, V>, entries: seq<(K, V)>): map<K, V> {
    if entries == [] then rows
    else WithEntries(rows, entries[..|entries| - 1])[entries[|entries| - 1].0 := entries[|entries| - 1].1]
  }

  /** The last entry of `k` is at `i`. */
  ghost predicate LastAt<K, V>(entries: seq<(K, V)>, k: K, i: int) {
    0 <= i < |entries| && entries[i].0 == k && forall j :: i < j < |entries| ==> entries[j].0 != k
  }

  /** The last entry of a key wins; a key without one keeps its row. */
  lemma {:induction false} LastEntryWins<K, V>(rows: map<K, V>, entries: seq<(K, V)>, k: K) returns (i: int)
    ensures var r := WithEntries(rows, entries);
            if i >= 0 then LastAt(entries, k, i) && k in r && r[k] == entries[i].1
            else (forall j :: 0 <= j < |entries| ==> entries[j].0 != k) && (k in r <==> k in rows) && (k in r ==> r[k] == rows[k])
  {
    i := -1;
    if entries != [] {
      var n := |entries| - 1;
      if entries[n].0 == k { return n; }
      i := LastEntryWins(rows, entries[..n], k);
      assert i >= 0 ==> LastAt(entries, k, i) by { assert forall j :: 0 <= j < n ==> entries[..n][j] == entries[j]; }
    }
  }

  function SetChanges<K, V>(entries: seq<(K, V)>): (cs: seq<MapChange<K, V>>)
    ensures |cs| == |entries| && forall i :: 0 <= i < |cs| ==> cs[i] == Set(entries[i].0, entries[i].1)
  {
    seq(|entries|, i requires 0 <= i < |entries| => Set(entries[i].0, entries[i].1))
  }

  /** The listed keys that have a row, each at its first occurrence. */
  function Present<K, V>(rows: map<K, V>, keys: seq<K>): (present: seq<K>) {
    if keys == [] then []
    else
      var last, before := keys[|keys| - 1], keys[..|keys| - 1];
      if last in rows && last !in before then Present(rows, before) + [last] else Present(rows, before)
  }

  lemma {:induction false} PresentMembers<K, V>(rows: map<K, V>, keys: seq<K>, k: K)
    ensures k in Present(rows, keys) <==> k in keys && k in rows
  {
    if keys != [] { PresentMembers(rows, keys[..|keys| - 1], k); }
  }

  lemma {:induction false} PresentDistinct<K, V>(rows: map<K, V>, keys: seq<K>)
    ensures Distinct(Present(rows, keys))
  {
    if keys != [] {
      var last, before := keys[|keys| - 1], keys[..|keys| - 1];
      PresentDistinct(rows, before);
      PresentMembers(rows, before, last);
      if last in rows && last !in before { DistinctConcat(Present(rows, before), [last]); }
    }
  }

  /** Keys stand in the order of their first mention. */
  lemma {:induction false} PresentInOrder<K, V>(rows: map<K, V>, keys: seq<K>, a: nat, b: nat) returns (j: nat)
    requires a < b < |Present(rows, keys)|
    ensures j < |keys| && keys[j] == Present(rows, keys)[b] && keys[j] !in keys[..j] && Present(rows, keys)[a] in keys[..j]
  {
    var n := |keys| - 1;
    var before := Present(rows, keys[..n]);
    if b < |before| {
      j := PresentInOrder(rows, keys[..n], a, b);
      assert keys[..n][..j] == keys[..j];
    } else {
      j := n;
      PresentMembers(rows, keys[..n], before[a]);
    }
  }

  function DeleteChanges<K, V>(rows: map<K, V>, present: seq<K>): (cs: seq<MapChange<K, V>>)
    requires forall k :: k in present ==> k in rows
    ensures |cs| == |present| && forall i :: 0 <= i < |cs| ==> cs[i] == Delete(present[i], rows[present[i]])
  {
    seq(|present|, i requires 0 <= i < |present| => Delete(present[i], rows[present[i]]))
  }

  lemma PresentInRows<K, V>(rows: map<K, V>, keys: seq<K>)
    ensures forall k :: k in Present(rows, keys) ==> k in rows
  {
    forall k | k in Present(rows, keys) ensures k in rows { PresentMembers(rows, keys, k); }
  }

  lemma OneMoreKey<K, V>(rows: map<K, V>, keys: seq<K>, i: nat, done: seq<K>)
    requires i < |keys| && done == Present(rows, keys[..i]) && forall k :: k in done ==> k in rows
    ensures rows - Elements(keys[..i + 1]) == rows - Elements(keys[..i]) - {keys[i]}
    ensures keys[i] in rows - Elements(keys[..i]) <==> keys[i] in rows && keys[i] !in keys[..i]
    ensures if keys[i] in rows && keys[i] !in keys[..i] then
              Present(rows, keys[..i + 1]) == done + [keys[i]]
              && DeleteChanges(rows, done + [keys[i]]) == DeleteChanges(rows, done) + [Delete(keys[i], rows[keys[i]])]
            else Present(rows, keys[..i + 1]) == done
  {
    assert keys[..i + 1][..i] == keys[..i];
  }

  class ReactiveMap<K(==), V> {
    var rows: map<K, V>
    var version: nat
    var emitted: seq<MapChange<K, V>>
    ghost const initial: map<K, V>

    ghost predicate Valid()
      reads this
    {
      version == |emitted| % 0x1_0000_0000_0000_0000 && Replay(initial, emitted) == Some(rows)
    }

    constructor (entries: seq<(K, V)>)
      ensures Valid() && rows == WithEntries(map[], entries) && emitted == []
    {
      rows, initial := WithEntries(map[], entries), WithEntries(map[], entries);
      version, emitted := 0, [];
    }

    method Commit(newRows: map<K, V>, change: MapChange<K, V>)
      requires Valid() && Apply(rows, change) == Some(newRows)
      modifies this
      ensures Valid() && rows == newRows && emitted == old(emitted) + [change]
    {
      BumpedCount(|emitted|);
      ReplayOneMore(initial, emitted, change);
      rows := newRows;
      version := Bumped(version);
      emitted := emitted + [change];
    }

    method Set(key: K, value: V)
      requires Valid()
      modifies this
      ensures Valid() && rows == old(rows)[key := value]
      ensures emitted == old(emitted) + [MapChange.Set(key, value)]
    {
      Commit(rows[key := value], MapChange.Set(key, value));
    }

    method SetMany(entries: seq<(K, V)>)
      requires Valid()
      modifies this
      ensures Valid() && rows == WithEntries(old(rows), entries)
      ensures emitted == old(emitted) + SetChanges(entries)
    {
      for i := 0 to |entries|
        invariant Valid() && rows == WithEntries(old(rows), entries[..i])
        invariant emitted == old(emitted) + SetChanges(entries[..i])
      {
        assert entries[..i + 1][..i] == entries[..i];
        Set(entries[i].0, entries[i].1);
        assert SetChanges(entries[..i + 1]) == SetChanges(entries[..i]) + [MapChange.Set(entries[i].0, entries[i].1)];
      }
      assert entries[..|entries|] == entries;
    }

    method Delete(key: K)
      requires Valid()
      modifies this
      ensures Valid() && rows == old(rows) - {key}
      ensures emitted == if key in old(rows) then old(emitted) + [MapChange.Delete(key, old(rows)[key])] else old(emitted)
    {
      if key in rows {
        Commit(rows - {key}, MapChange.Delete(key, rows[key]));
      }
    }

    method DeleteMany(keys: seq<K>)
      requires Valid()
      modifies this
      ensures Valid() && rows == old(rows) - Elements(keys)
      ensures (forall k :: k in Present(old(rows), keys) ==> k in old(rows))
              && emitted == old(emitted) + DeleteChanges(old(rows), Present(old(rows), keys))
    {
      ghost var was := rows;
      PresentInRows(was, keys);
      ghost var done: seq<K> := [];
      for i := 0 to |keys|
        invariant Valid() && rows == was - Elements(keys[..i])
        invariant done == Present(was, keys[..i]) && (forall k :: k in done ==> k in was)
        invariant emitted == old(emitted) + DeleteChanges(was, done)
      {
        OneMoreKey(was, keys, i, done);
        Delete(keys[i]);
        if keys[i] in was && keys[i] !in keys[..i] { done := done + [keys[i]]; }
      }
      assert keys[..|keys|] == keys;
    }

    method Clear()
      requires Valid()
      modifies this
      ensures Valid() && rows == map[]
      ensures emitted == if old(rows) == map[] then old(emitted) else old(emitted) + [MapChange.Clear(|old(rows)|)]
    {
      if |rows| > 0 { Commit(map[], MapChange.Clear(|rows|)); }
    }
  }
}
