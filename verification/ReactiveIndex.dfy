/** The reactive index (data_structures.rs): rows by primary key; a bulk delete is one change. */
module ReactiveIndexes {
  import opened Prelude
  import opened Buffers
  import opened ReactiveMaps

  datatype IndexChange<K, S, V> =
    | Upsert(primary: K, secondary: S, value: V)
    | DeleteRow(primary: K)
    | DeleteMany(primaries: seq<K>)
    | ClearRows(count: nat)

  ghost function ApplyChange<K, S, V>(rows: map<K, (S, V)>, change: IndexChange<K, S, V>): Option<map<K, (S, V)>> {
    match change
    case Upsert(k, s, v) => Some(rows[k := (s, v)])
    case DeleteRow(k) => if k in rows then Some(rows - {k}) else None
    case DeleteMany(ks) => if ks != [] && Distinct(ks) && Elements(ks) <= rows.Keys then Some(rows - Elements(ks)) else None
    case ClearRows(n) => if n == |rows| then Some(map[]) else None
  }

  ghost function ReplayChanges<K, S, V>(start: map<K, (S, V)>, changes: seq<IndexChange<K, S, V>>): Option<map<K, (S, V)>> {
    if changes == [] then Some(start)
    else
      var before := ReplayChanges(start, changes[..|changes| - 1]);
      if before.None? then None else ApplyChange(before.value, changes[|changes| - 1])
  }

  lemma ReplayOneChange<K, S, V>(start: map<K, (S, V)>, changes: seq<IndexChange<K, S, V>>, change: IndexChange<K, S, V>)
    ensures ReplayChanges(start, changes + [change])
            == (var before := ReplayChanges(start, changes); if before.None? then None else ApplyChange(before.value, change))
  {
    assert (changes + [change])[..|changes|] == changes;
  }

  class ReactiveIndex<K(==), S, V> {
    var rows: map<K, (S, V)>
    var version: nat
    var emitted: seq<IndexChange<K, S, V>>
    ghost const initial: map<K, (S, V)>

    ghost predicate Valid()
      reads this
    {
      version == |emitted| % 0x1_0000_0000_0000_0000 && ReplayChanges(initial, emitted) == Some(rows)
    }

    constructor (entries: seq<(K, (S, V))>)
      ensures Valid() && rows == WithEntries(map[], entries) && emitted == []
    {
      rows, initial := WithEntries(map[], entries), WithEntries(map[], entries);
      version, emitted := 0, [];
    }

    method Commit(newRows: map<K, (S, V)>, change: IndexChange<K, S, V>)
      requires Valid() && ApplyChange(rows, change) == Some(newRows)
      modifies this
      ensures Valid() && rows == newRows && emitted == old(emitted) + [change]
    {
      BumpedCount(|emitted|);
      ReplayOneChange(initial, emitted, change);
      rows := newRows;
      version := Bumped(version);
      emitted := emitted + [change];
    }

    method Upsert(primary: K, secondary: S, value: V)
      requires Valid()
      modifies this
      ensures Valid() && rows == old(rows)[primary := (secondary, value)]
      ensures emitted == old(emitted) + [IndexChange.Upsert(primary, secondary, value)]
    {
      Commit(rows[primary := (secondary, value)], IndexChange.Upsert(primary, secondary, value));
    }

    method Delete(primary: K)
      requires Valid()
      modifies this
      ensures Valid() && rows == old(rows) - {primary}
      ensures emitted == if primary in old(rows) then old(emitted) + [IndexChange.DeleteRow(primary)] else old(emitted)
    {
      if primary in rows { Commit(rows - {primary}, IndexChange.DeleteRow(primary)); }
    }

    /** One change for all the rows removed, naming each removed key once. */
    method DeleteMany(primaries: seq<K>)
      requires Valid()
      modifies this
      ensures Valid() && rows == old(rows) - Elements(primaries)
      ensures var removed := Present(old(rows), primaries);
              emitted == if removed == [] then old(emitted) else old(emitted) + [IndexChange.DeleteMany(removed)]
    {
      var left, removed := rows, [];
      for i := 0 to |primaries|
        invariant left == rows - Elements(primaries[..i]) && removed == Present(rows, primaries[..i])
        modifies {}
      {
        assert primaries[..i + 1][..i] == primaries[..i];
        assert Elements(primaries[..i + 1]) == Elements(primaries[..i]) + {primaries[i]};
        if primaries[i] in left {
          left := left - {primaries[i]};
          removed := removed + [primaries[i]];
        }
      }
      assert primaries[..|primaries|] == primaries;
      RemovedAreRemoved(rows, primaries);
      if removed != [] { Commit(left, IndexChange.DeleteMany(removed)); }
    }

    method Clear()
      requires Valid()
      modifies this
      ensures Valid() && rows == map[]
      ensures emitted == if old(rows) == map[] then old(emitted) else old(emitted) + [IndexChange.ClearRows(|old(rows)|)]
    {
      if |rows| > 0 { Commit(map[], IndexChange.ClearRows(|rows|)); }
    }
  }

  lemma RemovedAreRemoved<K, S, V>(rows: map<K, (S, V)>, keys: seq<K>)
    ensures var removed := Present(rows, keys);
            Distinct(removed) && Elements(removed) <= rows.Keys && rows - Elements(removed) == rows - Elements(keys)
  {
    var removed := Present(rows, keys);
    PresentDistinct(rows, keys);
    forall k ensures k in removed <==> k in keys && k in rows { PresentMembers(rows, keys, k); }
  }
}
