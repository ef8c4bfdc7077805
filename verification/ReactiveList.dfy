/**
 * The reactive list (data_structures.rs): a buffer changed in place beside the stream of changes it
 * emits.  A change carries what it removed, so replaying one is partial: it fails on a change that does
 * not describe the contents it is applied to.
 */
module ReactiveLists {
  import opened Prelude
  import opened Buffers

  datatype ListChange<T> =
    | Append(value: T)
    | AppendMany(values: seq<T>)
    | Insert(index: nat, value: T)
    | InsertMany(index: nat, values: seq<T>)
    | Pop(index: nat, value: T)
    | Clear(count: nat)
    | TrimHead(n: nat)

  /** The change that announces a trim from `length` elements, if there is one. */
  function TrimOf<T>(length: nat, maxSize: Option<nat>): seq<ListChange<T>> {
    if Overflow(length, maxSize) > 0 then [TrimHead(Overflow(length, maxSize))] else []
  }

  // ---- replay ----

  ghost function Apply<T>(buf: seq<T>, change: ListChange<T>): Option<seq<T>> {
    match change
    case Append(v) => Some(buf + [v])
    case AppendMany(vs) => Some(buf + vs)
    case Insert(i, v) => if i <= |buf| then Some(buf[..i] + [v] + buf[i..]) else None
    case InsertMany(i, vs) => if i <= |buf| then Some(buf[..i] + vs + buf[i..]) else None
    case Pop(i, v) => if i < |buf| && buf[i] == v then Some(buf[..i] + buf[i + 1..]) else None
    case Clear(n) => if n == |buf| then Some([]) else None
    case TrimHead(n) => if n <= |buf| then Some(buf[n..]) else None
  }

  ghost function Replay<T>(start: seq<T>, changes: seq<ListChange<T>>): Option<seq<T>> {
    if changes == [] then Some(start)
    else
      var before := Replay(start, changes[..|changes| - 1]);
      if before.None? then None else Apply(before.value, changes[|changes| - 1])
  }

  lemma ReplayOneMore<T>(start: seq<T>, changes: seq<ListChange<T>>, change: ListChange<T>)
    ensures Replay(start, changes + [change])
            == (var before := Replay(start, changes); if before.None? then None else Apply(before.value, change))
  {
    assert (changes + [change])[..|changes|] == changes;
  }

  class ReactiveList<T> {
    const maxSize: Option<nat>
    var buf: seq<T>
    var version: nat
    var emitted: seq<ListChange<T>>
    ghost const initial: seq<T>

    /** What every emission leaves, even the first of two made by one call. */
    ghost predicate InStep()
      reads this
    {
      && (maxSize.Some? ==> maxSize.value > 0)
      && version == |emitted| % 0x1_0000_0000_0000_0000
      && Replay(initial, emitted) == Some(buf)
    }

    /** And between calls the list is within its size. */
    ghost predicate Valid()
      reads this
    {
      InStep() && (maxSize.Some? ==> |buf| <= maxSize.value)
    }

    constructor (contents: seq<T>, maxSize: Option<nat>)
      requires maxSize != Some(0)
      ensures Valid() && buf == Tail(contents, maxSize) && emitted == [] && this.maxSize == maxSize
    {
      this.maxSize := maxSize;
      buf, initial := Tail(contents, maxSize), Tail(contents, maxSize);
      version, emitted := 0, [];
    }

    /** One change of the buffer: it bumps the version and is emitted. */
    method Commit(newBuf: seq<T>, change: ListChange<T>)
      requires InStep() && Apply(buf, change) == Some(newBuf)
      modifies this
      ensures InStep() && buf == newBuf && emitted == old(emitted) + [change]
    {
      BumpedCount(|emitted|);
      ReplayOneMore(initial, emitted, change);
      buf := newBuf;
      version := Bumped(version);
      emitted := emitted + [change];
    }

    method EnforceCapacity()
      requires InStep()
      modifies this
      ensures Valid() && buf == Tail(old(buf), maxSize)
      ensures emitted == old(emitted) + TrimOf(|old(buf)|, maxSize)
    {
      var removed := Overflow(|buf|, maxSize);
      if removed > 0 { Commit(buf[removed..], TrimHead(removed)); }
    }

    method Append(value: T)
      requires Valid()
      modifies this
      ensures Valid() && buf == Tail(old(buf) + [value], maxSize)
      ensures emitted == old(emitted) + [ListChange.Append(value)] + TrimOf(|old(buf)| + 1, maxSize)
    {
      Commit(buf + [value], ListChange.Append(value));
      EnforceCapacity();
    }

    method AppendMany(values: seq<T>)
      requires Valid()
      modifies this
      ensures Valid() && buf == Tail(old(buf) + values, maxSize)
      ensures emitted == if values == [] then old(emitted)
                         else old(emitted) + [ListChange.AppendMany(values)] + TrimOf(|old(buf)| + |values|, maxSize)
    {
      if values == [] {
        assert buf + values == buf;
        return;
      }
      Commit(buf + values, ListChange.AppendMany(values));
      EnforceCapacity();
    }

    method Insert(index: nat, value: T)
      requires Valid() && index <= |buf|
      modifies this
      ensures Valid() && buf == Tail(old(buf)[..index] + [value] + old(buf)[index..], maxSize)
      ensures emitted == old(emitted) + [ListChange.Insert(index, value)] + TrimOf(|old(buf)| + 1, maxSize)
    {
      Commit(buf[..index] + [value] + buf[index..], ListChange.Insert(index, value));
      EnforceCapacity();
    }

    method InsertMany(index: nat, values: seq<T>)
      requires Valid() && index <= |buf|
      modifies this
      ensures Valid() && buf == Tail(old(buf)[..index] + values + old(buf)[index..], maxSize)
      ensures emitted == if values == [] then old(emitted)
                         else old(emitted) + [ListChange.InsertMany(index, values)]
                              + TrimOf(|old(buf)| + |values|, maxSize)
    {
      if values == [] {
        assert buf[..index] + values + buf[index..] == buf;
        return;
      }
      Commit(buf[..index] + values + buf[index..], ListChange.InsertMany(index, values));
      EnforceCapacity();
    }

    /** Removes and returns one element: the last by default, counted from the end when negative. */
    method Pop(index: Option<int>) returns (value: T)
      requires Valid() && buf != []
      requires index.Some? ==> -|buf| <= index.value < |buf|
      modifies this
      ensures Valid() && |old(buf)| == |buf| + 1
      ensures var i := NormalizeReadIndex(if index.Some? then index.value else -1, |old(buf)|).value;
              && old(buf) == buf[..i] + [value] + buf[i..]
              && emitted == old(emitted) + [ListChange.Pop(i, value)]
    {
      var i := NormalizeReadIndex(if index.Some? then index.value else -1, |buf|).value;
      value := buf[i];
      Commit(buf[..i] + buf[i + 1..], ListChange.Pop(i, value));
    }

    method Clear()
      requires Valid()
      modifies this
      ensures Valid() && buf == []
      ensures emitted == if old(buf) == [] then old(emitted) else old(emitted) + [ListChange.Clear(|old(buf)|)]
    {
      if buf != [] { Commit([], ListChange.Clear(|buf|)); }
    }
  }
}
