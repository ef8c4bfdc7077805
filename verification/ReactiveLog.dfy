/**
 * The reactive log (data_structures.rs): appends at the end, removals at the head.  Unlike the list it
 * trims before it announces the append, so its deltas lag its contents within one call.
 */
module ReactiveLogs {
  import opened Prelude
  import opened Buffers

  datatype LogChange<T> = Append(value: T) | AppendMany(values: seq<T>) | TrimHead(n: nat) | Clear(count: nat)

  datatype LogOp<T> = OpAppend(value: T) | OpAppendMany(values: seq<T>) | OpTrimHead(n: nat) | OpClear

  /** The contents after one operation. */
  function AfterOp<T>(buf: seq<T>, op: LogOp<T>, maxSize: Option<nat>): seq<T> {
    match op
    case OpAppend(v) => Tail(buf + [v], maxSize)
    case OpAppendMany(vs) => if vs == [] then buf else Tail(buf + vs, maxSize)
    case OpTrimHead(n) => if n < |buf| then buf[n..] else []
    case OpClear => []
  }

  function TrimDelta<T>(n: nat): seq<LogChange<T>> {
    if n > 0 then [TrimHead(n)] else []
  }

  /** The deltas one operation emits, all of them after the contents have changed. */
  function DeltasOf<T>(buf: seq<T>, op: LogOp<T>, maxSize: Option<nat>): seq<LogChange<T>> {
    match op
    case OpAppend(v) => [Append(v)] + TrimDelta(Overflow(|buf| + 1, maxSize))
    case OpAppendMany(vs) => if vs == [] then [] else [AppendMany(vs)] + TrimDelta(Overflow(|buf| + |vs|, maxSize))
    case OpTrimHead(n) => TrimDelta(if n < |buf| then n else |buf|)
    case OpClear => if buf == [] then [] else [Clear(|buf|)]
  }

  ghost function Apply<T>(buf: seq<T>, change: LogChange<T>): Option<seq<T>> {
    match change
    case Append(v) => Some(buf + [v])
    case AppendMany(vs) => Some(buf + vs)
    case TrimHead(n) => if n <= |buf| then Some(buf[n..]) else None
    case Clear(n) => if n == |buf| then Some([]) else None
  }

  ghost function Replay<T>(start: seq<T>, changes: seq<LogChange<T>>): Option<seq<T>> {
    if changes == [] then Some(start)
    else
      var before := Replay(start, changes[..|changes| - 1]);
      if before.None? then None else Apply(before.value, changes[|changes| - 1])
  }

  lemma {:induction false} ReplayConcat<T>(start: seq<T>, a: seq<LogChange<T>>, b: seq<LogChange<T>>)
    requires Replay(start, a).Some?
    ensures Replay(start, a + b) == Replay(Replay(start, a).value, b)
    decreases |b|
  {
    if b == [] {
      assert a + b == a;
    } else {
      assert (a + b)[..|a + b| - 1] == a + b[..|b| - 1];
      ReplayConcat(start, a, b[..|b| - 1]);
    }
  }

  /** Replaying what an operation emitted is the operation. */
  lemma DeltasReplay<T>(buf: seq<T>, op: LogOp<T>, maxSize: Option<nat>)
    ensures Replay(buf, DeltasOf(buf, op, maxSize)) == Some(AfterOp(buf, op, maxSize))
  {
    var ds := DeltasOf(buf, op, maxSize);
    if |ds| == 1 {
      ReplayOne(buf, ds[0]);
      assert ds == [ds[0]];
      if op.OpTrimHead? && op.n >= |buf| { assert buf[|buf|..] == []; }
    } else if |ds| == 2 {
      ReplayOne(buf, ds[0]);
      assert ds[..1] == [ds[0]];
    }
  }

  lemma ReplayOne<T>(buf: seq<T>, change: LogChange<T>)
    ensures Replay(buf, [change]) == Apply(buf, change)
  {
    assert [change][..0] == [];
  }

  /** How much of the history has left the log by the end of an operation. */
  function DroppedAfter<T>(dropped: nat, buf: seq<T>, op: LogOp<T>, maxSize: Option<nat>): nat {
    match op
    case OpAppend(_) => dropped + Overflow(|buf| + 1, maxSize)
    case OpAppendMany(vs) => if vs == [] then dropped else dropped + Overflow(|buf| + |vs|, maxSize)
    case OpTrimHead(n) => dropped + (if n < |buf| then n else |buf|)
    case OpClear => dropped + |buf|
  }

  function Added<T>(op: LogOp<T>): seq<T> {
    match op
    case OpAppend(v) => [v]
    case OpAppendMany(vs) => vs
    case _ => []
  }

  /** The log is what was ever appended without a prefix, and stays so. */
  lemma StillTail<T>(history: seq<T>, dropped: nat, op: LogOp<T>, maxSize: Option<nat>)
    requires dropped <= |history|
    ensures var after := DroppedAfter(dropped, history[dropped..], op, maxSize);
            && dropped <= after <= |history + Added(op)|
            && AfterOp(history[dropped..], op, maxSize) == (history + Added(op))[after..]
  {
    assert history[dropped..] + Added(op) == (history + Added(op))[dropped..];
  }

  class ReactiveLog<T> {
    const maxSize: Option<nat>
    var buf: seq<T>
    var version: nat
    var emitted: seq<LogChange<T>>
    ghost const initial: seq<T>
    ghost var history: seq<T>
    ghost var dropped: nat

    ghost predicate Valid()
      reads this
    {
      && (maxSize.Some? ==> maxSize.value > 0 && |buf| <= maxSize.value)
      && version == |emitted| % 0x1_0000_0000_0000_0000
      && Replay(initial, emitted) == Some(buf)
      && dropped <= |history| && buf == history[dropped..]
    }

    constructor (contents: seq<T>, maxSize: Option<nat>)
      requires maxSize != Some(0)
      ensures Valid() && buf == Tail(contents, maxSize) && history == contents && emitted == []
      ensures this.maxSize == maxSize
    {
      this.maxSize := maxSize;
      buf, initial := Tail(contents, maxSize), Tail(contents, maxSize);
      version, emitted := 0, [];
      history, dropped := contents, Overflow(|contents|, maxSize);
    }

    method Bump()
      modifies this`version
      ensures version == Bumped(old(version))
    {
      version := Bumped(version);
    }

    /** Cuts an overlong buffer; how much went is announced later. */
    method EnforceMaxSize() returns (removed: nat)
      modifies this`buf, this`version
      ensures removed == Overflow(|old(buf)|, maxSize) && buf == Tail(old(buf), maxSize)
      ensures version == if removed > 0 then Bumped(old(version)) else old(version)
    {
      removed := Overflow(|buf|, maxSize);
      if removed > 0 {
        buf := buf[removed..];
        Bump();
      }
    }

    /** Closes an operation whose contents, version and deltas are in place. */
    ghost method Record(op: LogOp<T>, before: seq<T>, sent: seq<LogChange<T>>)
      requires maxSize.Some? ==> maxSize.value > 0 && |before| <= maxSize.value
      requires dropped <= |history| && before == history[dropped..]
      requires Replay(initial, sent) == Some(before)
      requires buf == AfterOp(before, op, maxSize) && emitted == sent + DeltasOf(before, op, maxSize)
      requires version == |emitted| % 0x1_0000_0000_0000_0000
      modifies this`history, this`dropped
      ensures Valid() && history == old(history) + Added(op)
      ensures dropped == DroppedAfter(old(dropped), before, op, maxSize)
    {
      StillTail(history, dropped, op, maxSize);
      ReplayConcat(initial, sent, DeltasOf(before, op, maxSize));
      DeltasReplay(before, op, maxSize);
      history, dropped := history + Added(op), DroppedAfter(dropped, before, op, maxSize);
    }

    method EmitTrimmed(n: nat)
      modifies this`emitted
      ensures emitted == old(emitted) + TrimDelta(n)
    {
      if n > 0 { emitted := emitted + [LogChange.TrimHead(n)]; }
    }

    /** The buffer grows and is cut; then the growth is announced, and then the cut. */
    method Extend(values: seq<T>, delta: LogChange<T>)
      requires version == |emitted| % 0x1_0000_0000_0000_0000
      modifies this`buf, this`version, this`emitted
      ensures buf == Tail(old(buf) + values, maxSize) && version == |emitted| % 0x1_0000_0000_0000_0000
      ensures emitted == old(emitted) + ([delta] + TrimDelta(Overflow(|old(buf)| + |values|, maxSize)))
    {
      BumpedCount(|emitted|);
      BumpedCount(|emitted| + 1);
      buf := buf + values;
      Bump();
      var trimmed := EnforceMaxSize();
      emitted := emitted + [delta];
      EmitTrimmed(trimmed);
    }

    method Append(value: T)
      requires Valid()
      modifies this
      ensures Valid() && buf == AfterOp(old(buf), OpAppend(value), maxSize)
      ensures emitted == old(emitted) + DeltasOf(old(buf), OpAppend(value), maxSize)
      ensures history == old(history) + [value] && dropped == old(dropped) + Overflow(|old(buf)| + 1, maxSize)
      ensures buf == Tail(old(buf) + [value], maxSize)
      ensures emitted == old(emitted) + [LogChange.Append(value)]
                         + (if |old(buf)| == |buf| then [LogChange.TrimHead(1)] else [])
    {
      Extend([value], LogChange.Append(value));
      Record(OpAppend(value), old(buf), old(emitted));
    }

    method AppendMany(values: seq<T>)
      requires Valid()
      modifies this
      ensures Valid() && buf == AfterOp(old(buf), OpAppendMany(values), maxSize)
      ensures emitted == old(emitted) + DeltasOf(old(buf), OpAppendMany(values), maxSize)
      ensures history == old(history) + values
      ensures buf == Tail(old(buf) + values, maxSize)
      ensures var gone := |old(buf)| + |values| - |buf|;
              emitted == if values == [] then old(emitted)
                         else old(emitted) + [LogChange.AppendMany(values)]
                              + (if gone > 0 then [LogChange.TrimHead(gone)] else [])
    {
      if values == [] { return; }
      Extend(values, LogChange.AppendMany(values));
      Record(OpAppendMany(values), old(buf), old(emitted));
    }

    method TrimHead(n: nat)
      requires Valid()
      modifies this
      ensures Valid() && buf == AfterOp(old(buf), OpTrimHead(n), maxSize)
      ensures emitted == old(emitted) + DeltasOf(old(buf), OpTrimHead(n), maxSize)
      ensures history == old(history)
      ensures buf == if n <= |old(buf)| then old(buf)[n..] else []
      ensures var gone := if n <= |old(buf)| then n else |old(buf)|;
              emitted == old(emitted) + (if gone > 0 then [LogChange.TrimHead(gone)] else [])
    {
      var removed := if n < |buf| then n else |buf|;
      if removed > 0 {
        BumpedCount(|emitted|);
        buf := buf[removed..];
        Bump();
      }
      EmitTrimmed(removed);
      Record(OpTrimHead(n), old(buf), old(emitted));
    }

    method Clear()
      requires Valid()
      modifies this
      ensures Valid() && buf == AfterOp(old(buf), OpClear, maxSize)
      ensures emitted == old(emitted) + DeltasOf(old(buf), OpClear, maxSize)
      ensures history == old(history) && buf == []
      ensures emitted == old(emitted) + (if old(buf) != [] then [LogChange.Clear(|old(buf)|)] else [])
    {
      var n := |buf|;
      if n > 0 {
        BumpedCount(|emitted|);
        buf := [];
        Bump();
        emitted := emitted + [LogChange.Clear(n)];
      }
      Record(OpClear, old(buf), old(emitted));
    }
  }
}
