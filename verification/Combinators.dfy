/**
 * The static-dep combinators with state (combinators.rs).  A run delivers each dep's batch and whether it
 * has completed; what comes out depends only on what was delivered, not on how it was split into runs.
 */
module Combinators {
  import opened Prelude

  // ---- zip ----

  /** The `k`-th value of every dep. */
  function Row<T>(delivered: seq<seq<T>>, k: nat): (row: seq<T>)
    requires forall i :: 0 <= i < |delivered| ==> k < |delivered[i]|
    ensures |row| == |delivered| && forall i :: 0 <= i < |row| ==> row[i] == delivered[i][k]
  {
    seq(|delivered|, i requires 0 <= i < |delivered| => delivered[i][k])
  }

  ghost predicate AllReach<T>(delivered: seq<seq<T>>, k: nat) {
    forall i :: 0 <= i < |delivered| ==> k <= |delivered[i]|
  }

  /** `k` is the length of the shortest column. */
  ghost predicate Shortest<T>(delivered: seq<seq<T>>, k: nat) {
    AllReach(delivered, k) && exists i :: 0 <= i < |delivered| && |delivered[i]| == k
  }

  ghost function Rows<T>(delivered: seq<seq<T>>, k: nat): (rows: seq<seq<T>>)
    requires AllReach(delivered, k)
    ensures |rows| == k && forall j :: 0 <= j < k ==> rows[j] == Row(delivered, j)
  {
    seq(k, j requires 0 <= j < k => Row(delivered, j))
  }

  lemma OneMoreRow<T>(delivered: seq<seq<T>>, k: nat)
    requires AllReach(delivered, k + 1)
    ensures Rows(delivered, k + 1) == Rows(delivered, k) + [Row(delivered, k)]
  {
  }

  /** Rows already formed stay as they are when more arrives. */
  lemma RowsKeep<T>(before: seq<seq<T>>, after: seq<seq<T>>, k: nat)
    requires |before| == |after| && AllReach(before, k)
    requires forall i :: 0 <= i < |before| ==> before[i] <= after[i]
    ensures AllReach(after, k) && Rows(after, k) == Rows(before, k)
  {
    forall j | 0 <= j < k ensures Row(after, j) == Row(before, j) {}
  }

  lemma ShortestIsUnique<T>(delivered: seq<seq<T>>, a: nat, b: nat)
    requires Shortest(delivered, a) && Shortest(delivered, b)
    ensures a == b
  {
  }

  /** Of what arrived, `rows` has been emitted and the queues hold the rest. */
  ghost predicate Waits<T>(queues: seq<seq<T>>, delivered: seq<seq<T>>, rows: seq<seq<T>>) {
    && |queues| == |delivered| && AllReach(delivered, |rows|) && rows == Rows(delivered, |rows|)
    && forall i :: 0 <= i < |queues| ==> queues[i] == delivered[i][|rows|..]
  }

  lemma HeadsOff<T>(queues: seq<seq<T>>, delivered: seq<seq<T>>, rows: seq<seq<T>>, heads: seq<T>, tails: seq<seq<T>>)
    requires Waits(queues, delivered, rows) && |heads| == |tails| == |queues|
    requires forall i :: 0 <= i < |queues| ==> queues[i] != [] && heads[i] == queues[i][0] && tails[i] == queues[i][1..]
    ensures Waits(tails, delivered, rows + [heads])
  {
    OneMoreRow(delivered, |rows|);
    assert heads == Row(delivered, |rows|);
  }

  /** With a queue empty, the rows are as many as the shortest column. */
  lemma EmptyIsShortest<T>(queues: seq<seq<T>>, delivered: seq<seq<T>>, rows: seq<seq<T>>)
    requires Waits(queues, delivered, rows) && exists i :: 0 <= i < |queues| && queues[i] == []
    ensures Shortest(delivered, |rows|)
  {
    var i :| 0 <= i < |queues| && queues[i] == [];
    assert |delivered[i]| == |rows|;
  }

  class Zip<T> {
    var queues: seq<seq<T>>
    var complete: seq<bool>
    var emitted: seq<seq<T>>
    var completed: bool

    // the rows emitted before the deps last changed in number; what was waiting then or has arrived since;
    // and whether the last run had no deps
    ghost var since: nat
    ghost var delivered: seq<seq<T>>
    ghost var noDeps: bool

    constructor ()
      ensures Valid() && !completed && queues == [] && complete == [] && emitted == [] && since == 0 && delivered == []
    {
      queues, complete, emitted, completed := [], [], [], false;
      since, delivered, noDeps := 0, [], false;
    }

    /** The queues hold what has arrived beyond the rows already emitted. */
    ghost predicate Buffered()
      reads this`queues, this`emitted, this`delivered, this`since
    {
      since <= |emitted| && Waits(queues, delivered, emitted[since..])
    }

    /** Some dep has completed and has no value left. */
    ghost predicate Exhausted()
      reads this`emitted, this`delivered, this`since, this`complete
    {
      exists i :: 0 <= i < |delivered| && i < |complete| && complete[i] && |delivered[i]| == |emitted| - since
    }

    ghost predicate Valid()
      reads this
    {
      && Buffered() && |complete| == |queues|
      && (queues != [] ==> Shortest(delivered, |emitted| - since))
      && (completed <==> noDeps || Exhausted())
    }

    /** Every value that can be matched is emitted, and COMPLETE comes exactly when no further row can form. */
    method Run(batches: seq<seq<T>>, terminals: seq<bool>)
      requires Valid() && !completed && |batches| == |terminals|
      modifies this
      ensures Valid() && old(emitted) <= emitted && noDeps == (batches == [])
      ensures batches == [] ==> completed && emitted == old(emitted)
      ensures batches != [] ==>
                && |delivered| == |batches| == |complete| && |old(complete)| == |old(queues)| == |old(delivered)|
                && (forall i :: 0 <= i < |batches| ==> complete[i] == ((i < |old(complete)| && old(complete)[i]) || terminals[i]))
                && (if |batches| == |old(queues)| then
                      since == old(since) && forall i :: 0 <= i < |batches| ==> delivered[i] == old(delivered)[i] + batches[i]
                    else
                      && since == |old(emitted)|
                      && forall i :: 0 <= i < |batches| ==>
                           delivered[i] == (if i < |old(queues)| then old(queues)[i] else []) + batches[i])
                && (completed <==> Exhausted())
    {
      noDeps := batches == [];
      if batches == [] {
        completed := true;
        return;
      }
      if |queues| != |batches| { Resize(|batches|); }
      Collect(batches, terminals);
      EmitRows();
      completed := AnyExhausted();
    }

    method AnyExhausted() returns (yes: bool)
      requires Buffered() && |complete| == |queues|
      ensures yes <==> Exhausted()
    {
      for i := 0 to |queues|
        invariant forall j :: 0 <= j < i ==> !(complete[j] && queues[j] == [])
      {
        if complete[i] && queues[i] == [] { return true; }
      }
      return false;
    }

    /** The deps have changed in number: queues past the new number go, and new ones start empty. */
    method Resize(n: nat)
      requires Valid() && n > 0
      modifies this`queues, this`complete, this`delivered, this`since
      ensures Buffered() && since == |emitted| && |queues| == |complete| == n && |old(complete)| == |old(queues)|
      ensures forall i :: 0 <= i < n ==> delivered[i] == Kept(old(queues), i)
      ensures forall i :: 0 <= i < n ==> complete[i] == (i < |old(complete)| && old(complete)[i])
    {
      var qs, cs := queues, complete;
      queues := seq(n, i requires 0 <= i => Kept(qs, i));
      complete := seq(n, i requires 0 <= i => i < |cs| && cs[i]);
      since, delivered := |emitted|, queues;
      assert emitted[since..] == Rows(delivered, 0);
    }

    method Collect(batches: seq<seq<T>>, terminals: seq<bool>)
      requires Buffered() && |batches| == |terminals| == |complete| == |queues|
      modifies this`queues, this`complete, this`delivered
      ensures Buffered() && |complete| == |queues| == |batches| == |old(delivered)| == |old(complete)|
      ensures forall i :: 0 <= i < |batches| ==> delivered[i] == old(delivered)[i] + batches[i]
      ensures forall i :: 0 <= i < |batches| ==> complete[i] == (old(complete)[i] || terminals[i])
    {
      for i := 0 to |queues|
        invariant |queues| == |complete| == |delivered| == |batches|
        invariant forall j :: 0 <= j < |queues| ==> queues[j] == old(queues)[j] + (if j < i then batches[j] else [])
        invariant forall j :: 0 <= j < |queues| ==> delivered[j] == old(delivered)[j] + (if j < i then batches[j] else [])
        invariant forall j :: 0 <= j < |queues| ==> complete[j] == (old(complete)[j] || (j < i && terminals[j]))
      {
        queues := queues[i := queues[i] + batches[i]];
        delivered := delivered[i := delivered[i] + batches[i]];
        if terminals[i] { complete := complete[i := true]; }
      }
      RowsKeep(old(delivered), delivered, |emitted| - since);
    }

    method EmitRows()
      requires Buffered() && queues != []
      modifies this`queues, this`emitted
      ensures Buffered() && Shortest(delivered, |emitted| - since) && old(emitted) <= emitted
    {
      var ready := AllWaiting();
      while ready
        invariant Buffered() && old(emitted) <= emitted && queues != []
        invariant ready <==> forall i :: 0 <= i < |queues| ==> queues[i] != []
        decreases |queues[0]|
      {
        var waiting := queues;
        var heads := seq(|waiting|, i requires 0 <= i < |waiting| => waiting[i][0]);
        queues := seq(|waiting|, i requires 0 <= i < |waiting| => waiting[i][1..]);
        HeadsOff(waiting, delivered, emitted[since..], heads, queues);
        assert (emitted + [heads])[since..] == emitted[since..] + [heads];
        emitted := emitted + [heads];
        ready := AllWaiting();
      }
      EmptyIsShortest(queues, delivered, emitted[since..]);
    }

    /** After COMPLETE no further row could form, whatever the deps still going deliver. */
    lemma CompleteForGood(after: seq<seq<T>>)
      requires Valid() && completed && !noDeps && |after| == |delivered| == |complete|
      requires forall i :: 0 <= i < |after| ==> delivered[i] <= after[i] && (complete[i] ==> after[i] == delivered[i])
      ensures Shortest(after, |emitted| - since)
    {
      var i :| 0 <= i < |delivered| && complete[i] && |delivered[i]| == |emitted| - since;
      assert |after[i]| == |emitted| - since;
    }

    method AllWaiting() returns (yes: bool)
      ensures yes <==> forall i :: 0 <= i < |queues| ==> queues[i] != []
    {
      for i := 0 to |queues|
        invariant forall j :: 0 <= j < i ==> queues[j] != []
      {
        if queues[i] == [] { return false; }
      }
      return true;
    }
  }

  /** What waits in queue `i`; a dep without a queue has none. */
  function Kept<T>(queues: seq<seq<T>>, i: nat): seq<T> {
    if i < |queues| then queues[i] else []
  }

  /**
   * Two zips that were delivered the same, with the same deps complete, have emitted the same and agree on
   * COMPLETE, however the values were split into runs.
   */
  lemma SplitDoesNotMatter<T>(a: Zip<T>, b: Zip<T>)
    requires a.Valid() && b.Valid() && a.queues != [] && a.delivered == b.delivered && a.complete == b.complete
    requires a.noDeps == b.noDeps
    ensures a.queues == b.queues && a.completed == b.completed
    ensures a.since <= |a.emitted| && b.since <= |b.emitted| && a.emitted[a.since..] == b.emitted[b.since..]
    ensures a.since == b.since == 0 ==> a.emitted == b.emitted
  {
    ShortestIsUnique(a.delivered, |a.emitted| - a.since, |b.emitted| - b.since);
  }

  // ---- concat ----

  class Concat<T> {
    var phase: nat
    var pending: seq<T>
    var secondDone: bool
    var emitted: seq<T>
    var completed: bool
    ghost var first: seq<T>
    ghost var second: seq<T>
    ghost var done0: bool
    ghost var done1: bool

    constructor ()
      ensures Valid() && !completed && emitted == [] && first == [] && second == [] && !done0 && !done1
    {
      phase, pending, secondDone, emitted, completed := 0, [], false, [], false;
      first, second, done0, done1 := [], [], false, false;
    }

    /** All of dep 0 and, once it is done, all of dep 1; until then dep 1 waits. */
    ghost predicate Valid()
      reads this
    {
      && phase == (if done0 then 1 else 0) && completed == (done0 && done1)
      && (if done0 then emitted == first + second
          else emitted == first && pending == second && secondDone == done1)
    }

    /** Dep 0 counts up to the run in which it completes, dep 1 throughout. */
    method Run(batch0: seq<T>, batch1: seq<T>, terminal0: bool, terminal1: bool)
      requires Valid() && !completed
      modifies this
      ensures Valid()
      ensures first == (if old(done0) then old(first) else old(first) + batch0) && second == old(second) + batch1
      ensures done0 == (old(done0) || terminal0) && done1 == (old(done1) || terminal1)
    {
      if phase == 0 {
        Forward(batch0);
        pending := pending + batch1;
        if terminal1 { secondDone := true; }
        if terminal0 {
          phase := 1;
          var waiting := pending;
          pending := [];
          Forward(waiting);
          if secondDone { completed := true; }
        }
      } else {
        Forward(batch1);
        if terminal1 { completed := true; }
      }
      first, second := if done0 then first else first + batch0, second + batch1;
      done0, done1 := done0 || terminal0, done1 || terminal1;
      assert done0 ==> emitted == first + second;
    }

    method Forward(values: seq<T>)
      modifies this`emitted
      ensures emitted == old(emitted) + values
    {
      for i := 0 to |values|
        invariant emitted == old(emitted) + values[..i]
      {
        emitted := emitted + [values[i]];
      }
      assert values[..|values|] == values;
    }
  }

  // ---- buffer_count ----

  function Joined<T>(chunks: seq<seq<T>>): seq<T> {
    if chunks == [] then [] else Joined(chunks[..|chunks| - 1]) + chunks[|chunks| - 1]
  }

  lemma OneMoreChunk<T>(chunks: seq<seq<T>>, chunk: seq<T>)
    ensures Joined(chunks + [chunk]) == Joined(chunks) + chunk
  {
    assert (chunks + [chunk])[..|chunks|] == chunks;
  }

  ghost predicate FullChunks<T>(chunks: seq<seq<T>>, count: nat) {
    forall i :: 0 <= i < |chunks| ==> |chunks[i]| == count
  }

  /** Chunks of one size are determined by what they hold. */
  lemma {:induction false} ChunksUnique<T>(a: seq<seq<T>>, b: seq<seq<T>>, restA: seq<T>, restB: seq<T>, count: nat)
    requires count > 0 && FullChunks(a, count) && FullChunks(b, count) && |restA| < count && |restB| < count
    requires Joined(a) + restA == Joined(b) + restB
    ensures a == b && restA == restB
    decreases |a|
  {
    JoinedLength(a, count);
    JoinedLength(b, count);
    SameQuotient(|a|, |b|, |restA|, |restB|, count);
    if a == [] {
      assert Joined(a) + restA == restA && Joined(b) + restB == restB;
    } else {
      var k := |a| - 1;
      JoinedLength(a[..k], count);
      JoinedLength(b[..k], count);
      var all := Joined(a) + restA;
      assert all[..k * count] == Joined(a[..k]) && all[..k * count] == Joined(b[..k]);
      ChunksUnique(a[..k], b[..k], [], [], count);
      assert all[k * count..|a| * count] == a[k] && all[k * count..|a| * count] == b[k];
      assert a == a[..k] + [a[k]] && b == b[..k] + [b[k]];
      assert all[|a| * count..] == restA && all[|a| * count..] == restB;
    }
  }

  lemma {:induction false} JoinedLength<T>(chunks: seq<seq<T>>, count: nat)
    requires FullChunks(chunks, count)
    ensures |Joined(chunks)| == |chunks| * count
  {
    if chunks != [] {
      JoinedLength(chunks[..|chunks| - 1], count);
      LessOne(|chunks|, count);
    }
  }

  lemma {:induction false} SameQuotient(a: nat, b: nat, r: nat, s: nat, count: nat)
    requires a * count + r == b * count + s && r < count && s < count
    ensures a == b && r == s
  {
    if a > 0 && b > 0 {
      LessOne(a, count);
      LessOne(b, count);
      SameQuotient(a - 1, b - 1, r, s, count);
    } else if a > 0 {
      LessOne(a, count);
    } else if b > 0 {
      LessOne(b, count);
    }
  }

  lemma LessOne(a: nat, count: nat)
    requires a > 0
    ensures a * count == (a - 1) * count + count && (a - 1) * count >= 0
  {
  }

  class BufferCount<T> {
    const count: nat
    var buf: seq<T>
    var emitted: seq<seq<T>>
    var completed: bool
    ghost var delivered: seq<T>

    constructor (count: nat)
      requires count > 0
      ensures Valid() && !completed && delivered == [] && this.count == count
    {
      this.count := count;
      buf, emitted, completed, delivered := [], [], false, [];
    }

    /** Full chunks of everything delivered, in order; at COMPLETE a shorter last one, if anything is left. */
    ghost predicate Valid()
      reads this
    {
      && count > 0 && Joined(emitted) + buf == delivered
      && (if !completed then FullChunks(emitted, count) && |buf| < count
          else buf == [] && (FullChunks(emitted, count)
                             || (emitted != [] && FullChunks(emitted[..|emitted| - 1], count)
                                 && 0 < |emitted[|emitted| - 1]| < count)))
    }

    method Run(batch: seq<T>, terminal: bool)
      requires Valid() && !completed
      modifies this
      ensures Valid() && delivered == old(delivered) + batch && completed == terminal && old(emitted) <= emitted
    {
      for i := 0 to |batch|
        invariant Valid() && !completed && delivered == old(delivered) + batch[..i] && old(emitted) <= emitted
      {
        assert old(delivered) + batch[..i] + [batch[i]] == old(delivered) + batch[..i + 1];
        Push(batch[i]);
      }
      assert batch[..|batch|] == batch;
      if terminal {
        if buf != [] {
          OneMoreChunk(emitted, buf);
          assert (emitted + [buf])[..|emitted|] == emitted;
          emitted := emitted + [buf];
        }
        buf := [];
        completed := true;
      }
    }

    method Push(value: T)
      requires Valid() && !completed
      modifies this`buf, this`emitted, this`delivered
      ensures Valid() && delivered == old(delivered) + [value] && old(emitted) <= emitted
    {
      delivered := delivered + [value];
      assert delivered == Joined(emitted) + (buf + [value]);
      buf := buf + [value];
      if |buf| >= count {
        OneMoreChunk(emitted, buf);
        emitted := emitted + [buf];
        buf := [];
      }
    }
  }

  /** The full chunks, and what is left over: waiting, or sent as a shorter last chunk. */
  ghost function FullOnes<T>(b: BufferCount<T>): seq<seq<T>>
    reads b
  {
    if FullChunks(b.emitted, b.count) || b.emitted == [] then b.emitted else b.emitted[..|b.emitted| - 1]
  }

  ghost function LeftOver<T>(b: BufferCount<T>): seq<T>
    reads b
  {
    if FullChunks(b.emitted, b.count) || b.emitted == [] then b.buf else b.emitted[|b.emitted| - 1]
  }

  lemma SplitsDelivered<T>(b: BufferCount<T>)
    requires b.Valid()
    ensures Joined(FullOnes(b)) + LeftOver(b) == b.delivered
    ensures FullChunks(FullOnes(b), b.count) && |LeftOver(b)| < b.count
    ensures b.emitted == FullOnes(b) + (if b.completed && LeftOver(b) != [] then [LeftOver(b)] else [])
    ensures b.buf == if b.completed then [] else LeftOver(b)
  {
  }

  /** However the values were split into runs, two buffers that got the same have sent the same chunks. */
  lemma SameChunks<T>(a: BufferCount<T>, b: BufferCount<T>)
    requires a.Valid() && b.Valid() && a.completed == b.completed && a.count == b.count && a.delivered == b.delivered
    ensures a.emitted == b.emitted && a.buf == b.buf
  {
    SplitsDelivered(a);
    SplitsDelivered(b);
    ChunksUnique(FullOnes(a), FullOnes(b), LeftOver(a), LeftOver(b), a.count);
  }
}
