/**
 * The incremental scan over a reactive log (data_structures.rs): it folds only what is new, and must
 * agree with a fold of the whole log.
 */
module LogScans {
  import opened Prelude
  import opened ReactiveLogs

  /** The plain meaning of a scan. */
  function Fold<A, T>(step: (A, T) -> A, acc: A, s: seq<T>): A {
    if s == [] then acc else step(Fold(step, acc, s[..|s| - 1]), s[|s| - 1])
  }

  lemma {:induction false} FoldConcat<A, T>(step: (A, T) -> A, acc: A, a: seq<T>, b: seq<T>)
    ensures Fold(step, acc, a + b) == Fold(step, Fold(step, acc, a), b)
    decreases |b|
  {
    if b == [] {
      assert a + b == a;
    } else {
      assert (a + b)[..|a + b| - 1] == a + b[..|b| - 1];
      FoldConcat(step, acc, a, b[..|b| - 1]);
    }
  }

  /** The log from `processed` on, folded onto a prefix already folded, is the whole log folded. */
  lemma FoldOn<A, T>(step: (A, T) -> A, acc: A, all: seq<T>, processed: nat)
    requires processed <= |all|
    ensures Fold(step, Fold(step, acc, all[..processed]), all[processed..]) == Fold(step, acc, all)
  {
    FoldConcat(step, acc, all[..processed], all[processed..]);
    assert all[..processed] + all[processed..] == all;
  }

  // ---- one run ----

  datatype ScanState<A> = ScanState(acc: A, processed: nat)

  function AppendedBy<T>(change: LogChange<T>): nat {
    match change
    case Append(_) => 1
    case AppendMany(vs) => |vs|
    case _ => 0
  }

  function Appended<T>(changes: seq<LogChange<T>>): nat {
    if changes == [] then 0 else Appended(changes[..|changes| - 1]) + AppendedBy(changes[|changes| - 1])
  }

  predicate Resets<T>(change: LogChange<T>) {
    change.TrimHead? || change.Clear?
  }

  predicate AnyReset<T>(changes: seq<LogChange<T>>) {
    exists i | 0 <= i < |changes| :: Resets(changes[i])
  }

  /** Where a run starts folding from. */
  function Base<A, T>(initial: A, st: ScanState<A>, changes: seq<LogChange<T>>, all: seq<T>): ScanState<A> {
    if AnyReset(changes) || |all| < st.processed then ScanState(initial, 0) else st
  }

  /** The run sees fewer elements than its changes announce: it says nothing. */
  predicate Silent<A, T>(initial: A, st: ScanState<A>, changes: seq<LogChange<T>>, all: seq<T>) {
    Appended(changes) > 0 && |all| < Base(initial, st, changes, all).processed + Appended(changes)
  }

  function After<A, T>(step: (A, T) -> A, initial: A, st: ScanState<A>, changes: seq<LogChange<T>>, all: seq<T>): (r: ScanState<A>)
  {
    var base := Base(initial, st, changes, all);
    if Silent(initial, st, changes, all) then base
    else ScanState(Fold(step, base.acc, all[base.processed..]), |all|)
  }

  class LogScan<A, T> {
    const initial: A
    const step: (A, T) -> A
    var state: Option<ScanState<A>>
    var emitted: seq<A>

    constructor (initial: A, step: (A, T) -> A)
      ensures this.initial == initial && this.step == step && state == None && emitted == []
    {
      this.initial, this.step, state, emitted := initial, step, None, [];
    }

    ghost function Current(): ScanState<A>
      reads this`state
    {
      if state.Some? then state.value else ScanState(initial, 0)
    }

    /** One run of the scan's body on the changes it was delivered and the log as it now is. */
    method Run(changes: seq<LogChange<T>>, all: seq<T>)
      modifies this
      ensures state == Some(After(step, initial, old(Current()), changes, all))
      ensures emitted == if Silent(initial, old(Current()), changes, all) then old(emitted)
                         else old(emitted) + [Current().acc]
    {
      var appended, reset := 0, false;
      for i := 0 to |changes|
        invariant appended == Appended(changes[..i])
        invariant reset <==> exists k | 0 <= k < i :: Resets(changes[k])
        modifies {}
      {
        assert changes[..i + 1][..i] == changes[..i];
        appended := appended + AppendedBy(changes[i]);
        if Resets(changes[i]) { reset := true; }
      }
      assert changes[..|changes|] == changes;
      var st := if state.Some? then state.value else ScanState(initial, 0);
      if reset || |all| < st.processed { st := ScanState(initial, 0); }
      if appended > 0 && |all| < st.processed + appended {
        state := Some(st);
        return;
      }
      var acc, news := st.acc, all[st.processed..];
      for i := 0 to |news|
        invariant acc == Fold(step, st.acc, news[..i])
        modifies {}
      {
        assert news[..i + 1][..i] == news[..i];
        acc := step(acc, news[i]);
      }
      assert news[..|news|] == news;
      state := Some(ScanState(acc, |all|));
      emitted := emitted + [acc];
    }
  }

  // ---- a delta at a time ----

  /** The state of a scan that has not begun, or begins over. */
  predicate Fresh<A(==)>(initial: A, st: ScanState<A>) {
    st == ScanState(initial, 0)
  }

  /** The state is the fold of all of the log. */
  predicate Synced<A(==), T>(step: (A, T) -> A, initial: A, st: ScanState<A>, buf: seq<T>) {
    st == ScanState(Fold(step, initial, buf), |buf|)
  }

  datatype Delivered<A> = Delivered(st: ScanState<A>, outs: seq<A>)

  /** Each change in a run of its own, all after the log has changed. */
  function DeliverEach<A, T>(step: (A, T) -> A, initial: A, st: ScanState<A>, changes: seq<LogChange<T>>, all: seq<T>)
    : Delivered<A>
  {
    if changes == [] then Delivered(st, [])
    else
      var d := DeliverEach(step, initial, st, changes[..|changes| - 1], all);
      var last := [changes[|changes| - 1]];
      var next := After(step, initial, d.st, last, all);
      Delivered(next, if Silent(initial, d.st, last, all) then d.outs else d.outs + [next.acc])
  }

  /** A run over a log folded up to now, or not at all, that is not silent is the full fold. */
  lemma RunFolds<A, T>(step: (A, T) -> A, initial: A, st: ScanState<A>, changes: seq<LogChange<T>>, all: seq<T>)
    requires st.processed <= |all| && st.acc == Fold(step, initial, all[..st.processed])
    requires !Silent(initial, st, changes, all)
    ensures Synced(step, initial, After(step, initial, st, changes, all), all)
  {
    var base := Base(initial, st, changes, all);
    assert all[..0] == [];
    FoldOn(step, initial, all, base.processed);
  }

  lemma ResetRunFolds<A, T>(step: (A, T) -> A, initial: A, st: ScanState<A>, change: LogChange<T>, all: seq<T>)
    requires Resets(change)
    ensures Synced(step, initial, After(step, initial, st, [change], all), all)
    ensures !Silent(initial, st, [change], all)
  {
    AppendedOne(change);
    assert Resets([change][0]);
    assert all[0..] == all;
  }

  lemma AppendedOne<T>(change: LogChange<T>)
    ensures Appended([change]) == AppendedBy(change) && (AnyReset([change]) <==> Resets(change))
  {
    assert [change][..0] == [];
    assert [change][0] == change;
  }

  /** Whether an operation says anything at all. */
  predicate Effective<T>(buf: seq<T>, op: LogOp<T>) {
    match op
    case OpAppend(_) => true
    case OpAppendMany(vs) => vs != []
    case OpTrimHead(n) => n > 0 && buf != []
    case OpClear => buf != []
  }

  /** A run whose changes hold a removal, or announce exactly what was appended. */
  lemma RunOnAnything<A, T>(step: (A, T) -> A, initial: A, st: ScanState<A>, buf: seq<T>, changes: seq<LogChange<T>>,
                            all: seq<T>)
    requires Synced(step, initial, st, buf) || Fresh(initial, st)
    requires AnyReset(changes) || (buf <= all && |all| == |buf| + Appended(changes))
    ensures Silent(initial, st, changes, all) <==> SilentOn(changes, all)
    ensures After(step, initial, st, changes, all)
            == if SilentOn(changes, all) then ScanState(initial, 0) else ScanState(Fold(step, initial, all), |all|)
  {
    assert all[0..] == all && all[..0] == [];
    if !AnyReset(changes) {
      assert all[..|buf|] == buf;
      RunFolds(step, initial, st, changes, all);
    }
  }

  /** A removal is among the changes, and fewer elements are left than were appended. */
  predicate SilentOn<T>(changes: seq<LogChange<T>>, all: seq<T>) {
    AnyReset(changes) && |all| < Appended(changes)
  }

  /** The shape of an operation's changes: at most an append and the removal it causes. */
  lemma DeltaShape<T>(buf: seq<T>, op: LogOp<T>, maxSize: Option<nat>)
    requires maxSize.Some? ==> |buf| <= maxSize.value
    ensures var ds, all := DeltasOf(buf, op, maxSize), AfterOp(buf, op, maxSize);
            && |ds| <= 2 && (ds != [] <==> Effective(buf, op)) && (ds == [] ==> all == buf)
            && (|ds| == 1 && !Resets(ds[0]) ==> buf <= all && |all| == |buf| + AppendedBy(ds[0]))
            && (|ds| == 2 ==> !Resets(ds[0]) && Resets(ds[1]) && |buf| <= |all| < |buf| + AppendedBy(ds[0]))
  {
  }

  /** A run on one change is heard, and is the full fold. */
  lemma OneChange<A, T>(step: (A, T) -> A, initial: A, st: ScanState<A>, buf: seq<T>, change: LogChange<T>, all: seq<T>)
    requires Synced(step, initial, st, buf) || Fresh(initial, st)
    requires Resets(change) || (buf <= all && |all| == |buf| + AppendedBy(change))
    ensures DeliverEach(step, initial, st, [change], all)
            == Delivered(ScanState(Fold(step, initial, all), |all|), [Fold(step, initial, all)])
  {
    AppendedOne(change);
    DeliverOne(step, initial, st, change, all);
    RunOnAnything(step, initial, st, buf, [change], all);
  }

  /** An append, run when the removal has already happened, and the removal. */
  lemma AppendThenRemoval<A, T>(step: (A, T) -> A, initial: A, st: ScanState<A>, a: LogChange<T>, b: LogChange<T>,
                                all: seq<T>)
    requires Resets(b)
    ensures var d, fold := DeliverEach(step, initial, st, [a], all), Fold(step, initial, all);
            DeliverEach(step, initial, st, [a, b], all) == Delivered(ScanState(fold, |all|), d.outs + [fold])
  {
    var d := DeliverEach(step, initial, st, [a], all);
    assert [a, b][..1] == [a];
    AppendedOne(b);
    ResetRunFolds(step, initial, d.st, b, all);
  }

  /** The refinement for one operation: one value, the full fold, if anything changed; nothing otherwise. */
  lemma OpRefinesFold<A, T>(step: (A, T) -> A, initial: A, st: ScanState<A>, buf: seq<T>, op: LogOp<T>,
                            maxSize: Option<nat>)
    requires Synced(step, initial, st, buf) && (maxSize.Some? ==> |buf| <= maxSize.value)
    ensures var all := AfterOp(buf, op, maxSize);
            DeliverEach(step, initial, st, DeltasOf(buf, op, maxSize), all)
            == Delivered(ScanState(Fold(step, initial, all), |all|),
                         if Effective(buf, op) then [Fold(step, initial, all)] else [])
  {
    var ds, all := DeltasOf(buf, op, maxSize), AfterOp(buf, op, maxSize);
    DeltaShape(buf, op, maxSize);
    if |ds| == 1 {
      assert ds == [ds[0]];
      OneChange(step, initial, st, buf, ds[0], all);
    } else if |ds| == 2 {
      assert ds == [ds[0], ds[1]];
      AppendThenRemoval(step, initial, st, ds[0], ds[1], all);
      AppendedOne(ds[0]);
      DeliverOne(step, initial, st, ds[0], all);
    }
  }

  lemma DeliverOne<A, T>(step: (A, T) -> A, initial: A, st: ScanState<A>, change: LogChange<T>, all: seq<T>)
    ensures var next := After(step, initial, st, [change], all);
            DeliverEach(step, initial, st, [change], all)
            == Delivered(next, if Silent(initial, st, [change], all) then [] else [next.acc])
  {
    assert [change][..0] == [];
  }

  /** A scan attached to a log that already has contents agrees with the fold from its first change on. */
  lemma LateScanCatchesUp<A, T>(step: (A, T) -> A, initial: A, buf: seq<T>, op: LogOp<T>, maxSize: Option<nat>)
    requires Effective(buf, op) && (maxSize.Some? ==> |buf| <= maxSize.value)
    ensures var all := AfterOp(buf, op, maxSize);
            var d := DeliverEach(step, initial, ScanState(initial, 0), DeltasOf(buf, op, maxSize), all);
            && Synced(step, initial, d.st, all) && d.outs != []
            && forall i :: 0 <= i < |d.outs| ==> d.outs[i] == Fold(step, initial, all)
  {
    var ds, all, st := DeltasOf(buf, op, maxSize), AfterOp(buf, op, maxSize), ScanState(initial, 0);
    DeltaShape(buf, op, maxSize);
    if |ds| == 1 {
      assert ds == [ds[0]];
      OneChange(step, initial, st, buf, ds[0], all);
    } else {
      assert ds == [ds[0], ds[1]];
      AppendThenRemoval(step, initial, st, ds[0], ds[1], all);
      HeardOnce(step, initial, st, ds[0], all);
    }
  }

  lemma HeardOnce<A, T>(step: (A, T) -> A, initial: A, st: ScanState<A>, change: LogChange<T>, all: seq<T>)
    requires Fresh(initial, st)
    ensures var outs := DeliverEach(step, initial, st, [change], all).outs; outs == [] || outs == [Fold(step, initial, all)]
  {
    DeliverOne(step, initial, st, change, all);
    if !Silent(initial, st, [change], all) { HeardIsFold(step, initial, st, [change], all); }
  }

  lemma HeardIsFold<A, T>(step: (A, T) -> A, initial: A, st: ScanState<A>, changes: seq<LogChange<T>>, all: seq<T>)
    requires Fresh(initial, st) && !Silent(initial, st, changes, all)
    ensures After(step, initial, st, changes, all).acc == Fold(step, initial, all)
  {
    assert all[..0] == [];
    RunFolds(step, initial, st, changes, all);
  }

  // ---- whole runs ----

  function AfterOps<T>(buf: seq<T>, ops: seq<LogOp<T>>, maxSize: Option<nat>): seq<T> {
    if ops == [] then buf else AfterOp(AfterOps(buf, ops[..|ops| - 1], maxSize), ops[|ops| - 1], maxSize)
  }

  function DeliverOps<A, T>(step: (A, T) -> A, initial: A, st: ScanState<A>, buf: seq<T>, ops: seq<LogOp<T>>,
                            maxSize: Option<nat>): Delivered<A>
  {
    if ops == [] then Delivered(st, [])
    else
      var before, op := AfterOps(buf, ops[..|ops| - 1], maxSize), ops[|ops| - 1];
      var d := DeliverOps(step, initial, st, buf, ops[..|ops| - 1], maxSize);
      var e := DeliverEach(step, initial, d.st, DeltasOf(before, op, maxSize), AfterOp(before, op, maxSize));
      Delivered(e.st, d.outs + e.outs)
  }

  /** The plain scan: one full fold of the log after each operation that changed it. */
  function FullFolds<A, T>(step: (A, T) -> A, initial: A, buf: seq<T>, ops: seq<LogOp<T>>, maxSize: Option<nat>): seq<A> {
    if ops == [] then []
    else
      var before, op := AfterOps(buf, ops[..|ops| - 1], maxSize), ops[|ops| - 1];
      FullFolds(step, initial, buf, ops[..|ops| - 1], maxSize)
      + (if Effective(before, op) then [Fold(step, initial, AfterOp(before, op, maxSize))] else [])
  }

  lemma {:induction false} StaysBounded<T>(buf: seq<T>, ops: seq<LogOp<T>>, maxSize: Option<nat>)
    requires maxSize.Some? ==> |buf| <= maxSize.value
    ensures maxSize.Some? ==> |AfterOps(buf, ops, maxSize)| <= maxSize.value
  {
    if ops != [] { StaysBounded(buf, ops[..|ops| - 1], maxSize); }
  }

  /** The incremental scan is the plain scan, over every run of operations. */
  lemma {:induction false} ScanRefinesFullFolds<A, T>(step: (A, T) -> A, initial: A, st: ScanState<A>, buf: seq<T>,
                                                      ops: seq<LogOp<T>>, maxSize: Option<nat>)
    requires Synced(step, initial, st, buf) && (maxSize.Some? ==> |buf| <= maxSize.value)
    ensures var d := DeliverOps(step, initial, st, buf, ops, maxSize);
            && Synced(step, initial, d.st, AfterOps(buf, ops, maxSize))
            && d.outs == FullFolds(step, initial, buf, ops, maxSize)
  {
    if ops != [] {
      var init := ops[..|ops| - 1];
      ScanRefinesFullFolds(step, initial, st, buf, init, maxSize);
      StaysBounded(buf, init, maxSize);
      var d := DeliverOps(step, initial, st, buf, init, maxSize);
      OpRefinesFold(step, initial, d.st, AfterOps(buf, init, maxSize), ops[|ops| - 1], maxSize);
    }
  }

  // ---- changes coalesced into one run ----

  function AllDeltas<T>(buf: seq<T>, ops: seq<LogOp<T>>, maxSize: Option<nat>): seq<LogChange<T>> {
    if ops == [] then []
    else
      var init := ops[..|ops| - 1];
      AllDeltas(buf, init, maxSize) + DeltasOf(AfterOps(buf, init, maxSize), ops[|ops| - 1], maxSize)
  }

  lemma {:induction false} AppendedConcat<T>(a: seq<LogChange<T>>, b: seq<LogChange<T>>)
    ensures Appended(a + b) == Appended(a) + Appended(b)
    decreases |b|
  {
    if b == [] {
      assert a + b == a;
    } else {
      assert (a + b)[..|a + b| - 1] == a + b[..|b| - 1];
      AppendedConcat(a, b[..|b| - 1]);
    }
  }

  lemma AnyResetConcat<T>(a: seq<LogChange<T>>, b: seq<LogChange<T>>)
    ensures AnyReset(a + b) <==> AnyReset(a) || AnyReset(b)
  {
    var c := a + b;
    assert forall i :: 0 <= i < |a| ==> c[i] == a[i];
    assert forall i :: 0 <= i < |b| ==> c[|a| + i] == b[i];
  }

  /** Operations that announce no removal only append what they announce. */
  lemma {:induction false} NoResetOnlyAppends<T>(buf: seq<T>, ops: seq<LogOp<T>>, maxSize: Option<nat>)
    requires !AnyReset(AllDeltas(buf, ops, maxSize))
    ensures var all := AfterOps(buf, ops, maxSize);
            buf <= all && |all| == |buf| + Appended(AllDeltas(buf, ops, maxSize))
  {
    if ops != [] {
      var init, op := ops[..|ops| - 1], ops[|ops| - 1];
      var before := AfterOps(buf, init, maxSize);
      var ds := DeltasOf(before, op, maxSize);
      AnyResetConcat(AllDeltas(buf, init, maxSize), ds);
      AppendedConcat(AllDeltas(buf, init, maxSize), ds);
      NoResetOnlyAppends(buf, init, maxSize);
      OneOpAppends(before, op, maxSize);
    }
  }

  lemma TwoHaveRemoval<T>(buf: seq<T>, op: LogOp<T>, maxSize: Option<nat>)
    ensures var ds := DeltasOf(buf, op, maxSize); |ds| < 2 || AnyReset(ds)
  {
    var ds := DeltasOf(buf, op, maxSize);
    if |ds| >= 2 { assert Resets(ds[1]); }
  }

  lemma OneOpAppends<T>(buf: seq<T>, op: LogOp<T>, maxSize: Option<nat>)
    requires !AnyReset(DeltasOf(buf, op, maxSize))
    ensures var all := AfterOp(buf, op, maxSize);
            buf <= all && |all| == |buf| + Appended(DeltasOf(buf, op, maxSize))
  {
    var ds := DeltasOf(buf, op, maxSize);
    TwoHaveRemoval(buf, op, maxSize);
    if |ds| >= 1 {
      assert !Resets(ds[0]);
      AppendedOne(ds[0]);
      assert ds == [ds[0]];
    }
  }

  /**
   * All the changes of any operations in one run: the scan says the full fold, or it says nothing, and it
   * says nothing exactly when a removal was among them and fewer elements are left than were appended.
   * It then starts over at the next run.
   */
  lemma {:induction false} CoalescedRun<A, T>(step: (A, T) -> A, initial: A, st: ScanState<A>, buf: seq<T>,
                                              ops: seq<LogOp<T>>, maxSize: Option<nat>)
    requires Synced(step, initial, st, buf) || Fresh(initial, st)
    ensures var all, ds := AfterOps(buf, ops, maxSize), AllDeltas(buf, ops, maxSize);
            && (Silent(initial, st, ds, all) <==> SilentOn(ds, all))
            && After(step, initial, st, ds, all)
               == if SilentOn(ds, all) then ScanState(initial, 0) else ScanState(Fold(step, initial, all), |all|)
  {
    var all, ds := AfterOps(buf, ops, maxSize), AllDeltas(buf, ops, maxSize);
    if !AnyReset(ds) { NoResetOnlyAppends(buf, ops, maxSize); }
    RunOnAnything(step, initial, st, buf, ds, all);
  }

  /** The log after some groups of operations. */
  function AfterGroups<T>(buf: seq<T>, groups: seq<seq<LogOp<T>>>, maxSize: Option<nat>): seq<T> {
    if groups == [] then buf
    else AfterOps(AfterGroups(buf, groups[..|groups| - 1], maxSize), groups[|groups| - 1], maxSize)
  }

  /** Each group's changes delivered in one run; a group that changes nothing gives no run. */
  function DeliverGroups<A, T>(step: (A, T) -> A, initial: A, st: ScanState<A>, buf: seq<T>,
                               groups: seq<seq<LogOp<T>>>, maxSize: Option<nat>): Delivered<A>
  {
    if groups == [] then Delivered(st, [])
    else
      var init, last := groups[..|groups| - 1], groups[|groups| - 1];
      var before, d := AfterGroups(buf, init, maxSize), DeliverGroups(step, initial, st, buf, init, maxSize);
      var ds, all := AllDeltas(before, last, maxSize), AfterOps(before, last, maxSize);
      if ds == [] then d
      else
        var next := After(step, initial, d.st, ds, all);
        Delivered(next, if Silent(initial, d.st, ds, all) then d.outs else d.outs + [next.acc])
  }

  /** The full fold of the log after each group that changed it, but for the groups that go unheard. */
  function GroupFolds<A, T>(step: (A, T) -> A, initial: A, buf: seq<T>, groups: seq<seq<LogOp<T>>>, maxSize: Option<nat>): seq<A> {
    if groups == [] then []
    else
      var init, last := groups[..|groups| - 1], groups[|groups| - 1];
      var before := AfterGroups(buf, init, maxSize);
      var ds, all := AllDeltas(before, last, maxSize), AfterOps(before, last, maxSize);
      GroupFolds(step, initial, buf, init, maxSize)
      + (if ds == [] || SilentOn(ds, all) then [] else [Fold(step, initial, all)])
  }

  lemma {:induction false} NoDeltasNoChange<T>(buf: seq<T>, ops: seq<LogOp<T>>, maxSize: Option<nat>)
    requires AllDeltas(buf, ops, maxSize) == []
    ensures AfterOps(buf, ops, maxSize) == buf
  {
    assert !AnyReset<T>([]);
    NoResetOnlyAppends(buf, ops, maxSize);
  }

  /** Over any run of groups: each run says the full fold, or nothing exactly as its own changes say. */
  lemma {:induction false} CoalescedRuns<A, T>(step: (A, T) -> A, initial: A, st: ScanState<A>, buf: seq<T>,
                                               groups: seq<seq<LogOp<T>>>, maxSize: Option<nat>)
    requires Synced(step, initial, st, buf) || Fresh(initial, st)
    ensures var d := DeliverGroups(step, initial, st, buf, groups, maxSize);
            && d.outs == GroupFolds(step, initial, buf, groups, maxSize)
            && (Synced(step, initial, d.st, AfterGroups(buf, groups, maxSize)) || Fresh(initial, d.st))
  {
    if groups != [] {
      var init, last := groups[..|groups| - 1], groups[|groups| - 1];
      CoalescedRuns(step, initial, st, buf, init, maxSize);
      var before, d := AfterGroups(buf, init, maxSize), DeliverGroups(step, initial, st, buf, init, maxSize);
      if AllDeltas(before, last, maxSize) == [] {
        NoDeltasNoChange(before, last, maxSize);
      } else {
        CoalescedRun(step, initial, d.st, before, last, maxSize);
      }
    }
  }

  /** Two values appended in a batch to a log that holds one, with the trim they cause, are such a silent run. */
  lemma CoalescedTrimIsSilent(step: (int, int) -> int, x: int, y: int)
    ensures var ds := AllDeltas([x], [OpAppendMany([x, y])], Some(1));
            Silent(0, ScanState(Fold(step, 0, [x]), 1), ds, AfterOps([x], [OpAppendMany([x, y])], Some(1)))
  {
    var ops := [OpAppendMany([x, y])];
    assert ops[..0] == [];
    var first: seq<LogChange<int>> := [LogChange.AppendMany([x, y])];
    var ds := first + [LogChange.TrimHead(2)];
    assert AllDeltas([x], ops, Some(1)) == ds;
    AppendedConcat(first, [LogChange.TrimHead(2)]);
    AppendedOne(first[0]);
    AppendedOne<int>(LogChange.TrimHead(2));
    assert Resets(ds[1]);
  }
}
