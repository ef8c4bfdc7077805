/**
 * What one wave of a *Map operator should do (higher_order.rs, `run_map_body`), stated on values, and the
 * boundary at which its rewire requests are applied in order (ctx.rs, node.rs).
 */
module HigherOrderModel {
  import opened Prelude

  datatype Mode = Merge | Switch | Concat | Exhaust

  datatype Terminal = Live | Completed | Errored

  /** What the operator reads in one run: source values, and per dep its forwarded data and terminal. */
  datatype Wave<TIn, D> = Wave(batch: seq<TIn>, data: seq<seq<D>>, terminals: seq<Terminal>)

  datatype Message<D> = Data(d: D) | Complete | Error

  datatype Rewire = Unsubscribe(core: nat) | Subscribe(core: nat)

  // ---- forwarding ----

  function AsData<D>(ds: seq<D>): (ms: seq<Message<D>>)
    ensures |ms| == |ds| && forall i :: 0 <= i < |ds| ==> ms[i] == Data(ds[i])
  {
    seq(|ds|, i requires 0 <= i < |ds| => Data(ds[i]))
  }

  /** The data of deps 1 to `n - 1`, in dep order. */
  function Forwarded<D>(data: seq<seq<D>>, n: nat): seq<Message<D>>
    requires n <= |data|
  {
    if n <= 1 then [] else Forwarded(data, n - 1) + AsData(data[n - 1])
  }

  /** How many data the deps from 1 up to, not including, `n` carry. */
  function DataBefore<D>(data: seq<seq<D>>, n: nat): nat
    requires n <= |data|
  {
    if n <= 1 then 0 else DataBefore(data, n - 1) + |data[n - 1]|
  }

  lemma {:induction false} ForwardedCount<D>(data: seq<seq<D>>, n: nat)
    requires n <= |data|
    ensures |Forwarded(data, n)| == DataBefore(data, n)
  {
    if n > 1 { ForwardedCount(data, n - 1); }
  }

  /** Every datum of every inner is forwarded, in dep order and in its own order, and nothing else. */
  lemma {:induction false} ForwardedAt<D>(data: seq<seq<D>>, n: nat, i: nat, j: nat)
    requires 1 <= i < n <= |data| && j < |data[i]|
    ensures |Forwarded(data, n)| == DataBefore(data, n) && DataBefore(data, i) + j < DataBefore(data, n)
    ensures Forwarded(data, n)[DataBefore(data, i) + j] == Data(data[i][j])
  {
    ForwardedCount(data, n);
    ForwardedCount(data, n - 1);
    if i < n - 1 { ForwardedAt(data, n - 1, i, j); }
  }

  predicate AnyErrored(terminals: seq<Terminal>) {
    exists i | 0 <= i < |terminals| :: terminals[i] == Errored
  }

  // ---- live and completed inners ----

  /** No core occurs twice, read from the end. */
  predicate Unrepeated(s: seq<nat>) {
    s == [] || (s[|s| - 1] !in s[..|s| - 1] && Unrepeated(s[..|s| - 1]))
  }

  lemma {:induction false} UnrepeatedAt(s: seq<nat>, i: nat)
    requires Unrepeated(s) && i < |s|
    ensures s[i] !in s[..i]
  {
    if i < |s| - 1 {
      UnrepeatedAt(s[..|s| - 1], i);
      assert s[..|s| - 1][..i] == s[..i];
    }
  }

  lemma {:induction false} UnrepeatedConcat(a: seq<nat>, b: seq<nat>)
    ensures Unrepeated(a + b) <==> Unrepeated(a) && Unrepeated(b) && forall x :: x in a ==> x !in b
    decreases |b|
  {
    if b == [] {
      assert a + b == a;
    } else {
      var init := b[..|b| - 1];
      assert (a + b)[..|a + b| - 1] == a + init;
      UnrepeatedConcat(a, init);
    }
  }

  /** The inners whose terminal (one place later, after the source's) is or is not COMPLETE. */
  function Pick(inners: seq<nat>, terminals: seq<Terminal>, completed: bool): (r: seq<nat>)
    requires |terminals| == |inners| + 1
    ensures |r| <= |inners| && forall x :: x in r ==> x in inners
  {
    if inners == [] then []
    else
      var k := |inners| - 1;
      var rest := Pick(inners[..k], terminals[..k + 1], completed);
      if (terminals[k + 1] == Completed) == completed then rest + [inners[k]] else rest
  }

  lemma {:induction false} PickSplits(inners: seq<nat>, terminals: seq<Terminal>)
    requires |terminals| == |inners| + 1 && Unrepeated(inners)
    ensures Unrepeated(Pick(inners, terminals, false)) && Unrepeated(Pick(inners, terminals, true))
    ensures forall x :: x in inners ==> (x in Pick(inners, terminals, true) <==> x !in Pick(inners, terminals, false))
  {
    if inners != [] {
      var k := |inners| - 1;
      PickSplits(inners[..k], terminals[..k + 1]);
      assert inners[k] !in inners[..k];
    }
  }

  /** How many of the first `n` inners have, or have not, completed. */
  function Rank(terminals: seq<Terminal>, completed: bool, n: nat): nat
    requires n < |terminals|
  {
    if n == 0 then 0
    else Rank(terminals, completed, n - 1) + if (terminals[n] == Completed) == completed then 1 else 0
  }

  lemma {:induction false} RankOfPrefix(terminals: seq<Terminal>, completed: bool, m: nat, n: nat)
    requires n < m <= |terminals|
    ensures Rank(terminals[..m], completed, n) == Rank(terminals, completed, n)
  {
    if n > 0 { RankOfPrefix(terminals, completed, m, n - 1); }
  }

  lemma {:induction false} PickedCount(inners: seq<nat>, terminals: seq<Terminal>, completed: bool)
    requires |terminals| == |inners| + 1
    ensures |Pick(inners, terminals, completed)| == Rank(terminals, completed, |inners|)
  {
    if inners != [] {
      var k := |inners| - 1;
      PickedCount(inners[..k], terminals[..k + 1], completed);
      RankOfPrefix(terminals, completed, k + 1, k);
    }
  }

  /** What is picked are exactly the inners that have, or have not, completed, in order. */
  lemma {:induction false} PickedAt(inners: seq<nat>, terminals: seq<Terminal>, completed: bool, i: nat)
    requires |terminals| == |inners| + 1 && i < |inners| && (terminals[i + 1] == Completed <==> completed)
    ensures |Pick(inners, terminals, completed)| == Rank(terminals, completed, |inners|)
    ensures Rank(terminals, completed, i) < Rank(terminals, completed, |inners|)
    ensures Pick(inners, terminals, completed)[Rank(terminals, completed, i)] == inners[i]
  {
    var k := |inners| - 1;
    PickedCount(inners, terminals, completed);
    PickedCount(inners[..k], terminals[..k + 1], completed);
    RankOfPrefix(terminals, completed, k + 1, k);
    if i < k {
      PickedAt(inners[..k], terminals[..k + 1], completed, i);
      RankOfPrefix(terminals, completed, k + 1, i);
    }
  }

  // ---- projections ----

  /** The values projected in this wave, in order, given how many inners survive it. */
  function Projected<TIn>(mode: Mode, limit: Option<nat>, survivors: nat, queue: seq<TIn>, batch: seq<TIn>): (p: seq<TIn>)
  {
    match mode
    case Switch => if batch == [] then [] else [batch[|batch| - 1]]
    case Merge => if limit.None? then batch else (queue + batch)[..Admitted(limit.value, survivors, |queue| + |batch|)]
    case Concat => if survivors == 0 && queue + batch != [] then [(queue + batch)[0]] else []
    case Exhaust => if survivors == 0 && batch != [] then [batch[0]] else []
  }

  /** How many queued values a limited merge can start: as many as there are free slots. */
  function Admitted(limit: nat, survivors: nat, queued: nat): (k: nat)
    ensures k <= queued
    ensures survivors + k <= limit || k == 0
    ensures k == queued || survivors + k >= limit
  {
    if limit <= survivors then 0 else if queued <= limit - survivors then queued else limit - survivors
  }

  function QueueAfter<TIn>(mode: Mode, limit: Option<nat>, survivors: nat, queue: seq<TIn>, batch: seq<TIn>): seq<TIn>
  {
    match mode
    case Merge => if limit.None? then queue else (queue + batch)[Admitted(limit.value, survivors, |queue| + |batch|)..]
    case Concat => if survivors == 0 && queue + batch != [] then (queue + batch)[1..] else queue + batch
    case _ => queue
  }

  /**
   * What a wave does to the values, by mode: a switch starts the last value, an exhaust the first one if it has
   * nothing left, an unlimited merge all; a concat and a limited merge start the oldest of what was queued and
   * what came, as many as there are free places, and queue the rest.
   */
  predicate Starts<TIn(==)>(mode: Mode, limit: Option<nat>, survivors: nat, queue: seq<TIn>, batch: seq<TIn>,
                            started: seq<TIn>, left: seq<TIn>)
  {
    && (mode == Switch ==> left == queue && |started| == (if |batch| > 0 then 1 else 0)
                           && (|batch| > 0 ==> started[0] == batch[|batch| - 1]))
    && (mode == Exhaust ==> left == queue && |started| == (if |batch| > 0 && survivors == 0 then 1 else 0)
                            && (|started| > 0 ==> started[0] == batch[0]))
    && (mode == Merge && limit.None? ==> left == queue && started == batch)
    && (mode == Merge && limit.Some? ==>
          started + left == queue + batch && survivors + |started| <= limit.value
          && (|left| > 0 ==> survivors + |started| == limit.value))
    && (mode == Concat ==>
          started + left == queue + batch && |started| == (if survivors == 0 && |queue| + |batch| > 0 then 1 else 0))
  }

  lemma ProjectedStarts<TIn>(mode: Mode, limit: Option<nat>, survivors: nat, queue: seq<TIn>, batch: seq<TIn>)
    requires mode == Merge && limit.Some? ==> survivors <= limit.value
    ensures Starts(mode, limit, survivors, queue, batch, Projected(mode, limit, survivors, queue, batch),
                   QueueAfter(mode, limit, survivors, queue, batch))
  {
  }

  /** The modes leave no choice. */
  lemma StartsOnce<TIn>(mode: Mode, limit: Option<nat>, survivors: nat, queue: seq<TIn>, batch: seq<TIn>,
                        started: seq<TIn>, left: seq<TIn>, started': seq<TIn>, left': seq<TIn>)
    requires Starts(mode, limit, survivors, queue, batch, started, left)
    requires Starts(mode, limit, survivors, queue, batch, started', left')
    ensures started == started' && left == left'
  {
    if mode == Concat || (mode == Merge && limit.Some?) {
      assert |started| + |left| == |queue| + |batch| == |started'| + |left'|;
      assert (started + left)[..|started|] == started && (started' + left')[..|started'|] == started';
      assert (started + left)[|started|..] == left && (started' + left')[|started'|..] == left';
    }
  }

  /** `n` new nodes from `first` on. */
  function FreshCores(first: nat, n: nat): (cs: seq<nat>)
    ensures |cs| == n && forall i :: 0 <= i < n ==> cs[i] == first + i
  {
    seq(n, i requires 0 <= i < n => first + i)
  }

  lemma OneMoreStarted(before: seq<nat>, first: nat, n: nat)
    ensures FreshCores(first, n) + [first + n] == FreshCores(first, n + 1)
    ensures before + FreshCores(first, n) + [first + n] == before + FreshCores(first, n + 1)
  {
  }

  lemma {:induction false} FreshUnrepeated(first: nat, n: nat)
    ensures Unrepeated(FreshCores(first, n))
  {
    if n > 0 {
      var cs := FreshCores(first, n);
      assert cs[..n - 1] == FreshCores(first, n - 1);
      FreshUnrepeated(first, n - 1);
    }
  }

  /** A new inner replaces the live one in switch mode and joins the live ones otherwise. */
  function InnersAfter(mode: Mode, survivors: seq<nat>, first: nat, started: nat): seq<nat> {
    (if mode == Switch && started > 0 then [] else survivors) + FreshCores(first, started)
  }

  // ---- the boundary ----

  function Without(deps: seq<nat>, core: nat): seq<nat> {
    if deps == [] then []
    else
      var rest := Without(deps[..|deps| - 1], core);
      if deps[|deps| - 1] == core then rest else rest + [deps[|deps| - 1]]
  }

  /** A removal of an absent dep and an addition of a present one change nothing. */
  function ApplyRewire(deps: seq<nat>, r: Rewire): seq<nat> {
    match r
    case Unsubscribe(core) => Without(deps, core)
    case Subscribe(core) => if core in deps then deps else deps + [core]
  }

  function ApplyRewires(deps: seq<nat>, rs: seq<Rewire>): seq<nat> {
    if rs == [] then deps else ApplyRewire(ApplyRewires(deps, rs[..|rs| - 1]), rs[|rs| - 1])
  }

  function Unsubscribes(cores: seq<nat>): (rs: seq<Rewire>)
    ensures |rs| == |cores| && forall i :: 0 <= i < |cores| ==> rs[i] == Unsubscribe(cores[i])
  {
    seq(|cores|, i requires 0 <= i < |cores| => Unsubscribe(cores[i]))
  }

  function Subscribes(cores: seq<nat>): (rs: seq<Rewire>)
    ensures |rs| == |cores| && forall i :: 0 <= i < |cores| ==> rs[i] == Subscribe(cores[i])
  {
    seq(|cores|, i requires 0 <= i < |cores| => Subscribe(cores[i]))
  }

  /** The deps not among `gone`, in order. */
  function Keep(deps: seq<nat>, gone: seq<nat>): seq<nat> {
    if deps == [] then []
    else
      var rest := Keep(deps[..|deps| - 1], gone);
      if deps[|deps| - 1] in gone then rest else rest + [deps[|deps| - 1]]
  }

  lemma {:induction false} KeepMembers(deps: seq<nat>, gone: seq<nat>)
    ensures forall x :: x in Keep(deps, gone) <==> x in deps && x !in gone
  {
    if deps != [] { KeepMembers(deps[..|deps| - 1], gone); }
  }

  lemma {:induction false} KeepThenWithout(deps: seq<nat>, gone: seq<nat>, core: nat)
    ensures Without(Keep(deps, gone), core) == Keep(deps, gone + [core])
  {
    if deps != [] {
      var init, last := deps[..|deps| - 1], deps[|deps| - 1];
      KeepThenWithout(init, gone, core);
      var k := Keep(init, gone);
      if last !in gone { assert (k + [last])[..|k|] == k; }
    }
  }

  lemma {:induction false} KeepAll(deps: seq<nat>)
    ensures Keep(deps, []) == deps
  {
    if deps != [] { KeepAll(deps[..|deps| - 1]); }
  }

  lemma {:induction false} UnsubscribesKeep(deps: seq<nat>, gone: seq<nat>)
    ensures ApplyRewires(deps, Unsubscribes(gone)) == Keep(deps, gone)
  {
    if gone == [] {
      KeepAll(deps);
    } else {
      var init := gone[..|gone| - 1];
      assert Unsubscribes(gone)[..|gone| - 1] == Unsubscribes(init);
      UnsubscribesKeep(deps, init);
      KeepThenWithout(deps, init, gone[|gone| - 1]);
      assert gone == init + [gone[|gone| - 1]];
    }
  }

  lemma {:induction false} SubscribesAppend(deps: seq<nat>, before: seq<Rewire>, added: seq<nat>)
    requires Unrepeated(added) && forall x :: x in added ==> x !in ApplyRewires(deps, before)
    ensures ApplyRewires(deps, before + Subscribes(added)) == ApplyRewires(deps, before) + added
  {
    var rs := before + Subscribes(added);
    if added == [] {
      assert rs == before;
    } else {
      var init := added[..|added| - 1];
      assert rs[..|rs| - 1] == before + Subscribes(init);
      SubscribesAppend(deps, before, init);
      assert added[|added| - 1] !in init;
      assert added == init + [added[|added| - 1]];
    }
  }

  lemma {:induction false} KeepPicks(inners: seq<nat>, terminals: seq<Terminal>, gone: seq<nat>, completed: bool)
    requires |terminals| == |inners| + 1 && Unrepeated(inners)
    requires forall x :: x in inners ==> (x in gone <==> x !in Pick(inners, terminals, completed))
    ensures Keep(inners, gone) == Pick(inners, terminals, completed)
  {
    if inners != [] {
      var k := |inners| - 1;
      assert inners[k] !in inners[..k];
      KeepPicks(inners[..k], terminals[..k + 1], gone, completed);
    }
  }

  lemma KeepNone(deps: seq<nat>, gone: seq<nat>)
    requires forall x :: x in deps ==> x in gone
    ensures Keep(deps, gone) == []
  {
    KeepMembers(deps, gone);
    assert |Keep(deps, gone)| > 0 ==> Keep(deps, gone)[0] in Keep(deps, gone);
  }

  lemma KeepSource(source: nat, inners: seq<nat>, gone: seq<nat>)
    requires source !in gone
    ensures Keep([source] + inners, gone) == [source] + Keep(inners, gone)
  {
    KeepConcat([source], inners, gone);
    assert [source][..0] == [];
    assert Keep([source], gone) == [source];
  }

  /** Removals, then additions of new cores: the kept deps and then the new ones. */
  lemma RemoveThenAdd(deps: seq<nat>, rs: seq<Rewire>, gone: seq<nat>, first: nat, started: nat)
    requires rs == Unsubscribes(gone) + Subscribes(FreshCores(first, started))
    requires forall x :: x in deps ==> x < first
    ensures ApplyRewires(deps, rs) == Keep(deps, gone) + FreshCores(first, started)
  {
    UnsubscribesKeep(deps, gone);
    KeepMembers(deps, gone);
    FreshUnrepeated(first, started);
    SubscribesAppend(deps, Unsubscribes(gone), FreshCores(first, started));
  }

  /** The inners removed by a clean wave. */
  function Gone(inners: seq<nat>, terminals: seq<Terminal>, mode: Mode, started: nat): seq<nat>
    requires |terminals| == |inners| + 1
  {
    Pick(inners, terminals, true) + (if mode == Switch && started > 0 then Pick(inners, terminals, false) else [])
  }

  lemma KeepAfterWave(source: nat, inners: seq<nat>, terminals: seq<Terminal>, mode: Mode, started: nat)
    requires |terminals| == |inners| + 1 && Unrepeated(inners) && source !in inners
    ensures Keep([source] + inners, Gone(inners, terminals, mode, started))
            == [source] + (if mode == Switch && started > 0 then [] else Pick(inners, terminals, false))
  {
    PickSplits(inners, terminals);
    var gone := Gone(inners, terminals, mode, started);
    KeepSource(source, inners, gone);
    if mode == Switch && started > 0 {
      KeepNone(inners, gone);
    } else {
      KeepPicks(inners, terminals, gone, false);
    }
  }

  /** After a clean wave the deps are the source and the new inners, in order. */
  lemma {:induction false} DepsAfterWave(deps: seq<nat>, rs: seq<Rewire>, source: nat, inners: seq<nat>,
                                         terminals: seq<Terminal>, mode: Mode, first: nat, started: nat)
    requires deps == [source] + inners
    requires |terminals| == |inners| + 1 && Unrepeated(inners) && source !in inners && source < first
    requires forall x :: x in inners ==> x < first
    requires rs == Unsubscribes(Gone(inners, terminals, mode, started)) + Subscribes(FreshCores(first, started))
    ensures ApplyRewires(deps, rs) == [source] + InnersAfter(mode, Pick(inners, terminals, false), first, started)
  {
    RemoveThenAdd(deps, rs, Gone(inners, terminals, mode, started), first, started);
    KeepAfterWave(source, inners, terminals, mode, started);
    var kept := if mode == Switch && started > 0 then [] else Pick(inners, terminals, false);
    SourceFirst(source, kept, FreshCores(first, started));
  }

  lemma SourceFirst(source: nat, a: seq<nat>, b: seq<nat>)
    ensures [source] + a + b == [source] + (a + b)
  {
  }

  /** After a projector panic every live or just started inner is dropped; completed ones are left. */
  lemma {:induction false} DepsAfterPanic(deps: seq<nat>, rs: seq<Rewire>, source: nat, inners: seq<nat>,
                                          terminals: seq<Terminal>, first: nat, n: nat)
    requires |terminals| == |inners| + 1 && Unrepeated(inners) && source !in inners && source < first
    requires forall x :: x in inners ==> x < first
    requires deps == [source] + inners
    requires rs == Unsubscribes(Pick(inners, terminals, false) + FreshCores(first, n))
    ensures ApplyRewires(deps, rs) == [source] + Pick(inners, terminals, true)
  {
    PickSplits(inners, terminals);
    var gone := Pick(inners, terminals, false) + FreshCores(first, n);
    UnsubscribesKeep(deps, gone);
    KeepSource(source, inners, gone);
    KeepPicks(inners, terminals, gone, true);
  }

  lemma DepsAfterError(deps: seq<nat>, rs: seq<Rewire>, source: nat, inners: seq<nat>)
    requires deps == [source] + inners && rs == Unsubscribes(inners) && source !in inners
    ensures ApplyRewires(deps, rs) == [source]
  {
    UnsubscribesKeep(deps, inners);
    KeepSource(source, inners, inners);
    KeepNone(inners, inners);
  }

  lemma {:induction false} KeepConcat(a: seq<nat>, b: seq<nat>, gone: seq<nat>)
    ensures Keep(a + b, gone) == Keep(a, gone) + Keep(b, gone)
    decreases |b|
  {
    if b == [] {
      assert a + b == a;
    } else {
      assert (a + b)[..|a + b| - 1] == a + b[..|b| - 1];
      KeepConcat(a, b[..|b| - 1], gone);
    }
  }
}
