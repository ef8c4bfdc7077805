/**
 * The *Map operators (higher_order.rs): inner streams are deps of the operator, added and removed at
 * the boundary after each run.  The class keeps the node's deps beside its state and proves them equal.
 */
module HigherOrder {
  import opened Prelude
  import opened HigherOrderModel

  /** The projector panics on this value when its node would be this core. */
  type Panics<!TIn> = (TIn, nat) -> bool

  /** No projection of `values` into the nodes from `first` on panics. */
  predicate StartsCleanly<TIn>(panics: Panics<TIn>, values: seq<TIn>, first: nat) {
    forall j | 0 <= j < |values| :: !panics(values[j], first + j)
  }

  /** How many inners the mode allows, and that no place is free while a value waits. */
  predicate SlotsUsed(mode: Mode, limit: Option<nat>, live: nat, queued: nat) {
    match mode
    case Merge => if limit.None? then queued == 0 else live <= limit.value && (queued > 0 ==> live == limit.value)
    case Concat => live <= 1 && (queued > 0 ==> live == 1)
    case _ => live <= 1 && queued == 0
  }

  lemma OneStart<TIn>(panics: Panics<TIn>, value: TIn, first: nat)
    ensures StartsCleanly(panics, [value], first) <==> !panics(value, first)
  {
    assert [value][0] == value && first + 0 == first;
  }

  lemma OneMoreClean<TIn>(panics: Panics<TIn>, values: seq<TIn>, i: nat, first: nat)
    requires i < |values| && StartsCleanly(panics, values[..i], first)
    ensures StartsCleanly(panics, values[..i + 1], first) <==> !panics(values[i], first + i)
    ensures panics(values[i], first + i) ==> !StartsCleanly(panics, values, first)
  {
    assert values[..i + 1][i] == values[i];
  }

  lemma OneMoreQueued<TIn>(panics: Panics<TIn>, values: seq<TIn>, i: nat, k: nat, first: nat)
    requires i < k <= |values| && StartsCleanly(panics, values[..i], first)
    ensures values[i..][0] == values[i] && values[i..][1..] == values[i + 1..]
    ensures StartsCleanly(panics, values[..i + 1], first) <==> !panics(values[i], first + i)
    ensures panics(values[i], first + i) ==> !StartsCleanly(panics, values[..k], first)
  {
    OneMoreClean(panics, values, i, first);
    assert values[..k][i] == values[i];
  }

  lemma StillUnrepeated(mode: Mode, source: nat, live: seq<nat>, first: nat, n: nat)
    requires Unrepeated(live) && source !in live && source < first && forall x :: x in live ==> x < first
    ensures Unrepeated([source] + InnersAfter(mode, live, first, n))
    ensures forall x :: x in [source] + InnersAfter(mode, live, first, n) ==> x < first + n
  {
    var kept := if mode == Switch && n > 0 then [] else live;
    FreshUnrepeated(first, n);
    UnrepeatedConcat([source], kept);
    UnrepeatedConcat([source] + kept, FreshCores(first, n));
    assert [source] + kept + FreshCores(first, n) == [source] + InnersAfter(mode, live, first, n);
  }

  /** What is projected now and what stays queued are, in order, what was queued and what arrived. */
  lemma HistoryContinues<TIn>(mode: Mode, limit: Option<nat>, live: nat, queue: seq<TIn>, batch: seq<TIn>,
                              arrived: seq<TIn>, projected: seq<TIn>)
    requires mode == Merge || mode == Concat ==> arrived == projected + queue
    requires mode == Merge && limit.None? ==> queue == []
    ensures mode == Merge || mode == Concat ==>
              arrived + batch == projected + Projected(mode, limit, live, queue, batch)
                                 + QueueAfter(mode, limit, live, queue, batch)
  {
    if mode == Merge || mode == Concat {
      var taken, rest := Projected(mode, limit, live, queue, batch), QueueAfter(mode, limit, live, queue, batch);
      assert taken + rest == queue + batch;
      Regroup(projected, queue, batch);
      Regroup(projected, taken, rest);
    }
  }

  lemma Regroup<T>(a: seq<T>, b: seq<T>, c: seq<T>)
    ensures a + b + c == a + (b + c)
  {
  }

  lemma NothingBefore(a: seq<Rewire>, b: seq<Rewire>)
    ensures [] + a == a && [] + a + b == a + b
  {
  }

  /** A wave that keeps `live` of its inners leaves no place free while a value waits. */
  lemma SlotsKept<TIn>(mode: Mode, limit: Option<nat>, before: nat, live: seq<nat>, queue: seq<TIn>, batch: seq<TIn>,
                       first: nat)
    requires SlotsUsed(mode, limit, before, |queue|) && |live| <= before
    ensures SlotsUsed(mode, limit,
                      |InnersAfter(mode, live, first, |Projected(mode, limit, |live|, queue, batch)|)|,
                      |QueueAfter(mode, limit, |live|, queue, batch)|)
  {
  }

  class MapOperator<TIn, D> {
    const mode: Mode
    const concurrent: Option<nat>
    const source: nat
    const panics: Panics<TIn>

    // MapState
    var inners: seq<nat>
    var queue: seq<TIn>
    var sourceDone: bool

    // the node and its context
    var deps: seq<nat>
    var nextCore: nat
    var requests: seq<Rewire>
    var sent: seq<Message<D>>
    var failed: bool

    // everything ever received and everything ever projected
    ghost var arrived: seq<TIn>
    ghost var projected: seq<TIn>

    constructor (mode: Mode, concurrent: Option<nat>, source: nat, panics: Panics<TIn>)
      requires concurrent.Some? ==> mode == Merge && concurrent.value > 0
      ensures Valid() && !failed && sent == [] && arrived == [] && projected == []
      ensures this.mode == mode && this.concurrent == concurrent && this.panics == panics
    {
      this.mode, this.concurrent, this.source, this.panics := mode, concurrent, source, panics;
      inners, queue, sourceDone := [], [], false;
      deps, nextCore, requests, sent, failed := [source], source + 1, [], [], false;
      arrived, projected := [], [];
    }

    /** Between waves: the deps are the source and then the inners, and no queued value is lost or repeated. */
    ghost predicate Valid()
      reads this`inners, this`queue, this`deps, this`nextCore, this`requests, this`arrived, this`projected
    {
      && (concurrent.Some? ==> mode == Merge && concurrent.value > 0)
      && deps == [source] + inners && Unrepeated(deps) && (forall x :: x in deps ==> x < nextCore)
      && requests == []
      && SlotsUsed(mode, concurrent, |inners|, |queue|)
      && (mode == Merge || mode == Concat ==> arrived == projected + queue)
    }

    /** The body runs, then the boundary applies its requests in order. */
    method RunMapBody(w: Wave<TIn, D>)
      requires Valid() && !failed && |w.terminals| == |w.data| == |deps|
      modifies this
      ensures var live := Pick(old(inners), w.terminals, false);
              var values := Projected(mode, concurrent, |live|, old(queue), w.batch);
              if AnyErrored(w.terminals) then
                failed && inners == [] && queue == [] && deps == [source]
                && sent == old(sent) + Forwarded(w.data, |w.data|) + [Error]
              else if !StartsCleanly(panics, values, old(nextCore)) then
                failed && inners == [] && queue == [] && deps == [source] + Pick(old(inners), w.terminals, true)
                && sent == old(sent) + Forwarded(w.data, |w.data|) + [Error]
              else
                && !failed && Valid()
                && inners == InnersAfter(mode, live, old(nextCore), |values|)
                && queue == QueueAfter(mode, concurrent, |live|, old(queue), w.batch)
                && sourceDone == (old(sourceDone) || w.terminals[0] == Completed)
                && projected == old(projected) + values && arrived == old(arrived) + w.batch
                && sent == old(sent) + Forwarded(w.data, |w.data|)
                           + (if sourceDone && inners == [] && queue == [] then [Complete] else [])
    {
      ForwardData(w);
      var erred := FindError(w.terminals);
      if erred {
        FailWave();
      } else {
        ProjectWave(w);
        if !failed && sourceDone && inners == [] && queue == [] { sent := sent + [Complete]; }
      }
    }

    /**
     * One source wave: it fails on an ERROR or when the projector panics on a value that is due by the mode; otherwise
     * exactly these values are started, and COMPLETE follows when the source is done and nothing is live or queued.
     */
    method RunWave(w: Wave<TIn, D>) returns (ghost due: seq<TIn>, ghost left: seq<TIn>)
      requires Valid() && !failed && |w.terminals| == |w.data| == |deps|
      modifies this
      ensures Starts(mode, concurrent, |Pick(old(inners), w.terminals, false)|, old(queue), w.batch, due, left)
      ensures failed <==> AnyErrored(w.terminals) || !StartsCleanly(panics, due, old(nextCore))
      ensures failed ==> inners == [] && queue == [] && sent == old(sent) + Forwarded(w.data, |w.data|) + [Error]
      ensures failed ==> deps == [source] + if AnyErrored(w.terminals) then [] else Pick(old(inners), w.terminals, true)
      ensures !failed ==>
                && Valid() && arrived == old(arrived) + w.batch && projected == old(projected) + due && queue == left
                && inners == (if mode == Switch && w.batch != [] then [] else Pick(old(inners), w.terminals, false))
                             + FreshCores(old(nextCore), |due|)
                && sourceDone == (old(sourceDone) || w.terminals[0] == Completed)
                && sent == old(sent) + Forwarded(w.data, |w.data|)
                           + (if sourceDone && inners == [] && queue == [] then [Complete] else [])
    {
      var live := |Pick(inners, w.terminals, false)|;
      ProjectedStarts(mode, concurrent, live, queue, w.batch);
      due, left := Projected(mode, concurrent, live, queue, w.batch), QueueAfter(mode, concurrent, live, queue, w.batch);
      RunMapBody(w);
    }

    /** A dep's ERROR drops all inners and is passed on. */
    method FailWave()
      requires Valid()
      modifies this
      ensures failed && inners == [] && queue == [] && deps == [source] && sent == old(sent) + [Error]
    {
      DistinctInners();
      ghost var all := inners;
      CleanupAllInners();
      sent := sent + [Error];
      DepsAfterError(deps, requests, source, all);
      Boundary();
    }

    /** The rest of a wave without an ERROR: completed inners go, new ones start, the deps follow. */
    method ProjectWave(w: Wave<TIn, D>)
      requires Valid() && !failed && |w.terminals| == |deps|
      modifies this
      ensures var live := Pick(old(inners), w.terminals, false);
              var values := Projected(mode, concurrent, |live|, old(queue), w.batch);
              if !StartsCleanly(panics, values, old(nextCore)) then
                failed && inners == [] && queue == [] && deps == [source] + Pick(old(inners), w.terminals, true)
                && sent == old(sent) + [Error]
              else
                && !failed && Valid() && sent == old(sent)
                && inners == InnersAfter(mode, live, old(nextCore), |values|)
                && queue == QueueAfter(mode, concurrent, |live|, old(queue), w.batch)
                && sourceDone == (old(sourceDone) || w.terminals[0] == Completed)
                && projected == old(projected) + values && arrived == old(arrived) + w.batch
    {
      DistinctInners();
      ghost var before, waiting, first := inners, queue, nextCore;
      var ok := StartWave(w);
      if ok {
        SettleWave(w, before, waiting, first);
      } else {
        SettlePanic(w.terminals, before, first);
      }
    }

    /** The body between forwarding and the boundary, its requests made but not yet applied. */
    method StartWave(w: Wave<TIn, D>) returns (ok: bool)
      requires !failed && requests == [] && (concurrent.Some? ==> mode == Merge) && |w.terminals| == |inners| + 1
      requires Unrepeated(inners) && forall x :: x in inners ==> x < nextCore
      modifies this`inners, this`queue, this`sourceDone, this`requests, this`failed, this`sent, this`nextCore
      ensures var live := Pick(old(inners), w.terminals, false);
              var values := Projected(mode, concurrent, |live|, old(queue), w.batch);
              && (ok <==> StartsCleanly(panics, values, old(nextCore)))
              && (ok ==> WaveRequests(w.terminals, old(inners), old(nextCore), |values|))
              && (ok ==> !failed && sent == old(sent) && nextCore == old(nextCore) + |values|)
              && (ok ==> sourceDone == (old(sourceDone) || w.terminals[0] == Completed))
              && (ok ==> inners == InnersAfter(mode, live, old(nextCore), |values|))
              && (ok ==> queue == QueueAfter(mode, concurrent, |live|, old(queue), w.batch))
      ensures !ok ==> failed && inners == [] && queue == [] && sent == old(sent) + [Error]
      ensures !ok ==> PanicRequests(w.terminals, old(inners), old(nextCore))
    {
      var remove, toAdd;
      ok, remove, toAdd := PlanWave(w);
      if !ok {
        PanicLeaves(w.terminals, old(inners), old(nextCore));
      } else {
        RequestRewires(remove, toAdd);
        NothingBefore(Unsubscribes(remove), Subscribes(toAdd));
      }
    }

    /** Which deps the wave drops and adds. */
    method PlanWave(w: Wave<TIn, D>) returns (ok: bool, remove: seq<nat>, toAdd: seq<nat>)
      requires !failed && requests == [] && (concurrent.Some? ==> mode == Merge) && |w.terminals| == |inners| + 1
      requires Unrepeated(inners) && forall x :: x in inners ==> x < nextCore
      modifies this`inners, this`queue, this`sourceDone, this`requests, this`failed, this`sent, this`nextCore
      ensures var live := Pick(old(inners), w.terminals, false);
              var values := Projected(mode, concurrent, |live|, old(queue), w.batch);
              && (ok <==> StartsCleanly(panics, values, old(nextCore)))
              && (ok ==> remove == Gone(old(inners), w.terminals, mode, |values|))
              && (ok ==> toAdd == FreshCores(old(nextCore), |values|) && requests == [])
              && (ok ==> !failed && sent == old(sent) && nextCore == old(nextCore) + |values|)
              && (ok ==> sourceDone == (old(sourceDone) || w.terminals[0] == Completed))
              && (ok ==> inners == InnersAfter(mode, live, old(nextCore), |values|))
              && (ok ==> queue == QueueAfter(mode, concurrent, |live|, old(queue), w.batch))
      ensures !ok ==> failed && inners == [] && queue == [] && sent == old(sent) + [Error]
      ensures !ok ==> Dropped(Pick(old(inners), w.terminals, false), old(nextCore))
    {
      var toRemove := NoteCompleted(w.terminals);
      ok, remove, toAdd := StartInners(w.batch, toRemove);
    }

    /** Notes a completed source and takes out the completed inners. */
    method NoteCompleted(terminals: seq<Terminal>) returns (toRemove: seq<nat>)
      requires |terminals| == |inners| + 1 && Unrepeated(inners) && forall x :: x in inners ==> x < nextCore
      modifies this`inners, this`sourceDone
      ensures inners == Pick(old(inners), terminals, false) && toRemove == Pick(old(inners), terminals, true)
      ensures sourceDone == (old(sourceDone) || terminals[0] == Completed)
      ensures Unrepeated(inners) && forall x :: x in inners ==> x < nextCore && x !in toRemove
      ensures forall x :: x in toRemove ==> x < nextCore
    {
      PickSplits(inners, terminals);
      if terminals[0] == Completed { sourceDone := true; }
      toRemove := TakeCompleted(terminals);
    }

    /** The requests are to drop the live inners and some just started. */
    ghost predicate Dropped(live: seq<nat>, first: nat)
      reads this`requests
    {
      exists n: nat :: requests == [] + Unsubscribes(live + FreshCores(first, n))
    }

    lemma PanicLeaves(terminals: seq<Terminal>, before: seq<nat>, first: nat)
      requires |terminals| == |before| + 1
      requires Dropped(Pick(before, terminals, false), first)
      ensures PanicRequests(terminals, before, first)
    {
      var n: nat :| requests == [] + Unsubscribes(Pick(before, terminals, false) + FreshCores(first, n));
      NothingBefore(Unsubscribes(Pick(before, terminals, false) + FreshCores(first, n)), []);
    }

    ghost predicate WaveRequests(terminals: seq<Terminal>, before: seq<nat>, first: nat, started: nat)
      requires |terminals| == |before| + 1
      reads this`requests
    {
      requests == Unsubscribes(Gone(before, terminals, mode, started)) + Subscribes(FreshCores(first, started))
    }

    ghost predicate PanicRequests(terminals: seq<Terminal>, before: seq<nat>, first: nat)
      requires |terminals| == |before| + 1
      reads this`requests
    {
      exists n: nat :: requests == Unsubscribes(Pick(before, terminals, false) + FreshCores(first, n))
    }

    /** The boundary after a clean wave, from the state `before`, `waiting`, `first` that the wave began in. */
    method SettleWave(ghost w: Wave<TIn, D>, ghost before: seq<nat>, ghost waiting: seq<TIn>, ghost first: nat)
      requires |w.terminals| == |before| + 1 && deps == [source] + before && Unrepeated(before) && source !in before
      requires source < first && forall x :: x in before ==> x < first
      requires (concurrent.Some? ==> mode == Merge && concurrent.value > 0)
      requires SlotsUsed(mode, concurrent, |before|, |waiting|)
      requires mode == Merge || mode == Concat ==> arrived == projected + waiting
      requires var live := Pick(before, w.terminals, false);
               var values := Projected(mode, concurrent, |live|, waiting, w.batch);
               && WaveRequests(w.terminals, before, first, |values|)
               && inners == InnersAfter(mode, live, first, |values|) && nextCore == first + |values|
               && queue == QueueAfter(mode, concurrent, |live|, waiting, w.batch)
      modifies this`deps, this`requests, this`arrived, this`projected
      ensures Valid() && arrived == old(arrived) + w.batch
      ensures var live := Pick(before, w.terminals, false);
              projected == old(projected) + Projected(mode, concurrent, |live|, waiting, w.batch)
    {
      ghost var live := Pick(before, w.terminals, false);
      ghost var values := Projected(mode, concurrent, |live|, waiting, w.batch);
      PickSplits(before, w.terminals);
      SlotsKept(mode, concurrent, |before|, live, waiting, w.batch, first);
      StillUnrepeated(mode, source, live, first, |values|);
      HistoryContinues(mode, concurrent, |live|, waiting, w.batch, arrived, projected);
      DepsAfterWave(deps, requests, source, before, w.terminals, mode, first, |values|);
      Boundary();
      arrived := arrived + w.batch;
      projected := projected + values;
    }

    method SettlePanic(ghost terminals: seq<Terminal>, ghost before: seq<nat>, ghost first: nat)
      requires |terminals| == |before| + 1 && deps == [source] + before && Unrepeated(before) && source !in before
      requires source < first && forall x :: x in before ==> x < first
      requires PanicRequests(terminals, before, first)
      modifies this`deps, this`requests
      ensures deps == [source] + Pick(before, terminals, true) && requests == []
    {
      ghost var n: nat :| requests == Unsubscribes(Pick(before, terminals, false) + FreshCores(first, n));
      DepsAfterPanic(deps, requests, source, before, terminals, first, n);
      Boundary();
    }

    lemma DistinctInners()
      requires deps == [source] + inners && Unrepeated(deps) && forall x :: x in deps ==> x < nextCore
      ensures Unrepeated(inners) && source !in inners
      ensures source < nextCore && forall x :: x in inners ==> x < nextCore
    {
      assert source in deps && forall x :: x in inners ==> x in deps;
      UnrepeatedConcat([source], inners);
    }

    method ForwardData(w: Wave<TIn, D>)
      modifies this`sent
      ensures sent == old(sent) + Forwarded(w.data, |w.data|)
    {
      var i := 1;
      while i < |w.data|
        invariant 1 <= i && (i <= |w.data| || |w.data| == 0)
        invariant sent == old(sent) + Forwarded(w.data, if i <= |w.data| then i else 0)
      {
        for j := 0 to |w.data[i]|
          invariant sent == old(sent) + Forwarded(w.data, i) + AsData(w.data[i][..j])
        {
          assert AsData(w.data[i][..j + 1]) == AsData(w.data[i][..j]) + [Data(w.data[i][j])];
          sent := sent + [Data(w.data[i][j])];
        }
        assert w.data[i][..|w.data[i]|] == w.data[i];
        i := i + 1;
      }
    }

    method FindError(terminals: seq<Terminal>) returns (found: bool)
      ensures found <==> AnyErrored(terminals)
    {
      for i := 0 to |terminals|
        invariant forall j :: 0 <= j < i ==> terminals[j] != Errored
      {
        if terminals[i] == Errored { return true; }
      }
      return false;
    }

    /** Drops every inner, the queue and the source, and asks for the inners' removal. */
    method CleanupAllInners()
      requires Unrepeated(inners)
      modifies this`inners, this`queue, this`sourceDone, this`requests, this`failed
      ensures inners == [] && queue == [] && sourceDone && failed
      ensures requests == old(requests) + Unsubscribes(old(inners))
    {
      var drained := inners;
      var seen: seq<nat> := [];
      for i := 0 to |drained|
        invariant seen == drained[..i]
        modifies {}
      {
        UnrepeatedAt(drained, i);
        if drained[i] !in seen { seen := seen + [drained[i]]; }
      }
      inners, queue, sourceDone, failed := [], [], true, true;
      for i := 0 to |seen|
        invariant requests == old(requests) + Unsubscribes(seen)[..i]
        modifies this`requests
      {
        requests := requests + [Unsubscribe(seen[i])];
      }
    }

    /** Splits the inners into completed ones, to be removed, and the rest. */
    method TakeCompleted(terminals: seq<Terminal>) returns (toRemove: seq<nat>)
      requires |terminals| == |inners| + 1 && Unrepeated(inners)
      modifies this`inners
      ensures inners == Pick(old(inners), terminals, false) && toRemove == Pick(old(inners), terminals, true)
    {
      toRemove := [];
      var survivors: seq<nat> := [];
      var all := inners;
      for i := 0 to |all|
        invariant toRemove == Pick(all[..i], terminals[..i + 1], true)
        invariant survivors == Pick(all[..i], terminals[..i + 1], false)
        modifies {}
      {
        assert all[..i + 1][..i] == all[..i] && terminals[..i + 2][..i + 1] == terminals[..i + 1];
        UnrepeatedAt(all, i);
        if terminals[i + 1] == Completed {
          if all[i] !in toRemove { toRemove := toRemove + [all[i]]; }
        } else {
          survivors := survivors + [all[i]];
        }
      }
      assert all[..|all|] == all && terminals[..|all| + 1] == terminals;
      inners := survivors;
    }

    method RequestRewires(toRemove: seq<nat>, toAdd: seq<nat>)
      modifies this`requests
      ensures requests == old(requests) + Unsubscribes(toRemove) + Subscribes(toAdd)
    {
      for i := 0 to |toRemove|
        invariant requests == old(requests) + Unsubscribes(toRemove)[..i]
      {
        requests := requests + [Unsubscribe(toRemove[i])];
      }
      for i := 0 to |toAdd|
        invariant requests == old(requests) + Unsubscribes(toRemove) + Subscribes(toAdd)[..i]
      {
        requests := requests + [Subscribe(toAdd[i])];
      }
    }

    /** The committed boundary: the requests take effect in the order they were made. */
    method Boundary()
      modifies this`deps, this`requests
      ensures deps == ApplyRewires(old(deps), old(requests)) && requests == []
    {
      for i := 0 to |requests|
        invariant requests == old(requests) && deps == ApplyRewires(old(deps), requests[..i])
      {
        assert requests[..i + 1][..i] == requests[..i];
        deps := ApplyRewire(deps, requests[i]);
      }
      assert requests[..|requests|] == requests;
      requests := [];
    }

    /** Projects one value to a new node, or fails the operator. */
    method ProjectInner(value: TIn) returns (core: Option<nat>)
      requires Unrepeated(inners)
      modifies this`inners, this`queue, this`sourceDone, this`requests, this`failed, this`sent, this`nextCore
      ensures core.Some? <==> !panics(value, old(nextCore))
      ensures core.Some? ==> core.value == old(nextCore) && nextCore == old(nextCore) + 1
      ensures core.Some? ==> inners == old(inners) && queue == old(queue) && sourceDone == old(sourceDone)
      ensures core.Some? ==> requests == old(requests) && failed == old(failed) && sent == old(sent)
      ensures core.None? ==> inners == [] && queue == [] && failed && sent == old(sent) + [Error]
      ensures core.None? ==> requests == old(requests) + Unsubscribes(old(inners))
    {
      if panics(value, nextCore) {
        CleanupAllInners();
        sent := sent + [Error];
        return None;
      }
      core := Some(nextCore);
      nextCore := nextCore + 1;
    }

    /** What a start leaves behind when a projector panics, at whatever projection. */
    twostate predicate FailedStart(first: nat)
      reads this
    {
      && failed && inners == [] && queue == [] && sent == old(sent) + [Error]
      && exists n: nat :: requests == old(requests) + Unsubscribes(old(inners) + FreshCores(first, n))
    }

    /** Where the starts of a wave leave the operator when none panicked. */
    twostate predicate CleanStart(n: nat, queueAfter: seq<TIn>, toAdd: seq<nat>)
      reads this
    {
      && !failed && requests == old(requests) && sent == old(sent) && sourceDone == old(sourceDone)
      && nextCore == old(nextCore) + n && toAdd == FreshCores(old(nextCore), n)
      && inners == InnersAfter(mode, old(inners), old(nextCore), n) && queue == queueAfter
    }

    /** The start of this wave's projections, by mode. */
    method StartInners(batch: seq<TIn>, toRemove: seq<nat>) returns (ok: bool, remove: seq<nat>, toAdd: seq<nat>)
      requires Unrepeated(inners) && !failed && (concurrent.Some? ==> mode == Merge)
      requires forall x :: x in inners ==> x < nextCore && x !in toRemove
      requires forall x :: x in toRemove ==> x < nextCore
      modifies this`inners, this`queue, this`sourceDone, this`requests, this`failed, this`sent, this`nextCore
      ensures var values := Projected(mode, concurrent, |old(inners)|, old(queue), batch);
              && (ok <==> StartsCleanly(panics, values, old(nextCore)))
              && (ok ==> CleanStart(|values|, QueueAfter(mode, concurrent, |old(inners)|, old(queue), batch), toAdd))
              && (ok ==> remove == toRemove + (if mode == Switch && |values| > 0 then old(inners) else []))
      ensures !ok ==> FailedStart(old(nextCore))
    {
      remove := toRemove;
      match mode {
        case Switch => ok, remove, toAdd := StartLatest(batch, toRemove);
        case Merge => ok, toAdd := StartMerge(batch, toRemove);
        case Concat => ok, toAdd := StartNext(batch, toRemove);
        case Exhaust => ok, toAdd := StartIfIdle(batch, toRemove);
      }
    }

    method StartMerge(batch: seq<TIn>, toRemove: seq<nat>) returns (ok: bool, toAdd: seq<nat>)
      requires mode == Merge && Unrepeated(inners) && !failed
      requires forall x :: x in inners || x in toRemove ==> x < nextCore
      modifies this`inners, this`queue, this`sourceDone, this`requests, this`failed, this`sent, this`nextCore
      ensures var values := Projected(mode, concurrent, |old(inners)|, old(queue), batch);
              && (ok <==> StartsCleanly(panics, values, old(nextCore)))
              && (ok ==> CleanStart(|values|, QueueAfter(mode, concurrent, |old(inners)|, old(queue), batch), toAdd))
      ensures !ok ==> FailedStart(old(nextCore))
    {
      if concurrent.Some? {
        queue := queue + batch;
        ok, toAdd := StartQueued(toRemove);
      } else {
        ok, toAdd := StartEach(batch, toRemove);
      }
    }

    /** Concat: the oldest queued value, once nothing is live. */
    method StartNext(batch: seq<TIn>, toRemove: seq<nat>) returns (ok: bool, toAdd: seq<nat>)
      requires mode == Concat && Unrepeated(inners) && !failed
      requires forall x :: x in inners || x in toRemove ==> x < nextCore
      modifies this`inners, this`queue, this`sourceDone, this`requests, this`failed, this`sent, this`nextCore
      ensures var values := Projected(mode, concurrent, |old(inners)|, old(queue), batch);
              && (ok <==> StartsCleanly(panics, values, old(nextCore)))
              && (ok ==> CleanStart(|values|, QueueAfter(mode, concurrent, |old(inners)|, old(queue), batch), toAdd))
      ensures !ok ==> FailedStart(old(nextCore))
    {
      queue := queue + batch;
      ok, toAdd := true, [];
      if inners == [] && queue != [] {
        var value := queue[0];
        queue := queue[1..];
        OneStart(panics, value, nextCore);
        ok, toAdd := StartOne(value, toRemove);
        assert old(inners) + FreshCores(old(nextCore), 0) == old(inners);
      }
    }

    /** Exhaust: the first value of a batch, if nothing is live. */
    method StartIfIdle(batch: seq<TIn>, toRemove: seq<nat>) returns (ok: bool, toAdd: seq<nat>)
      requires mode == Exhaust && Unrepeated(inners) && !failed
      requires forall x :: x in inners || x in toRemove ==> x < nextCore
      modifies this`inners, this`queue, this`sourceDone, this`requests, this`failed, this`sent, this`nextCore
      ensures var values := if batch == [] || old(inners) != [] then [] else [batch[0]];
              && (ok <==> StartsCleanly(panics, values, old(nextCore)))
              && (ok ==> CleanStart(|values|, old(queue), toAdd))
      ensures !ok ==> FailedStart(old(nextCore))
    {
      ok, toAdd := true, [];
      if batch != [] && inners == [] {
        OneStart(panics, batch[0], nextCore);
        ok, toAdd := StartOne(batch[0], toRemove);
        assert old(inners) + FreshCores(old(nextCore), 0) == old(inners);
      }
    }

    /** Switch: the last value of a batch; its inner replaces every live one. */
    method StartLatest(batch: seq<TIn>, toRemove: seq<nat>) returns (ok: bool, remove: seq<nat>, toAdd: seq<nat>)
      requires mode == Switch && Unrepeated(inners) && !failed
      requires forall x :: x in inners ==> x < nextCore && x !in toRemove
      requires forall x :: x in toRemove ==> x < nextCore
      modifies this`inners, this`queue, this`sourceDone, this`requests, this`failed, this`sent, this`nextCore
      ensures var values := if batch == [] then [] else [batch[|batch| - 1]];
              && (ok <==> StartsCleanly(panics, values, old(nextCore)))
              && (ok ==> CleanStart(|values|, old(queue), toAdd))
              && (ok ==> remove == toRemove + (if |values| > 0 then old(inners) else []))
      ensures !ok ==> FailedStart(old(nextCore))
    {
      remove, toAdd := toRemove, [];
      if batch == [] { return true, remove, toAdd; }
      OneStart(panics, batch[|batch| - 1], nextCore);
      var core := ProjectInner(batch[|batch| - 1]);
      if core.None? {
        assert old(inners) + FreshCores(old(nextCore), 0) == old(inners);
        return false, remove, toAdd;
      }
      var live := inners;
      for i := 0 to |live|
        invariant remove == toRemove + live[..i]
        modifies {}
      {
        UnrepeatedAt(live, i);
        assert live[i] in live;
        if live[i] != core.value && live[i] !in remove { remove := remove + [live[i]]; }
      }
      // A fresh node is among neither the removed nor the live inners.
      if core.value !in inners { toAdd := toAdd + [core.value]; }
      inners := [core.value];
      ok := true;
    }

    /** One new inner beside the live ones; a panic leaves the requests of the cleanup. */
    method StartOne(value: TIn, toRemove: seq<nat>) returns (ok: bool, toAdd: seq<nat>)
      requires Unrepeated(inners) && !failed
      requires forall x :: x in inners || x in toRemove ==> x < nextCore
      modifies this`inners, this`queue, this`sourceDone, this`requests, this`failed, this`sent, this`nextCore
      ensures ok <==> !panics(value, old(nextCore))
      ensures ok ==> !failed && requests == old(requests) && sent == old(sent) && sourceDone == old(sourceDone)
      ensures ok ==> nextCore == old(nextCore) + 1 && toAdd == [old(nextCore)] && queue == old(queue)
      ensures ok ==> inners == old(inners) + toAdd && Unrepeated(inners)
      ensures !ok ==> failed && inners == [] && queue == [] && sent == old(sent) + [Error]
      ensures !ok ==> requests == old(requests) + Unsubscribes(old(inners))
    {
      var core := ProjectInner(value);
      if core.None? { return false, []; }
      toAdd := [];
      if core.value !in inners && core.value !in toRemove {
        UnrepeatedConcat(inners, [core.value]);
        inners := inners + [core.value];
        toAdd := [core.value];
      }
      ok := true;
    }

    /** Where a loop of starts stands after `n` clean ones. */
    ghost predicate Started(before: seq<nat>, first: nat, n: nat, toAdd: seq<nat>)
      reads this`inners, this`nextCore
    {
      && nextCore == first + n && toAdd == FreshCores(first, n)
      && inners == before + toAdd && Unrepeated(inners) && forall x :: x in before ==> x < first
    }

    /** One more start of such a loop. */
    method StartAnother(ghost before: seq<nat>, ghost first: nat, ghost n: nat, started: seq<nat>, value: TIn,
                        toRemove: seq<nat>)
      returns (ok: bool, toAdd: seq<nat>)
      requires !failed && Started(before, first, n, started)
      requires forall x :: x in toRemove ==> x < first
      modifies this`inners, this`queue, this`sourceDone, this`requests, this`failed, this`sent, this`nextCore
      ensures ok <==> !panics(value, first + n)
      ensures ok ==> !failed && requests == old(requests) && sent == old(sent) && sourceDone == old(sourceDone)
      ensures ok ==> Started(before, first, n + 1, toAdd) && queue == old(queue)
      ensures !ok ==> failed && inners == [] && queue == [] && sent == old(sent) + [Error]
      ensures !ok ==> requests == old(requests) + Unsubscribes(before + FreshCores(first, n))
    {
      OneMoreStarted(before, first, n);
      var added;
      ok, added := StartOne(value, toRemove);
      toAdd := started + added;
    }

    /** Unlimited merge: every value of the batch at once. */
    method StartEach(batch: seq<TIn>, toRemove: seq<nat>) returns (ok: bool, toAdd: seq<nat>)
      requires Unrepeated(inners) && !failed
      requires forall x :: x in inners || x in toRemove ==> x < nextCore
      modifies this`inners, this`queue, this`sourceDone, this`requests, this`failed, this`sent, this`nextCore
      ensures ok <==> StartsCleanly(panics, batch, old(nextCore))
      ensures ok ==> !failed && requests == old(requests) && sent == old(sent) && sourceDone == old(sourceDone)
      ensures ok ==> Started(old(inners), old(nextCore), |batch|, toAdd) && queue == old(queue)
      ensures !ok ==> FailedStart(old(nextCore))
    {
      toAdd := [];
      ok := true;
      for i := 0 to |batch|
        invariant ok && !failed && requests == old(requests) && sent == old(sent) && sourceDone == old(sourceDone)
        invariant Started(old(inners), old(nextCore), i, toAdd) && queue == old(queue)
        invariant StartsCleanly(panics, batch[..i], old(nextCore))
      {
        OneMoreClean(panics, batch, i, old(nextCore));
        ok, toAdd := StartAnother(old(inners), old(nextCore), i, toAdd, batch[i], toRemove);
        if !ok { return; }
      }
      assert batch[..|batch|] == batch;
    }

    /** The oldest queued value, number `n` of those that `waiting` held, is started. */
    method StartHead(ghost before: seq<nat>, ghost first: nat, ghost n: nat, started: seq<nat>, ghost waiting: seq<TIn>,
                     ghost k: nat, toRemove: seq<nat>)
      returns (ok: bool, toAdd: seq<nat>)
      requires !failed && Started(before, first, n, started) && n < k <= |waiting| && queue == waiting[n..]
      requires StartsCleanly(panics, waiting[..n], first) && forall x :: x in toRemove ==> x < first
      modifies this`inners, this`queue, this`sourceDone, this`requests, this`failed, this`sent, this`nextCore
      ensures ok ==> !failed && requests == old(requests) && sent == old(sent) && sourceDone == old(sourceDone)
      ensures ok ==> Started(before, first, n + 1, toAdd) && queue == waiting[n + 1..]
      ensures ok ==> StartsCleanly(panics, waiting[..n + 1], first)
      ensures !ok ==> failed && inners == [] && queue == [] && sent == old(sent) + [Error]
      ensures !ok ==> requests == old(requests) + Unsubscribes(before + FreshCores(first, n))
      ensures !ok ==> !StartsCleanly(panics, waiting[..k], first)
    {
      OneMoreQueued(panics, waiting, n, k, first);
      var value := queue[0];
      queue := queue[1..];
      ok, toAdd := StartAnother(before, first, n, started, value, toRemove);
    }

    /** Limited merge: queued values, oldest first, while there is a free slot. */
    method StartQueued(toRemove: seq<nat>) returns (ok: bool, toAdd: seq<nat>)
      requires Unrepeated(inners) && !failed && concurrent.Some?
      requires forall x :: x in inners || x in toRemove ==> x < nextCore
      modifies this`inners, this`queue, this`sourceDone, this`requests, this`failed, this`sent, this`nextCore
      ensures var k := Admitted(concurrent.value, |old(inners)|, |old(queue)|);
              && (ok <==> StartsCleanly(panics, old(queue)[..k], old(nextCore)))
              && (ok ==> !failed && requests == old(requests) && sent == old(sent) && sourceDone == old(sourceDone))
              && (ok ==> Started(old(inners), old(nextCore), k, toAdd) && queue == old(queue)[k..])
      ensures !ok ==> FailedStart(old(nextCore))
    {
      toAdd := [];
      ok := true;
      ghost var i: nat := 0;
      ghost var waiting, k := queue, Admitted(concurrent.value, |inners|, |queue|);
      while queue != [] && |inners| < concurrent.value
        invariant i <= k && (i < k <==> queue != [] && |inners| < concurrent.value)
        invariant ok && !failed && requests == old(requests) && sent == old(sent) && sourceDone == old(sourceDone)
        invariant Started(old(inners), old(nextCore), i, toAdd) && queue == waiting[i..]
        invariant StartsCleanly(panics, waiting[..i], old(nextCore))
        decreases |queue|
      {
        ok, toAdd := StartHead(old(inners), old(nextCore), i, toAdd, waiting, k, toRemove);
        if !ok { return; }
        i := i + 1;
      }
    }
  }
}
