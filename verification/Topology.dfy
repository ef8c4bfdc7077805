/**
 * Topology events (graph.rs): observer slots that are recycled, and a first-in first-out delivery during
 * which the observers themselves may emit, subscribe and unsubscribe.  An observer's code runs between
 * two steps of a delivery, so a run is any interleaving of the methods of `Topology`.
 */
module TopologyEvents {
  import opened Prelude

  datatype Event<E> = Event(path: string, seqNo: nat, body: E)

  /** An occupied slot.  The sink is the index of its handle: no two subscriptions share one. */
  datatype Entry = Entry(path: Option<string>, sink: nat)

  datatype Handle = Handle(slot: nat, active: bool)

  /** One observer's history: the deliveries it was offered and the events it got. */
  datatype Log<E> = Log(path: Option<string>, joined: nat, offered: nat, received: seq<Event<E>>)

  type Matcher = (string, string) -> bool

  predicate Wanted<E>(matches: Matcher, path: Option<string>, ev: Event<E>) {
    path.None? || matches(ev.path, path.value)
  }

  function Matching<E>(matches: Matcher, path: Option<string>, events: seq<Event<E>>): seq<Event<E>> {
    if events == [] then []
    else
      var rest := Matching(matches, path, events[..|events| - 1]);
      if Wanted(matches, path, events[|events| - 1]) then rest + [events[|events| - 1]] else rest
  }

  ghost predicate Ascending<E>(events: seq<Event<E>>) {
    forall i, j :: 0 <= i < j < |events| ==> events[i].seqNo < events[j].seqNo
  }

  ghost predicate InOrder<E>(events: seq<Event<E>>, clock: nat) {
    Ascending(events) && forall i :: 0 <= i < |events| ==> events[i].seqNo < clock
  }

  lemma EmittedInOrder<E>(delivered: seq<Event<E>>, queue: seq<Event<E>>, clock: nat, ev: Event<E>)
    requires InOrder(delivered + queue, clock) && ev.seqNo == clock
    ensures delivered + (queue + [ev]) == delivered + queue + [ev]
    ensures InOrder(delivered + queue + [ev], clock + 1)
    ensures queue == [] ==> delivered + [ev] + queue == delivered + queue + [ev]
  {
  }

  lemma {:induction false} MatchingMembers<E>(matches: Matcher, path: Option<string>, events: seq<Event<E>>, ev: Event<E>)
    ensures ev in Matching(matches, path, events) <==> ev in events && Wanted(matches, path, ev)
  {
    if events != [] { MatchingMembers(matches, path, events[..|events| - 1], ev); }
  }

  /** Without a path everything is wanted. */
  lemma {:induction false} MatchingAll<E>(matches: Matcher, events: seq<Event<E>>)
    ensures Matching(matches, None, events) == events
  {
    if events != [] { MatchingAll(matches, events[..|events| - 1]); }
  }

  /** A filter of ascending events is ascending. */
  lemma {:induction false} MatchingAscends<E>(matches: Matcher, path: Option<string>, events: seq<Event<E>>)
    requires Ascending(events)
    ensures Ascending(Matching(matches, path, events))
  {
    if events != [] {
      var n := |events| - 1;
      MatchingAscends(matches, path, events[..n]);
      var rest := Matching(matches, path, events[..n]);
      forall j | 0 <= j < |rest| ensures rest[j].seqNo < events[n].seqNo {
        MatchingMembers(matches, path, events[..n], rest[j]);
        var i :| 0 <= i < n && events[..n][i] == rest[j];
      }
    }
  }

  // ---- slots ----

  function Occupied(observers: seq<Option<Entry>>): nat {
    if observers == [] then 0
    else Occupied(observers[..|observers| - 1]) + (if observers[|observers| - 1].Some? then 1 else 0)
  }

  lemma {:induction false} OccupiedUpdate(observers: seq<Option<Entry>>, i: nat, slot: Option<Entry>)
    requires i < |observers|
    ensures Occupied(observers[i := slot])
            == Occupied(observers) - (if observers[i].Some? then 1 else 0) + (if slot.Some? then 1 else 0)
  {
    var n := |observers| - 1;
    if i < n {
      OccupiedUpdate(observers[..n], i, slot);
      assert observers[i := slot][..n] == observers[..n][i := slot];
    } else {
      assert observers[i := slot][..n] == observers[..n];
    }
  }

  /** The free list holds exactly the empty slots, once each. */
  ghost predicate FreeList(observers: seq<Option<Entry>>, free: seq<nat>) {
    && Distinct(free)
    && (forall i :: i in free ==> i < |observers| && observers[i].None?)
    && (forall i :: 0 <= i < |observers| && observers[i].None? ==> i in free)
  }

  /** A handle is active exactly while its slot holds its own sink; every occupied slot has its handle. */
  ghost predicate HandlesOwn(observers: seq<Option<Entry>>, handles: seq<Handle>) {
    && (forall k :: 0 <= k < |handles| && handles[k].active ==>
          handles[k].slot < |observers| && observers[handles[k].slot].Some? && observers[handles[k].slot].value.sink == k)
    && (forall i :: 0 <= i < |observers| && observers[i].Some? ==>
          observers[i].value.sink < |handles| && handles[observers[i].value.sink] == Handle(i, true))
  }

  /** The occupied slots, in slot order. */
  function Snapshot(observers: seq<Option<Entry>>): seq<(nat, Entry)> {
    if observers == [] then []
    else
      var n := |observers| - 1;
      Snapshot(observers[..n]) + (if observers[n].Some? then [(n, observers[n].value)] else [])
  }

  lemma {:induction false} SnapshotMembers(observers: seq<Option<Entry>>)
    ensures forall i: nat, e :: (i, e) in Snapshot(observers) <==> i < |observers| && observers[i] == Some(e)
    ensures forall a, b :: 0 <= a < b < |Snapshot(observers)| ==> Snapshot(observers)[a].0 < Snapshot(observers)[b].0
  {
    if observers != [] {
      var n := |observers| - 1;
      SnapshotMembers(observers[..n]);
      var rest := Snapshot(observers[..n]);
      assert forall e :: (n, e) in Snapshot(observers) ==> (n, e) in rest || Some(e) == observers[n];
      forall i: nat, e ensures (i, e) in Snapshot(observers) <==> i < |observers| && observers[i] == Some(e) {
        assert observers[n] == Some(e) && i == n ==> Snapshot(observers)[|rest|] == (i, e);
        assert (i, e) in rest <==> i < n && observers[i] == Some(e);
      }
      forall a | 0 <= a < |rest| ensures rest[a].0 < n { assert (rest[a].0, rest[a].1) in rest; }
    }
  }

  /** This sink still has its turn to come. */
  ghost predicate Waiting(snapshot: seq<(nat, Entry)>, at: nat, sink: nat) {
    exists j :: at <= j < |snapshot| && snapshot[j].1.sink == sink
  }

  ghost predicate SinksApart(snapshot: seq<(nat, Entry)>) {
    forall i, j :: 0 <= i < j < |snapshot| ==> snapshot[i].1.sink != snapshot[j].1.sink
  }

  lemma SnapshotCovers(observers: seq<Option<Entry>>, handles: seq<Handle>)
    requires HandlesOwn(observers, handles)
    ensures SinksApart(Snapshot(observers))
    ensures forall k :: 0 <= k < |handles| ==> (handles[k].active <==> Waiting(Snapshot(observers), 0, k))
    ensures forall j :: 0 <= j < |Snapshot(observers)| ==> Snapshot(observers)[j].1.sink < |handles|
  {
    var snap := Snapshot(observers);
    SnapshotMembers(observers);
    forall j | 0 <= j < |snap|
      ensures snap[j].0 < |observers| && observers[snap[j].0] == Some(snap[j].1)
    {
      assert (snap[j].0, snap[j].1) in snap;
    }
    forall k | 0 <= k < |handles| && handles[k].active ensures Waiting(snap, 0, k) {
      var i := handles[k].slot;
      assert (i, observers[i].value) in snap;
    }
  }

  /** A sink put into an empty slot owns it, and owns nothing else. */
  lemma TakenOwns(observers: seq<Option<Entry>>, handles: seq<Handle>, id: nat, path: Option<string>)
    requires HandlesOwn(observers, handles) && id < |observers| && observers[id].None?
    ensures HandlesOwn(observers[id := Some(Entry(path, |handles|))], handles + [Handle(id, true)])
  {
  }

  lemma TakenFromFree(observers: seq<Option<Entry>>, free: seq<nat>, entry: Entry)
    requires FreeList(observers, free) && free != []
    ensures var id := free[|free| - 1];
            id < |observers| && observers[id].None? && FreeList(observers[id := Some(entry)], free[..|free| - 1])
  {
    var id, rest := free[|free| - 1], free[..|free| - 1];
    assert free == rest + [id] && id in free;
    DistinctConcat(rest, [id]);
    forall i | i in rest ensures i in free && i != id {}
    forall i | 0 <= i < |observers| && i != id && observers[i].None? ensures i in rest { assert i in free; }
  }

  /** Everything about the slots: the count, the free list and the handles. */
  ghost predicate SlotsOk(observers: seq<Option<Entry>>, free: seq<nat>, active: nat, handles: seq<Handle>) {
    active == Occupied(observers) && FreeList(observers, free) && HandlesOwn(observers, handles)
  }

  lemma SlotReused(observers: seq<Option<Entry>>, free: seq<nat>, active: nat, handles: seq<Handle>, path: Option<string>)
    requires SlotsOk(observers, free, active, handles) && free != []
    ensures var id := free[|free| - 1];
            && id < |observers| && observers[id].None?
            && SlotsOk(observers[id := Some(Entry(path, |handles|))], free[..|free| - 1], active + 1, handles + [Handle(id, true)])
  {
    var id := free[|free| - 1];
    assert id in free;
    TakenFromFree(observers, free, Entry(path, |handles|));
    OccupiedUpdate(observers, id, Some(Entry(path, |handles|)));
    TakenOwns(observers, handles, id, path);
  }

  lemma SlotAdded(observers: seq<Option<Entry>>, active: nat, handles: seq<Handle>, path: Option<string>)
    requires SlotsOk(observers, [], active, handles)
    ensures SlotsOk(observers + [Some(Entry(path, |handles|))], [], active + 1, handles + [Handle(|observers|, true)])
  {
    var grown := observers + [Some(Entry(path, |handles|))];
    assert Occupied(grown) == active + 1 by { assert grown[..|observers|] == observers; }
    GrownOwns(observers, handles, path);
    forall i | 0 <= i < |grown| ensures grown[i].Some? { assert i < |observers| && observers[i].None? ==> i in []; }
  }

  lemma GrownOwns(observers: seq<Option<Entry>>, handles: seq<Handle>, path: Option<string>)
    requires HandlesOwn(observers, handles)
    ensures HandlesOwn(observers + [Some(Entry(path, |handles|))], handles + [Handle(|observers|, true)])
  {
  }

  lemma SlotFreed(observers: seq<Option<Entry>>, free: seq<nat>, active: nat, handles: seq<Handle>, k: nat)
    requires SlotsOk(observers, free, active, handles) && k < |handles| && handles[k].active
    ensures var slot := handles[k].slot;
            && slot < |observers| && observers[slot].Some? && observers[slot].value.sink == k && active > 0
            && SlotsOk(observers[slot := None], free + [slot], active - 1, handles[k := Handle(slot, false)])
  {
    var slot := handles[k].slot;
    OccupiedUpdate(observers, slot, None);
    FreedIsFree(observers, free, slot);
    FreedOwns(observers, handles, k);
  }

  lemma FreedIsFree(observers: seq<Option<Entry>>, free: seq<nat>, slot: nat)
    requires FreeList(observers, free) && slot < |observers| && observers[slot].Some?
    ensures FreeList(observers[slot := None], free + [slot])
  {
    DistinctConcat(free, [slot]);
  }

  lemma FreedOwns(observers: seq<Option<Entry>>, handles: seq<Handle>, k: nat)
    requires HandlesOwn(observers, handles) && k < |handles| && handles[k].active
    ensures HandlesOwn(observers[handles[k].slot := None], handles[k := Handle(handles[k].slot, false)])
  {
  }

  /** An entry taken from a snapshot is still in its slot exactly while its handle is active. */
  lemma StillActive(observers: seq<Option<Entry>>, handles: seq<Handle>, id: nat, sink: nat)
    requires HandlesOwn(observers, handles) && sink < |handles| && handles[sink].slot == id
    ensures handles[sink].active <==> id < |observers| && observers[id].Some? && observers[id].value.sink == sink
  {
  }

  lemma TurnsAfter(snapshot: seq<(nat, Entry)>, at: nat)
    requires at < |snapshot| && SinksApart(snapshot)
    ensures forall k :: Waiting(snapshot, at, k) <==> Waiting(snapshot, at + 1, k) || k == snapshot[at].1.sink
    ensures !Waiting(snapshot, at + 1, snapshot[at].1.sink)
  {
  }

  // ---- histories ----

  /** What an observer got is what it wanted of the deliveries it was offered: none lost, none twice. */
  ghost predicate LogExact<E>(matches: Matcher, log: Log<E>, delivered: seq<Event<E>>) {
    && log.joined <= log.offered <= |delivered|
    && log.received == Matching(matches, log.path, delivered[log.joined..log.offered])
  }

  lemma LogKeeps<E>(matches: Matcher, log: Log<E>, delivered: seq<Event<E>>, ev: Event<E>)
    requires LogExact(matches, log, delivered)
    ensures LogExact(matches, log, delivered + [ev])
  {
    assert (delivered + [ev])[log.joined..log.offered] == delivered[log.joined..log.offered];
  }

  ghost predicate LogsExact<E>(matches: Matcher, logs: seq<Log<E>>, delivered: seq<Event<E>>) {
    forall k :: 0 <= k < |logs| ==> LogExact(matches, logs[k], delivered)
  }

  lemma LogsKeep<E>(matches: Matcher, logs: seq<Log<E>>, delivered: seq<Event<E>>, ev: Event<E>)
    requires LogsExact(matches, logs, delivered)
    ensures LogsExact(matches, logs, delivered + [ev])
  {
    forall k | 0 <= k < |logs| ensures LogExact(matches, logs[k], delivered + [ev]) {
      LogKeeps(matches, logs[k], delivered, ev);
    }
  }

  /** The turns still to come belong to known observers. */
  ghost predicate TurnsKnown<E>(snapshot: seq<(nat, Entry)>, at: nat, handles: seq<Handle>, logs: seq<Log<E>>)
  {
    && |logs| == |handles|
    && forall j :: at <= j < |snapshot| ==>
         && snapshot[j].1.sink < |logs| && snapshot[j].1.path == logs[snapshot[j].1.sink].path
         && handles[snapshot[j].1.sink].slot == snapshot[j].0
  }

  /** Each active observer has been offered every delivery since it joined, up to its turn in this one. */
  ghost predicate TurnsCounted<E>(snapshot: seq<(nat, Entry)>, at: nat, handles: seq<Handle>, logs: seq<Log<E>>, n: nat) {
    && |logs| == |handles|
    && forall k :: 0 <= k < |logs| && handles[k].active ==>
         logs[k].offered + (if Waiting(snapshot, at, k) then 1 else 0) == n
  }

  ghost predicate SlotPaths<E>(observers: seq<Option<Entry>>, logs: seq<Log<E>>) {
    forall i :: 0 <= i < |observers| && observers[i].Some? && observers[i].value.sink < |logs| ==>
      observers[i].value.path == logs[observers[i].value.sink].path
  }

  /** A new observer has no turn in the delivery in progress. */
  lemma JoinedTurns<E>(snapshot: seq<(nat, Entry)>, at: nat, handles: seq<Handle>, logs: seq<Log<E>>, n: nat,
                       slot: nat, path: Option<string>)
    requires TurnsKnown(snapshot, at, handles, logs) && TurnsCounted(snapshot, at, handles, logs, n)
    ensures TurnsKnown(snapshot, at, handles + [Handle(slot, true)], logs + [Log(path, n, n, [])])
    ensures TurnsCounted(snapshot, at, handles + [Handle(slot, true)], logs + [Log(path, n, n, [])], n)
  {
    assert !Waiting(snapshot, at, |logs|);
  }

  lemma JoinedPaths<E>(observers: seq<Option<Entry>>, handles: seq<Handle>, logs: seq<Log<E>>, log: Log<E>, slot: nat)
    requires HandlesOwn(observers, handles) && |logs| == |handles| && SlotPaths(observers, logs)
    ensures slot < |observers| ==> SlotPaths(observers[slot := Some(Entry(log.path, |logs|))], logs + [log])
    ensures SlotPaths(observers + [Some(Entry(log.path, |logs|))], logs + [log])
  {
  }

  /** The most recently freed slot, or a new one at the end; no other slot changes. */
  ghost predicate SlotTaken(slot: nat, entry: Entry, before: seq<Option<Entry>>, freeBefore: seq<nat>,
                            after: seq<Option<Entry>>, freeAfter: seq<nat>)
  {
    && PutIn(slot, entry, before, after)
    && if freeBefore != [] then slot == freeBefore[|freeBefore| - 1] && freeAfter == freeBefore[..|freeBefore| - 1]
       else slot == |before| && freeAfter == []
  }

  ghost predicate PutIn(slot: nat, entry: Entry, before: seq<Option<Entry>>, after: seq<Option<Entry>>) {
    if slot < |before| then before[slot].None? && after == before[slot := Some(entry)]
    else slot == |before| && after == before + [Some(entry)]
  }

  lemma NewcomerJoins<E>(matches: Matcher, delivered: seq<Event<E>>, logs: seq<Log<E>>, handles: seq<Handle>,
                         snapshot: seq<(nat, Entry)>, at: nat, observers: seq<Option<Entry>>, path: Option<string>,
                         slot: nat, after: seq<Option<Entry>>)
    requires HistoriesOk(matches, delivered, logs, handles, snapshot, at, observers) && HandlesOwn(observers, handles)
    requires PutIn(slot, Entry(path, |handles|), observers, after)
    ensures HistoriesOk(matches, delivered, logs + [Log(path, |delivered|, |delivered|, [])], handles + [Handle(slot, true)],
                        snapshot, at, after)
  {
    JoinedTurns(snapshot, at, handles, logs, |delivered|, slot, path);
    JoinedExact(matches, logs, delivered, path);
    JoinedPaths(observers, handles, logs, Log(path, |delivered|, |delivered|, []), slot);
  }

  lemma JoinedExact<E>(matches: Matcher, logs: seq<Log<E>>, delivered: seq<Event<E>>, path: Option<string>)
    requires LogsExact(matches, logs, delivered)
    ensures LogsExact(matches, logs + [Log(path, |delivered|, |delivered|, [])], delivered)
  {
    assert delivered[|delivered|..|delivered|] == [];
  }

  /** A fresh snapshot gives every active observer one turn. */
  lemma FreshTurns<E>(observers: seq<Option<Entry>>, handles: seq<Handle>, logs: seq<Log<E>>, n: nat,
                      snapshot: seq<(nat, Entry)>, at: nat)
    requires HandlesOwn(observers, handles) && SlotPaths(observers, logs)
    requires at == |snapshot| && TurnsCounted(snapshot, at, handles, logs, n)
    ensures SinksApart(Snapshot(observers))
    ensures TurnsKnown(Snapshot(observers), 0, handles, logs)
    ensures TurnsCounted(Snapshot(observers), 0, handles, logs, n + 1)
  {
    SnapshotCovers(observers, handles);
    SnapshotMembers(observers);
    var snap := Snapshot(observers);
    forall j | 0 <= j < |snap|
      ensures snap[j].1.path == logs[snap[j].1.sink].path && handles[snap[j].1.sink].slot == snap[j].0
    {
      assert (snap[j].0, snap[j].1) in snap;
    }
    assert forall k :: 0 <= k < |logs| ==> !Waiting(snapshot, at, k);
  }

  /** The histories after one turn: the observer, if still active, is offered the delivery in progress. */
  ghost function AfterTurn<E>(matches: Matcher, sink: nat, handles: seq<Handle>, logs: seq<Log<E>>, ev: Event<E>): seq<Log<E>>
    requires sink < |logs| == |handles|
  {
    if handles[sink].active then logs[sink := Offered(matches, logs[sink], ev)] else logs
  }

  ghost predicate HistoriesOk<E>(matches: Matcher, delivered: seq<Event<E>>, logs: seq<Log<E>>, handles: seq<Handle>,
                                 snapshot: seq<(nat, Entry)>, at: nat, observers: seq<Option<Entry>>)
  {
    && LogsExact(matches, logs, delivered)
    && TurnsKnown(snapshot, at, handles, logs) && TurnsCounted(snapshot, at, handles, logs, |delivered|)
    && SlotPaths(observers, logs)
  }

  lemma TurnTaken<E>(matches: Matcher, delivered: seq<Event<E>>, logs: seq<Log<E>>, handles: seq<Handle>,
                     snapshot: seq<(nat, Entry)>, at: nat, observers: seq<Option<Entry>>)
    requires at < |snapshot| && SinksApart(snapshot) && delivered != []
    requires HistoriesOk(matches, delivered, logs, handles, snapshot, at, observers)
    ensures HistoriesOk(matches, delivered,
                        AfterTurn(matches, snapshot[at].1.sink, handles, logs, delivered[|delivered| - 1]),
                        handles, snapshot, at + 1, observers)
  {
    var k := snapshot[at].1.sink;
    var after := AfterTurn(matches, k, handles, logs, delivered[|delivered| - 1]);
    TurnsAfter(snapshot, at);
    assert LogsExact(matches, after, delivered) by {
      if handles[k].active {
        assert Waiting(snapshot, at, k);
        LogGrows(matches, logs[k], delivered);
      }
    }
    assert TurnsKnown(snapshot, at + 1, handles, after);
    CountedAfterTurn(matches, delivered, logs, handles, snapshot, at);
  }

  lemma CountedAfterTurn<E>(matches: Matcher, delivered: seq<Event<E>>, logs: seq<Log<E>>, handles: seq<Handle>,
                            snapshot: seq<(nat, Entry)>, at: nat)
    requires at < |snapshot| && SinksApart(snapshot) && delivered != []
    requires TurnsKnown(snapshot, at, handles, logs) && TurnsCounted(snapshot, at, handles, logs, |delivered|)
    ensures TurnsCounted(snapshot, at + 1, handles,
                         AfterTurn(matches, snapshot[at].1.sink, handles, logs, delivered[|delivered| - 1]), |delivered|)
  {
    TurnsAfter(snapshot, at);
    var k := snapshot[at].1.sink;
    assert Waiting(snapshot, at, k) && !Waiting(snapshot, at + 1, k);
  }

  function Offered<E>(matches: Matcher, log: Log<E>, ev: Event<E>): Log<E> {
    log.(offered := log.offered + 1, received := log.received + (if Wanted(matches, log.path, ev) then [ev] else []))
  }

  lemma LogGrows<E>(matches: Matcher, log: Log<E>, delivered: seq<Event<E>>)
    requires LogExact(matches, log, delivered) && log.offered < |delivered|
    ensures LogExact(matches, Offered(matches, log, delivered[log.offered]), delivered)
  {
    var seen := delivered[log.joined..log.offered + 1];
    assert seen[..|seen| - 1] == delivered[log.joined..log.offered];
  }

  /** Strictly increasing sequence numbers, so no event twice. */
  lemma ReceivedAscends<E>(matches: Matcher, log: Log<E>, delivered: seq<Event<E>>)
    requires LogExact(matches, log, delivered) && Ascending(delivered)
    ensures Ascending(log.received)
  {
    MatchingAscends(matches, log.path, delivered[log.joined..log.offered]);
  }

  class Topology<E> {
    const matches: Matcher

    var observers: seq<Option<Entry>>
    var free: seq<nat>
    var active: nat
    var handles: seq<Handle>
    var clock: nat

    // the delivery in progress
    var delivering: bool
    var queue: seq<Event<E>>
    var snapshot: seq<(nat, Entry)>
    var at: nat

    ghost var delivered: seq<Event<E>>
    ghost var logs: seq<Log<E>>

    constructor (matches: Matcher)
      ensures Valid() && handles == [] && delivered == [] && !delivering
    {
      this.matches := matches;
      observers, free, active, handles, clock := [], [], 0, [], 0;
      delivering, queue, snapshot, at := false, [], [], 0;
      delivered, logs := [], [];
    }

    ghost predicate Slots()
      reads this`observers, this`free, this`active, this`handles
    {
      SlotsOk(observers, free, active, handles)
    }

    /** Everything emitted, delivered or queued, is in order of emission. */
    ghost predicate Order()
      reads this`delivered, this`queue, this`clock
    {
      InOrder(delivered + queue, clock)
    }

    ghost predicate Progress()
      reads this`delivered, this`queue, this`delivering, this`snapshot, this`at
    {
      && at <= |snapshot| && SinksApart(snapshot)
      && (if delivering then delivered != [] else queue == [] && at == |snapshot|)
    }

    ghost predicate Histories()
      reads this`delivered, this`logs, this`handles, this`snapshot, this`at, this`observers
    {
      HistoriesOk(matches, delivered, logs, handles, snapshot, at, observers)
    }

    ghost predicate Valid()
      reads this
    {
      Slots() && Order() && Progress() && Histories()
    }

    /** A new observer takes a slot and is offered what is delivered from the next event on. */
    method Subscribe(path: Option<string>) returns (handle: nat)
      requires Valid()
      modifies this`observers, this`free, this`active, this`handles, this`logs
      ensures Valid() && active == old(active) + 1
      ensures handle == |old(handles)| && |handles| == handle + 1
      ensures handles == old(handles) + [Handle(handles[handle].slot, true)]
      ensures SlotTaken(handles[handle].slot, Entry(path, handle), old(observers), old(free), observers, free)
      ensures logs == old(logs) + [Log(path, |delivered|, |delivered|, [])]
    {
      handle := |handles|;
      var slot := TakeSlot(path);
      NewcomerJoins(matches, delivered, logs, old(handles), snapshot, at, old(observers), path, slot, observers);
      logs := logs + [Log(path, |delivered|, |delivered|, [])];
    }

    method TakeSlot(path: Option<string>) returns (id: nat)
      requires Slots()
      modifies this`observers, this`free, this`active, this`handles
      ensures Slots() && active == old(active) + 1 && handles == old(handles) + [Handle(id, true)]
      ensures SlotTaken(id, Entry(path, |old(handles)|), old(observers), old(free), observers, free)
    {
      if free != [] {
        SlotReused(observers, free, active, handles, path);
        id := free[|free| - 1];
        free := free[..|free| - 1];
      } else {
        SlotAdded(observers, active, handles, path);
        id := |observers|;
        observers := observers + [None];
        assert observers[id := Some(Entry(path, |handles|))] == old(observers) + [Some(Entry(path, |handles|))];
      }
      observers := observers[id := Some(Entry(path, |handles|))];
      active := active + 1;
      handles := handles + [Handle(id, true)];
    }

    /** Ends a subscription; on a spent handle it does nothing, whoever has the slot by now. */
    method Unsubscribe(handle: nat)
      requires Valid() && handle < |handles|
      modifies this`observers, this`free, this`active, this`handles
      ensures Valid()
      ensures handles == old(handles)[handle := old(handles)[handle].(active := false)]
      ensures var h := old(handles)[handle];
              if h.active then
                && h.slot < |old(observers)| && old(observers)[h.slot].Some? && old(observers)[h.slot].value.sink == handle
                && observers == old(observers)[h.slot := None] && active == old(active) - 1
              else observers == old(observers) && active == old(active)
    {
      if !handles[handle].active { return; }
      SlotFreed(observers, free, active, handles, handle);
      var slot := handles[handle].slot;
      handles := handles[handle := Handle(slot, false)];
      if slot < |observers| && observers[slot].Some? {
        observers := observers[slot := None];
        active := SaturatingSub(active, 1);
        free := free + [slot];
      }
    }

    /** Numbers an event and starts its delivery, or queues it behind the one in progress. */
    method Emit(path: string, body: E)
      requires Valid()
      modifies this`clock, this`delivering, this`queue, this`snapshot, this`at, this`delivered
      ensures Valid()
      ensures if active == 0 then clock == old(clock) && delivered == old(delivered) && queue == old(queue)
              else clock == old(clock) + 1
                   && delivered + queue == old(delivered + queue) + [Event(path, old(clock), body)]
                   && (old(delivering) ==> delivered == old(delivered) && at == old(at) && snapshot == old(snapshot))
    {
      if active == 0 { return; }
      var ev := Event(path, clock, body);
      clock := clock + 1;
      EmittedInOrder(delivered, queue, old(clock), ev);
      if delivering {
        queue := queue + [ev];
        return;
      }
      delivering := true;
      Begin(ev);
    }

    method Begin(ev: Event<E>)
      requires Slots() && Histories() && at == |snapshot| && delivering
      modifies this`snapshot, this`at, this`delivered
      ensures Progress() && Histories() && delivered == old(delivered) + [ev] && at == 0 && snapshot == Snapshot(observers)
    {
      LogsKeep(matches, logs, delivered, ev);
      FreshTurns(observers, handles, logs, |delivered|, snapshot, at);
      snapshot := TakeSnapshot();
      at := 0;
      delivered := delivered + [ev];
    }

    method TakeSnapshot() returns (found: seq<(nat, Entry)>)
      ensures found == Snapshot(observers)
    {
      found := [];
      for i := 0 to |observers|
        invariant found == Snapshot(observers[..i])
      {
        assert observers[..i + 1][..i] == observers[..i];
        if observers[i].Some? { found := found + [(i, observers[i].value)]; }
      }
      assert observers[..|observers|] == observers;
    }

    /** The next observer's turn, if it is still subscribed. */
    method DeliverNext()
      requires Valid() && delivering && at < |snapshot|
      modifies this`at, this`logs
      ensures Valid() && at == old(at) + 1 && old(snapshot[at]).1.sink < |old(logs)| == |handles|
      ensures logs == AfterTurn(matches, old(snapshot[at]).1.sink, handles, old(logs), delivered[|delivered| - 1])
    {
      TakeTurn();
    }

    method TakeTurn()
      requires HandlesOwn(observers, handles) && Progress() && Histories() && delivering && at < |snapshot|
      modifies this`at, this`logs
      ensures Progress() && Histories() && at == old(at) + 1 && old(snapshot[at]).1.sink < |old(logs)| == |handles|
      ensures logs == AfterTurn(matches, old(snapshot[at]).1.sink, handles, old(logs), delivered[|delivered| - 1])
    {
      var sink, stillActive := NextObserver();
      TurnTaken(matches, delivered, logs, handles, snapshot, at, observers);
      ghost var after := AfterTurn(matches, sink, handles, logs, delivered[|delivered| - 1]);
      if stillActive { logs := after; }
      at := at + 1;
    }

    /** Whose turn it is, and whether its slot still holds it. */
    method NextObserver() returns (sink: nat, stillActive: bool)
      requires HandlesOwn(observers, handles) && TurnsKnown(snapshot, at, handles, logs) && at < |snapshot|
      ensures sink == snapshot[at].1.sink && sink < |handles| && stillActive == handles[sink].active
    {
      var (id, observer) := snapshot[at];
      sink := observer.sink;
      stillActive := id < |observers| && observers[id].Some? && observers[id].value.sink == sink;
      StillActive(observers, handles, id, sink);
    }

    /** The end of one event's delivery: the oldest queued event is next. */
    method Advance()
      requires Valid() && delivering && at == |snapshot|
      modifies this`delivering, this`queue, this`snapshot, this`at, this`delivered
      ensures Valid()
      ensures delivered + queue == old(delivered + queue)
      ensures delivering == (old(queue) != []) && (delivering ==> queue == old(queue)[1..] && at == 0)
    {
      if queue == [] {
        delivering := false;
        return;
      }
      var ev := queue[0];
      queue := queue[1..];
      assert delivered + [ev] + queue == delivered + old(queue);
      Begin(ev);
    }

    /**
     * Between deliveries an active observer has everything delivered since it joined, or with a path exactly the
     * events that match it, each once and in order.
     */
    lemma ReceivedAll(k: nat)
      requires Valid() && k < |handles|
      ensures Ascending(logs[k].received)
      ensures !delivering && handles[k].active ==>
                logs[k].received == Matching(matches, logs[k].path, delivered[logs[k].joined..])
      ensures !delivering && handles[k].active && logs[k].path.None? ==> logs[k].received == delivered[logs[k].joined..]
      ensures !delivering && handles[k].active && logs[k].path.Some? ==>
                forall ev :: ev in logs[k].received <==>
                  ev in delivered[logs[k].joined..] && matches(ev.path, logs[k].path.value)
    {
      if logs[k].joined <= |delivered| {
        MatchingAll(matches, delivered[logs[k].joined..]);
        forall ev: Event<E> | true
          ensures ev in Matching(matches, logs[k].path, delivered[logs[k].joined..])
                  <==> ev in delivered[logs[k].joined..] && Wanted(matches, logs[k].path, ev)
        {
          MatchingMembers(matches, logs[k].path, delivered[logs[k].joined..], ev);
        }
      }
      assert Ascending(delivered) by {
        forall i, j | 0 <= i < j < |delivered| ensures delivered[i].seqNo < delivered[j].seqNo {
          assert (delivered + queue)[i] == delivered[i] && (delivered + queue)[j] == delivered[j];
        }
      }
      ReceivedAscends(matches, logs[k], delivered);
      if !delivering && handles[k].active {
        assert !Waiting(snapshot, at, k);
        assert delivered[logs[k].joined..logs[k].offered] == delivered[logs[k].joined..];
      }
    }
  }
}
