/** The CQRS reducer (cqrs.rs, `reduce_command_fact`): counters and dedupe windows changed command by command. */
module Cqrs {
  import opened Prelude
  import opened Buffers
  import opened CqrsModel

  /** Events numbered on from `first`. */
  ghost predicate Numbered<E>(events: seq<Event<E>>, first: nat) {
    forall i :: 0 <= i < |events| ==> events[i].seqNo == first + i
  }

  function Ids<E>(events: seq<Event<E>>): (ids: seq<string>)
    ensures |ids| == |events| && forall i :: 0 <= i < |ids| ==> ids[i] == events[i].id
  {
    seq(|events|, i requires 0 <= i < |events| => events[i].id)
  }

  function Types<E>(events: seq<Event<E>>): (types: seq<string>)
    ensures |types| == |events| && forall i :: 0 <= i < |types| ==> types[i] == events[i].etype
  {
    seq(|events|, i requires 0 <= i < |events| => events[i].etype)
  }

  function EventFacts<E>(events: seq<Event<E>>): (fs: seq<Fact<E>>)
    ensures |fs| == |events| && forall i :: 0 <= i < |fs| ==> fs[i] == EventFact(events[i])
  {
    seq(|events|, i requires 0 <= i < |events| => EventFact(events[i]))
  }

  /** The runtime's cursor when `n` events had been accepted, all else as in `base`. */
  function CursorAt(base: Cursor, n: nat, window: Option<nat>): Cursor {
    base.(eventSeq := n,
          dedupe := if base.dedupe.None? then None
                    else Some(base.dedupe.value.(eventsRetained := n - Overflow(n, window), eventsEvicted := Overflow(n, window))))
  }

  ghost predicate PublishedAs<E>(ev: Event<E>, p: Prepared<E>, cause: CommandRef, seqNo: nat, timestamp: nat, base: Cursor,
                                 window: Option<nat>) {
    ev == Event(p.id, p.etype, seqNo, CursorAt(base, seqNo, window), cause, p.payload, timestamp, p.links)
  }

  ghost predicate AllPublished<E>(accepted: seq<Event<E>>, prepared: seq<Prepared<E>>, cause: CommandRef, seqBefore: nat,
                                  timestamp: nat, base: Cursor, window: Option<nat>) {
    |accepted| == |prepared| && forall i :: 0 <= i < |prepared| ==>
      PublishedAs(accepted[i], prepared[i], cause, seqBefore + 1 + i, timestamp, base, window)
  }

  /** The drafts under their ids, all new to `seen` and to one another. */
  ghost predicate PreparedFor<E>(prepared: seq<Prepared<E>>, cause: CommandRef, drafts: seq<Draft<E>>, seen: seq<string>) {
    |prepared| == |drafts| && AllNew(prepared, seen) && forall i :: 0 <= i < |drafts| ==>
      prepared[i] == Prepared(EventId(cause.id, drafts, i), drafts[i].etype, drafts[i].payload, drafts[i].links)
  }

  ghost predicate AllNew<E>(prepared: seq<Prepared<E>>, seen: seq<string>) {
    forall i :: 0 <= i < |prepared| ==> prepared[i].id !in seen && forall j :: 0 <= j < i ==> prepared[j].id != prepared[i].id
  }

  /** The first `i` prepared events are published, from the runtime as it was at `base`; the rest are still new. */
  ghost predicate PublishedSoFar<E>(accepted: seq<Event<E>>, prepared: seq<Prepared<E>>, i: nat, cause: CommandRef,
                                    timestamp: nat, base: Cursor, now: Cursor, window: Option<nat>, seen: seq<string>) {
    && i <= |prepared| && AllPublished(accepted, prepared[..i], cause, base.eventSeq, timestamp, base, window)
    && now == CursorAt(base, base.eventSeq + i, window)
    && forall k :: i <= k < |prepared| ==> prepared[k].id !in seen
  }

  lemma OneMorePublished<E>(accepted: seq<Event<E>>, prepared: seq<Prepared<E>>, i: nat, ev: Event<E>, cause: CommandRef,
                            timestamp: nat, base: Cursor, now: Cursor, window: Option<nat>, all: seq<string>,
                            seen: seq<string>)
    requires PublishedSoFar(accepted, prepared, i, cause, timestamp, base, now, window, seen)
    requires i < |prepared| && AllNew(prepared, all)
    requires PublishedAs(ev, prepared[i], cause, now.eventSeq + 1, timestamp, now, window)
    ensures PublishedSoFar(accepted + [ev], prepared, i + 1, cause, timestamp, base, CursorAt(now, now.eventSeq + 1, window),
                           window, Tail(seen + [prepared[i].id], window))
  {
    assert prepared[..i + 1] == prepared[..i] + [prepared[i]];
    forall k | i < k < |prepared| ensures prepared[k].id !in seen + [prepared[i].id] {
      assert prepared[i].id != prepared[k].id;
    }
  }

  /** The events of one command: one a draft, in order, numbered on from `seqBefore`. */
  ghost predicate AcceptedAs<E>(accepted: seq<Event<E>>, cause: CommandRef, drafts: seq<Draft<E>>, seqBefore: nat,
                                timestamp: nat, base: Cursor, window: Option<nat>) {
    |accepted| == |drafts| && forall i :: 0 <= i < |drafts| ==>
      accepted[i] == Event(EventId(cause.id, drafts, i), drafts[i].etype, seqBefore + 1 + i,
                           CursorAt(base, seqBefore + 1 + i, window), cause, drafts[i].payload, timestamp, drafts[i].links)
  }

  lemma PublishedAreAccepted<E>(accepted: seq<Event<E>>, prepared: seq<Prepared<E>>, cause: CommandRef, drafts: seq<Draft<E>>,
                                seen: seq<string>, seqBefore: nat, timestamp: nat, base: Cursor, window: Option<nat>)
    requires PreparedFor(prepared, cause, drafts, seen)
    requires AllPublished(accepted, prepared, cause, seqBefore, timestamp, base, window)
    ensures AcceptedAs(accepted, cause, drafts, seqBefore, timestamp, base, window)
  {
    forall i | 0 <= i < |drafts|
      ensures accepted[i] == Event(EventId(cause.id, drafts, i), drafts[i].etype, seqBefore + 1 + i,
                                   CursorAt(base, seqBefore + 1 + i, window), cause, drafts[i].payload, timestamp,
                                   drafts[i].links)
    {
      assert PublishedAs(accepted[i], prepared[i], cause, seqBefore + 1 + i, timestamp, base, window);
    }
  }

  /** The base's own event counts do not matter. */
  lemma OtherBase<E>(accepted: seq<Event<E>>, prepared: seq<Prepared<E>>, cause: CommandRef, seqBefore: nat, timestamp: nat,
                     base: Cursor, other: Cursor, window: Option<nat>)
    requires AllPublished(accepted, prepared, cause, seqBefore, timestamp, base, window)
    requires CursorAt(base, 0, window) == CursorAt(other, 0, window)
    ensures AllPublished(accepted, prepared, cause, seqBefore, timestamp, other, window)
  {
    forall i | 0 <= i < |prepared|
      ensures PublishedAs(accepted[i], prepared[i], cause, seqBefore + 1 + i, timestamp, other, window)
    {
      assert PublishedAs(accepted[i], prepared[i], cause, seqBefore + 1 + i, timestamp, base, window);
      assert CursorAt(base, seqBefore + 1 + i, window) == CursorAt(other, seqBefore + 1 + i, window);
    }
  }

  /** What is said of a rejected command, the audit counter having gone from `audits` to the cursor's. */
  function RejectionFacts<E>(code: ErrorCode, cause: CommandRef, audits: nat, after: Cursor): seq<Fact<E>> {
    var before := after.(auditSeq := audits);
    [ErrorFact(code, cause, before), StatusFact(false, cause, 0, Some(code), before),
     AuditFact(RejectionAudit(code, cause, audits, after)), CursorFact(after)]
  }

  function RejectionAudit(code: ErrorCode, cause: CommandRef, audits: nat, after: Cursor): Audit {
    Audit(audits + 1, cause, false, [], [], Some(code), after)
  }

  function AcceptanceFacts<E>(accepted: seq<Event<E>>, cause: CommandRef, audits: nat, after: Cursor): seq<Fact<E>> {
    EventFacts(accepted)
    + [StatusFact(true, cause, |accepted|, None, after.(auditSeq := audits)),
       AuditFact(AcceptanceAudit(accepted, cause, audits, after)), CursorFact(after)]
  }

  function AcceptanceAudit<E>(accepted: seq<Event<E>>, cause: CommandRef, audits: nat, after: Cursor): Audit {
    Audit(audits + 1, cause, true, Ids(accepted), Types(accepted), None, after)
  }

  /** What a command can change, apart from the commands' own window. */
  datatype Snapshot<E> = Snapshot(events: seq<Event<E>>, eventSeq: nat, seenEventIds: seq<string>, errorCount: nat,
                                  auditSeq: nat, audits: seq<Audit>, cursor: Cursor)

  /** A command refused with `code`, or its drafts all accepted: the facts sent and what has changed. */
  ghost predicate Outcome<E>(code: Option<ErrorCode>, cause: CommandRef, drafts: seq<Draft<E>>, timestamp: nat,
                             window: Option<nat>, before: Snapshot<E>, after: Snapshot<E>, facts: seq<Fact<E>>,
                             accepted: seq<Event<E>>)
  {
    && after.auditSeq == before.auditSeq + 1
    && match code
       case Some(c) =>
         && after.errorCount == before.errorCount + 1
         && after.events == before.events && after.eventSeq == before.eventSeq && after.seenEventIds == before.seenEventIds
         && facts == RejectionFacts(c, cause, before.auditSeq, after.cursor)
         && after.audits == before.audits + [RejectionAudit(c, cause, before.auditSeq, after.cursor)]
       case None =>
         && after.errorCount == before.errorCount && after.events == before.events + accepted
         && AcceptedAs(accepted, cause, drafts, before.eventSeq, timestamp, after.cursor.(auditSeq := before.auditSeq), window)
         && facts == AcceptanceFacts(accepted, cause, before.auditSeq, after.cursor)
         && after.audits == before.audits + [AcceptanceAudit(accepted, cause, before.auditSeq, after.cursor)]
  }

  lemma OutcomeKeepsTrail<E>(code: Option<ErrorCode>, cause: CommandRef, drafts: seq<Draft<E>>, timestamp: nat,
                             window: Option<nat>, before: Snapshot<E>, after: Snapshot<E>, facts: seq<Fact<E>>,
                             accepted: seq<Event<E>>, commandCount: nat)
    requires Outcome(code, cause, drafts, timestamp, window, before, after, facts, accepted)
    requires TrailOk(before.audits, commandCount, before.errorCount, Ids(before.events)) && before.auditSeq == |before.audits|
    ensures TrailOk(after.audits, commandCount + 1, after.errorCount, Ids(after.events)) && after.auditSeq == |after.audits|
  {
    var audit := if code.Some? then RejectionAudit(code.value, cause, before.auditSeq, after.cursor)
                 else AcceptanceAudit(accepted, cause, before.auditSeq, after.cursor);
    assert Ids(after.events) == Ids(before.events) + audit.eventIds;
    TrailGrows(before.audits, commandCount, before.errorCount, Ids(before.events), audit);
  }

  /** The facts of one command, read off its outcome. */
  lemma OutcomeFacts<E>(code: Option<ErrorCode>, cause: CommandRef, drafts: seq<Draft<E>>, timestamp: nat,
                        window: Option<nat>, before: Snapshot<E>, after: Snapshot<E>, facts: seq<Fact<E>>,
                        accepted: seq<Event<E>>)
    requires Outcome(code, cause, drafts, timestamp, window, before, after, facts, accepted)
    ensures var n, told := |facts|, after.cursor.(auditSeq := before.auditSeq);
            && n == (if code.None? then |drafts| else 1) + 3
            && (code.None? ==> |accepted| == |drafts| && forall i :: 0 <= i < |drafts| ==> facts[i] == EventFact(accepted[i]))
            && (code.Some? ==> facts[0] == ErrorFact(code.value, cause, told))
            && facts[n - 3] == StatusFact(code.None?, cause, if code.None? then |drafts| else 0, code, told)
            && |after.audits| > 0 && facts[n - 2] == AuditFact(after.audits[|after.audits| - 1])
            && facts[n - 1] == CursorFact(after.cursor)
    ensures |after.audits| > 0 &&
            var audit := after.audits[|after.audits| - 1];
            && audit.seqNo == before.auditSeq + 1 && audit.cause == cause && audit.cursor == after.cursor
            && audit.success == code.None? && audit.error == code
            && |audit.eventIds| == |audit.eventTypes| == (if code.None? then |drafts| else 0)
            && forall i :: 0 <= i < |audit.eventIds| ==>
                 audit.eventIds[i] == accepted[i].id && audit.eventTypes[i] == drafts[i].etype
  {
  }

  function DraftsOf<C, E>(command: Command<C>, handlers: map<string, Handler<C, E>>): seq<Draft<E>> {
    if command.ctype in handlers then
      var handled := handlers[command.ctype](command);
      if handled.Drafts? then handled.drafts else []
    else []
  }

  function Reading(clock: Option<nat>): nat {
    if clock.Some? then clock.value else 0
  }

  /** A window is the end of its history, and the rest has been counted out. */
  ghost predicate WindowOk(seen: seq<string>, evicted: nat, admitted: seq<string>, window: Option<nat>) {
    seen == Tail(admitted, window) && evicted == Overflow(|admitted|, window) && RecursApart(admitted, window)
  }

  lemma WindowTakes(seen: seq<string>, evicted: nat, admitted: seq<string>, window: Option<nat>, id: string)
    requires WindowOk(seen, evicted, admitted, window) && id !in seen
    ensures WindowOk(Tail(seen + [id], window), evicted + Overflow(|seen| + 1, window), admitted + [id], window)
  {
    TailMoves(admitted, window, id);
    OneMoreApart(admitted, window, id);
  }

  class Runtime<C, E> {
    const handlers: map<string, Handler<C, E>>
    const knownEvents: Option<set<string>>
    const commandWindow: Option<nat>
    const eventWindow: Option<nat>

    var eventSeq: nat
    var commandCount: nat
    var errorCount: nat
    var auditSeq: nat
    var seenCommandIds: seq<string>
    var seenEventIds: seq<string>
    var commandDedupeEvicted: nat
    var eventDedupeEvicted: nat

    // everything ever admitted or accepted
    ghost var admittedCommands: seq<string>
    ghost var events: seq<Event<E>>
    ghost var audits: seq<Audit>

    constructor (handlers: map<string, Handler<C, E>>, knownEvents: Option<set<string>>,
                 commandWindow: Option<nat>, eventWindow: Option<nat>)
      ensures Valid() && events == [] && admittedCommands == [] && audits == [] && commandCount == 0
    {
      this.handlers, this.knownEvents := handlers, knownEvents;
      this.commandWindow, this.eventWindow := commandWindow, eventWindow;
      eventSeq, commandCount, errorCount, auditSeq := 0, 0, 0, 0;
      seenCommandIds, seenEventIds, commandDedupeEvicted, eventDedupeEvicted := [], [], 0, 0;
      admittedCommands, events, audits := [], [], [];
    }

    ghost predicate CommandsOk()
      reads this`seenCommandIds, this`commandDedupeEvicted, this`admittedCommands
    {
      WindowOk(seenCommandIds, commandDedupeEvicted, admittedCommands, commandWindow)
    }

    ghost predicate EventsOk()
      reads this`seenEventIds, this`eventDedupeEvicted, this`events, this`eventSeq
    {
      && WindowOk(seenEventIds, eventDedupeEvicted, Ids(events), eventWindow)
      && eventSeq == |events| && Numbered(events, 1)
    }

    ghost predicate Valid()
      reads this
    {
      CommandsOk() && EventsOk() && auditSeq == |audits| && TrailOk(audits, commandCount, errorCount, Ids(events))
    }

    function CursorOf(): Cursor
      reads this`eventSeq, this`commandCount, this`errorCount, this`auditSeq, this`seenCommandIds, this`seenEventIds,
            this`commandDedupeEvicted, this`eventDedupeEvicted
    {
      Cursor(eventSeq, commandCount, errorCount, auditSeq,
             if commandWindow.Some? || eventWindow.Some? then
               Some(DedupeCounts(|seenCommandIds|, |seenEventIds|, commandDedupeEvicted, eventDedupeEvicted))
             else None)
    }

    method AuditRecord(cause: CommandRef, success: bool, events: seq<Event<E>>, error: Option<ErrorCode>) returns (a: Audit)
      modifies this`auditSeq, this`audits
      ensures auditSeq == old(auditSeq) + 1 && audits == old(audits) + [a]
      ensures a == Audit(auditSeq, cause, success, Ids(events), Types(events), error, CursorOf())
    {
      auditSeq := auditSeq + 1;
      a := Audit(auditSeq, cause, success, Ids(events), Types(events), error, CursorOf());
      audits := audits + [a];
    }

    /** A rejection: one error counted, one audit record, and nothing else moved. */
    method Failure(cause: CommandRef, code: ErrorCode) returns (facts: seq<Fact<E>>)
      modifies this`errorCount, this`auditSeq, this`audits
      ensures errorCount == old(errorCount) + 1 && auditSeq == old(auditSeq) + 1
      ensures facts == RejectionFacts(code, cause, old(auditSeq), CursorOf())
      ensures audits == old(audits) + [RejectionAudit(code, cause, old(auditSeq), CursorOf())]
    {
      errorCount := errorCount + 1;
      var cursor := CursorOf();
      var audit := AuditRecord(cause, false, [], Some(code));
      facts := [ErrorFact(code, cause, cursor), StatusFact(false, cause, 0, Some(code), cursor),
                AuditFact(audit), CursorFact(CursorOf())];
    }

    method TrimCommands()
      modifies this`seenCommandIds, this`commandDedupeEvicted
      ensures seenCommandIds == Tail(old(seenCommandIds), commandWindow)
      ensures commandDedupeEvicted == old(commandDedupeEvicted) + Overflow(|old(seenCommandIds)|, commandWindow)
    {
      if commandWindow.Some? && |seenCommandIds| > commandWindow.value {
        var evicted := |seenCommandIds| - commandWindow.value;
        seenCommandIds := seenCommandIds[evicted..];
        commandDedupeEvicted := commandDedupeEvicted + evicted;
      }
    }

    method TrimEvents()
      modifies this`seenEventIds, this`eventDedupeEvicted
      ensures seenEventIds == Tail(old(seenEventIds), eventWindow)
      ensures eventDedupeEvicted == old(eventDedupeEvicted) + Overflow(|old(seenEventIds)|, eventWindow)
    {
      if eventWindow.Some? && |seenEventIds| > eventWindow.value {
        var evicted := |seenEventIds| - eventWindow.value;
        seenEventIds := seenEventIds[evicted..];
        eventDedupeEvicted := eventDedupeEvicted + evicted;
      }
    }

    /** Checks the drafts in order; the accepted ones carry ids new to the window and to one another. */
    method PrepareEvents(cause: CommandRef, drafts: seq<Draft<E>>) returns (r: Result<seq<Prepared<E>>, ErrorCode>)
      ensures r.Err? <==> FirstFault(cause.id, drafts, seenEventIds, knownEvents, 0).Some?
      ensures r.Err? ==> FirstFault(cause.id, drafts, seenEventIds, knownEvents, 0) == Some(r.error)
      ensures r.Ok? ==> PreparedFor(r.value, cause, drafts, seenEventIds)
    {
      var seenInCommand: set<string> := {};
      var prepared: seq<Prepared<E>> := [];
      for i := 0 to |drafts|
        invariant FirstFault(cause.id, drafts, seenEventIds, knownEvents, 0)
                  == FirstFault(cause.id, drafts, seenEventIds, knownEvents, i)
        invariant forall id :: id in seenInCommand <==> exists j :: 0 <= j < i && EventId(cause.id, drafts, j) == id
        invariant |prepared| == i && AllNew(prepared, seenEventIds)
        invariant forall k :: 0 <= k < i ==>
                    prepared[k] == Prepared(EventId(cause.id, drafts, k), drafts[k].etype, drafts[k].payload, drafts[k].links)
      {
        var draft := drafts[i];
        if draft.etype == "" { return Err(MalformedEvent); }
        if knownEvents.Some? && draft.etype !in knownEvents.value { return Err(UnknownEvent); }
        var id := EventId(cause.id, drafts, i);
        if id in seenEventIds || id in seenInCommand { return Err(DuplicateEvent); }
        seenInCommand := seenInCommand + {id};
        prepared := prepared + [Prepared(id, draft.etype, draft.payload, draft.links)];
      }
      return Ok(prepared);
    }

    /** Publishes prepared events under the next sequence numbers. */
    method AcceptEvents(cause: CommandRef, prepared: seq<Prepared<E>>, timestamp: nat) returns (accepted: seq<Event<E>>)
      requires EventsOk() && AllNew(prepared, seenEventIds)
      modifies this`eventSeq, this`seenEventIds, this`eventDedupeEvicted, this`events
      ensures EventsOk() && events == old(events) + accepted
      ensures CursorOf() == CursorAt(old(CursorOf()), eventSeq, eventWindow)
      ensures AllPublished(accepted, prepared, cause, old(eventSeq), timestamp, old(CursorOf()), eventWindow)
    {
      accepted := [];
      CursorNow();
      for i := 0 to |prepared|
        invariant EventsOk() && events == old(events) + accepted
        invariant PublishedSoFar(accepted, prepared, i, cause, timestamp, old(CursorOf()), CursorOf(), eventWindow, seenEventIds)
      {
        var ev := AcceptNext(cause, prepared, i, timestamp, accepted, old(CursorOf()), old(seenEventIds));
        assert old(events) + accepted + [ev] == old(events) + (accepted + [ev]);
        accepted := accepted + [ev];
      }
      assert prepared[..|prepared|] == prepared;
    }

    method AcceptNext(cause: CommandRef, prepared: seq<Prepared<E>>, i: nat, timestamp: nat, ghost accepted: seq<Event<E>>,
                      ghost base: Cursor, ghost all: seq<string>) returns (ev: Event<E>)
      requires EventsOk() && i < |prepared| && AllNew(prepared, all)
      requires PublishedSoFar(accepted, prepared, i, cause, timestamp, base, CursorOf(), eventWindow, seenEventIds)
      modifies this`eventSeq, this`seenEventIds, this`eventDedupeEvicted, this`events
      ensures EventsOk() && events == old(events) + [ev]
      ensures PublishedSoFar(accepted + [ev], prepared, i + 1, cause, timestamp, base, CursorOf(), eventWindow, seenEventIds)
    {
      ev := AcceptEvent(cause, prepared[i], timestamp);
      OneMorePublished(accepted, prepared, i, ev, cause, timestamp, base, old(CursorOf()), eventWindow, all, old(seenEventIds));
    }

    method AcceptEvent(cause: CommandRef, p: Prepared<E>, timestamp: nat) returns (ev: Event<E>)
      requires EventsOk() && p.id !in seenEventIds
      modifies this`eventSeq, this`seenEventIds, this`eventDedupeEvicted, this`events
      ensures EventsOk() && events == old(events) + [ev] && eventSeq == old(eventSeq) + 1
      ensures CursorOf() == CursorAt(old(CursorOf()), eventSeq, eventWindow)
      ensures PublishedAs(ev, p, cause, eventSeq, timestamp, old(CursorOf()), eventWindow)
      ensures seenEventIds == Tail(old(seenEventIds) + [p.id], eventWindow)
    {
      TakeEventId(p.id);
      ev := Event(p.id, p.etype, eventSeq, CursorOf(), cause, p.payload, timestamp, p.links);
      assert Ids(events + [ev]) == Ids(events) + [p.id];
      events := events + [ev];
    }

    method TakeEventId(id: string)
      requires EventsOk() && id !in seenEventIds
      modifies this`eventSeq, this`seenEventIds, this`eventDedupeEvicted
      ensures eventSeq == old(eventSeq) + 1 && seenEventIds == Tail(old(seenEventIds) + [id], eventWindow)
      ensures WindowOk(seenEventIds, eventDedupeEvicted, Ids(events) + [id], eventWindow)
      ensures CursorOf() == CursorAt(old(CursorOf()), eventSeq, eventWindow)
    {
      WindowTakes(seenEventIds, eventDedupeEvicted, Ids(events), eventWindow, id);
      eventSeq := eventSeq + 1;
      seenEventIds := seenEventIds + [id];
      TrimEvents();
    }

    lemma CursorNow()
      requires EventsOk()
      ensures CursorOf() == CursorAt(CursorOf(), eventSeq, eventWindow)
    {
      assert |Ids(events)| == eventSeq;
    }

    ghost function View(): Snapshot<E>
      reads this
    {
      Snapshot(events, eventSeq, seenEventIds, errorCount, auditSeq, audits, CursorOf())
    }

    /** One command.  `clock` is what the clock would say, or nothing if it throws. */
    method ReduceCommandFact(command: Command<C>, clock: Option<nat>) returns (facts: seq<Fact<E>>,
                             ghost accepted: seq<Event<E>>)
      requires Valid()
      modifies this
      ensures Valid() && commandCount == old(commandCount) + 1
      ensures admittedCommands == old(admittedCommands)
                                  + (if command.id != "" && command.ctype != "" && command.id !in old(seenCommandIds)
                                     then [command.id] else [])
      ensures Outcome(Verdict(command, handlers, knownEvents, old(seenCommandIds), old(seenEventIds), clock), command.Ref(),
                      DraftsOf(command, handlers), Reading(clock), eventWindow, old(View()), View(), facts, accepted)
    {
      commandCount := commandCount + 1;
      facts, accepted := Dispatch(command, clock);
      OutcomeKeepsTrail(Verdict(command, handlers, knownEvents, old(seenCommandIds), old(seenEventIds), clock), command.Ref(),
                        DraftsOf(command, handlers), Reading(clock), eventWindow, old(View()), View(), facts, accepted,
                        old(commandCount));
    }

    /** The checks of the command itself, then its handler. */
    method Dispatch(command: Command<C>, clock: Option<nat>) returns (facts: seq<Fact<E>>, ghost accepted: seq<Event<E>>)
      requires CommandsOk() && EventsOk()
      modifies this`eventSeq, this`seenEventIds, this`eventDedupeEvicted, this`events, this`errorCount, this`auditSeq,
               this`audits, this`seenCommandIds, this`commandDedupeEvicted, this`admittedCommands
      ensures CommandsOk() && EventsOk()
      ensures admittedCommands == old(admittedCommands)
                                  + (if Admitted(command, old(seenCommandIds)) then [command.id] else [])
      ensures Outcome(Verdict(command, handlers, knownEvents, old(seenCommandIds), old(seenEventIds), clock), command.Ref(),
                      DraftsOf(command, handlers), Reading(clock), eventWindow, old(View()), View(), facts, accepted)
    {
      accepted := [];
      if command.id == "" || command.ctype == "" {
        facts := Failure(command.Ref(), MalformedCommand);
      } else if command.id in seenCommandIds {
        facts := Failure(command.Ref(), DuplicateCommand);
      } else {
        AdmitCommand(command.id);
        facts, accepted := RunHandler(command, clock);
      }
    }

    /** An admitted command goes to its handler. */
    method RunHandler(command: Command<C>, clock: Option<nat>) returns (facts: seq<Fact<E>>,
                      ghost accepted: seq<Event<E>>)
      requires EventsOk()
      modifies this`eventSeq, this`seenEventIds, this`eventDedupeEvicted, this`events, this`errorCount, this`auditSeq,
               this`audits
      ensures EventsOk()
      ensures Outcome(HandlerVerdict(command, handlers, knownEvents, old(seenEventIds), clock), command.Ref(),
                      DraftsOf(command, handlers), Reading(clock), eventWindow, old(View()), View(), facts, accepted)
    {
      accepted := [];
      if command.ctype !in handlers {
        facts := Failure(command.Ref(), UnknownCommand);
        return;
      }
      var handled := handlers[command.ctype](command);
      if handled.Threw? {
        facts := Failure(command.Ref(), HandlerThrew);
        return;
      }
      facts, accepted := ReduceDrafts(command.Ref(), handled.drafts, clock);
    }

    method AdmitCommand(id: string)
      requires CommandsOk() && id !in seenCommandIds
      modifies this`seenCommandIds, this`commandDedupeEvicted, this`admittedCommands
      ensures CommandsOk() && admittedCommands == old(admittedCommands) + [id]
    {
      WindowTakes(seenCommandIds, commandDedupeEvicted, admittedCommands, commandWindow, id);
      seenCommandIds := seenCommandIds + [id];
      TrimCommands();
      admittedCommands := admittedCommands + [id];
    }

    /** The rest of an admitted command: its drafts become events together, or not at all. */
    method ReduceDrafts(cause: CommandRef, drafts: seq<Draft<E>>, clock: Option<nat>)
      returns (facts: seq<Fact<E>>, ghost accepted: seq<Event<E>>)
      requires EventsOk()
      modifies this`eventSeq, this`seenEventIds, this`eventDedupeEvicted, this`events, this`errorCount, this`auditSeq,
               this`audits
      ensures EventsOk()
      ensures Outcome(DraftsVerdict(cause.id, drafts, old(seenEventIds), knownEvents, clock), cause, drafts, Reading(clock),
                      eventWindow, old(View()), View(), facts, accepted)
    {
      accepted := [];
      var prepared := PrepareEvents(cause, drafts);
      if prepared.Err? {
        facts := Failure(cause, prepared.error);
        return;
      }
      if clock.None? {
        facts := Failure(cause, ClockThrew);
        return;
      }
      facts, accepted := Accept(cause, prepared.value, clock.value);
      PublishedAreAccepted(accepted, prepared.value, cause, drafts, old(seenEventIds), old(eventSeq), clock.value,
                           CursorOf().(auditSeq := old(auditSeq)), eventWindow);
    }

    method Accept(cause: CommandRef, prepared: seq<Prepared<E>>, timestamp: nat)
      returns (facts: seq<Fact<E>>, accepted: seq<Event<E>>)
      requires EventsOk() && AllNew(prepared, seenEventIds)
      modifies this`eventSeq, this`seenEventIds, this`eventDedupeEvicted, this`events, this`auditSeq, this`audits
      ensures EventsOk() && auditSeq == old(auditSeq) + 1 && events == old(events) + accepted
      ensures AllPublished(accepted, prepared, cause, old(eventSeq), timestamp, CursorOf().(auditSeq := old(auditSeq)), eventWindow)
      ensures facts == AcceptanceFacts(accepted, cause, old(auditSeq), CursorOf())
      ensures audits == old(audits) + [AcceptanceAudit(accepted, cause, old(auditSeq), CursorOf())]
    {
      accepted := AcceptEvents(cause, prepared, timestamp);
      assert CursorAt(old(CursorOf()), 0, eventWindow) == CursorAt(CursorOf(), 0, eventWindow);
      OtherBase(accepted, prepared, cause, old(eventSeq), timestamp, old(CursorOf()), CursorOf(), eventWindow);
      facts := Conclude(cause, accepted);
    }

    /** What is said of an accepted command. */
    method Conclude(cause: CommandRef, accepted: seq<Event<E>>) returns (facts: seq<Fact<E>>)
      modifies this`auditSeq, this`audits
      ensures auditSeq == old(auditSeq) + 1 && CursorOf().(auditSeq := old(auditSeq)) == old(CursorOf())
      ensures facts == AcceptanceFacts(accepted, cause, old(auditSeq), CursorOf())
      ensures audits == old(audits) + [AcceptanceAudit(accepted, cause, old(auditSeq), CursorOf())]
    {
      var status := StatusFact(true, cause, |accepted|, None, CursorOf());
      var audit := AuditRecord(cause, true, accepted, None);
      facts := EventFacts(accepted) + [status, AuditFact(audit), CursorFact(CursorOf())];
    }

    /** The cursor counts events, commands, errors and records, and what the windows hold and have let go. */
    lemma CursorTells()
      requires Valid()
      ensures var c := CursorOf();
              && c.eventSeq == |events| && c.commandCount == commandCount && c.errorCount == FailuresIn(audits)
              && c.auditSeq == |audits| && (c.dedupe.None? <==> commandWindow.None? && eventWindow.None?)
              && (c.dedupe.Some? ==>
                    && c.dedupe.value.commandsRetained + c.dedupe.value.commandsEvicted == |admittedCommands|
                    && c.dedupe.value.eventsRetained + c.dedupe.value.eventsEvicted == |events|
                    && (commandWindow.None? ==> c.dedupe.value.commandsEvicted == 0)
                    && (eventWindow.None? ==> c.dedupe.value.eventsEvicted == 0)
                    && (c.dedupe.value.commandsEvicted > 0 ==> Some(c.dedupe.value.commandsRetained) == commandWindow)
                    && (c.dedupe.value.eventsEvicted > 0 ==> Some(c.dedupe.value.eventsRetained) == eventWindow))
    {
      assert |Ids(events)| == |events|;
    }

    /**
     * Whatever happened before: no gap in the numbers of events and audit records, ids recur only past their
     * windows, and the records, one a command, name the accepted events each once, in order.
     */
    lemma RunGuarantees(i: nat, j: nat)
      requires Valid() && i < j
      ensures j < |events| ==> events[i].seqNo == i + 1 && events[j].seqNo == j + 1
      ensures j < |events| && events[i].id == events[j].id ==> eventWindow.Some? && j - i > eventWindow.value
      ensures j < |admittedCommands| && admittedCommands[i] == admittedCommands[j] ==>
                commandWindow.Some? && j - i > commandWindow.value
      ensures |audits| == commandCount && FailuresIn(audits) == errorCount && AuditedIds(audits) == Ids(events)
      ensures j < |audits| ==> audits[i].seqNo == i + 1 && audits[j].seqNo == j + 1
    {
      if j < |events| && events[i].id == events[j].id { RecursOnlyPastWindow(Ids(events), eventWindow, i, j); }
      if j < |admittedCommands| && admittedCommands[i] == admittedCommands[j] {
        RecursOnlyPastWindow(admittedCommands, commandWindow, i, j);
      }
    }
  }
}
