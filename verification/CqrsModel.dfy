/** The CQRS runtime's values and its dedupe windows (cqrs.rs). */
module CqrsModel {
  import opened Prelude
  import opened Buffers
  import Identity
  import Json
  import JsonRoundTrip

  datatype Command<C> = Command(id: string, ctype: string, payload: C) {
    function Ref(): CommandRef { CommandRef(id, ctype) }
  }

  /** What events and records say of the command behind them. */
  datatype CommandRef = CommandRef(id: string, ctype: string)

  /** The aggregate, correlation and causation ids a draft may carry. */
  datatype Links = Links(aggregate: Option<string>, correlation: Option<string>, causation: Option<string>)

  datatype Draft<E> = Draft(id: Option<string>, etype: string, payload: E, links: Links)

  datatype HandlerResult<E> = Drafts(drafts: seq<Draft<E>>) | Threw

  type Handler<!C, E> = Command<C> -> HandlerResult<E>

  datatype ErrorCode =
    | MalformedCommand | DuplicateCommand | UnknownCommand | HandlerThrew
    | ClockThrew | MalformedEvent | UnknownEvent | DuplicateEvent

  datatype DedupeCounts = DedupeCounts(commandsRetained: nat, eventsRetained: nat, commandsEvicted: nat, eventsEvicted: nat)

  datatype Cursor = Cursor(eventSeq: nat, commandCount: nat, errorCount: nat, auditSeq: nat, dedupe: Option<DedupeCounts>)

  datatype Prepared<E> = Prepared(id: string, etype: string, payload: E, links: Links)

  datatype Event<E> = Event(id: string, etype: string, seqNo: nat, cursor: Cursor, cause: CommandRef, payload: E,
                            timestamp: nat, links: Links)

  datatype Audit = Audit(seqNo: nat, cause: CommandRef, success: bool, eventIds: seq<string>, eventTypes: seq<string>,
                         error: Option<ErrorCode>, cursor: Cursor)

  datatype Fact<E> =
    | EventFact(event: Event<E>)
    | ErrorFact(code: ErrorCode, cause: CommandRef, cursor: Cursor)
    | StatusFact(accepted: bool, cause: CommandRef, eventCount: nat, error: Option<ErrorCode>, cursor: Cursor)
    | AuditFact(audit: Audit)
    | CursorFact(cursor: Cursor)

  // ---- windows ----

  /** Each id is absent from the window in force when it was admitted. */
  ghost predicate RecursApart(ids: seq<string>, window: Option<nat>) {
    ids == []
    || (ids[|ids| - 1] !in Tail(ids[..|ids| - 1], window) && RecursApart(ids[..|ids| - 1], window))
  }

  lemma TailHolds(ids: seq<string>, window: Option<nat>)
    ensures forall k :: Overflow(|ids|, window) <= k < |ids| ==> ids[k] in Tail(ids, window)
  {
    var cut := Overflow(|ids|, window);
    assert forall k :: cut <= k < |ids| ==> Tail(ids, window)[k - cut] == ids[k];
  }

  /** So an id comes back only more than a window later, and never when the window is unbounded. */
  lemma {:induction false} RecursOnlyPastWindow(ids: seq<string>, window: Option<nat>, i: nat, j: nat)
    requires RecursApart(ids, window) && i < j < |ids| && ids[i] == ids[j]
    ensures window.Some? && j - i > window.value
  {
    var init := ids[..|ids| - 1];
    if j < |ids| - 1 {
      RecursOnlyPastWindow(init, window, i, j);
    } else {
      TailHolds(init, window);
    }
  }

  lemma OneMoreApart(ids: seq<string>, window: Option<nat>, id: string)
    requires RecursApart(ids, window) && id !in Tail(ids, window)
    ensures RecursApart(ids + [id], window)
  {
    assert (ids + [id])[..|ids|] == ids;
  }

  /** A window after one more id: the last entries of the longer history. */
  lemma TailMoves(ids: seq<string>, window: Option<nat>, id: string)
    ensures Tail(Tail(ids, window) + [id], window) == Tail(ids + [id], window)
    ensures Overflow(|ids|, window) + Overflow(|Tail(ids, window)| + 1, window) == Overflow(|ids| + 1, window)
  {
  }

  // ---- event ids ----

  function GeneratedId(commandId: string, index: nat): string {
    Identity.CompoundTupleKey("cqrs-event", [commandId, Json.IntText(index + 1)])
  }

  /** A generated id tells its command and its place. */
  lemma GeneratedIdInjective(c1: string, i1: nat, c2: string, i2: nat)
    requires GeneratedId(c1, i1) == GeneratedId(c2, i2)
    ensures c1 == c2 && i1 == i2
  {
    var a, b := [c1, Json.IntText(i1 + 1)], [c2, Json.IntText(i2 + 1)];
    Identity.CompoundTupleKeyInjective("cqrs-event", a, b);
    assert a[0] == b[0] && a[1] == b[1];
    JsonRoundTrip.IntTextValue(i1 + 1);
    JsonRoundTrip.IntTextValue(i2 + 1);
  }

  function EventId<E>(commandId: string, drafts: seq<Draft<E>>, i: nat): string
    requires i < |drafts|
  {
    if drafts[i].id.Some? && drafts[i].id.value != "" then drafts[i].id.value else GeneratedId(commandId, i)
  }

  /** What is wrong with the `i`-th draft, given the ids in the window. */
  function Fault<E>(commandId: string, drafts: seq<Draft<E>>, seen: seq<string>, known: Option<set<string>>, i: nat): Option<ErrorCode>
    requires i < |drafts|
  {
    if drafts[i].etype == "" then Some(MalformedEvent)
    else if known.Some? && drafts[i].etype !in known.value then Some(UnknownEvent)
    else
      var id := EventId(commandId, drafts, i);
      if id in seen || exists j | 0 <= j < i :: EventId(commandId, drafts, j) == id then Some(DuplicateEvent) else None
  }

  /** The first fault from draft `i` on. */
  function FirstFault<E>(commandId: string, drafts: seq<Draft<E>>, seen: seq<string>, known: Option<set<string>>,
                         i: nat): Option<ErrorCode>
    requires i <= |drafts|
    decreases |drafts| - i
  {
    if i == |drafts| then None
    else if Fault(commandId, drafts, seen, known, i).Some? then Fault(commandId, drafts, seen, known, i)
    else FirstFault(commandId, drafts, seen, known, i + 1)
  }

  lemma {:induction false} NoFaultIff<E>(commandId: string, drafts: seq<Draft<E>>, seen: seq<string>,
                                         known: Option<set<string>>, i: nat)
    requires i <= |drafts|
    ensures FirstFault(commandId, drafts, seen, known, i).None? <==>
              forall k :: i <= k < |drafts| ==> Fault(commandId, drafts, seen, known, k).None?
    decreases |drafts| - i
  {
    if i < |drafts| { NoFaultIff(commandId, drafts, seen, known, i + 1); }
  }

  /** Its own non-empty id, or one generated from the command and the draft's place, counted from 1. */
  lemma EventIdIs<E>(commandId: string, drafts: seq<Draft<E>>, i: nat)
    requires i < |drafts|
    ensures drafts[i].id.Some? && drafts[i].id.value != "" ==> EventId(commandId, drafts, i) == drafts[i].id.value
    ensures drafts[i].id == None || drafts[i].id == Some("") ==>
              EventId(commandId, drafts, i) == Identity.CompoundTupleKey("cqrs-event", [commandId, Json.IntText(i + 1)])
  {
  }

  /** A type, and a known one, and an id that neither the window nor an earlier draft has. */
  ghost predicate Fine<E>(commandId: string, drafts: seq<Draft<E>>, seen: seq<string>, known: Option<set<string>>, i: nat)
    requires i < |drafts|
  {
    && drafts[i].etype != ""
    && (known.Some? ==> drafts[i].etype in known.value)
    && EventId(commandId, drafts, i) !in seen
    && forall j :: 0 <= j < i ==> EventId(commandId, drafts, j) != EventId(commandId, drafts, i)
  }

  /** The first draft that is not fine gives the error: no type, an unknown type, or an id used before. */
  ghost predicate FaultyAt<E>(commandId: string, drafts: seq<Draft<E>>, seen: seq<string>, known: Option<set<string>>,
                              i: nat, code: ErrorCode)
    requires i < |drafts|
  {
    && (forall k :: 0 <= k < i ==> Fine(commandId, drafts, seen, known, k)) && !Fine(commandId, drafts, seen, known, i)
    && (code == MalformedEvent <==> drafts[i].etype == "")
    && (code == UnknownEvent <==> drafts[i].etype != "" && known.Some? && drafts[i].etype !in known.value)
    && code in {MalformedEvent, UnknownEvent, DuplicateEvent}
  }

  ghost predicate SomeFaulty<E>(commandId: string, drafts: seq<Draft<E>>, seen: seq<string>, known: Option<set<string>>,
                                code: ErrorCode)
  {
    exists i :: 0 <= i < |drafts| && FaultyAt(commandId, drafts, seen, known, i, code)
  }

  lemma FaultMeans<E>(commandId: string, drafts: seq<Draft<E>>, seen: seq<string>, known: Option<set<string>>, i: nat)
    requires i < |drafts|
    ensures Fault(commandId, drafts, seen, known, i).None? <==> Fine(commandId, drafts, seen, known, i)
  {
  }

  /** No fault is found exactly when all drafts are fine; otherwise the one of the first that is not. */
  lemma FirstFaultTells<E>(commandId: string, drafts: seq<Draft<E>>, seen: seq<string>, known: Option<set<string>>)
    returns (i: nat)
    ensures FirstFault(commandId, drafts, seen, known, 0).None? <==>
              forall k :: 0 <= k < |drafts| ==> Fine(commandId, drafts, seen, known, k)
    ensures FirstFault(commandId, drafts, seen, known, 0).Some? ==>
              i < |drafts| && FaultyAt(commandId, drafts, seen, known, i, FirstFault(commandId, drafts, seen, known, 0).value)
  {
    NoFaultIff(commandId, drafts, seen, known, 0);
    forall k | 0 <= k < |drafts|
      ensures Fault(commandId, drafts, seen, known, k).None? <==> Fine(commandId, drafts, seen, known, k)
    {
      FaultMeans(commandId, drafts, seen, known, k);
    }
    i := FaultFrom(commandId, drafts, seen, known, 0);
  }

  lemma {:induction false} FaultFrom<E>(commandId: string, drafts: seq<Draft<E>>, seen: seq<string>,
                                        known: Option<set<string>>, from: nat)
    returns (i: nat)
    requires from <= |drafts| && forall k :: 0 <= k < from ==> Fine(commandId, drafts, seen, known, k)
    ensures FirstFault(commandId, drafts, seen, known, from).Some? ==>
              i < |drafts| && FaultyAt(commandId, drafts, seen, known, i, FirstFault(commandId, drafts, seen, known, from).value)
    decreases |drafts| - from
  {
    i := from;
    if from < |drafts| {
      FaultMeans(commandId, drafts, seen, known, from);
      if Fine(commandId, drafts, seen, known, from) { i := FaultFrom(commandId, drafts, seen, known, from + 1); }
    }
  }

  /** Where ids are generated, a new command's events are never duplicates: neither of earlier ones nor of one another. */
  lemma {:induction false} GeneratedNeverDuplicate<E>(commandId: string, drafts: seq<Draft<E>>, seen: seq<string>,
                                                      known: Option<set<string>>, commands: set<string>, i: nat)
    requires commandId !in commands && i <= |drafts|
    requires forall e :: e in seen ==> exists c, n :: c in commands && e == GeneratedId(c, n)
    requires forall k :: 0 <= k < |drafts| ==> drafts[k].id.None? || drafts[k].id.value == ""
    ensures FirstFault(commandId, drafts, seen, known, i) != Some(DuplicateEvent)
    decreases |drafts| - i
  {
    if i < |drafts| {
      var id := EventId(commandId, drafts, i);
      forall j | 0 <= j < i ensures EventId(commandId, drafts, j) != id {
        if EventId(commandId, drafts, j) == id { GeneratedIdInjective(commandId, j, commandId, i); }
      }
      NotGeneratedBefore(commandId, i, seen, commands);
      GeneratedNeverDuplicate(commandId, drafts, seen, known, commands, i + 1);
    }
  }

  lemma NotGeneratedBefore(commandId: string, i: nat, seen: seq<string>, commands: set<string>)
    requires commandId !in commands
    requires forall e :: e in seen ==> exists c, n :: c in commands && e == GeneratedId(c, n)
    ensures GeneratedId(commandId, i) !in seen
  {
    if GeneratedId(commandId, i) in seen {
      var c, n :| c in commands && GeneratedId(commandId, i) == GeneratedId(c, n);
      GeneratedIdInjective(commandId, i, c, n);
    }
  }

  /** Whether the command id is admitted to the window, whatever becomes of the command afterwards. */
  predicate Admitted<C>(command: Command<C>, seen: seq<string>) {
    command.id != "" && command.ctype != "" && command.id !in seen
  }

  /** The error a command meets first, in the order the checks are made. */
  function Verdict<C, E>(command: Command<C>, handlers: map<string, Handler<C, E>>, known: Option<set<string>>,
                         seenCommands: seq<string>, seenEvents: seq<string>, clock: Option<nat>): Option<ErrorCode>
  {
    if command.id == "" || command.ctype == "" then Some(MalformedCommand)
    else if command.id in seenCommands then Some(DuplicateCommand)
    else HandlerVerdict(command, handlers, known, seenEvents, clock)
  }

  function HandlerVerdict<C, E>(command: Command<C>, handlers: map<string, Handler<C, E>>, known: Option<set<string>>,
                                seenEvents: seq<string>, clock: Option<nat>): (code: Option<ErrorCode>)
    ensures code.None? ==> command.ctype in handlers && handlers[command.ctype](command).Drafts? && clock.Some?
  {
    if command.ctype !in handlers then Some(UnknownCommand)
    else
      match handlers[command.ctype](command)
      case Threw => Some(HandlerThrew)
      case Drafts(drafts) => DraftsVerdict(command.id, drafts, seenEvents, known, clock)
  }

  function DraftsVerdict<E>(commandId: string, drafts: seq<Draft<E>>, seenEvents: seq<string>, known: Option<set<string>>,
                            clock: Option<nat>): (code: Option<ErrorCode>)
    ensures code.None? ==> clock.Some?
  {
    var fault := FirstFault(commandId, drafts, seenEvents, known, 0);
    if fault.Some? then fault else if clock.None? then Some(ClockThrew) else None
  }

  /**
   * A command is accepted exactly when it is well-formed and new, its handler returns drafts, all of them are fine
   * and the clock answers; otherwise it fails for the first of these, in this order.
   */
  lemma VerdictTells<C, E>(command: Command<C>, handlers: map<string, Handler<C, E>>, known: Option<set<string>>,
                           seenCommands: seq<string>, seenEvents: seq<string>, clock: Option<nat>)
    ensures var code := Verdict(command, handlers, known, seenCommands, seenEvents, clock);
            var wellFormed := command.id != "" && command.ctype != "";
            var isNew := wellFormed && command.id !in seenCommands;
            var handled := isNew && command.ctype in handlers;
            var returned := handled && handlers[command.ctype](command).Drafts?;
            var fine := returned && forall k :: 0 <= k < |handlers[command.ctype](command).drafts| ==>
                          Fine(command.id, handlers[command.ctype](command).drafts, seenEvents, known, k);
            && (code == None <==> fine && clock.Some?)
            && (code == Some(MalformedCommand) <==> !wellFormed)
            && (code == Some(DuplicateCommand) <==> wellFormed && !isNew)
            && (code == Some(UnknownCommand) <==> isNew && !handled)
            && (code == Some(HandlerThrew) <==> handled && !returned)
            && (code == Some(ClockThrew) <==> fine && clock.None?)
            && (returned && !fine ==>
                  code.Some? && SomeFaulty(command.id, handlers[command.ctype](command).drafts, seenEvents, known, code.value))
  {
    if command.ctype in handlers && handlers[command.ctype](command).Drafts? {
      var i := FirstFaultTells(command.id, handlers[command.ctype](command).drafts, seenEvents, known);
    }
  }

  // ---- the audit trail ----

  /** The event ids named by the records, in order. */
  function AuditedIds(audits: seq<Audit>): seq<string> {
    if audits == [] then [] else AuditedIds(audits[..|audits| - 1]) + audits[|audits| - 1].eventIds
  }

  function FailuresIn(audits: seq<Audit>): nat {
    if audits == [] then 0 else FailuresIn(audits[..|audits| - 1]) + (if audits[|audits| - 1].success then 0 else 1)
  }

  /** One record a command, numbered without a gap; together they name every event once and every error. */
  ghost predicate TrailOk(audits: seq<Audit>, commandCount: nat, errorCount: nat, eventIds: seq<string>) {
    && |audits| == commandCount && FailuresIn(audits) == errorCount && AuditedIds(audits) == eventIds
    && forall i :: 0 <= i < |audits| ==> audits[i].seqNo == i + 1
  }

  lemma TrailGrows(audits: seq<Audit>, commandCount: nat, errorCount: nat, eventIds: seq<string>, a: Audit)
    requires TrailOk(audits, commandCount, errorCount, eventIds) && a.seqNo == |audits| + 1
    ensures TrailOk(audits + [a], commandCount + 1, errorCount + (if a.success then 0 else 1), eventIds + a.eventIds)
  {
    assert (audits + [a])[..|audits|] == audits;
  }
}
