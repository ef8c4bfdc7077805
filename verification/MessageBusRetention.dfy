/**
 * What a topic keeps: exactly the published messages that the age limit and the count limit have allowed at
 * every publish since, no fewer and no more; and what a publish does, accepted or refused.
 */
module MessageBusRetention {
  import opened Prelude
  import opened MessageBusModel
  import opened MessageBusLog
  import opened MessageBusReaders

  // ---- accepting a publish ----

  /** The publish is well-formed and new, and its topic is open or may be created. */
  predicate Publishes<T>(b: Bus<T>, c: Command<T>) {
    && c.Publish? && c.topic != ""
    && (c.commandId.Some? ==> c.commandId.value !in b.seenCommandIds)
    && (c.idempotencyKey.Some? ==> IdempotencyKeyFor(c.topic, c.idempotencyKey.value) !in b.seenIdempotencyKeys)
    && (if c.topic in b.topics then !b.topics[c.topic].closed else b.policy == CreateAsFact)
  }

  function PublishedEnvelope<T>(b: Bus<T>, c: Command<T>, stamp: nat): Envelope<T>
    requires c.Publish?
  {
    Envelope(c.topic, if c.topic in b.topics then b.topics[c.topic].nextSeq else 1, c.payload, c.key, stamp,
             c.commandId, c.idempotencyKey)
  }

  lemma TrimSilent<T>(b: Bus<T>, t: string, now: nat)
    ensures Silent(Trim(b, t, now).1)
  {
    if t in b.topics {
      var topic := b.topics[t];
      var kept := LastN(Fresh(topic.messages, now, b.retention.maxAgeMs), b.retention.maxMessages);
      var head := HeadOf(kept, topic.nextSeq);
      var b1 := b.(topics := b.topics[t := topic.(messages := kept, headSeq := head)]);
      RaiseGapsSilent(b1.(subscriptions := MarkBehind(b1.subscriptions, t, head)),
                      |BehindKeys(b1.subscriptions, t, head)|);
    }
  }

  /** An accepted publish puts out one message, with the content of its command; a refused one none. */
  lemma PublishOutcome<T>(b: Bus<T>, c: Command<T>, stamp: nat, now: nat, t: string)
    requires c.Publish?
    ensures Published(Reduce(b, c, stamp, now).1, t)
            == if Publishes(b, c) && t == c.topic then [PublishedEnvelope(b, c, stamp)] else []
  {
    var events := Reduce(b, c, stamp, now).1;
    if Publishes(b, c) {
      var b0 := Remember(b, c);
      var (b1, created) := if c.topic in b.topics then (b0, []) else DoEnsureTopic(b0, c.topic);
      var (b2, m) := Append(b1, c, stamp);
      var trimmed := Trim(b2, c.topic, now).1;
      TrimSilent(b2, c.topic, now);
      assert events == created + PublishEvents(m) + trimmed;
      SilentPublishesNothing(created, t);
      PublishedAfter(created, m, trimmed, t);
    } else {
      SilentPublishesNothing(events, t);
    }
  }

  // ---- one publish ----

  /** Messages with different numbers are in a tail exactly from its first place on. */
  lemma InTail<T>(p: seq<Envelope<T>>, t: string, clock: nat, h: nat, i: nat)
    requires IsHistory(p, t, clock) && h <= |p| && i < |p|
    ensures p[i] in p[h..] <==> h <= i
  {
    if h <= i { assert p[h..][i - h] == p[i]; }
    if p[i] in p[h..] {
      var j :| 0 <= j < |p[h..]| && p[h..][j] == p[i];
      assert p[h + j].seq_ == h + j + 1;
    }
  }

  lemma HeadOfTail<T>(p: seq<Envelope<T>>, t: string, clock: nat, h: nat)
    requires IsHistory(p, t, clock) && h <= |p|
    ensures HeadOf(p[h..], |p| + 1) == h + 1
  {
  }

  /** The head moves past exactly what the limits do not allow. */
  ghost predicate Moves<T>(head: nat, head': nat, p: seq<Envelope<T>>, now: nat, r: Retention) {
    forall i :: 0 <= i < |p| ==> (i + 1 >= head' <==> i + 1 >= head && Allowed(p, now, r, i))
  }

  function HeadNow<T>(b: Bus<T>, t: string): nat {
    if t in b.topics then b.topics[t].headSeq else 1
  }

  /** A trim keeps of the tail exactly what both limits allow. */
  lemma TrimExact<T>(b: Bus<T>, t: string, now: nat, p: seq<Envelope<T>>)
    requires t in b.topics && Retains(b) && KeepsTail(b.topics[t], p) && IsHistory(p, t, now)
    ensures Moves(HeadNow(b, t), HeadNow(Trim(b, t, now).0, t), p, now, b.retention)
  {
    var topic := b.topics[t];
    var h := topic.headSeq - 1;
    assert topic.messages == p[h..];
    assert forall i :: 0 <= i < |topic.messages| ==> topic.messages[i] == p[h + i];
    var k := KeptIsSuffix(topic.messages, now, b.retention);
    DropTwice(p, h, k);
    HeadOfTail(p, t, now, h + k);
    TrimHead(b, t, now);
    forall i | 0 <= i < |p| ensures i + 1 >= h + k + 1 <==> i + 1 >= h + 1 && Allowed(p, now, b.retention, i) {
      if i >= h { assert Allowed(topic.messages, now, b.retention, i - h) <==> Allowed(p, now, b.retention, i); }
    }
  }

  lemma TrimHead<T>(b: Bus<T>, t: string, now: nat)
    requires t in b.topics && Retains(b)
    ensures var b', topic := Trim(b, t, now).0, b.topics[t];
            var kept := LastN(Fresh(topic.messages, now, b.retention.maxAgeMs), b.retention.maxMessages);
            t in b'.topics && b'.topics[t] == topic.(messages := kept, headSeq := HeadOf(kept, topic.nextSeq))
  {
    var topic := b.topics[t];
    var kept := LastN(Fresh(topic.messages, now, b.retention.maxAgeMs), b.retention.maxMessages);
    var head := HeadOf(kept, topic.nextSeq);
    var b1 := b.(topics := b.topics[t := topic.(messages := kept, headSeq := head)]);
    RaiseGapsSilent(b1.(subscriptions := MarkBehind(b1.subscriptions, t, head)),
                    |BehindKeys(b1.subscriptions, t, head)|);
  }

  /** The bus that an accepted publish appends to. */
  function Ready<T>(b: Bus<T>, c: Command<T>): Bus<T>
    requires c.Publish?
  {
    if c.topic in b.topics then Remember(b, c) else DoEnsureTopic(Remember(b, c), c.topic).0
  }

  lemma ReadyAgrees<T>(b: Bus<T>, c: Command<T>, stamp: nat, before: seq<Envelope<T>>, clock: nat)
    requires c.Publish? && TopicAgrees(b, before, c.topic, clock)
    ensures var b1 := Ready(b, c);
            && c.topic in b1.topics && TopicAgrees(b1, before, c.topic, clock) && b1.retention == b.retention
            && HeadNow(Append(b1, c, stamp).0, c.topic) == HeadNow(b, c.topic)
            && Append(b1, c, stamp).1 == PublishedEnvelope(b, c, stamp)
            && Append(b1, c, stamp).0.retention == b.retention && c.topic in Append(b1, c, stamp).0.topics
  {
  }

  /** The bus after an accepted publish is the one after its append and its trim. */
  lemma PublishShape<T>(b: Bus<T>, c: Command<T>, stamp: nat, now: nat)
    requires Publishes(b, c)
    ensures c.topic in Ready(b, c).topics
    ensures Reduce(b, c, stamp, now).0 == Trim(Append(Ready(b, c), c, stamp).0, c.topic, now).0
  {
    ReduceShape(b, c, stamp, now);
  }

  /** What a head means for the messages after it. */
  ghost predicate TailFrom<T>(b: Bus<T>, t: string, p: seq<Envelope<T>>, from: nat) {
    forall i :: 0 <= i < |p| ==> (Held(b, t, p[i]) <==> i + 1 >= from)
  }

  ghost predicate Held<T>(b: Bus<T>, t: string, m: Envelope<T>) {
    t in b.topics && m in b.topics[t].messages
  }

  lemma HeldFromHead<T>(b: Bus<T>, t: string, p: seq<Envelope<T>>, clock: nat)
    requires TopicAgrees(b, p, t, clock)
    ensures TailFrom(b, t, p, HeadNow(b, t))
  {
    if t in b.topics {
      forall i | 0 <= i < |p| ensures Held(b, t, p[i]) <==> i + 1 >= HeadNow(b, t) {
        InTail(p, t, clock, b.topics[t].headSeq - 1, i);
      }
    }
  }

  lemma PublishTrims<T>(b: Bus<T>, before: seq<Envelope<T>>, clock: nat, c: Command<T>, stamp: nat, now: nat)
    requires Publishes(b, c) && TopicAgrees(b, before, c.topic, clock) && Retains(b) && clock <= stamp <= now
    ensures Moves(HeadNow(b, c.topic), HeadNow(Reduce(b, c, stamp, now).0, c.topic),
                  before + [PublishedEnvelope(b, c, stamp)], now, b.retention)
  {
    PublishShape(b, c, stamp, now);
    ReadyTrims(b, before, clock, c, stamp, now);
  }

  lemma ReadyTrims<T>(b: Bus<T>, before: seq<Envelope<T>>, clock: nat, c: Command<T>, stamp: nat, now: nat)
    requires c.Publish? && c.topic in Ready(b, c).topics
    requires TopicAgrees(b, before, c.topic, clock) && Retains(b) && clock <= stamp <= now
    ensures Moves(HeadNow(b, c.topic), HeadNow(Trim(Append(Ready(b, c), c, stamp).0, c.topic, now).0, c.topic),
                  before + [PublishedEnvelope(b, c, stamp)], now, b.retention)
  {
    ReadyAgrees(b, c, stamp, before, clock);
    AppendExtends(Ready(b, c), c, stamp, before, clock);
    LaterHistory(before + [PublishedEnvelope(b, c, stamp)], c.topic, stamp, now);
    TrimExact(Append(Ready(b, c), c, stamp).0, c.topic, now, before + [PublishedEnvelope(b, c, stamp)]);
  }

  lemma LaterHistory<T>(p: seq<Envelope<T>>, t: string, clock: nat, now: nat)
    requires IsHistory(p, t, clock) && clock <= now
    ensures IsHistory(p, t, now)
  {
  }

  /**
   * An accepted publish leaves in its topic, of the messages that were there and the new one, exactly those
   * that are no older than the age limit and among the last `maxMessages`.
   */
  lemma PublishKeepsAllowed<T>(b: Bus<T>, events: seq<Event<T>>, clock: nat, c: Command<T>, stamp: nat, now: nat)
    requires LogAgrees(b, events, clock) && Retains(b) && clock <= stamp <= now && Publishes(b, c)
    ensures var (b', more) := Reduce(b, c, stamp, now);
            var t, r := c.topic, b.retention;
            var before, p := Published(events, t), Published(events + more, t);
            && p == before + [PublishedEnvelope(b, c, stamp)]
            && forall i :: 0 <= i < |p| ==>
                 (Held(b', t, p[i]) <==>
                  && (i == |p| - 1 || Held(b, t, p[i]))
                  && (r.maxAgeMs.None? || now - p[i].timestampMs <= r.maxAgeMs.value)
                  && (r.maxMessages.None? || |p| - i <= r.maxMessages.value))
  {
    var t, before := c.topic, Published(events, c.topic);
    var b', more := Reduce(b, c, stamp, now).0, Reduce(b, c, stamp, now).1;
    assert Published(events + more, t) == before + [PublishedEnvelope(b, c, stamp)] by {
      PublishOutcome(b, c, stamp, now, t);
      PublishedAppend(events, more, t);
    }
    assert TopicAgrees(b', before + [PublishedEnvelope(b, c, stamp)], t, now) by {
      AgreesAfter(b, events, clock, c, stamp, now);
    }
    assert TopicAgrees(b, before, t, clock);
    KeepsAllowed(b, before, clock, c, stamp, now);
  }

  lemma AgreesAfter<T>(b: Bus<T>, events: seq<Event<T>>, clock: nat, c: Command<T>, stamp: nat, now: nat)
    requires LogAgrees(b, events, clock) && Retains(b) && clock <= stamp <= now && c.Publish?
    ensures var (b', more) := Reduce(b, c, stamp, now); TopicAgrees(b', Published(events + more, c.topic), c.topic, now)
  {
    ReduceStep(b, events, clock, c, stamp, now);
  }

  lemma KeepsAllowed<T>(b: Bus<T>, before: seq<Envelope<T>>, clock: nat, c: Command<T>, stamp: nat, now: nat)
    requires Publishes(b, c) && TopicAgrees(b, before, c.topic, clock) && Retains(b) && clock <= stamp <= now
    requires TopicAgrees(Reduce(b, c, stamp, now).0, before + [PublishedEnvelope(b, c, stamp)], c.topic, now)
    ensures var b', t, p := Reduce(b, c, stamp, now).0, c.topic, before + [PublishedEnvelope(b, c, stamp)];
            forall i :: 0 <= i < |p| ==>
              (Held(b', t, p[i]) <==> (i == |p| - 1 || Held(b, t, p[i])) && Allowed(p, now, b.retention, i))
  {
    var p := before + [PublishedEnvelope(b, c, stamp)];
    PublishTrims(b, before, clock, c, stamp, now);
    HeldFromHead(b, c.topic, before, clock);
    HeldFromHead(Reduce(b, c, stamp, now).0, c.topic, p, now);
    assert forall i :: 0 <= i < |before| ==> p[i] == before[i];
    assert HeadNow(b, c.topic) <= |p|;
  }

  // ---- everything else ----

  predicate PublishesTo<T>(b: Bus<T>, op: Op<T>, t: string) {
    op.Do? && Publishes(b, op.command) && op.command.topic == t
  }

  /** Nothing but a close of `t` itself changes whether `t` is closed, and only to closed. */
  ghost predicate Untouched<T>(b: Bus<T>, b': Bus<T>, t: string, closes: bool) {
    if t in b.topics then t in b'.topics && b'.topics[t] == b.topics[t].(closed := b.topics[t].closed || closes)
    else t in b'.topics ==> b'.topics[t] == NewTopic()
  }

  predicate Closes<T>(b: Bus<T>, op: Op<T>, t: string) {
    op.Do? && op.command.CloseTopic? && op.command.topic == t && Admits(b, op.command)
  }

  /** An operation that is no accepted publish to `t` publishes nothing to it and leaves its log alone. */
  lemma OthersLeaveTopic<T>(b: Bus<T>, op: Op<T>, t: string)
    requires !PublishesTo(b, op, t)
    ensures Published(Apply(b, op).1, t) == []
    ensures Untouched(b, Apply(b, op).0, t, Closes(b, op, t))
  {
    match op
    case OpenSubscription(_, _, _) => SilentPublishesNothing(Apply(b, op).1, t);
    case Do(c, stamp, now) =>
      ReduceShape(b, c, stamp, now);
      if c.Publish? {
        PublishOutcome(b, c, stamp, now, t);
        RefusedOrElsewhere(b, c, stamp, now, t);
      } else {
        QuietCommand(Remember(b, c), c, stamp, now, t);
        SilentPublishesNothing(Apply(b, op).1, t);
      }
  }

  lemma QuietCommand<T>(b: Bus<T>, c: Command<T>, stamp: nat, now: nat, t: string)
    requires !c.Publish?
    ensures Silent(Dispatch(b, c, stamp, now).1)
    ensures Untouched(b, Dispatch(b, c, stamp, now).0, t, c.CloseTopic? && c.topic == t)
  {
  }

  lemma RefusedOrElsewhere<T>(b: Bus<T>, c: Command<T>, stamp: nat, now: nat, t: string)
    requires c.Publish? && !(Publishes(b, c) && c.topic == t)
    ensures Untouched(b, Reduce(b, c, stamp, now).0, t, false)
  {
    if Publishes(b, c) {
      PublishShape(b, c, stamp, now);
      var b2 := Append(Ready(b, c), c, stamp).0;
      assert Untouched(b, b2, t, false);
      TrimLeavesOthers(b2, c.topic, now, t);
    }
  }

  lemma TrimLeavesOthers<T>(b: Bus<T>, trimmed: string, now: nat, t: string)
    requires t != trimmed
    ensures t in b.topics <==> t in Trim(b, trimmed, now).0.topics
    ensures t in b.topics ==> Trim(b, trimmed, now).0.topics[t] == b.topics[t]
  {
    if trimmed in b.topics {
      var topic := b.topics[trimmed];
      var kept := LastN(Fresh(topic.messages, now, b.retention.maxAgeMs), b.retention.maxMessages);
      var head := HeadOf(kept, topic.nextSeq);
      var b1 := b.(topics := b.topics[trimmed := topic.(messages := kept, headSeq := head)]);
      RaiseGapsSilent(b1.(subscriptions := MarkBehind(b1.subscriptions, trimmed, head)),
                      |BehindKeys(b1.subscriptions, trimmed, head)|);
    }
  }

  // ---- whole runs ----

  /** Every accepted publish to `t`, from that of message `i` on, has allowed it. */
  ghost predicate AllowedThroughout<T>(b: Bus<T>, ops: seq<Op<T>>, t: string, i: nat) {
    ops == [] ||
    (var before, op := ops[..|ops| - 1], ops[|ops| - 1];
     var p := Published(Run(b, ops).1, t);
     && AllowedThroughout(b, before, t, i)
     && (PublishesTo(Run(b, before).0, op, t) && i < |p| ==>
           && (b.retention.maxAgeMs.None? || op.now - p[i].timestampMs <= b.retention.maxAgeMs.value)
           && (b.retention.maxMessages.None? || |p| - i <= b.retention.maxMessages.value)))
  }

  lemma PublishedStep<T>(b: Bus<T>, ops: seq<Op<T>>, t: string)
    requires ops != []
    ensures var (b1, events) := Run(b, ops[..|ops| - 1]);
            var op := ops[|ops| - 1];
            && (!PublishesTo(b1, op, t) ==> Published(Run(b, ops).1, t) == Published(events, t))
            && (PublishesTo(b1, op, t) ==>
                  Published(Run(b, ops).1, t) == Published(events, t) + [PublishedEnvelope(b1, op.command, op.stamp)])
  {
    var (b1, events) := Run(b, ops[..|ops| - 1]);
    var op := ops[|ops| - 1];
    PublishedAppend(events, Apply(b1, op).1, t);
    if PublishesTo(b1, op, t) { PublishOutcome(b1, op.command, op.stamp, op.now, t); } else { OthersLeaveTopic(b1, op, t); }
  }

  /** A message not published yet has met no limit. */
  lemma {:induction false} NotYetPublished<T>(b: Bus<T>, ops: seq<Op<T>>, t: string, i: nat)
    requires i >= |Published(Run(b, ops).1, t)|
    ensures AllowedThroughout(b, ops, t, i)
  {
    if ops != [] {
      PublishedStep(b, ops, t);
      NotYetPublished(b, ops[..|ops| - 1], t, i);
    }
  }

  /** In every reachable state a topic holds exactly the messages that its limits have allowed all along. */
  lemma {:induction false} RetainedIffAllowed<T>(b: Bus<T>, ops: seq<Op<T>>, t: string, i: nat)
    requires LogAgrees(b, [], 0) && Retains(b) && ClockMonotone(ops) && i < |Published(Run(b, ops).1, t)|
    ensures Held(Run(b, ops).0, t, Published(Run(b, ops).1, t)[i]) <==> AllowedThroughout(b, ops, t, i)
  {
    if ops != [] {
      var before, op := ops[..|ops| - 1], ops[|ops| - 1];
      var (b1, events) := Run(b, before);
      RunAgrees(b, before);
      PublishedStep(b, ops, t);
      if i < |Published(events, t)| { RetainedIffAllowed(b, before, t, i); } else { NotYetPublished(b, before, t, i); }
      if PublishesTo(b1, op, t) {
        PublishKeepsAllowed(b1, events, LastReading(before), op.command, op.stamp, op.now);
        PublishedAppend(events, Apply(b1, op).1, t);
      } else {
        OthersLeaveTopic(b1, op, t);
      }
    }
  }

  ghost predicate Bounded<T>(b: Bus<T>, n: nat) {
    forall t :: t in b.topics ==> |b.topics[t].messages| <= n
  }

  /** No topic ever holds more than `maxMessages`. */
  lemma {:induction false} CountBounded<T>(b: Bus<T>, ops: seq<Op<T>>)
    requires LogAgrees(b, [], 0) && Retains(b) && ClockMonotone(ops)
    requires b.retention.maxMessages.Some? && Bounded(b, b.retention.maxMessages.value)
    ensures Bounded(Run(b, ops).0, b.retention.maxMessages.value)
  {
    if ops != [] {
      var before, op := ops[..|ops| - 1], ops[|ops| - 1];
      var (b1, events) := Run(b, before);
      CountBounded(b, before);
      RunAgrees(b, before);
      forall t | t in Apply(b1, op).0.topics ensures |Apply(b1, op).0.topics[t].messages| <= b.retention.maxMessages.value {
        if PublishesTo(b1, op, t) {
          AgreesAfter(b1, events, LastReading(before), op.command, op.stamp, op.now);
          PublishKeepsAllowed(b1, events, LastReading(before), op.command, op.stamp, op.now);
          FirstHeldBounds(Apply(b1, op).0, Published(events + Apply(b1, op).1, t), t, op.now, b.retention.maxMessages.value);
        } else {
          OthersLeaveTopic(b1, op, t);
        }
      }
    }
  }

  lemma FirstHeldBounds<T>(b: Bus<T>, p: seq<Envelope<T>>, t: string, clock: nat, n: nat)
    requires TopicAgrees(b, p, t, clock) && t in b.topics
    requires forall i :: 0 <= i < |p| && Held(b, t, p[i]) ==> |p| - i <= n
    ensures |b.topics[t].messages| <= n
  {
    var h := b.topics[t].headSeq - 1;
    if h < |p| { InTail(p, t, clock, h, h); }
  }

  /** A closed topic stays closed and takes no further message. */
  lemma {:induction false} ClosedForGood<T>(b: Bus<T>, ops: seq<Op<T>>, n: nat, t: string)
    requires n <= |ops|
    requires var b1 := Run(b, ops[..n]).0; t in b1.topics && b1.topics[t].closed
    ensures var b1, b2 := Run(b, ops[..n]), Run(b, ops);
            t in b2.0.topics && b2.0.topics[t] == b1.0.topics[t] && Published(b2.1, t) == Published(b1.1, t)
    decreases |ops|
  {
    if n == |ops| {
      assert ops[..n] == ops;
    } else {
      var before := ops[..|ops| - 1];
      assert before[..n] == ops[..n];
      ClosedForGood(b, before, n, t);
      PublishedStep(b, ops, t);
      OthersLeaveTopic(Run(b, before).0, ops[|ops| - 1], t);
    }
  }

  /** A topic is closed exactly by an admitted close. */
  lemma ClosedIff<T>(b: Bus<T>, op: Op<T>, t: string)
    requires t in b.topics
    ensures t in Apply(b, op).0.topics
    ensures Apply(b, op).0.topics[t].closed <==> b.topics[t].closed || Closes(b, op, t)
  {
    if PublishesTo(b, op, t) {
      PublishShape(b, op.command, op.stamp, op.now);
      TrimKeepsOpen(Append(Ready(b, op.command), op.command, op.stamp).0, t, op.now);
    } else {
      OthersLeaveTopic(b, op, t);
    }
  }

  lemma TrimKeepsOpen<T>(b: Bus<T>, t: string, now: nat)
    requires t in b.topics
    ensures t in Trim(b, t, now).0.topics && Trim(b, t, now).0.topics[t].closed == b.topics[t].closed
  {
    if Retains(b) { TrimHead(b, t, now); }
  }

  // ---- a count limit of 0 ----

  /** It is no limit: only the age limit applies, the head stays, and every publish raises one issue. */
  lemma ZeroCountLimit<T>(b: Bus<T>, t: string, now: nat, m: Envelope<T>)
    requires t in b.topics && !Retains(b)
    ensures var (b', events) := Trim(b, t, now);
            && events == [Issue(PolicyRejected, None)] && |b'.deadLetters| == |b.deadLetters| + 1
            && t in b'.topics && b'.topics[t].headSeq == b.topics[t].headSeq
            && (m in b'.topics[t].messages <==>
                  m in b.topics[t].messages
                  && (b.retention.maxAgeMs.None? || now - m.timestampMs <= b.retention.maxAgeMs.value))
  {
    FreshMembers(b.topics[t].messages, now, b.retention.maxAgeMs, m);
  }

  lemma {:induction false} FreshMembers<T>(ms: seq<Envelope<T>>, now: nat, maxAge: Option<nat>, m: Envelope<T>)
    ensures m in Fresh(ms, now, maxAge) <==> m in ms && (maxAge.None? || now - m.timestampMs <= maxAge.value)
  {
    if maxAge.Some? && ms != [] { FreshMembers(ms[..|ms| - 1], now, maxAge, m); }
  }
}
