/**
 * What each command that publishes nothing does: exactly when it is accepted, what then changes, and which
 * issue it raises otherwise; and where a new subscription starts.
 */
module MessageBusOutcomes {
  import opened Prelude
  import opened MessageBusModel
  import opened MessageBusLog
  import opened MessageBusReaders
  import opened MessageBusRetention

  function Named<T>(c: Command<T>): Option<string> {
    if c.SetPolicy? then None else Some(c.topic)
  }

  /** Every name that the command carries is non-empty. */
  predicate NamesAll<T>(c: Command<T>) {
    && (c.SetPolicy? || c.topic != "")
    && (c.Ack? || c.Seek? || c.CloseSubscription? ==> c.subscriptionId != "")
  }

  predicate Repeats<T>(b: Bus<T>, c: Command<T>) {
    || (c.commandId.Some? && c.commandId.value in b.seenCommandIds)
    || (c.Publish? && c.idempotencyKey.Some? && IdempotencyKeyFor(c.topic, c.idempotencyKey.value) in b.seenIdempotencyKeys)
  }

  /** The state once the command's id is noted. */
  function Noted<T>(b: Bus<T>, c: Command<T>): Bus<T> {
    b.(seenCommandIds := b.seenCommandIds + if c.commandId.Some? then {c.commandId.value} else {})
  }

  /** Nothing changes but for one dead letter, and one issue goes out. */
  ghost predicate Refused<T>(b: Bus<T>, out: Outcome<T>, topic: Option<string>, command: Option<Command<T>>, code: IssueCode) {
    && out.1 == [Issue(code, topic)]
    && out.0 == b.(deadLetters := b.deadLetters + [DeadLetter(|b.deadLetters| + 1, topic, command, code)])
  }

  // ---- at the entry ----

  lemma MalformedIsRefused<T>(b: Bus<T>, c: Command<T>, stamp: nat, now: nat)
    requires !NamesAll(c)
    ensures Refused(b, Reduce(b, c, stamp, now), Named(c), Some(c), MalformedCommand)
  {
  }

  /** A repeat changes nothing but what is noted, and is reported as the policy says. */
  lemma RepeatIsReported<T>(b: Bus<T>, c: Command<T>, stamp: nat, now: nat)
    requires NamesAll(c) && Repeats(b, c)
    ensures if b.dedupe == ReportIssue then Refused(Noted(b, c), Reduce(b, c, stamp, now), Named(c), Some(c), DuplicateCommandIssue)
            else Reduce(b, c, stamp, now) == (Noted(b, c), [Status(DuplicateCommand, Named(c), None)])
  {
    assert c.commandId.Some? && c.commandId.value in b.seenCommandIds ==> Noted(b, c).seenCommandIds == b.seenCommandIds;
    assert c.commandId.None? ==> Noted(b, c).seenCommandIds == b.seenCommandIds;
  }

  lemma NotedIsRemembered<T>(b: Bus<T>, c: Command<T>)
    ensures Remember(b, c) == Noted(b, c)
  {
    assert c.commandId.None? ==> Noted(b, c).seenCommandIds == b.seenCommandIds;
  }

  // ---- topics and policy ----

  /** A new topic is open, empty and numbered from 1; an existing one stays as it is. */
  lemma EnsureTopicOutcome<T>(b: Bus<T>, c: Command<T>, stamp: nat, now: nat)
    requires c.EnsureTopic? && NamesAll(c) && !Repeats(b, c)
    ensures var (b', events) := Reduce(b, c, stamp, now);
            && events == [Status(TopicCreated, Some(c.topic), None)]
            && b' == Noted(b, c).(topics := b'.topics) && b'.topics.Keys == b.topics.Keys + {c.topic}
            && (forall t :: t in b.topics ==> b'.topics[t] == b.topics[t])
            && (c.topic !in b.topics ==> b'.topics[c.topic] == Topic(false, 1, 1, []))
  {
    NotedIsRemembered(b, c);
  }

  lemma CloseTopicOutcome<T>(b: Bus<T>, c: Command<T>, stamp: nat, now: nat)
    requires c.CloseTopic? && NamesAll(c) && !Repeats(b, c)
    ensures var (b', events) := Reduce(b, c, stamp, now);
            if c.topic !in b.topics then Refused(Noted(b, c), (b', events), Some(c.topic), Some(c), UnknownTopic)
            else && events == [Status(TopicClosed, Some(c.topic), None)]
                 && b' == Noted(b, c).(topics := b.topics[c.topic := b.topics[c.topic].(closed := true)])
  {
    NotedIsRemembered(b, c);
  }

  /** The policy decides from then on whether publishing creates topics. */
  lemma SetPolicyOutcome<T>(b: Bus<T>, c: Command<T>, stamp: nat, now: nat)
    requires c.SetPolicy? && NamesAll(c) && !Repeats(b, c)
    ensures Reduce(b, c, stamp, now) == (Noted(b, c).(policy := c.policy), [])
  {
    NotedIsRemembered(b, c);
  }

  /** A publish that is not accepted: the issue tells an unknown from a closed topic. */
  lemma PublishRefusal<T>(b: Bus<T>, c: Command<T>, stamp: nat, now: nat)
    requires c.Publish? && NamesAll(c) && !Repeats(b, c) && !Publishes(b, c)
    ensures Refused(Noted(b, c), Reduce(b, c, stamp, now), Some(c.topic), Some(c),
                    if c.topic in b.topics then ClosedTopic else UnknownTopic)
  {
    NotedIsRemembered(b, c);
  }

  function Gaps<T>(n: nat): (out: seq<Event<T>>)
    ensures |out| == n && forall i :: 0 <= i < n ==> out[i] == Issue(RetentionGap, None)
  {
    seq(n, _ => Issue(RetentionGap, None))
  }

  lemma {:induction false} RaiseGapsExact<T>(b: Bus<T>, n: nat)
    ensures RaiseGaps(b, n).1 == Gaps(n)
    ensures RaiseGaps(b, n).0 == b.(deadLetters := RaiseGaps(b, n).0.deadLetters)
  {
    if n > 0 { RaiseGapsExact(b, n - 1); }
  }

  /** A trim that moves the head says so and flags exactly the open cursors it passed, one issue each. */
  lemma TrimEffects<T>(b: Bus<T>, t: string, now: nat)
    requires t in b.topics && Retains(b)
    ensures var (b', events) := Trim(b, t, now);
            var head := HeadNow(b', t);
            var passed := set k | k in b.subscriptions && head != HeadNow(b, t) && !b.subscriptions[k].closed
                                  && b.subscriptions[k].topic == t && b.subscriptions[k].nextSeq < head
                                  && !b.subscriptions[k].retentionGap;
            && b' == b.(topics := b'.topics, subscriptions := b'.subscriptions, deadLetters := b'.deadLetters)
            && b'.subscriptions.Keys == b.subscriptions.Keys
            && (forall k :: k in b.subscriptions ==>
                  b'.subscriptions[k] == b.subscriptions[k].(retentionGap := b.subscriptions[k].retentionGap || k in passed))
            && events == if head == HeadNow(b, t) then [] else [Status(RetentionTrimmed, Some(t), Some(head))] + Gaps(|passed|)
  {
    var topic := b.topics[t];
    var kept := LastN(Fresh(topic.messages, now, b.retention.maxAgeMs), b.retention.maxMessages);
    var head := HeadOf(kept, topic.nextSeq);
    var b1 := b.(topics := b.topics[t := topic.(messages := kept, headSeq := head)]);
    RaiseGapsExact(b1.(subscriptions := MarkBehind(b1.subscriptions, t, head)), |BehindKeys(b1.subscriptions, t, head)|);
    TrimHead(b, t, now);
    if head != topic.headSeq {
      assert BehindKeys(b1.subscriptions, t, head)
             == set k | k in b.subscriptions && head != HeadNow(b, t) && !b.subscriptions[k].closed
                        && b.subscriptions[k].topic == t && b.subscriptions[k].nextSeq < head && !b.subscriptions[k].retentionGap;
    }
  }

  /** An accepted publish notes its command and its key, and its events are these, in order. */
  lemma PublishEffects<T>(b: Bus<T>, c: Command<T>, stamp: nat, now: nat)
    requires Publishes(b, c)
    ensures var b2 := Append(Ready(b, c), c, stamp).0;
            c.topic in b2.topics
            && b2 == Noted(b, c).(topics := b2.topics,
                                  seenIdempotencyKeys := b.seenIdempotencyKeys
                                    + if c.idempotencyKey.Some? then {IdempotencyKeyFor(c.topic, c.idempotencyKey.value)} else {})
            && var m := PublishedEnvelope(b, c, stamp);
            Reduce(b, c, stamp, now)
            == (Trim(b2, c.topic, now).0,
                (if c.topic in b.topics then [] else [Status(TopicCreated, Some(c.topic), None)])
                + [Message(m), Status(MessagePublished, Some(c.topic), Some(m.seq_))] + Trim(b2, c.topic, now).1)
  {
    NotedIsRemembered(b, c);
  }

  // ---- cursors ----

  /** The subscription the command names is known and open. */
  predicate Attached<T>(b: Bus<T>, c: Command<T>)
    requires c.Ack? || c.Seek? || c.CloseSubscription?
  {
    c.topic in b.topics && SubscriptionKey(c.topic, c.subscriptionId) in b.subscriptions
    && !b.subscriptions[SubscriptionKey(c.topic, c.subscriptionId)].closed
  }

  /** Why a cursor command cannot find its open subscription. */
  function Detachment<T>(b: Bus<T>, c: Command<T>): IssueCode
    requires (c.Ack? || c.Seek? || c.CloseSubscription?) && !Attached(b, c)
  {
    if c.topic !in b.topics then UnknownTopic
    else if SubscriptionKey(c.topic, c.subscriptionId) !in b.subscriptions then UnknownSubscription
    else SubscriptionIsClosed
  }

  /** The one subscription becomes `s`, and nothing else changes. */
  ghost predicate Moved<T>(b: Bus<T>, out: Outcome<T>, c: Command<T>, s: Subscription, kind: StatusKind)
    requires c.Ack? || c.Seek? || c.CloseSubscription?
  {
    && out.0 == b.(subscriptions := b.subscriptions[SubscriptionKey(c.topic, c.subscriptionId) := s])
    && out.1 == [Status(kind, Some(c.topic), Some(s.nextSeq))]
  }

  /** An ack is accepted exactly from the cursor up to the tail, on an unflagged open subscription. */
  lemma AckOutcome<T>(b: Bus<T>, c: Command<T>, stamp: nat, now: nat)
    requires c.Ack? && NamesAll(c) && !Repeats(b, c)
    ensures var out, b0 := Reduce(b, c, stamp, now), Noted(b, c);
            if !Attached(b, c) then Refused<T>(b0, out, None, None, Detachment(b, c))
            else
              var s := b.subscriptions[SubscriptionKey(c.topic, c.subscriptionId)];
              && (!s.retentionGap && s.nextSeq <= c.seq_ < b.topics[c.topic].nextSeq ==>
                    Moved(b0, out, c, s.(nextSeq := c.seq_ + 1), SubscriptionAcked))
              && (s.retentionGap ==> Refused<T>(b0, out, None, None, RetentionGap))
              && (!s.retentionGap && c.seq_ < s.nextSeq ==> Refused<T>(b0, out, None, None, SourceCursorStale))
              && (!s.retentionGap && c.seq_ >= s.nextSeq && c.seq_ >= b.topics[c.topic].nextSeq ==>
                    Refused<T>(b0, out, None, None, CursorOutOfRange))
  {
    NotedIsRemembered(b, c);
  }

  /** A seek is accepted exactly into the retained range, and clears the flag. */
  lemma SeekOutcome<T>(b: Bus<T>, c: Command<T>, stamp: nat, now: nat)
    requires c.Seek? && NamesAll(c) && !Repeats(b, c)
    ensures var out, b0 := Reduce(b, c, stamp, now), Noted(b, c);
            if !Attached(b, c) then Refused<T>(b0, out, None, None, Detachment(b, c))
            else
              var s := b.subscriptions[SubscriptionKey(c.topic, c.subscriptionId)];
              var topic := b.topics[c.topic];
              && (topic.headSeq <= c.nextSeq <= topic.nextSeq ==>
                    Moved(b0, out, c, s.(nextSeq := c.nextSeq, retentionGap := false), SubscriptionSought))
              && (c.nextSeq < topic.headSeq ==> Refused<T>(b0, out, None, None, RetentionGap))
              && (c.nextSeq >= topic.headSeq && c.nextSeq > topic.nextSeq ==> Refused<T>(b0, out, None, None, CursorOutOfRange))
  {
    NotedIsRemembered(b, c);
  }

  /** A close is accepted for any known subscription, closed or not, and keeps its cursor. */
  lemma CloseSubscriptionOutcome<T>(b: Bus<T>, c: Command<T>, stamp: nat, now: nat)
    requires c.CloseSubscription? && NamesAll(c) && !Repeats(b, c)
    ensures var out, b0, k := Reduce(b, c, stamp, now), Noted(b, c), SubscriptionKey(c.topic, c.subscriptionId);
            if c.topic in b.topics && k in b.subscriptions
            then Moved(b0, out, c, b.subscriptions[k].(closed := true), SubscriptionClosed)
            else Refused<T>(b0, out, None, None, if c.topic in b.topics then UnknownSubscription else UnknownTopic)
  {
    NotedIsRemembered(b, c);
  }

  // ---- opening ----

  /** The place asked for. */
  ghost predicate AskedFor<T>(b: Bus<T>, t: string, from: From, start: nat) {
    match from
    case AtSeq(s) => start == s
    case Earliest => start == if t in b.topics then b.topics[t].headSeq else 1
    case Latest => start == if t in b.topics then b.topics[t].nextSeq else 1
  }

  /**
   * A new subscription is open and unflagged and starts where asked, unless its topic exists and does not
   * reach there; then it starts at the head, with an issue and a dead letter.
   */
  lemma OpenOutcome<T>(b: Bus<T>, t: string, id: string, from: From, start: nat)
    requires SubscriptionKey(t, id) !in b.subscriptions && AskedFor(b, t, from, start)
    ensures var (b', events) := Open(b, t, id, from);
            var outside := t in b.topics && (start < b.topics[t].headSeq || start > b.topics[t].nextSeq);
            var at := if outside then b.topics[t].headSeq else start;
            && b' == b.(subscriptions := b.subscriptions[SubscriptionKey(t, id) := Subscription(t, id, at, false, false)],
                        deadLetters := b'.deadLetters)
            && events == [Status(SubscriptionOpened, Some(t), Some(at))]
                         + (if outside then [Issue(CursorOutOfRange, Some(t))] else [])
            && b'.deadLetters == b.deadLetters + (if outside then [DeadLetter(|b.deadLetters| + 1, Some(t), None, CursorOutOfRange)]
                                                  else [])
  {
  }

  /** An existing subscription is left as it is. */
  lemma OpenAgain<T>(b: Bus<T>, t: string, id: string, from: From)
    requires SubscriptionKey(t, id) in b.subscriptions
    ensures Open(b, t, id, from) == (b, [])
  {
  }

  // ---- pages ----

  /** The frame of a page: where it starts, its size, where it ends and where the next one goes on. */
  ghost predicate Framed<T>(page: Page<T>, start: nat, limit: nat) {
    && page.fromSeq == start && |page.messages| <= limit && (page.hasMore ==> |page.messages| == limit)
    && (forall m :: m in page.messages ==> m.seq_ >= start)
    && page.throughSeq == (if page.messages == [] then None else Some(page.messages[|page.messages| - 1].seq_))
    && page.nextAfterSeq == (if page.hasMore then page.throughSeq else None)
  }

  lemma {:induction false} SinceMembers<T>(ms: seq<Envelope<T>>, start: nat, m: Envelope<T>)
    ensures m in Since(ms, start) <==> m in ms && m.seq_ >= start
  {
    if ms != [] { SinceMembers(ms[..|ms| - 1], start, m); }
  }

  lemma CutFramed<T>(ms: seq<Envelope<T>>, start: nat, limit: nat)
    requires limit > 0
    ensures Framed(PageOf(Since(ms, start), start, limit), start, limit)
  {
    var page := PageOf(Since(ms, start), start, limit);
    forall m | m in page.messages ensures m.seq_ >= start { SinceMembers(ms, start, m); }
  }

  /** A topic page starts after the number given, or at the head. */
  lemma TopicPageFramed<T>(b: Bus<T>, t: string, after: Option<nat>, limit: nat)
    requires limit > 0
    ensures Framed(TopicPage(b, t, after, limit), if after.Some? then after.value + 1 else HeadNow(b, t), limit)
  {
    if t in b.topics {
      CutFramed(b.topics[t].messages, if after.Some? then after.value + 1 else HeadNow(b, t), limit);
    }
  }

  /** A subscription's page starts after the number given, or at its cursor. */
  lemma AvailablePageFramed<T>(b: Bus<T>, key: string, after: Option<nat>, limit: nat)
    requires limit > 0 && key in b.subscriptions
    ensures Framed(AvailablePage(b, key, after, limit),
                   if after.Some? then after.value + 1 else b.subscriptions[key].nextSeq, limit)
  {
    var s := b.subscriptions[key];
    if s.topic in b.topics {
      CutFramed(b.topics[s.topic].messages, if after.Some? then after.value + 1 else s.nextSeq, limit);
    }
  }
}
