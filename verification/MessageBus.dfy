/** The bus as messaging.rs runs it: reducers that update one mutable state, each proved against the model. */
module MessageBus {
  import opened Prelude
  import opened MessageBusModel

  /** `MarkBehind` as far as a loop has got that still has `left` to visit. */
  ghost function MarkedOutside(subs: map<string, Subscription>, left: set<string>, t: string, head: nat)
    : map<string, Subscription>
  {
    map k | k in subs :: if k !in left && FallsBehind(subs[k], t, head) then subs[k].(retentionGap := true) else subs[k]
  }

  ghost function BehindOutside(subs: map<string, Subscription>, left: set<string>, t: string, head: nat): set<string> {
    set k | k in subs && k !in left && FallsBehind(subs[k], t, head)
  }

  lemma OneMoreMarked(subs: map<string, Subscription>, left: set<string>, k: string, t: string, head: nat)
    requires k in left && k in subs
    ensures MarkedOutside(subs, left, t, head)[k] == subs[k]
    ensures FallsBehind(subs[k], t, head) ==>
              MarkedOutside(subs, left - {k}, t, head)
              == MarkedOutside(subs, left, t, head)[k := subs[k].(retentionGap := true)]
    ensures FallsBehind(subs[k], t, head) ==>
              |BehindOutside(subs, left - {k}, t, head)| == |BehindOutside(subs, left, t, head)| + 1
    ensures !FallsBehind(subs[k], t, head) ==>
              MarkedOutside(subs, left - {k}, t, head) == MarkedOutside(subs, left, t, head)
              && BehindOutside(subs, left - {k}, t, head) == BehindOutside(subs, left, t, head)
  {
    if FallsBehind(subs[k], t, head) {
      assert BehindOutside(subs, left - {k}, t, head) == BehindOutside(subs, left, t, head) + {k};
    }
  }

  class MessageBusState<T> {
    const retention: Retention
    const dedupe: DedupeAction
    var topicPolicy: TopicPolicy
    var topics: map<string, Topic<T>>
    var subscriptions: map<string, Subscription>
    var seenCommandIds: set<string>
    var seenIdempotencyKeys: set<string>
    var deadLetters: seq<DeadLetter<T>>
    var deadLetterSeq: nat

    /** The dead-letter counter numbers the entries from 1 without a hole. */
    ghost predicate Valid()
      reads this
    {
      deadLetterSeq == |deadLetters| && forall i :: 0 <= i < |deadLetters| ==> deadLetters[i].entrySeq == i + 1
    }

    ghost function View(): Bus<T>
      reads this
    {
      Bus(topicPolicy, retention, dedupe, topics, subscriptions, seenCommandIds, seenIdempotencyKeys, deadLetters)
    }

    constructor (names: set<string>, policy: TopicPolicy, retention: Retention, dedupe: DedupeAction)
      ensures Valid() && View() == Initial(names, policy, retention, dedupe)
    {
      this.retention, this.dedupe, topicPolicy := retention, dedupe, policy;
      topics := map t | t in names :: NewTopic();
      subscriptions, seenCommandIds, seenIdempotencyKeys := map[], {}, {};
      deadLetters, deadLetterSeq := [], 0;
    }

    method IssueEvents(command: Option<Command<T>>, code: IssueCode) returns (events: seq<Event<T>>)
      requires Valid()
      modifies this
      ensures Valid() && (View(), events) == Raise(old(View()), command, code)
    {
      var entry := DeadLetter(deadLetterSeq + 1, TopicOf(command), command, code);
      deadLetterSeq := entry.entrySeq;
      deadLetters := deadLetters + [entry];
      events := [Issue(code, TopicOf(command))];
    }

    method DuplicateCommandEvents(c: Command<T>) returns (events: seq<Event<T>>)
      requires Valid()
      modifies this
      ensures Valid() && (View(), events) == ReportDuplicate(old(View()), c)
    {
      if dedupe == ReportIssue {
        events := IssueEvents(Some(c), DuplicateCommandIssue);
      } else {
        events := [Status(DuplicateCommand, TopicOf(Some(c)), None)];
      }
    }

    method ReduceCommand(c: Command<T>, stamp: nat, now: nat) returns (events: seq<Event<T>>)
      requires Valid()
      modifies this
      ensures Valid() && (View(), events) == Reduce(old(View()), c, stamp, now)
    {
      if !c.WellFormed() {
        events := IssueEvents(Some(c), MalformedCommand);
        return;
      }
      if c.commandId.Some? {
        if c.commandId.value in seenCommandIds {
          events := DuplicateCommandEvents(c);
          return;
        }
        seenCommandIds := seenCommandIds + {c.commandId.value};
      }
      if c.Publish? && c.idempotencyKey.Some?
         && IdempotencyKeyFor(c.topic, c.idempotencyKey.value) in seenIdempotencyKeys {
        events := DuplicateCommandEvents(c);
        return;
      }
      match c {
        case EnsureTopic(t, _) => events := EnsureTopicNamed(t);
        case CloseTopic(t, _) => events := CloseTopicNamed(c);
        case SetPolicy(p, _) =>
          topicPolicy := p;
          events := [];
        case Publish(_, _, _, _, _) => events := PublishMessage(c, stamp, now);
        case Ack(_, _, _, _) => events := AckSubscription(c);
        case Seek(_, _, _, _) => events := SeekSubscription(c);
        case CloseSubscription(_, _, _) => events := CloseSubscriptionNamed(c);
      }
    }

    method EnsureTopicNamed(t: string) returns (events: seq<Event<T>>)
      requires Valid()
      modifies this
      ensures Valid() && (View(), events) == DoEnsureTopic(old(View()), t)
    {
      if t !in topics { topics := topics[t := NewTopic()]; }
      events := [Status(TopicCreated, Some(t), None)];
    }

    method CloseTopicNamed(c: Command<T>) returns (events: seq<Event<T>>)
      requires Valid() && c.CloseTopic?
      modifies this
      ensures Valid() && (View(), events) == Dispatch(old(View()), c, 0, 0)
    {
      if c.topic !in topics {
        events := IssueEvents(Some(c), UnknownTopic);
        return;
      }
      topics := topics[c.topic := topics[c.topic].(closed := true)];
      events := [Status(TopicClosed, Some(c.topic), None)];
    }

    method PublishMessage(c: Command<T>, stamp: nat, now: nat) returns (events: seq<Event<T>>)
      requires Valid() && c.Publish?
      modifies this
      ensures Valid() && (View(), events) == DoPublish(old(View()), c, stamp, now)
    {
      events := [];
      if c.topic !in topics {
        if topicPolicy != CreateAsFact {
          events := IssueEvents(Some(c), UnknownTopic);
          return;
        }
        events := EnsureTopicNamed(c.topic);
      }
      if topics[c.topic].closed {
        events := IssueEvents(Some(c), ClosedTopic);
        return;
      }
      ghost var before := View();
      var topic := topics[c.topic];
      var message := Envelope(c.topic, topic.nextSeq, c.payload, c.key, stamp, c.commandId, c.idempotencyKey);
      topic := topic.(nextSeq := topic.nextSeq + 1);
      if c.idempotencyKey.Some? {
        seenIdempotencyKeys := seenIdempotencyKeys + {IdempotencyKeyFor(c.topic, c.idempotencyKey.value)};
      }
      topics := topics[c.topic := topic.(messages := topic.messages + [message])];
      assert (View(), message) == Append(before, c, stamp);
      events := events + [Message(message), Status(MessagePublished, Some(c.topic), Some(message.seq_))];
      var trimmed := TrimRetention(c.topic, now);
      events := events + trimmed;
    }

    /** Drops messages that are too old, then the oldest beyond the count, and moves the head. */
    method TrimRetention(t: string, now: nat) returns (events: seq<Event<T>>)
      requires Valid() && t in topics
      modifies this
      ensures Valid() && (View(), events) == Trim(old(View()), t, now)
    {
      var topic := topics[t];
      var kept := RetainYoung(topic.messages, now);
      if retention.maxMessages.Some? {
        if retention.maxMessages.value == 0 {
          topics := topics[t := topic.(messages := kept)];
          events := IssueEvents(None, PolicyRejected);
          return;
        }
        if |kept| > retention.maxMessages.value {
          var trimCount := |kept| - retention.maxMessages.value;
          kept := kept[trimCount..];
        }
      }
      var head := HeadOf(kept, topic.nextSeq);
      topics := topics[t := topic.(messages := kept, headSeq := head)];
      if head == topic.headSeq { return []; }
      var affected := FlagBehind(t, head);
      events := IssueGaps(affected);
      events := [Status(RetentionTrimmed, Some(t), Some(head))] + events;
    }

    /** One retention-gap issue for each affected subscription. */
    method IssueGaps(affected: nat) returns (events: seq<Event<T>>)
      requires Valid()
      modifies this
      ensures Valid() && (View(), events) == RaiseGaps(old(View()), affected)
    {
      events := [];
      for i := 0 to affected
        invariant Valid() && (View(), events) == RaiseGaps(old(View()), i)
      {
        var issue := IssueEvents(None, RetentionGap);
        events := events + issue;
      }
    }

    /** `messages.retain(..)`, when there is an age limit. */
    method RetainYoung(ms: seq<Envelope<T>>, now: nat) returns (kept: seq<Envelope<T>>)
      ensures kept == Fresh(ms, now, retention.maxAgeMs)
    {
      if retention.maxAgeMs.None? { return ms; }
      kept := [];
      for i := 0 to |ms|
        invariant kept == Fresh(ms[..i], now, retention.maxAgeMs)
      {
        assert ms[..i + 1][..i] == ms[..i];
        if SaturatingSub(now, ms[i].timestampMs) <= retention.maxAgeMs.value { kept := kept + [ms[i]]; }
      }
      assert ms[..|ms|] == ms;
    }

    /** Flags every open subscription of the topic that the head has passed, and counts them. */
    method FlagBehind(t: string, head: nat) returns (count: nat)
      modifies this`subscriptions
      ensures subscriptions == MarkBehind(old(subscriptions), t, head)
      ensures count == |BehindKeys(old(subscriptions), t, head)|
    {
      count := 0;
      var left := subscriptions.Keys;
      while left != {}
        invariant left <= old(subscriptions).Keys
        invariant subscriptions == MarkedOutside(old(subscriptions), left, t, head)
        invariant count == |BehindOutside(old(subscriptions), left, t, head)|
        decreases left
      {
        var k :| k in left;
        OneMoreMarked(old(subscriptions), left, k, t, head);
        left := left - {k};
        var sub := subscriptions[k];
        if FallsBehind(sub, t, head) {
          subscriptions := subscriptions[k := sub.(retentionGap := true)];
          count := count + 1;
        }
      }
      assert MarkedOutside(old(subscriptions), {}, t, head) == MarkBehind(old(subscriptions), t, head);
      assert BehindOutside(old(subscriptions), {}, t, head) == BehindKeys(old(subscriptions), t, head);
    }

    method AckSubscription(c: Command<T>) returns (events: seq<Event<T>>)
      requires Valid() && c.Ack?
      modifies this
      ensures Valid() && (View(), events) == DoAck(old(View()), c)
    {
      var key := SubscriptionKey(c.topic, c.subscriptionId);
      if c.topic !in topics { events := IssueEvents(None, UnknownTopic); return; }
      if key !in subscriptions { events := IssueEvents(None, UnknownSubscription); return; }
      var sub := subscriptions[key];
      if sub.closed { events := IssueEvents(None, SubscriptionIsClosed); return; }
      if sub.retentionGap { events := IssueEvents(None, RetentionGap); return; }
      if c.seq_ < sub.nextSeq { events := IssueEvents(None, SourceCursorStale); return; }
      if c.seq_ >= topics[c.topic].nextSeq { events := IssueEvents(None, CursorOutOfRange); return; }
      subscriptions := subscriptions[key := sub.(nextSeq := c.seq_ + 1)];
      events := [Status(SubscriptionAcked, Some(c.topic), Some(c.seq_ + 1))];
    }

    method SeekSubscription(c: Command<T>) returns (events: seq<Event<T>>)
      requires Valid() && c.Seek?
      modifies this
      ensures Valid() && (View(), events) == DoSeek(old(View()), c)
    {
      var key := SubscriptionKey(c.topic, c.subscriptionId);
      if c.topic !in topics { events := IssueEvents(None, UnknownTopic); return; }
      if key !in subscriptions { events := IssueEvents(None, UnknownSubscription); return; }
      var sub := subscriptions[key];
      if sub.closed { events := IssueEvents(None, SubscriptionIsClosed); return; }
      if c.nextSeq < topics[c.topic].headSeq { events := IssueEvents(None, RetentionGap); return; }
      if c.nextSeq > topics[c.topic].nextSeq { events := IssueEvents(None, CursorOutOfRange); return; }
      subscriptions := subscriptions[key := sub.(nextSeq := c.nextSeq, retentionGap := false)];
      events := [Status(SubscriptionSought, Some(c.topic), Some(c.nextSeq))];
    }

    method CloseSubscriptionNamed(c: Command<T>) returns (events: seq<Event<T>>)
      requires Valid() && c.CloseSubscription?
      modifies this
      ensures Valid() && (View(), events) == DoCloseSubscription(old(View()), c)
    {
      var key := SubscriptionKey(c.topic, c.subscriptionId);
      if c.topic !in topics { events := IssueEvents(None, UnknownTopic); return; }
      if key !in subscriptions { events := IssueEvents(None, UnknownSubscription); return; }
      subscriptions := subscriptions[key := subscriptions[key].(closed := true)];
      events := [Status(SubscriptionClosed, Some(c.topic), Some(subscriptions[key].nextSeq))];
    }

    /** Opens a subscription unless it exists; a start outside the retained range is moved to the head. */
    method EnsureSubscription(t: string, id: string, from: From) returns (events: seq<Event<T>>)
      requires Valid()
      modifies this
      ensures Valid() && (View(), events) == Open(old(View()), t, id, from)
    {
      var key := SubscriptionKey(t, id);
      if key in subscriptions { return []; }
      var next := match from
        case Earliest => if t in topics then topics[t].headSeq else 1
        case Latest => if t in topics then topics[t].nextSeq else 1
        case AtSeq(s) => s;
      events := [];
      if t in topics && (next < topics[t].headSeq || next > topics[t].nextSeq) {
        deadLetterSeq := deadLetterSeq + 1;
        deadLetters := deadLetters + [DeadLetter(deadLetterSeq, Some(t), None, CursorOutOfRange)];
        events := [Issue(CursorOutOfRange, Some(t))];
        next := topics[t].headSeq;
      }
      var gap := t in topics && next < topics[t].headSeq;
      subscriptions := subscriptions[key := Subscription(t, id, next, false, gap)];
      events := [Status(SubscriptionOpened, Some(t), Some(next))] + events;
    }
  }
}
