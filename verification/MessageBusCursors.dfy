/**
 * What acknowledging, seeking and closing mean for a reader, and the dead letters: one for every issue,
 * numbered without a gap.
 */
module MessageBusCursors {
  import opened Prelude
  import opened MessageBusModel
  import opened MessageBusLog
  import opened MessageBusReaders

  // ---- ack and seek, as a reader sees them ----

  /** An ack splits what was left to read: exactly the messages up to its number are done with. */
  lemma AckSplitsTheRest<T>(b: Bus<T>, events: seq<Event<T>>, clock: nat, c: Command<T>) returns (done: seq<Envelope<T>>)
    requires LogAgrees(b, events, clock) && c.Ack? && AckProblem(b, c).None?
    ensures var key := SubscriptionKey(c.topic, c.subscriptionId);
            var after := DoAck(b, c).0;
            && Remaining(b, key, None) == done + Remaining(after, key, None)
            && (forall m :: m in done ==> m.seq_ <= c.seq_)
            && (forall m :: m in Remaining(after, key, None) ==> m.seq_ > c.seq_)
            && Remaining(after, key, None) == Remaining(b, key, Some(c.seq_))
  {
    CursorTopic(b, events, clock, c.topic, c.subscriptionId);
    done := RestSplits(b, c);
  }

  /** An open cursor's subscription is on the topic it names, and that topic's log has no hole. */
  lemma CursorTopic<T>(b: Bus<T>, events: seq<Event<T>>, clock: nat, t: string, id: string)
    requires LogAgrees(b, events, clock) && CursorProblem(b, t, id).None?
    ensures b.subscriptions[SubscriptionKey(t, id)].topic == t && Contiguous(b.topics[t].messages, b.topics[t].headSeq)
  {
    var s := b.subscriptions[SubscriptionKey(t, id)];
    SubscriptionKeyInjective(s.topic, s.id, t, id);
    var p := Published(events, t);
    assert TopicAgrees(b, p, t, clock);
    TailContiguous(b.topics[t], p, t, clock);
  }

  lemma RestSplits<T>(b: Bus<T>, c: Command<T>) returns (done: seq<Envelope<T>>)
    requires c.Ack? && AckProblem(b, c).None?
    requires b.subscriptions[SubscriptionKey(c.topic, c.subscriptionId)].topic == c.topic
    requires Contiguous(b.topics[c.topic].messages, b.topics[c.topic].headSeq)
    ensures var key := SubscriptionKey(c.topic, c.subscriptionId);
            var after := DoAck(b, c).0;
            && Remaining(b, key, None) == done + Remaining(after, key, None)
            && (forall m :: m in done ==> m.seq_ <= c.seq_)
            && (forall m :: m in Remaining(after, key, None) ==> m.seq_ > c.seq_)
            && Remaining(after, key, None) == Remaining(b, key, Some(c.seq_))
  {
    var topic := b.topics[c.topic];
    var low := b.subscriptions[SubscriptionKey(c.topic, c.subscriptionId)].nextSeq;
    done := SinceSplits(topic.messages, topic.headSeq, low, c.seq_ + 1);
  }

  lemma SinceSplits<T>(ms: seq<Envelope<T>>, headSeq: nat, low: nat, high: nat) returns (done: seq<Envelope<T>>)
    requires Contiguous(ms, headSeq) && low <= high
    ensures Since(ms, low) == done + Since(ms, high)
    ensures (forall m :: m in done ==> m.seq_ < high) && forall m :: m in Since(ms, high) ==> m.seq_ >= high
  {
    SinceIsSuffix(ms, headSeq, low);
    SinceIsSuffix(ms, headSeq, high);
    var i, j := Skipped(headSeq, low, |ms|), Skipped(headSeq, high, |ms|);
    done := ms[i..j];
    assert ms[i..] == done + ms[j..];
  }

  /** What has been acknowledged cannot be acknowledged again. */
  lemma AckedIsStale<T>(b: Bus<T>, c: Command<T>, again: Command<T>)
    requires c.Ack? && AckProblem(b, c).None?
    requires again.Ack? && again.topic == c.topic && again.subscriptionId == c.subscriptionId && again.seq_ <= c.seq_
    ensures AckProblem(DoAck(b, c).0, again) == Some(SourceCursorStale)
  {
  }

  /** A successful seek clears the flag and reads the publish history from its place on. */
  lemma SeekReadsFrom<T>(b: Bus<T>, events: seq<Event<T>>, clock: nat, c: Command<T>, limit: nat)
    requires LogAgrees(b, events, clock) && c.Seek? && SeekProblem(b, c).None? && limit > 0
    ensures var key := SubscriptionKey(c.topic, c.subscriptionId);
            var after := DoSeek(b, c).0;
            && Readable(after, key) && !after.subscriptions[key].retentionGap
            && FollowPages(after, key, None, limit) == HistoryFrom(Published(events, c.topic), c.nextSeq)
  {
    var key := SubscriptionKey(c.topic, c.subscriptionId);
    CursorTopic(b, events, clock, c.topic, c.subscriptionId);
    var after, p := DoSeek(b, c).0, Published(events, c.topic);
    assert TopicAgrees(b, p, c.topic, clock);
    FollowPagesReadsAll(after, key, None, limit);
    TailFromCursor(b.topics[c.topic], p, c.topic, clock, c.nextSeq);
  }

  /** Any open subscription, flagged or not, can be sought to the head, and then reads all that is retained. */
  lemma HeadIsAlwaysOpen<T>(b: Bus<T>, events: seq<Event<T>>, clock: nat, c: Command<T>)
    requires LogAgrees(b, events, clock) && c.Seek? && CursorProblem(b, c.topic, c.subscriptionId).None?
    requires c.nextSeq == b.topics[c.topic].headSeq
    ensures SeekProblem(b, c).None?
    ensures Remaining(DoSeek(b, c).0, SubscriptionKey(c.topic, c.subscriptionId), None) == b.topics[c.topic].messages
  {
    CursorTopic(b, events, clock, c.topic, c.subscriptionId);
    var topic := b.topics[c.topic];
    assert TopicAgrees(b, Published(events, c.topic), c.topic, clock);
    SinceIsSuffix(topic.messages, topic.headSeq, topic.headSeq);
    assert topic.messages[0..] == topic.messages;
  }

  // ---- dead letters ----

  function Issues<T>(events: seq<Event<T>>): nat {
    if events == [] then 0 else Issues(events[..|events| - 1]) + (if events[|events| - 1].Issue? then 1 else 0)
  }

  lemma {:induction false} IssuesConcat<T>(a: seq<Event<T>>, b: seq<Event<T>>)
    ensures Issues(a + b) == Issues(a) + Issues(b)
    decreases |b|
  {
    if b == [] {
      assert a + b == a;
    } else {
      assert (a + b)[..|a + b| - 1] == a + b[..|b| - 1];
      IssuesConcat(a, b[..|b| - 1]);
    }
  }

  lemma IssuesOne<T>(e: Event<T>)
    ensures Issues([e]) == if e.Issue? then 1 else 0
  {
    assert [e][..0] == [];
  }

  /** `more` holds one issue for each dead letter `after` has beyond `before`, and their numbers go on. */
  ghost predicate LettersMatch<T>(before: seq<DeadLetter<T>>, after: seq<DeadLetter<T>>, more: seq<Event<T>>) {
    && before <= after && |after| == |before| + Issues(more)
    && forall i :: |before| <= i < |after| ==> after[i].entrySeq == i + 1
  }

  lemma LettersChain<T>(a: seq<DeadLetter<T>>, b: seq<DeadLetter<T>>, c: seq<DeadLetter<T>>, x: seq<Event<T>>,
                        y: seq<Event<T>>)
    requires LettersMatch(a, b, x) && LettersMatch(b, c, y)
    ensures LettersMatch(a, c, x + y)
  {
    IssuesConcat(x, y);
    assert forall i :: |a| <= i < |b| ==> c[i] == b[i];
  }

  lemma RaiseMatches<T>(b: Bus<T>, command: Option<Command<T>>, code: IssueCode)
    ensures LettersMatch(b.deadLetters, Raise(b, command, code).0.deadLetters, Raise(b, command, code).1)
  {
    IssuesOne(Raise(b, command, code).1[0]);
  }

  lemma NoIssueMatches<T>(letters: seq<DeadLetter<T>>, events: seq<Event<T>>)
    requires |events| <= 1 && forall i :: 0 <= i < |events| ==> !events[i].Issue?
    ensures LettersMatch(letters, letters, events)
  {
    if |events| == 1 { IssuesOne(events[0]); }
  }

  lemma {:induction false} RaiseGapsMatch<T>(b: Bus<T>, n: nat)
    ensures LettersMatch(b.deadLetters, RaiseGaps(b, n).0.deadLetters, RaiseGaps(b, n).1)
  {
    if n > 0 {
      RaiseGapsMatch(b, n - 1);
      var (b', events) := RaiseGaps(b, n - 1);
      RaiseMatches<T>(b', None, RetentionGap);
      LettersChain(b.deadLetters, b'.deadLetters, RaiseGaps(b, n).0.deadLetters, events, Raise<T>(b', None, RetentionGap).1);
    }
  }

  lemma TrimMatches<T>(b: Bus<T>, t: string, now: nat)
    ensures LettersMatch(b.deadLetters, Trim(b, t, now).0.deadLetters, Trim(b, t, now).1)
  {
    NoIssueMatches(b.deadLetters, []);
    if t in b.topics {
      var topic := b.topics[t];
      var young := Fresh(topic.messages, now, b.retention.maxAgeMs);
      if b.retention.maxMessages == Some(0) {
        RaiseMatches<T>(b.(topics := b.topics[t := topic.(messages := young)]), None, PolicyRejected);
      } else {
        var kept := LastN(young, b.retention.maxMessages);
        var head := HeadOf(kept, topic.nextSeq);
        if head != topic.headSeq {
          var b1 := b.(topics := b.topics[t := topic.(messages := kept, headSeq := head)]);
          var b2 := b1.(subscriptions := MarkBehind(b1.subscriptions, t, head));
          var gaps := |BehindKeys(b1.subscriptions, t, head)|;
          RaiseGapsMatch(b2, gaps);
          var first: seq<Event<T>> := [Status(RetentionTrimmed, Some(t), Some(head))];
          NoIssueMatches(b.deadLetters, first);
          LettersChain(b.deadLetters, b2.deadLetters, RaiseGaps(b2, gaps).0.deadLetters, first, RaiseGaps(b2, gaps).1);
        }
      }
    }
  }

  lemma DoPublishMatches<T>(b: Bus<T>, c: Command<T>, stamp: nat, now: nat)
    requires c.Publish?
    ensures LettersMatch(b.deadLetters, DoPublish(b, c, stamp, now).0.deadLetters, DoPublish(b, c, stamp, now).1)
  {
    if c.topic !in b.topics && b.policy != CreateAsFact {
      RaiseMatches(b, Some(c), UnknownTopic);
    } else {
      var (b1, created) := if c.topic in b.topics then (b, []) else DoEnsureTopic(b, c.topic);
      NoIssueMatches(b.deadLetters, created);
      if b1.topics[c.topic].closed {
        RaiseMatches(b1, Some(c), ClosedTopic);
      } else {
        var (b2, m) := Append(b1, c, stamp);
        var (b3, trimmed) := Trim(b2, c.topic, now);
        TrimMatches(b2, c.topic, now);
        PublishEventsMatch(b.deadLetters, created, m, c.topic);
        LettersChain(b.deadLetters, b2.deadLetters, b3.deadLetters,
                     created + [Message(m), Status(MessagePublished, Some(c.topic), Some(m.seq_))], trimmed);
      }
    }
  }

  lemma PublishEventsMatch<T>(letters: seq<DeadLetter<T>>, created: seq<Event<T>>, m: Envelope<T>, t: string)
    requires LettersMatch(letters, letters, created)
    ensures LettersMatch(letters, letters, created + [Message(m), Status(MessagePublished, Some(t), Some(m.seq_))])
  {
    var first: seq<Event<T>> := [Message(m)];
    var second: seq<Event<T>> := [Status(MessagePublished, Some(t), Some(m.seq_))];
    NoIssueMatches(letters, first);
    NoIssueMatches(letters, second);
    LettersChain(letters, letters, letters, created, first);
    LettersChain(letters, letters, letters, created + first, second);
    assert created + first + second == created + [Message(m), Status(MessagePublished, Some(t), Some(m.seq_))];
  }

  lemma DispatchMatches<T>(b: Bus<T>, c: Command<T>, stamp: nat, now: nat)
    ensures LettersMatch(b.deadLetters, Dispatch(b, c, stamp, now).0.deadLetters, Dispatch(b, c, stamp, now).1)
  {
    match c
    case Publish(_, _, _, _, _) => DoPublishMatches(b, c, stamp, now);
    case CloseTopic(t, _) => RaiseMatches(b, Some(c), UnknownTopic); QuietMatches(b, c, stamp, now);
    case _ => CursorIssuesMatch(b, c); QuietMatches(b, c, stamp, now);
  }

  lemma QuietMatches<T>(b: Bus<T>, c: Command<T>, stamp: nat, now: nat)
    requires !c.Publish?
    ensures var (b', events) := Dispatch(b, c, stamp, now);
            (forall i :: 0 <= i < |events| ==> !events[i].Issue?) && b'.deadLetters == b.deadLetters ==>
              LettersMatch(b.deadLetters, b'.deadLetters, events)
  {
    var (b', events) := Dispatch(b, c, stamp, now);
    if forall i :: 0 <= i < |events| ==> !events[i].Issue? { NoIssueMatches(b.deadLetters, events); }
  }

  lemma CursorIssuesMatch<T>(b: Bus<T>, c: Command<T>)
    ensures forall code :: LettersMatch(b.deadLetters, Raise<T>(b, None, code).0.deadLetters, Raise<T>(b, None, code).1)
  {
    forall code ensures LettersMatch(b.deadLetters, Raise<T>(b, None, code).0.deadLetters, Raise<T>(b, None, code).1) {
      RaiseMatches<T>(b, None, code);
    }
  }

  lemma ApplyMatches<T>(b: Bus<T>, op: Op<T>)
    ensures LettersMatch(b.deadLetters, Apply(b, op).0.deadLetters, Apply(b, op).1)
  {
    match op
    case Do(c, stamp, now) =>
      RaiseMatches(b, Some(c), MalformedCommand);
      DuplicateMatches(b, c);
      DuplicateMatches(Remember(b, c), c);
      DispatchMatches(Remember(b, c), c, stamp, now);
    case OpenSubscription(t, id, from) => OpenMatches(b, t, id, from);
  }

  lemma DuplicateMatches<T>(b: Bus<T>, c: Command<T>)
    ensures LettersMatch(b.deadLetters, ReportDuplicate(b, c).0.deadLetters, ReportDuplicate(b, c).1)
  {
    RaiseMatches(b, Some(c), DuplicateCommandIssue);
    NoIssueMatches(b.deadLetters, [Status(DuplicateCommand, TopicOf(Some(c)), None)]);
  }

  lemma OpenMatches<T>(b: Bus<T>, t: string, id: string, from: From)
    ensures LettersMatch(b.deadLetters, Open(b, t, id, from).0.deadLetters, Open(b, t, id, from).1)
  {
    NoIssueMatches(b.deadLetters, []);
    var events := Open(b, t, id, from).1;
    if |events| >= 1 {
      IssuesOne(events[0]);
      assert events[..1] == [events[0]];
      if |events| == 1 {
        assert events == [events[0]];
      } else {
        assert events == [events[0]] + [events[1]];
        IssuesConcat([events[0]], [events[1]]);
        IssuesOne(events[1]);
      }
    }
  }

  lemma {:induction false} RunMatches<T>(b: Bus<T>, ops: seq<Op<T>>)
    ensures LettersMatch(b.deadLetters, Run(b, ops).0.deadLetters, Run(b, ops).1)
  {
    if ops == [] {
      NoIssueMatches(b.deadLetters, []);
    } else {
      var init := ops[..|ops| - 1];
      RunMatches(b, init);
      ApplyMatches(Run(b, init).0, ops[|ops| - 1]);
      LettersChain(b.deadLetters, Run(b, init).0.deadLetters, Run(b, ops).0.deadLetters,
                   Run(b, init).1, Apply(Run(b, init).0, ops[|ops| - 1]).1);
    }
  }

  /** Over any run, with any clock and retention: one dead letter for each issue, numbered 1, 2, 3, … */
  lemma OneDeadLetterPerIssue<T>(topics: set<string>, policy: TopicPolicy, retention: Retention, dedupe: DedupeAction,
                                 ops: seq<Op<T>>)
    ensures var (b, events) := Run(Initial(topics, policy, retention, dedupe), ops);
            && |b.deadLetters| == Issues(events)
            && forall i :: 0 <= i < |b.deadLetters| ==> b.deadLetters[i].entrySeq == i + 1
  {
    RunMatches(Initial<T>(topics, policy, retention, dedupe), ops);
  }
}
