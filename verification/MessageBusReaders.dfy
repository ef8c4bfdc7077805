/**
 * What subscribers see: following the pages of a subscription without a gap flag reads the publish
 * history from its cursor on, and cursors stay in the retained range.
 */
module MessageBusReaders {
  import opened Prelude
  import opened Identity
  import opened MessageBusModel
  import opened MessageBusLog

  // ---- paging over a contiguous log ----

  ghost predicate Contiguous<T>(ms: seq<Envelope<T>>, headSeq: nat) {
    forall i :: 0 <= i < |ms| ==> ms[i].seq_ == headSeq + i
  }

  /** How many messages of a log starting at `headSeq` lie before `start`. */
  function Skipped(headSeq: nat, start: nat, len: nat): (n: nat)
    ensures n <= len
  {
    if start <= headSeq then 0 else if start - headSeq <= len then start - headSeq else len
  }

  lemma {:induction false} SinceIsSuffix<T>(ms: seq<Envelope<T>>, headSeq: nat, start: nat)
    requires Contiguous(ms, headSeq)
    ensures Since(ms, start) == ms[Skipped(headSeq, start, |ms|)..]
  {
    if ms != [] {
      var init := ms[..|ms| - 1];
      SinceIsSuffix(init, headSeq, start);
      var k := Skipped(headSeq, start, |init|);
      assert init[k..] + [ms[|ms| - 1]] == ms[k..];
    }
  }

  /** The messages a subscription's pages are cut from. */
  function Remaining<T>(b: Bus<T>, key: string, afterSeq: Option<nat>): seq<Envelope<T>>
    requires key in b.subscriptions
  {
    var s := b.subscriptions[key];
    var start := if afterSeq.Some? then afterSeq.value + 1 else s.nextSeq;
    if s.retentionGap || s.topic !in b.topics then [] else Since(b.topics[s.topic].messages, start)
  }

  ghost predicate Readable<T>(b: Bus<T>, key: string) {
    key in b.subscriptions &&
    (b.subscriptions[key].topic in b.topics ==>
       var topic := b.topics[b.subscriptions[key].topic];
       Contiguous(topic.messages, topic.headSeq))
  }

  lemma SinceNext<T>(ms: seq<Envelope<T>>, headSeq: nat, start: nat, limit: nat)
    requires Contiguous(ms, headSeq) && 0 < limit < |Since(ms, start)|
    ensures Since(ms, Since(ms, start)[limit - 1].seq_ + 1) == Since(ms, start)[limit..]
  {
    SinceIsSuffix(ms, headSeq, start);
    var k := Skipped(headSeq, start, |ms|);
    assert Since(ms, start)[limit - 1] == ms[k + limit - 1];
    SinceIsSuffix(ms, headSeq, headSeq + k + limit);
    assert Since(ms, start)[limit..] == ms[k + limit..];
  }

  /** After a full page, what remains is what the page left out. */
  lemma NextPageRemains<T>(b: Bus<T>, key: string, afterSeq: Option<nat>, limit: nat)
    requires Readable(b, key) && limit > 0
    ensures var page := AvailablePage(b, key, afterSeq, limit);
            var all := Remaining(b, key, afterSeq);
            && (!page.hasMore ==> page.messages == all)
            && (page.hasMore ==> page.nextAfterSeq.Some? && limit < |all| && page.messages == all[..limit]
                                 && Remaining(b, key, page.nextAfterSeq) == all[limit..])
  {
    var page := AvailablePage(b, key, afterSeq, limit);
    var all := Remaining(b, key, afterSeq);
    if page.hasMore {
      var s := b.subscriptions[key];
      var start := if afterSeq.Some? then afterSeq.value + 1 else s.nextSeq;
      var topic := b.topics[s.topic];
      SinceNext(topic.messages, topic.headSeq, start, limit);
    }
  }

  /** What a reader collects by asking for the next page until there is no more. */
  ghost function FollowPages<T>(b: Bus<T>, key: string, afterSeq: Option<nat>, limit: nat): seq<Envelope<T>>
    requires Readable(b, key) && limit > 0
    decreases |Remaining(b, key, afterSeq)|
  {
    var page := AvailablePage(b, key, afterSeq, limit);
    NextPageRemains(b, key, afterSeq, limit);
    if page.hasMore then page.messages + FollowPages(b, key, page.nextAfterSeq, limit) else page.messages
  }

  lemma {:induction false} FollowPagesReadsAll<T>(b: Bus<T>, key: string, afterSeq: Option<nat>, limit: nat)
    requires Readable(b, key) && limit > 0
    ensures FollowPages(b, key, afterSeq, limit) == Remaining(b, key, afterSeq)
    decreases |Remaining(b, key, afterSeq)|
  {
    var page := AvailablePage(b, key, afterSeq, limit);
    NextPageRemains(b, key, afterSeq, limit);
    if page.hasMore {
      FollowPagesReadsAll(b, key, page.nextAfterSeq, limit);
      var all := Remaining(b, key, afterSeq);
      assert all[..limit] + all[limit..] == all;
    }
  }

  // ---- topic pages ----

  function TopicRemaining<T>(b: Bus<T>, t: string, afterSeq: Option<nat>): seq<Envelope<T>> {
    if t in b.topics then Since(b.topics[t].messages, if afterSeq.Some? then afterSeq.value + 1 else b.topics[t].headSeq) else []
  }

  ghost predicate TopicReadable<T>(b: Bus<T>, t: string) {
    t in b.topics ==> Contiguous(b.topics[t].messages, b.topics[t].headSeq)
  }

  lemma NextTopicPageRemains<T>(b: Bus<T>, t: string, afterSeq: Option<nat>, limit: nat)
    requires TopicReadable(b, t) && limit > 0
    ensures var page := TopicPage(b, t, afterSeq, limit);
            var all := TopicRemaining(b, t, afterSeq);
            && (!page.hasMore ==> page.messages == all)
            && (page.hasMore ==> page.nextAfterSeq.Some? && limit < |all| && page.messages == all[..limit]
                                 && TopicRemaining(b, t, page.nextAfterSeq) == all[limit..])
  {
    if TopicPage(b, t, afterSeq, limit).hasMore {
      var topic := b.topics[t];
      SinceNext(topic.messages, topic.headSeq, if afterSeq.Some? then afterSeq.value + 1 else topic.headSeq, limit);
    }
  }

  ghost function FollowTopicPages<T>(b: Bus<T>, t: string, afterSeq: Option<nat>, limit: nat): seq<Envelope<T>>
    requires TopicReadable(b, t) && limit > 0
    decreases |TopicRemaining(b, t, afterSeq)|
  {
    var page := TopicPage(b, t, afterSeq, limit);
    NextTopicPageRemains(b, t, afterSeq, limit);
    if page.hasMore then page.messages + FollowTopicPages(b, t, page.nextAfterSeq, limit) else page.messages
  }

  lemma {:induction false} FollowTopicPagesReadsAll<T>(b: Bus<T>, t: string, afterSeq: Option<nat>, limit: nat)
    requires TopicReadable(b, t) && limit > 0
    ensures FollowTopicPages(b, t, afterSeq, limit) == TopicRemaining(b, t, afterSeq)
    decreases |TopicRemaining(b, t, afterSeq)|
  {
    var page := TopicPage(b, t, afterSeq, limit);
    NextTopicPageRemains(b, t, afterSeq, limit);
    if page.hasMore {
      FollowTopicPagesReadsAll(b, t, page.nextAfterSeq, limit);
      var all := TopicRemaining(b, t, afterSeq);
      assert all[..limit] + all[limit..] == all;
    }
  }

  /** The pages of a topic, from the first, are everything published to it that retention has not trimmed. */
  lemma TopicPagesAreTheHistoryTail<T>(topics: set<string>, policy: TopicPolicy, retention: Retention,
                                       dedupe: DedupeAction, ops: seq<Op<T>>, t: string, limit: nat)
    requires retention.maxMessages != Some(0) && ClockMonotone(ops) && limit > 0
    requires t in Run(Initial(topics, policy, retention, dedupe), ops).0.topics
    ensures var (b, events) := Run(Initial(topics, policy, retention, dedupe), ops);
            && TopicReadable(b, t) && 1 <= b.topics[t].headSeq <= |Published(events, t)| + 1
            && FollowTopicPages(b, t, None, limit) == Published(events, t)[b.topics[t].headSeq - 1..]
  {
    var b0 := Initial<T>(topics, policy, retention, dedupe);
    InitialAgrees<T>(topics, policy, retention, dedupe);
    RunAgrees(b0, ops);
    var (b, events) := Run(b0, ops);
    var p, topic := Published(events, t), b.topics[t];
    assert TopicAgrees(b, p, t, LastReading(ops));
    TailContiguous(topic, p, t, LastReading(ops));
    FollowTopicPagesReadsAll(b, t, None, limit);
    SinceIsSuffix(topic.messages, topic.headSeq, topic.headSeq);
    assert topic.messages[0..] == topic.messages;
  }

  // ---- no silent loss ----

  /** The part of a history (numbered from 1) at or after `cursor`. */
  function HistoryFrom<T>(p: seq<Envelope<T>>, cursor: nat): seq<Envelope<T>> {
    p[Skipped(1, cursor, |p|)..]
  }

  lemma AgreeingTopicIsReadable<T>(b: Bus<T>, events: seq<Event<T>>, clock: nat, key: string)
    requires LogAgrees(b, events, clock) && key in b.subscriptions
    ensures Readable(b, key)
  {
    var t := b.subscriptions[key].topic;
    assert TopicAgrees(b, Published(events, t), t, clock);
  }

  lemma UngappedReadsHistory<T>(b: Bus<T>, events: seq<Event<T>>, clock: nat, key: string)
    requires LogAgrees(b, events, clock) && key in b.subscriptions
    requires !b.subscriptions[key].closed && !b.subscriptions[key].retentionGap
    ensures Remaining(b, key, None) == HistoryFrom(Published(events, b.subscriptions[key].topic), b.subscriptions[key].nextSeq)
  {
    var s := b.subscriptions[key];
    var p := Published(events, s.topic);
    assert TopicAgrees(b, p, s.topic, clock) && Covered(b, s);
    if s.topic in b.topics { TailFromCursor(b.topics[s.topic], p, s.topic, clock, s.nextSeq); }
  }

  lemma {:induction false} TailFromCursor<T>(topic: Topic<T>, p: seq<Envelope<T>>, t: string, clock: nat, cursor: nat)
    requires IsHistory(p, t, clock) && KeepsTail(topic, p) && (topic.headSeq <= cursor || topic.headSeq == 1)
    ensures Since(topic.messages, cursor) == HistoryFrom(p, cursor)
  {
    TailContiguous(topic, p, t, clock);
    SinceIsSuffix(topic.messages, topic.headSeq, cursor);
    SkippedFromHead(topic.headSeq, cursor, |p|);
    DropTwice(p, topic.headSeq - 1, Skipped(topic.headSeq, cursor, |topic.messages|));
  }

  lemma TailContiguous<T>(topic: Topic<T>, p: seq<Envelope<T>>, t: string, clock: nat)
    requires IsHistory(p, t, clock) && KeepsTail(topic, p)
    ensures Contiguous(topic.messages, topic.headSeq)
  {
  }

  lemma SkippedFromHead(headSeq: nat, cursor: nat, len: nat)
    requires 1 <= headSeq <= len + 1 && (headSeq <= cursor || headSeq == 1)
    ensures headSeq - 1 + Skipped(headSeq, cursor, len - (headSeq - 1)) == Skipped(1, cursor, len)
  {
  }

  lemma DropTwice<T>(s: seq<T>, a: nat, b: nat)
    requires a + b <= |s|
    ensures s[a..][b..] == s[a + b..]
  {
  }

  /**
   * In every reachable state, an open subscription either carries the gap flag, and then a message at
   * or after its cursor is gone, or its pages read everything published from the cursor on, in order.
   */
  lemma NoSilentLoss<T>(topics: set<string>, policy: TopicPolicy, retention: Retention, dedupe: DedupeAction,
                        ops: seq<Op<T>>, key: string, limit: nat)
    requires retention.maxMessages != Some(0) && ClockMonotone(ops) && limit > 0
    requires var b := Run(Initial(topics, policy, retention, dedupe), ops).0;
             key in b.subscriptions && !b.subscriptions[key].closed
    ensures var (b, events) := Run(Initial(topics, policy, retention, dedupe), ops);
            var s := b.subscriptions[key];
            var p := Published(events, s.topic);
            Readable(b, key) &&
            if s.retentionGap
            then FollowPages(b, key, None, limit) == []
                 && s.topic in b.topics
                 && exists m :: m in HistoryFrom(p, s.nextSeq) && m !in b.topics[s.topic].messages
            else FollowPages(b, key, None, limit) == HistoryFrom(p, s.nextSeq)
  {
    var b0 := Initial<T>(topics, policy, retention, dedupe);
    InitialAgrees<T>(topics, policy, retention, dedupe);
    RunAgrees(b0, ops);
    var (b, events) := Run(b0, ops);
    var s := b.subscriptions[key];
    AgreeingTopicIsReadable(b, events, LastReading(ops), key);
    FollowPagesReadsAll(b, key, None, limit);
    if s.retentionGap {
      GapMeansLoss(b, events, LastReading(ops), key);
    } else {
      UngappedReadsHistory(b, events, LastReading(ops), key);
    }
  }

  lemma TrimmedIsGone<T>(topic: Topic<T>, p: seq<Envelope<T>>, t: string, clock: nat, k: nat)
    requires IsHistory(p, t, clock) && KeepsTail(topic, p) && k < topic.headSeq - 1
    ensures p[k] !in topic.messages
  {
    assert forall i :: 0 <= i < |topic.messages| ==> topic.messages[i].seq_ == topic.headSeq + i;
    assert p[k].seq_ == k + 1;
  }

  lemma GapMeansLoss<T>(b: Bus<T>, events: seq<Event<T>>, clock: nat, key: string)
    requires LogAgrees(b, events, clock) && key in b.subscriptions && b.subscriptions[key].retentionGap
    ensures var s := b.subscriptions[key];
            s.topic in b.topics
            && exists m :: m in HistoryFrom(Published(events, s.topic), s.nextSeq) && m !in b.topics[s.topic].messages
  {
    var s := b.subscriptions[key];
    var p := Published(events, s.topic);
    assert TopicAgrees(b, p, s.topic, clock) && Covered(b, s);
    var k := Skipped(1, s.nextSeq, |p|);
    TrimmedIsGone(b.topics[s.topic], p, s.topic, clock, k);
    assert HistoryFrom(p, s.nextSeq)[0] == p[k];
  }

  // ---- cursors and the retained range ----

  /** An open cursor without a gap flag lies in the retained range; with no topic yet, it is where one will start. */
  ghost predicate Tracked<T>(b: Bus<T>, s: Subscription) {
    s.closed || s.retentionGap ||
    if s.topic in b.topics then b.topics[s.topic].headSeq <= s.nextSeq <= b.topics[s.topic].nextSeq
    else s.nextSeq == 1
  }

  /** The subscription keeps its place in the range through one operation. */
  lemma ApplyKeepsTracked<T>(b: Bus<T>, events: seq<Event<T>>, clock: nat, op: Op<T>, key: string)
    requires LogAgrees(b, events, clock) && Retains(b)
    requires op.Do? ==> clock <= op.stamp <= op.now
    requires key in b.subscriptions && Tracked(b, b.subscriptions[key])
    ensures key in Apply(b, op).0.subscriptions && Tracked(Apply(b, op).0, Apply(b, op).0.subscriptions[key])
  {
    match op
    case OpenSubscription(_, _, _) =>
    case Do(c, stamp, now) =>
      ReduceShape(b, c, stamp, now);
      if Admits(b, c) {
        SameLogs(b, Remember(b, c));
        DispatchKeepsTracked(Remember(b, c), events, clock, c, stamp, now, key);
      }
  }

  lemma DispatchKeepsTracked<T>(b: Bus<T>, events: seq<Event<T>>, clock: nat, c: Command<T>, stamp: nat, now: nat,
                                key: string)
    requires LogsAgree(b, events, clock) && CursorsAgree(b) && Retains(b) && clock <= stamp <= now
    requires key in b.subscriptions && Tracked(b, b.subscriptions[key])
    ensures var b' := Dispatch(b, c, stamp, now).0;
            key in b'.subscriptions && Tracked(b', b'.subscriptions[key])
  {
    match c
    case Publish(_, _, _, _, _) => DoPublishKeepsTracked(b, events, clock, c, stamp, now, key);
    case Ack(_, _, _, _) => CursorKeepsTracked(b, events, clock, c, key);
    case Seek(_, _, _, _) => CursorKeepsTracked(b, events, clock, c, key);
    case CloseSubscription(_, _, _) => CursorKeepsTracked(b, events, clock, c, key);
    case _ =>
  }

  lemma CursorKeepsTracked<T>(b: Bus<T>, events: seq<Event<T>>, clock: nat, c: Command<T>, key: string)
    requires LogsAgree(b, events, clock) && CursorsAgree(b)
    requires c.Ack? || c.Seek? || c.CloseSubscription?
    requires key in b.subscriptions && Tracked(b, b.subscriptions[key])
    ensures var b' := Dispatch(b, c, 0, 0).0;
            key in b'.subscriptions && Tracked(b', b'.subscriptions[key])
  {
    CursorShape(b, c);
    var s := b.subscriptions[key];
    if key == SubscriptionKey(c.topic, c.subscriptionId) {
      SubscriptionKeyInjective(s.topic, s.id, c.topic, c.subscriptionId);
    }
  }

  lemma MarkKeepsTracked<T>(b: Bus<T>, b': Bus<T>, t: string, key: string)
    requires t in b.topics && t in b'.topics && b'.topics == b.topics[t := b'.topics[t]]
    requires b.topics[t].headSeq <= b'.topics[t].headSeq && b.topics[t].nextSeq <= b'.topics[t].nextSeq
    requires b'.subscriptions == (if b'.topics[t].headSeq == b.topics[t].headSeq then b.subscriptions
                                  else MarkBehind(b.subscriptions, t, b'.topics[t].headSeq))
    requires key in b.subscriptions && Tracked(b, b.subscriptions[key])
    ensures key in b'.subscriptions && Tracked(b', b'.subscriptions[key])
  {
  }

  lemma AppendKeepsTracked<T>(b: Bus<T>, events: seq<Event<T>>, clock: nat, c: Command<T>, stamp: nat, now: nat,
                              key: string)
    requires LogsAgree(b, events, clock) && Retains(b) && c.Publish? && c.topic in b.topics && clock <= stamp <= now
    requires key in b.subscriptions && Tracked(b, b.subscriptions[key])
    ensures var b' := Trim(Append(b, c, stamp).0, c.topic, now).0;
            key in b'.subscriptions && Tracked(b', b'.subscriptions[key])
  {
    var p := Published(events, c.topic);
    assert TopicAgrees(b, p, c.topic, clock);
    AppendThenTrim(b, c, stamp, now, p, clock);
    MarkKeepsTracked(b, Trim(Append(b, c, stamp).0, c.topic, now).0, c.topic, key);
  }

  lemma DoPublishKeepsTracked<T>(b: Bus<T>, events: seq<Event<T>>, clock: nat, c: Command<T>, stamp: nat, now: nat,
                                 key: string)
    requires LogsAgree(b, events, clock) && CursorsAgree(b) && Retains(b) && c.Publish? && clock <= stamp <= now
    requires key in b.subscriptions && Tracked(b, b.subscriptions[key])
    ensures var b' := DoPublish(b, c, stamp, now).0;
            key in b'.subscriptions && Tracked(b', b'.subscriptions[key])
  {
    if c.topic in b.topics {
      if !b.topics[c.topic].closed { AppendKeepsTracked(b, events, clock, c, stamp, now, key); }
    } else if b.policy == CreateAsFact {
      var (b1, created) := DoEnsureTopic(b, c.topic);
      EnsureTopicStep(b, events, clock, c.topic);
      AppendKeepsTracked(b1, events + created, clock, c, stamp, now, key);
    }
  }

  /** Opened properly once, a subscription is tracked in every later state. */
  lemma {:induction false} TrackedForever<T>(b: Bus<T>, ops: seq<Op<T>>, from: nat, key: string)
    requires LogAgrees(b, [], 0) && Retains(b) && ClockMonotone(ops) && from <= |ops|
    requires var b1 := Run(b, ops[..from]).0; key in b1.subscriptions && Tracked(b1, b1.subscriptions[key])
    ensures var b2 := Run(b, ops).0; key in b2.subscriptions && Tracked(b2, b2.subscriptions[key])
    decreases |ops|
  {
    if from == |ops| {
      assert ops[..from] == ops;
    } else {
      var before, op := ops[..|ops| - 1], ops[|ops| - 1];
      assert before[..from] == ops[..from];
      TrackedForever(b, before, from, key);
      RunAgrees(b, before);
      ApplyKeepsTracked(Run(b, before).0, Run(b, before).1, LastReading(before), op, key);
    }
  }

  /** Opening on an existing topic, or at Earliest, Latest or 1. */
  predicate OpensInRange<T>(b: Bus<T>, t: string, from: From) {
    t in b.topics || !from.AtSeq? || from.s == 1
  }

  /** A new subscription is tracked exactly when it is opened in range. */
  lemma OpenTrackedIff<T>(b: Bus<T>, events: seq<Event<T>>, clock: nat, t: string, id: string, from: From)
    requires LogAgrees(b, events, clock) && SubscriptionKey(t, id) !in b.subscriptions
    ensures var b' := Open(b, t, id, from).0;
            var k := SubscriptionKey(t, id);
            k in b'.subscriptions && (Tracked(b', b'.subscriptions[k]) <==> OpensInRange(b, t, from))
  {
    assert TopicAgrees(b, Published(events, t), t, clock);
  }

  /** Otherwise creating the topic leaves an open cursor outside its range with no gap flag. */
  lemma LateTopicLeavesCursorOutside<T>(b: Bus<T>, t: string, id: string, from: From)
    requires SubscriptionKey(t, id) !in b.subscriptions && !OpensInRange(b, t, from)
    ensures var b' := DoEnsureTopic(Open(b, t, id, from).0, t).0;
            var s := b'.subscriptions[SubscriptionKey(t, id)];
            !s.closed && !s.retentionGap && !(b'.topics[t].headSeq <= s.nextSeq <= b'.topics[t].nextSeq)
  {
  }

  /**
   * In every state after a run, a subscription that the run opened in range is closed, flagged, or has
   * its cursor between the head and the tail of its topic.
   */
  lemma {:induction false} OpenedInRangeStaysInRange<T>(topics: set<string>, policy: TopicPolicy,
                                                        retention: Retention, dedupe: DedupeAction, ops: seq<Op<T>>,
                                                        i: nat)
    requires retention.maxMessages != Some(0) && ClockMonotone(ops) && i < |ops| && ops[i].OpenSubscription?
    requires var b := Run(Initial(topics, policy, retention, dedupe), ops[..i]).0;
             SubscriptionKey(ops[i].topic, ops[i].id) !in b.subscriptions && OpensInRange(b, ops[i].topic, ops[i].from)
    ensures var b := Run(Initial(topics, policy, retention, dedupe), ops).0;
            var k := SubscriptionKey(ops[i].topic, ops[i].id);
            k in b.subscriptions && Tracked(b, b.subscriptions[k])
  {
    var b0 := Initial<T>(topics, policy, retention, dedupe);
    InitialAgrees<T>(topics, policy, retention, dedupe);
    ClockMonotonePrefix(ops, i);
    RunAgrees(b0, ops[..i]);
    var (b, events) := Run(b0, ops[..i]);
    OpenTrackedIff(b, events, LastReading(ops[..i]), ops[i].topic, ops[i].id, ops[i].from);
    assert ops[..i + 1][..i] == ops[..i];
    TrackedForever(b0, ops, i + 1, SubscriptionKey(ops[i].topic, ops[i].id));
  }

  lemma {:induction false} ClockMonotonePrefix<T>(ops: seq<Op<T>>, n: nat)
    requires ClockMonotone(ops) && n <= |ops|
    ensures ClockMonotone(ops[..n])
  {
    if n < |ops| {
      ClockMonotonePrefix(ops[..|ops| - 1], n);
      assert ops[..|ops| - 1][..n] == ops[..n];
    } else {
      assert ops[..n] == ops;
    }
  }

  // ---- heads ----

  lemma ApplyRaisesHeads<T>(b: Bus<T>, events: seq<Event<T>>, clock: nat, op: Op<T>, t: string)
    requires LogAgrees(b, events, clock) && Retains(b) && t in b.topics
    requires op.Do? ==> clock <= op.stamp <= op.now
    ensures t in Apply(b, op).0.topics && b.topics[t].headSeq <= Apply(b, op).0.topics[t].headSeq
  {
    if op.Do? && op.command.Publish? && op.command.topic == t {
      var c := op.command;
      ReduceShape(b, c, op.stamp, op.now);
      assert TopicAgrees(b, Published(events, t), t, clock);
      AppendThenTrim(Remember(b, c), c, op.stamp, op.now, Published(events, t), clock);
    } else if op.Do? {
      DispatchLeavesOtherTopics(b, op, t);
    }
  }

  lemma {:induction false} DispatchLeavesOtherTopics<T>(b: Bus<T>, op: Op<T>, t: string)
    requires op.Do? && t in b.topics && !(op.command.Publish? && op.command.topic == t)
    ensures t in Apply(b, op).0.topics && b.topics[t].headSeq == Apply(b, op).0.topics[t].headSeq
  {
    var c := op.command;
    ReduceShape(b, c, op.stamp, op.now);
    if c.Publish? { PublishLeavesOtherTopics(Remember(b, c), c, op.stamp, op.now, t); }
  }

  lemma PublishLeavesOtherTopics<T>(b: Bus<T>, c: Command<T>, stamp: nat, now: nat, t: string)
    requires c.Publish? && t in b.topics && c.topic != t
    ensures t in DoPublish(b, c, stamp, now).0.topics && DoPublish(b, c, stamp, now).0.topics[t] == b.topics[t]
  {
    if c.topic in b.topics || b.policy == CreateAsFact {
      var b1 := (if c.topic in b.topics then (b, []) else DoEnsureTopic(b, c.topic)).0;
      var b2 := Append(b1, c, stamp).0;
      var topic := b2.topics[c.topic];
      var kept := LastN(Fresh(topic.messages, now, b2.retention.maxAgeMs), b2.retention.maxMessages);
      var head := HeadOf(kept, topic.nextSeq);
      var b3 := b2.(topics := b2.topics[c.topic := topic.(messages := kept, headSeq := head)]);
      RaiseGapsSilent(b3.(subscriptions := MarkBehind(b3.subscriptions, c.topic, head)),
                      |BehindKeys(b3.subscriptions, c.topic, head)|);
    }
  }

  /** No later state has a lower head. */
  lemma {:induction false} HeadNeverFalls<T>(b: Bus<T>, ops: seq<Op<T>>, n: nat, t: string)
    requires LogAgrees(b, [], 0) && Retains(b) && ClockMonotone(ops) && n <= |ops|
    requires t in Run(b, ops[..n]).0.topics
    ensures t in Run(b, ops).0.topics && Run(b, ops[..n]).0.topics[t].headSeq <= Run(b, ops).0.topics[t].headSeq
    decreases |ops|
  {
    if n == |ops| {
      assert ops[..n] == ops;
    } else {
      var before, op := ops[..|ops| - 1], ops[|ops| - 1];
      assert before[..n] == ops[..n];
      HeadNeverFalls(b, before, n, t);
      RunAgrees(b, before);
      ApplyRaisesHeads(Run(b, before).0, Run(b, before).1, LastReading(before), op, t);
    }
  }
}
