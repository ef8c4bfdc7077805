/**
 * The retained log refines the publish history: what a topic keeps is the tail of everything ever
 * published to it, and a cursor without a gap flag misses nothing.
 */
module MessageBusLog {
  import opened Prelude
  import opened Identity
  import opened MessageBusModel

  // ---- the history ----

  lemma {:induction false} PublishedAppend<T>(a: seq<Event<T>>, b: seq<Event<T>>, t: string)
    ensures Published(a + b, t) == Published(a, t) + Published(b, t)
    decreases |b|
  {
    if b == [] {
      assert a + b == a;
    } else {
      assert (a + b)[..|a + b| - 1] == a + b[..|b| - 1];
      PublishedAppend(a, b[..|b| - 1], t);
    }
  }

  ghost predicate Silent<T>(events: seq<Event<T>>) {
    forall i | 0 <= i < |events| :: !events[i].Message?
  }

  lemma {:induction false} SilentPublishesNothing<T>(events: seq<Event<T>>, t: string)
    requires Silent(events)
    ensures Published(events, t) == []
  {
    if events != [] { SilentPublishesNothing(events[..|events| - 1], t); }
  }

  lemma {:induction false} RaiseGapsSilent<T>(b: Bus<T>, n: nat)
    ensures Silent(RaiseGaps(b, n).1)
    ensures RaiseGaps(b, n).0 == b.(deadLetters := RaiseGaps(b, n).0.deadLetters)
  {
    if n > 0 { RaiseGapsSilent(b, n - 1); }
  }

  // ---- the invariant ----

  /** A history: numbered from 1, all on one topic, with stamps that never fall or pass `clock`. */
  ghost predicate IsHistory<T>(p: seq<Envelope<T>>, t: string, clock: nat) {
    && (forall i | 0 <= i < |p| :: p[i].seq_ == i + 1 && p[i].topic == t && p[i].timestampMs <= clock)
    && (forall i, j | 0 <= i < j < |p| :: p[i].timestampMs <= p[j].timestampMs)
  }

  /** The topic keeps exactly the messages from `headSeq` on. */
  ghost predicate KeepsTail<T>(topic: Topic<T>, p: seq<Envelope<T>>) {
    && topic.nextSeq == |p| + 1
    && 1 <= topic.headSeq <= topic.nextSeq
    && topic.messages == p[topic.headSeq - 1..]
  }

  ghost predicate TopicAgrees<T>(b: Bus<T>, p: seq<Envelope<T>>, t: string, clock: nat) {
    && IsHistory(p, t, clock)
    && (t in b.topics ==> KeepsTail(b.topics[t], p))
    && (t !in b.topics ==> p == [])
  }

  /** The gap flag is right: unset, nothing is trimmed from an open cursor on; set, something is. */
  ghost predicate Covered<T>(b: Bus<T>, s: Subscription) {
    && (!s.closed && !s.retentionGap && s.topic in b.topics ==>
          b.topics[s.topic].headSeq <= s.nextSeq || b.topics[s.topic].headSeq == 1)
    && (s.retentionGap ==> s.topic in b.topics && s.nextSeq < b.topics[s.topic].headSeq && 1 < b.topics[s.topic].headSeq)
  }

  ghost predicate CursorsAgree<T>(b: Bus<T>) {
    forall k :: k in b.subscriptions ==>
      k == SubscriptionKey(b.subscriptions[k].topic, b.subscriptions[k].id) && Covered(b, b.subscriptions[k])
  }

  ghost predicate LogAgrees<T>(b: Bus<T>, events: seq<Event<T>>, clock: nat) {
    && LogsAgree(b, events, clock)
    && CursorsAgree(b)
  }

  ghost predicate LogsAgree<T>(b: Bus<T>, events: seq<Event<T>>, clock: nat) {
    forall t :: TopicAgrees(b, Published(events, t), t, clock)
  }

  ghost predicate Retains<T>(b: Bus<T>) { b.retention.maxMessages != Some(0) }

  // ---- retention ----

  predicate Young<T>(m: Envelope<T>, now: nat, maxAge: Option<nat>) {
    maxAge.None? || now - m.timestampMs <= maxAge.value
  }

  lemma {:induction false} AllStale<T>(ms: seq<Envelope<T>>, now: nat, maxAge: Option<nat>)
    requires forall m :: m in ms ==> !Young(m, now, maxAge)
    ensures Fresh(ms, now, maxAge) == []
  {
    if ms != [] {
      assert ms[|ms| - 1] in ms;
      AllStale(ms[..|ms| - 1], now, maxAge);
    }
  }

  /** Older messages than a stale one are stale. */
  lemma OlderAreStale<T>(ms: seq<Envelope<T>>, now: nat, maxAge: Option<nat>)
    requires ms != [] && !Young(ms[|ms| - 1], now, maxAge)
    requires forall i, j :: 0 <= i < j < |ms| ==> ms[i].timestampMs <= ms[j].timestampMs
    ensures forall m :: m in ms ==> !Young(m, now, maxAge)
  {
    forall m | m in ms ensures !Young(m, now, maxAge) {
      var i :| 0 <= i < |ms| && ms[i] == m;
      if i < |ms| - 1 { assert ms[i].timestampMs <= ms[|ms| - 1].timestampMs; }
    }
  }

  /** From `k` on the messages are young, and before it they are not. */
  ghost predicate YoungFrom<T>(ms: seq<Envelope<T>>, now: nat, maxAge: Option<nat>, k: nat) {
    k <= |ms| && forall i :: 0 <= i < |ms| ==> (i >= k <==> Young(ms[i], now, maxAge))
  }

  lemma OneMoreYoung<T>(ms: seq<Envelope<T>>, now: nat, maxAge: Option<nat>, k: nat)
    requires ms != [] && Young(ms[|ms| - 1], now, maxAge) && maxAge.Some?
    requires YoungFrom(ms[..|ms| - 1], now, maxAge, k) && Fresh(ms[..|ms| - 1], now, maxAge) == ms[..|ms| - 1][k..]
    ensures YoungFrom(ms, now, maxAge, k) && Fresh(ms, now, maxAge) == ms[k..]
  {
    var init, last := ms[..|ms| - 1], ms[|ms| - 1];
    assert init[k..] + [last] == ms[k..];
    forall i | 0 <= i < |ms| ensures i >= k <==> Young(ms[i], now, maxAge) {
      if i < |init| { assert init[i] == ms[i]; }
    }
  }

  /** With stamps in order, dropping old messages cuts a prefix. */
  lemma {:induction false} FreshIsSuffix<T>(ms: seq<Envelope<T>>, now: nat, maxAge: Option<nat>) returns (k: nat)
    requires forall i, j :: 0 <= i < j < |ms| ==> ms[i].timestampMs <= ms[j].timestampMs
    ensures YoungFrom(ms, now, maxAge, k) && Fresh(ms, now, maxAge) == ms[k..]
  {
    if maxAge.None? || ms == [] {
      k := 0;
    } else if Young(ms[|ms| - 1], now, maxAge) {
      k := FreshIsSuffix(ms[..|ms| - 1], now, maxAge);
      OneMoreYoung(ms, now, maxAge, k);
    } else {
      OlderAreStale(ms, now, maxAge);
      AllStale(ms, now, maxAge);
      k := |ms|;
    }
  }

  /** What the limits allow: not too old, and among the last `maxMessages`. */
  predicate Allowed<T>(ms: seq<Envelope<T>>, now: nat, r: Retention, i: nat)
    requires i < |ms|
  {
    && (r.maxAgeMs.None? || now - ms[i].timestampMs <= r.maxAgeMs.value)
    && (r.maxMessages.None? || |ms| - i <= r.maxMessages.value)
  }

  /** Retention keeps a suffix, which holds exactly what both limits allow: the two cuts compose to one. */
  lemma KeptIsSuffix<T>(ms: seq<Envelope<T>>, now: nat, r: Retention) returns (k: nat)
    requires forall i, j :: 0 <= i < j < |ms| ==> ms[i].timestampMs <= ms[j].timestampMs
    ensures k <= |ms| && LastN(Fresh(ms, now, r.maxAgeMs), r.maxMessages) == ms[k..]
    ensures forall i :: 0 <= i < |ms| ==> (i >= k <==> Allowed(ms, now, r, i))
  {
    var young := FreshIsSuffix(ms, now, r.maxAgeMs);
    k := CutToCount(ms, now, r, young);
  }

  lemma CutToCount<T>(ms: seq<Envelope<T>>, now: nat, r: Retention, young: nat) returns (k: nat)
    requires YoungFrom(ms, now, r.maxAgeMs, young)
    ensures k <= |ms| && LastN(ms[young..], r.maxMessages) == ms[k..]
    ensures forall i :: 0 <= i < |ms| ==> (i >= k <==> Allowed(ms, now, r, i))
  {
    k := young;
    if r.maxMessages.Some? && |ms| - young > r.maxMessages.value {
      k := |ms| - r.maxMessages.value;
      assert ms[young..][k - young..] == ms[k..];
    }
    forall i | 0 <= i < |ms| ensures i >= k <==> Allowed(ms, now, r, i) {
      assert i >= young <==> Young(ms[i], now, r.maxAgeMs);
    }
  }

  /** A shorter tail, and its head. */
  lemma ShorterTail<T>(topic: Topic<T>, p: seq<Envelope<T>>, t: string, now: nat, k: nat)
    requires KeepsTail(topic, p) && IsHistory(p, t, now) && k <= |topic.messages|
    ensures var head := HeadOf(topic.messages[k..], topic.nextSeq);
            topic.headSeq <= head && KeepsTail(topic.(messages := topic.messages[k..], headSeq := head), p)
  {
    assert topic.messages[k..] == p[topic.headSeq - 1 + k..];
  }

  lemma TailStampsAscend<T>(topic: Topic<T>, p: seq<Envelope<T>>, t: string, now: nat, i: nat, j: nat)
    requires KeepsTail(topic, p) && IsHistory(p, t, now) && i < j < |topic.messages|
    ensures topic.messages[i].timestampMs <= topic.messages[j].timestampMs
  {
    assert topic.messages[i] == p[topic.headSeq - 1 + i] && topic.messages[j] == p[topic.headSeq - 1 + j];
  }

  /** What one trim does to the log of its topic. */
  lemma TrimKeepsTail<T>(topic: Topic<T>, now: nat, r: Retention, p: seq<Envelope<T>>, t: string)
    requires KeepsTail(topic, p) && IsHistory(p, t, now)
    ensures var kept := LastN(Fresh(topic.messages, now, r.maxAgeMs), r.maxMessages);
            var head := HeadOf(kept, topic.nextSeq);
            topic.headSeq <= head && KeepsTail(topic.(messages := kept, headSeq := head), p)
  {
    forall i, j | 0 <= i < j < |topic.messages|
      ensures topic.messages[i].timestampMs <= topic.messages[j].timestampMs
    {
      TailStampsAscend(topic, p, t, now, i, j);
    }
    var k := KeptIsSuffix(topic.messages, now, r);
    ShorterTail(topic, p, t, now, k);
  }

  lemma TrimShape<T>(b: Bus<T>, t: string, now: nat, p: seq<Envelope<T>>)
    requires t in b.topics && Retains(b) && KeepsTail(b.topics[t], p)
    requires IsHistory(p, t, now)
    ensures var (b', events) := Trim(b, t, now);
            && Silent(events)
            && t in b'.topics && b'.topics == b.topics[t := b'.topics[t]]
            && KeepsTail(b'.topics[t], p)
            && b.topics[t].headSeq <= b'.topics[t].headSeq
            && b'.subscriptions == (if b'.topics[t].headSeq == b.topics[t].headSeq then b.subscriptions
                                    else MarkBehind(b.subscriptions, t, b'.topics[t].headSeq))
  {
    var topic := b.topics[t];
    TrimKeepsTail(topic, now, b.retention, p, t);
    var kept := LastN(Fresh(topic.messages, now, b.retention.maxAgeMs), b.retention.maxMessages);
    var head := HeadOf(kept, topic.nextSeq);
    var b1 := b.(topics := b.topics[t := topic.(messages := kept, headSeq := head)]);
    if head != topic.headSeq {
      RaiseGapsSilent(b1.(subscriptions := MarkBehind(b1.subscriptions, t, head)),
                      |BehindKeys(b1.subscriptions, t, head)|);
    }
  }

  // ---- every step keeps the invariant ----

  /** A step that publishes nothing and touches no log. */
  lemma QuietStep<T>(b: Bus<T>, events: seq<Event<T>>, clock: nat, b': Bus<T>, more: seq<Event<T>>, clock': nat)
    requires LogAgrees(b, events, clock) && clock <= clock' && Silent(more)
    requires forall t :: t in b'.topics ==>
               if t in b.topics then b'.topics[t] == b.topics[t].(closed := b'.topics[t].closed)
               else b'.topics[t] == NewTopic()
    requires forall t :: t in b.topics ==> t in b'.topics
    requires CursorsAgree(b')
    ensures LogAgrees(b', events + more, clock')
  {
    forall t ensures TopicAgrees(b', Published(events + more, t), t, clock') {
      PublishedAppend(events, more, t);
      SilentPublishesNothing(more, t);
      assert Published(events + more, t) == Published(events, t);
      assert TopicAgrees(b, Published(events, t), t, clock);
    }
  }

  lemma EnsureTopicStep<T>(b: Bus<T>, events: seq<Event<T>>, clock: nat, t: string)
    requires LogAgrees(b, events, clock)
    ensures LogAgrees(DoEnsureTopic(b, t).0, events + DoEnsureTopic(b, t).1, clock)
  {
    var (b', more) := DoEnsureTopic(b, t);
    forall k | k in b'.subscriptions ensures Covered(b', b'.subscriptions[k]) { assert Covered(b, b.subscriptions[k]); }
    QuietStep(b, events, clock, b', more, clock);
  }

  /** The events of a publish that is accepted. */
  function PublishEvents<T>(m: Envelope<T>): (out: seq<Event<T>>) {
    [Message(m), Status(MessagePublished, Some(m.topic), Some(m.seq_))]
  }

  lemma PublishedAfter<T>(events: seq<Event<T>>, m: Envelope<T>, trimmed: seq<Event<T>>, t: string)
    requires Silent(trimmed)
    ensures Published(events + PublishEvents(m) + trimmed, t)
            == Published(events, t) + (if m.topic == t then [m] else [])
  {
    var out := PublishEvents(m);
    PublishedAppend(events + out, trimmed, t);
    PublishedAppend(events, out, t);
    SilentPublishesNothing(trimmed, t);
    PublishedOfOne(m, out[1], t);
  }

  lemma {:induction false} PublishKeepsLogs<T>(b: Bus<T>, b': Bus<T>, events: seq<Event<T>>, m: Envelope<T>,
                                               trimmed: seq<Event<T>>, clock: nat, now: nat)
    requires LogsAgree(b, events, clock) && clock <= now && Silent(trimmed)
    requires m.topic in b.topics && m.topic in b'.topics && b'.topics == b.topics[m.topic := b'.topics[m.topic]]
    requires IsHistory(Published(events, m.topic) + [m], m.topic, now)
    requires KeepsTail(b'.topics[m.topic], Published(events, m.topic) + [m])
    ensures LogsAgree(b', events + PublishEvents(m) + trimmed, now)
  {
    forall t ensures TopicAgrees(b', Published(events + PublishEvents(m) + trimmed, t), t, now) {
      PublishedAfter(events, m, trimmed, t);
      assert TopicAgrees(b, Published(events, t), t, clock);
      if t != m.topic { assert Published(events, t) + [] == Published(events, t); }
    }
  }

  lemma AppendExtends<T>(b: Bus<T>, c: Command<T>, stamp: nat, p: seq<Envelope<T>>, clock: nat)
    requires c.Publish? && c.topic in b.topics && TopicAgrees(b, p, c.topic, clock) && clock <= stamp
    ensures var (b2, m) := Append(b, c, stamp);
            && m.topic == c.topic && IsHistory(p + [m], c.topic, stamp) && KeepsTail(b2.topics[c.topic], p + [m])
            && b2.topics[c.topic].headSeq == b.topics[c.topic].headSeq
  {
    var m := Append(b, c, stamp).1;
    var h := b.topics[c.topic].headSeq;
    assert p[h - 1..] + [m] == (p + [m])[h - 1..];
  }

  lemma AppendThenTrim<T>(b: Bus<T>, c: Command<T>, stamp: nat, now: nat, p: seq<Envelope<T>>, clock: nat)
    requires c.Publish? && c.topic in b.topics && TopicAgrees(b, p, c.topic, clock) && Retains(b)
    requires clock <= stamp <= now
    ensures var (b2, m) := Append(b, c, stamp);
            var (b3, trimmed) := Trim(b2, c.topic, now);
            && m.topic == c.topic && IsHistory(p + [m], c.topic, now)
            && Silent(trimmed)
            && c.topic in b3.topics && b3.topics == b.topics[c.topic := b3.topics[c.topic]]
            && KeepsTail(b3.topics[c.topic], p + [m])
            && 1 <= b.topics[c.topic].headSeq <= b3.topics[c.topic].headSeq
            && b.topics[c.topic].nextSeq <= b3.topics[c.topic].nextSeq
            && b3.subscriptions == (if b3.topics[c.topic].headSeq == b.topics[c.topic].headSeq then b.subscriptions
                                    else MarkBehind(b.subscriptions, c.topic, b3.topics[c.topic].headSeq))
  {
    var (b2, m) := Append(b, c, stamp);
    AppendExtends(b, c, stamp, p, clock);
    TrimShape(b2, c.topic, now, p + [m]);
    var b3 := Trim(b2, c.topic, now).0;
    assert b2.topics[c.topic := b3.topics[c.topic]] == b.topics[c.topic := b3.topics[c.topic]];
  }

  /** Appending the published message to the history and trimming leaves a tail of the history. */
  lemma PublishStep<T>(b: Bus<T>, events: seq<Event<T>>, clock: nat, c: Command<T>, stamp: nat, now: nat)
    requires LogAgrees(b, events, clock) && Retains(b)
    requires c.Publish? && c.topic in b.topics && clock <= stamp <= now
    ensures var (b2, m) := Append(b, c, stamp);
            var (b3, trimmed) := Trim(b2, c.topic, now);
            LogAgrees(b3, events + PublishEvents(m) + trimmed, now)
  {
    var (b2, m) := Append(b, c, stamp);
    var (b3, trimmed) := Trim(b2, c.topic, now);
    AppendThenTrim(b, c, stamp, now, Published(events, c.topic), clock);
    PublishKeepsLogs(b, b3, events, m, trimmed, clock, now);
    PublishKeepsCursors(b, b3, c.topic);
  }

  /** Raising a topic's head flags every open cursor it passes. */
  lemma PublishKeepsCursors<T>(b: Bus<T>, b': Bus<T>, t: string)
    requires CursorsAgree(b) && t in b.topics && t in b'.topics
    requires b'.topics == b.topics[t := b'.topics[t]] && 1 <= b.topics[t].headSeq <= b'.topics[t].headSeq
    requires b'.subscriptions == (if b'.topics[t].headSeq == b.topics[t].headSeq then b.subscriptions
                                  else MarkBehind(b.subscriptions, t, b'.topics[t].headSeq))
    ensures CursorsAgree(b')
  {
    forall k | k in b'.subscriptions
      ensures k == SubscriptionKey(b'.subscriptions[k].topic, b'.subscriptions[k].id) && Covered(b', b'.subscriptions[k])
    {
      assert k in b.subscriptions && Covered(b, b.subscriptions[k]);
    }
  }

  lemma PublishedOfOne<T>(m: Envelope<T>, e: Event<T>, t: string)
    requires !e.Message?
    ensures Published([Message(m), e], t) == if m.topic == t then [m] else []
  {
    var one := [Message(m), e];
    assert one[..1] == [Message(m)] && one[..1][..0] == [];
    assert Published([Message(m)], t) == if m.topic == t then [] + [m] else [];
  }

  /** What a cursor command may have done to the one subscription that its key names. */
  ghost predicate MovesCursor<T>(b: Bus<T>, c: Command<T>, b': Bus<T>)
    requires c.Ack? || c.Seek? || c.CloseSubscription?
  {
    var k := SubscriptionKey(c.topic, c.subscriptionId);
    k in b.subscriptions && c.topic in b.topics && k in b'.subscriptions
    && b'.subscriptions == b.subscriptions[k := b'.subscriptions[k]]
    && var s, s' := b.subscriptions[k], b'.subscriptions[k];
    && s'.topic == s.topic && s'.id == s.id
    && (c.Ack? ==> !s.closed && !s.retentionGap && s.nextSeq <= s'.nextSeq)
    && (c.Ack? ==> s' == s.(nextSeq := c.seq_ + 1) && s'.nextSeq <= b.topics[c.topic].nextSeq)
    && (c.Seek? ==> s' == s.(nextSeq := c.nextSeq, retentionGap := false) && !s.closed
                    && b.topics[c.topic].headSeq <= c.nextSeq <= b.topics[c.topic].nextSeq)
    && (c.CloseSubscription? ==> s' == s.(closed := true))
  }

  lemma AckShape<T>(b: Bus<T>, c: Command<T>)
    requires c.Ack?
    ensures var (b', more) := DoAck(b, c);
            Silent(more) && b'.topics == b.topics && (b'.subscriptions == b.subscriptions || MovesCursor(b, c, b'))
  {
  }

  lemma SeekShape<T>(b: Bus<T>, c: Command<T>)
    requires c.Seek?
    ensures var (b', more) := DoSeek(b, c);
            Silent(more) && b'.topics == b.topics && (b'.subscriptions == b.subscriptions || MovesCursor(b, c, b'))
  {
  }

  lemma CloseShape<T>(b: Bus<T>, c: Command<T>)
    requires c.CloseSubscription?
    ensures var (b', more) := DoCloseSubscription(b, c);
            Silent(more) && b'.topics == b.topics && (b'.subscriptions == b.subscriptions || MovesCursor(b, c, b'))
  {
  }

  /** The cursor commands change the one subscription that their key names. */
  lemma CursorShape<T>(b: Bus<T>, c: Command<T>)
    requires c.Ack? || c.Seek? || c.CloseSubscription?
    ensures var (b', more) := Dispatch(b, c, 0, 0);
            Silent(more) && b'.topics == b.topics && (b'.subscriptions == b.subscriptions || MovesCursor(b, c, b'))
  {
    match c
    case Ack(_, _, _, _) => AckShape(b, c);
    case Seek(_, _, _, _) => SeekShape(b, c);
    case CloseSubscription(_, _, _) => CloseShape(b, c);
  }

  lemma {:induction false} CursorStep<T>(b: Bus<T>, events: seq<Event<T>>, clock: nat, c: Command<T>)
    requires LogAgrees(b, events, clock) && (c.Ack? || c.Seek? || c.CloseSubscription?)
    ensures var (b', more) := Dispatch(b, c, 0, 0); LogAgrees(b', events + more, clock)
  {
    var (b', more) := Dispatch(b, c, 0, 0);
    CursorShape(b, c);
    forall k | k in b'.subscriptions
      ensures k == SubscriptionKey(b'.subscriptions[k].topic, b'.subscriptions[k].id) && Covered(b', b'.subscriptions[k])
    {
      assert k in b.subscriptions && Covered(b, b.subscriptions[k]);
      if k == SubscriptionKey(c.topic, c.subscriptionId) {
        SubscriptionKeyInjective(b.subscriptions[k].topic, b.subscriptions[k].id, c.topic, c.subscriptionId);
      }
    }
    QuietStep(b, events, clock, b', more, clock);
  }

  lemma SubscriptionKeyInjective(t: string, id: string, t': string, id': string)
    requires SubscriptionKey(t, id) == SubscriptionKey(t', id')
    ensures t == t' && id == id'
  {
    TupleKeyInjective([t, id], [t', id']);
    assert [t, id][0] == [t', id'][0] && [t, id][1] == [t', id'][1];
  }

  lemma DispatchStep<T>(b: Bus<T>, events: seq<Event<T>>, clock: nat, c: Command<T>, stamp: nat, now: nat)
    requires LogAgrees(b, events, clock) && Retains(b) && clock <= stamp <= now
    ensures var (b', more) := Dispatch(b, c, stamp, now); LogAgrees(b', events + more, now)
  {
    var (b', more) := Dispatch(b, c, stamp, now);
    match c
    case EnsureTopic(t, _) =>
      EnsureTopicStep(b, events, clock, t);
      LaterClock(b', events + more, clock, now);
    case CloseTopic(_, _) =>
      forall k | k in b'.subscriptions ensures Covered(b', b'.subscriptions[k]) { assert Covered(b, b.subscriptions[k]); }
      QuietStep(b, events, clock, b', more, now);
    case SetPolicy(_, _) => QuietStep(b, events, clock, b', more, now);
    case Publish(_, _, _, _, _) => DoPublishStep(b, events, clock, c, stamp, now);
    case _ =>
      CursorStep(b, events, clock, c);
      LaterClock(b', events + more, clock, now);
  }

  lemma DoPublishStep<T>(b: Bus<T>, events: seq<Event<T>>, clock: nat, c: Command<T>, stamp: nat, now: nat)
    requires LogAgrees(b, events, clock) && Retains(b) && c.Publish? && clock <= stamp <= now
    ensures var (b', more) := DoPublish(b, c, stamp, now); LogAgrees(b', events + more, now)
  {
    var (b', more) := DoPublish(b, c, stamp, now);
    if c.topic !in b.topics && b.policy != CreateAsFact {
      SameLogs(b, b');
      QuietStep(b, events, clock, b', more, now);
    } else {
      var (b1, created) := if c.topic in b.topics then (b, []) else DoEnsureTopic(b, c.topic);
      if c.topic in b.topics { assert events + created == events; } else { EnsureTopicStep(b, events, clock, c.topic); }
      if b1.topics[c.topic].closed {
        RefusedByClosedTopic(b, c, stamp, now);
        QuietStep(b, events, clock, b', more, now);
      } else {
        PublishStep(b1, events + created, clock, c, stamp, now);
        var (b2, m) := Append(b1, c, stamp);
        EventsRegroup(events, created, PublishEvents(m), Trim(b2, c.topic, now).1);
      }
    }
  }

  /** A topic that publishing has just created is open, so only an existing one can refuse. */
  lemma RefusedByClosedTopic<T>(b: Bus<T>, c: Command<T>, stamp: nat, now: nat)
    requires CursorsAgree(b) && c.Publish? && c.topic in b.topics && b.topics[c.topic].closed
    ensures var (b', more) := DoPublish(b, c, stamp, now);
            Silent(more) && b'.topics == b.topics && CursorsAgree(b')
  {
    SameLogs(b, DoPublish(b, c, stamp, now).0);
  }

  lemma EventsRegroup<T>(a: seq<Event<T>>, b: seq<Event<T>>, c: seq<Event<T>>, d: seq<Event<T>>)
    ensures a + b + c + d == a + (b + c + d)
  {
  }

  lemma LaterClock<T>(b: Bus<T>, events: seq<Event<T>>, clock: nat, clock': nat)
    requires LogAgrees(b, events, clock) && clock <= clock'
    ensures LogAgrees(b, events, clock')
  {
    forall t ensures TopicAgrees(b, Published(events, t), t, clock') {
      assert TopicAgrees(b, Published(events, t), t, clock);
    }
  }

  /** Recording a command id, reporting a duplicate or raising an issue leaves logs and cursors alone. */
  lemma SameLogs<T>(b: Bus<T>, b': Bus<T>)
    requires CursorsAgree(b) && b'.topics == b.topics && b'.subscriptions == b.subscriptions
    ensures CursorsAgree(b')
  {
    forall k | k in b'.subscriptions ensures Covered(b', b'.subscriptions[k]) { assert Covered(b, b.subscriptions[k]); }
  }

  /** A command that is not admitted changes no topic, no subscription and no policy. */
  lemma ReduceShape<T>(b: Bus<T>, c: Command<T>, stamp: nat, now: nat)
    ensures var (b', more) := Reduce(b, c, stamp, now);
            if Admits(b, c) then (b', more) == Dispatch(Remember(b, c), c, stamp, now)
            else && b'.topics == b.topics && b'.subscriptions == b.subscriptions && b'.policy == b.policy
                 && b'.seenIdempotencyKeys == b.seenIdempotencyKeys && b'.retention == b.retention && Silent(more)
  {
  }

  lemma {:induction false} ReduceStep<T>(b: Bus<T>, events: seq<Event<T>>, clock: nat, c: Command<T>, stamp: nat,
                                         now: nat)
    requires LogAgrees(b, events, clock) && Retains(b) && clock <= stamp <= now
    ensures var (b', more) := Reduce(b, c, stamp, now); LogAgrees(b', events + more, now)
  {
    var (b', more) := Reduce(b, c, stamp, now);
    ReduceShape(b, c, stamp, now);
    if Admits(b, c) {
      var b1 := Remember(b, c);
      SameLogs(b, b1);
      assert events + [] == events;
      QuietStep(b, events, clock, b1, [], clock);
      DispatchStep(b1, events, clock, c, stamp, now);
    } else {
      SameLogs(b, b');
      QuietStep(b, events, clock, b', more, now);
    }
  }

  /** A new cursor stands in its topic's range, or its topic is not there yet. */
  lemma OpenCursor<T>(b: Bus<T>, t: string, id: string, from: From)
    requires SubscriptionKey(t, id) !in b.subscriptions
    ensures var b', k := Open(b, t, id, from).0, SubscriptionKey(t, id);
            && b'.topics == b.topics && b'.subscriptions == b.subscriptions[k := b'.subscriptions[k]]
            && b'.subscriptions[k].topic == t && b'.subscriptions[k].id == id && Covered(b, b'.subscriptions[k])
  {
  }

  lemma OneMoreCursor<T>(b: Bus<T>, b': Bus<T>, k: string)
    requires CursorsAgree(b) && b'.topics == b.topics && k in b'.subscriptions
    requires b'.subscriptions == b.subscriptions[k := b'.subscriptions[k]]
    requires k == SubscriptionKey(b'.subscriptions[k].topic, b'.subscriptions[k].id) && Covered(b, b'.subscriptions[k])
    ensures CursorsAgree(b')
  {
    forall j | j in b'.subscriptions
      ensures j == SubscriptionKey(b'.subscriptions[j].topic, b'.subscriptions[j].id) && Covered(b', b'.subscriptions[j])
    {
      if j != k { assert b'.subscriptions[j] == b.subscriptions[j] && Covered(b, b.subscriptions[j]); }
    }
  }

  lemma OpenStep<T>(b: Bus<T>, events: seq<Event<T>>, clock: nat, t: string, id: string, from: From)
    requires LogAgrees(b, events, clock)
    ensures var (b', more) := Open(b, t, id, from); LogAgrees(b', events + more, clock)
  {
    var (b', more) := Open(b, t, id, from);
    if SubscriptionKey(t, id) !in b.subscriptions {
      OpenCursor(b, t, id, from);
      OneMoreCursor(b, b', SubscriptionKey(t, id));
    }
    QuietStep(b, events, clock, b', more, clock);
  }

  lemma {:induction false} StepKeepsRetention<T>(b: Bus<T>, op: Op<T>)
    ensures Apply(b, op).0.retention == b.retention
  {
    match op
    case OpenSubscription(_, _, _) =>
    case Do(c, stamp, now) =>
      ReduceShape(b, c, stamp, now);
      DispatchKeepsRetention(Remember(b, c), c, stamp, now);
  }

  lemma DispatchKeepsRetention<T>(b: Bus<T>, c: Command<T>, stamp: nat, now: nat)
    ensures Dispatch(b, c, stamp, now).0.retention == b.retention
  {
    if c.Publish? && (c.topic in b.topics || b.policy == CreateAsFact) {
      var b1 := (if c.topic in b.topics then (b, []) else DoEnsureTopic(b, c.topic)).0;
      var b2 := Append(b1, c, stamp).0;
      var topic := b2.topics[c.topic];
      var kept := LastN(Fresh(topic.messages, now, b2.retention.maxAgeMs), b2.retention.maxMessages);
      var head := HeadOf(kept, topic.nextSeq);
      var b3 := b2.(topics := b2.topics[c.topic := topic.(messages := kept, headSeq := head)]);
      RaiseGapsSilent(b3.(subscriptions := MarkBehind(b3.subscriptions, c.topic, head)),
                      |BehindKeys(b3.subscriptions, c.topic, head)|);
    }
  }

  // ---- whole runs ----

  lemma InitialAgrees<T>(topics: set<string>, policy: TopicPolicy, retention: Retention, dedupe: DedupeAction)
    ensures LogAgrees(Initial<T>(topics, policy, retention, dedupe), [], 0)
  {
  }

  lemma {:induction false} RunAgrees<T>(b: Bus<T>, ops: seq<Op<T>>)
    requires LogAgrees(b, [], 0) && Retains(b) && ClockMonotone(ops)
    ensures LogAgrees(Run(b, ops).0, Run(b, ops).1, LastReading(ops))
    ensures Run(b, ops).0.retention == b.retention
  {
    if ops != [] {
      var before, op := ops[..|ops| - 1], ops[|ops| - 1];
      RunAgrees(b, before);
      var (b1, events) := Run(b, before);
      StepKeepsRetention(b1, op);
      match op
      case Do(c, stamp, now) => ReduceStep(b1, events, LastReading(before), c, stamp, now);
      case OpenSubscription(t, id, from) => OpenStep(b1, events, LastReading(before), t, id, from);
    }
  }

  /** After any run, each topic retains exactly the tail of its publish history. */
  lemma RetainedLogIsHistoryTail<T>(topics: set<string>, policy: TopicPolicy, retention: Retention,
                                    dedupe: DedupeAction, ops: seq<Op<T>>, t: string)
    requires retention.maxMessages != Some(0) && ClockMonotone(ops)
    ensures var (b, events) := Run(Initial(topics, policy, retention, dedupe), ops);
            var p := Published(events, t);
            && (forall i :: 0 <= i < |p| ==> p[i].seq_ == i + 1 && p[i].topic == t)
            && (t !in b.topics ==> p == [])
            && (t in b.topics ==>
                  var topic := b.topics[t];
                  && topic.nextSeq == |p| + 1
                  && 1 <= topic.headSeq
                  && topic.headSeq + |topic.messages| == topic.nextSeq
                  && topic.messages == p[topic.headSeq - 1..]
                  && forall i :: 0 <= i < |topic.messages| ==> topic.messages[i].seq_ == topic.headSeq + i)
  {
    var b0 := Initial<T>(topics, policy, retention, dedupe);
    InitialAgrees<T>(topics, policy, retention, dedupe);
    RunAgrees(b0, ops);
    var (b, events) := Run(b0, ops);
    assert TopicAgrees(b, Published(events, t), t, LastReading(ops));
  }
}
