/** At most one message per topic and idempotency key, and one effective command per command id. */
module MessageBusDedupe {
  import opened Prelude
  import opened Identity
  import opened MessageBusModel
  import opened MessageBusLog

  // ---- idempotency keys ----

  ghost predicate CarriesKey<T>(e: Event<T>, t: string, key: string) {
    e.Message? && e.message.topic == t && e.message.idempotencyKey == Some(key)
  }

  /** Some message of the run was published to `t` under `key`. */
  ghost predicate WasPublished<T>(events: seq<Event<T>>, t: string, key: string) {
    exists i :: 0 <= i < |events| && CarriesKey(events[i], t, key)
  }

  ghost predicate NoRepeat<T>(events: seq<Event<T>>) {
    forall i, j, t, key :: 0 <= i < j < |events| && CarriesKey(events[i], t, key) ==> !CarriesKey(events[j], t, key)
  }

  /** The seen set holds exactly the keys published under, and none was used twice. */
  ghost predicate KeysAgree<T>(b: Bus<T>, events: seq<Event<T>>) {
    && (forall t, key :: WasPublished(events, t, key) <==> IdempotencyKeyFor(t, key) in b.seenIdempotencyKeys)
    && NoRepeat(events)
  }

  lemma IdempotencyKeyInjective(t: string, key: string, t': string, key': string)
    requires IdempotencyKeyFor(t, key) == IdempotencyKeyFor(t', key')
    ensures t == t' && key == key'
  {
    SubscriptionKeyInjective(t, key, t', key');
  }

  lemma SilentKeepsKeys<T>(b: Bus<T>, events: seq<Event<T>>, b': Bus<T>, more: seq<Event<T>>)
    requires KeysAgree(b, events) && Silent(more) && b'.seenIdempotencyKeys == b.seenIdempotencyKeys
    ensures KeysAgree(b', events + more)
  {
    var all := events + more;
    forall t, key ensures WasPublished(all, t, key) <==> WasPublished(events, t, key) {
      if WasPublished(events, t, key) {
        var i :| 0 <= i < |events| && CarriesKey(events[i], t, key);
        assert CarriesKey(all[i], t, key);
      }
    }
  }

  lemma PublishKeepsKeys<T>(b: Bus<T>, events: seq<Event<T>>, m: Envelope<T>, b': Bus<T>)
    requires KeysAgree(b, events)
    requires m.idempotencyKey.Some? ==> IdempotencyKeyFor(m.topic, m.idempotencyKey.value) !in b.seenIdempotencyKeys
    requires b'.seenIdempotencyKeys == b.seenIdempotencyKeys
               + (if m.idempotencyKey.Some? then {IdempotencyKeyFor(m.topic, m.idempotencyKey.value)} else {})
    ensures KeysAgree(b', events + PublishEvents(m))
  {
    var all := events + PublishEvents(m);
    assert all[|events|] == Message(m);
    forall t, key ensures WasPublished(all, t, key) <==> IdempotencyKeyFor(t, key) in b'.seenIdempotencyKeys {
      if WasPublished(events, t, key) {
        var i :| 0 <= i < |events| && CarriesKey(events[i], t, key);
        assert CarriesKey(all[i], t, key);
      }
      if CarriesKey(all[|events|], t, key) { assert WasPublished(all, t, key); }
      if m.idempotencyKey.Some? && IdempotencyKeyFor(t, key) == IdempotencyKeyFor(m.topic, m.idempotencyKey.value) {
        IdempotencyKeyInjective(t, key, m.topic, m.idempotencyKey.value);
      }
    }
    forall i, j, t, key | 0 <= i < j < |all| && CarriesKey(all[i], t, key) ensures !CarriesKey(all[j], t, key) {
      if i < |events| && j == |events| { assert WasPublished(events, t, key); }
    }
  }

  lemma {:induction false} RaiseGapsKeepsIds<T>(b: Bus<T>, n: nat)
    ensures RaiseGaps(b, n).0.seenCommandIds == b.seenCommandIds
    ensures RaiseGaps(b, n).0.seenIdempotencyKeys == b.seenIdempotencyKeys
    ensures Silent(RaiseGaps(b, n).1)
  {
    if n > 0 { RaiseGapsKeepsIds(b, n - 1); }
  }

  lemma TrimKeepsIds<T>(b: Bus<T>, t: string, now: nat)
    ensures var (b', more) := Trim(b, t, now);
            Silent(more) && b'.seenCommandIds == b.seenCommandIds && b'.seenIdempotencyKeys == b.seenIdempotencyKeys
  {
    if t in b.topics && b.retention.maxMessages != Some(0) {
      var topic := b.topics[t];
      var kept := LastN(Fresh(topic.messages, now, b.retention.maxAgeMs), b.retention.maxMessages);
      var head := HeadOf(kept, topic.nextSeq);
      var b1 := b.(topics := b.topics[t := topic.(messages := kept, headSeq := head)]);
      RaiseGapsKeepsIds(b1.(subscriptions := MarkBehind(b1.subscriptions, t, head)),
                        |BehindKeys(b1.subscriptions, t, head)|);
    }
  }

  lemma DoPublishIds<T>(b: Bus<T>, events: seq<Event<T>>, c: Command<T>, stamp: nat, now: nat)
    requires KeysAgree(b, events) && c.Publish? && !IsRepeatedPublish(b, c)
    ensures var (b', more) := DoPublish(b, c, stamp, now);
            b'.seenCommandIds == b.seenCommandIds && KeysAgree(b', events + more)
  {
    var (b', more) := DoPublish(b, c, stamp, now);
    if c.topic in b.topics || b.policy == CreateAsFact {
      var (b1, created) := if c.topic in b.topics then (b, []) else DoEnsureTopic(b, c.topic);
      if b1.topics[c.topic].closed {
        SilentKeepsKeys(b, events, b', more);
      } else {
        SilentKeepsKeys(b, events, b1, created);
        var (b2, m) := Append(b1, c, stamp);
        var trimmed := Trim(b2, c.topic, now).1;
        PublishKeepsKeys(b1, events + created, m, b2);
        TrimKeepsIds(b2, c.topic, now);
        SilentKeepsKeys(b2, events + created + PublishEvents(m), b', trimmed);
        EventsRegroup(events, created, PublishEvents(m), trimmed);
      }
    } else {
      SilentKeepsKeys(b, events, b', more);
    }
  }

  lemma {:induction false} ApplyIds<T>(b: Bus<T>, events: seq<Event<T>>, op: Op<T>)
    requires KeysAgree(b, events)
    ensures KeysAgree(Apply(b, op).0, events + Apply(b, op).1)
    ensures op.Do? && op.command.WellFormed() && op.command.commandId.Some? ==>
              Apply(b, op).0.seenCommandIds == b.seenCommandIds + {op.command.commandId.value}
    ensures !(op.Do? && op.command.WellFormed() && op.command.commandId.Some?) ==>
              Apply(b, op).0.seenCommandIds == b.seenCommandIds
  {
    var (b', more) := Apply(b, op);
    match op
    case OpenSubscription(_, _, _) => SilentKeepsKeys(b, events, b', more);
    case Do(c, stamp, now) =>
      ReduceShape(b, c, stamp, now);
      if Admits(b, c) && c.Publish? {
        assert events + [] == events;
        SilentKeepsKeys(b, events, Remember(b, c), []);
        DoPublishIds(Remember(b, c), events, c, stamp, now);
      } else {
        SilentKeepsKeys(b, events, b', more);
      }
  }

  lemma {:induction false} RunIds<T>(b: Bus<T>, ops: seq<Op<T>>)
    requires KeysAgree(b, []) && b.seenCommandIds == {}
    ensures KeysAgree(Run(b, ops).0, Run(b, ops).1)
    ensures forall id :: id in Run(b, ops).0.seenCommandIds <==> exists i :: 0 <= i < |ops| && Uses(ops[i], id)
  {
    if ops != [] {
      var before, op := ops[..|ops| - 1], ops[|ops| - 1];
      RunIds(b, before);
      ApplyIds(Run(b, before).0, Run(b, before).1, op);
      forall id ensures id in Run(b, ops).0.seenCommandIds <==> exists i :: 0 <= i < |ops| && Uses(ops[i], id) {
        assert forall i :: 0 <= i < |before| && Uses(ops[i], id) ==> Uses(before[i], id);
        if id in Run(b, before).0.seenCommandIds {
          var i :| 0 <= i < |before| && Uses(before[i], id);
          assert Uses(ops[i], id);
        } else if Uses(op, id) {
          assert Uses(ops[|ops| - 1], id);
        }
      }
    }
  }

  /** Over any run, no two messages of a topic share an idempotency key. */
  lemma OneMessagePerIdempotencyKey<T>(topics: set<string>, policy: TopicPolicy, retention: Retention,
                                       dedupe: DedupeAction, ops: seq<Op<T>>)
    ensures NoRepeat(Run(Initial<T>(topics, policy, retention, dedupe), ops).1)
  {
    RunIds(Initial<T>(topics, policy, retention, dedupe), ops);
  }

  /** A publish is refused as a repeat exactly when its topic already carries its key. */
  lemma {:induction false} RepeatMeansPublished<T>(topics: set<string>, policy: TopicPolicy, retention: Retention,
                                                   dedupe: DedupeAction, ops: seq<Op<T>>, c: Command<T>)
    requires c.Publish? && c.idempotencyKey.Some?
    ensures var (b, events) := Run(Initial<T>(topics, policy, retention, dedupe), ops);
            IsRepeatedPublish(b, c) <==> WasPublished(events, c.topic, c.idempotencyKey.value)
  {
    RunIds(Initial<T>(topics, policy, retention, dedupe), ops);
  }

  // ---- command ids ----

  /** The operation is a well-formed command with this id. */
  ghost predicate Uses<T>(op: Op<T>, id: string) {
    op.Do? && op.command.WellFormed() && op.command.commandId == Some(id)
  }

  ghost predicate Effective<T>(b: Bus<T>, op: Op<T>) {
    var b' := Apply(b, op).0;
    b'.topics != b.topics || b'.subscriptions != b.subscriptions || b'.policy != b.policy
  }

  /** Of all the commands of a run that share an id, at most one has an effect. */
  lemma {:induction false} OneEffectPerCommandId<T>(topics: set<string>, policy: TopicPolicy, retention: Retention,
                                                    dedupe: DedupeAction, ops: seq<Op<T>>, i: nat, j: nat, id: string)
    requires i < j < |ops| && ops[i].Do? && ops[j].Do?
    requires ops[i].command.commandId == ops[j].command.commandId == Some(id)
    ensures var b0 := Initial<T>(topics, policy, retention, dedupe);
            !(Effective(Run(b0, ops[..i]).0, ops[i]) && Effective(Run(b0, ops[..j]).0, ops[j]))
  {
    var b0 := Initial<T>(topics, policy, retention, dedupe);
    RunIds(b0, ops[..j]);
    ReduceShape(Run(b0, ops[..i]).0, ops[i].command, ops[i].stamp, ops[i].now);
    ReduceShape(Run(b0, ops[..j]).0, ops[j].command, ops[j].stamp, ops[j].now);
    if ops[i].command.WellFormed() {
      assert ops[..j][i] == ops[i] && Uses(ops[..j][i], id);
    }
  }
}
