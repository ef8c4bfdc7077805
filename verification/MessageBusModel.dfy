/**
 * The message bus of messaging.rs as a step function over values: the command reducer, subscription
 * opening and the page reads.  The two clock readings a command takes are its parameters.
 */
module MessageBusModel {
  import opened Prelude
  import opened Identity

  datatype TopicPolicy = StrictTopics | CreateAsFact

  datatype DedupeAction = ReportStatus | ReportIssue

  datatype Retention = Retention(maxMessages: Option<nat>, maxAgeMs: Option<nat>)

  datatype Envelope<T> = Envelope(
    topic: string,
    seq_: nat,
    payload: T,
    key: Option<string>,
    timestampMs: nat,
    commandId: Option<string>,
    idempotencyKey: Option<string>)

  datatype Topic<T> = Topic(closed: bool, headSeq: nat, nextSeq: nat, messages: seq<Envelope<T>>)

  datatype Subscription = Subscription(topic: string, id: string, nextSeq: nat, closed: bool, retentionGap: bool)

  datatype Command<T> =
    | EnsureTopic(topic: string, commandId: Option<string>)
    | CloseTopic(topic: string, commandId: Option<string>)
    | Publish(topic: string, payload: T, key: Option<string>, commandId: Option<string>, idempotencyKey: Option<string>)
    | SetPolicy(policy: TopicPolicy, commandId: Option<string>)
    | Ack(topic: string, subscriptionId: string, seq_: nat, commandId: Option<string>)
    | Seek(topic: string, subscriptionId: string, nextSeq: nat, commandId: Option<string>)
    | CloseSubscription(topic: string, subscriptionId: string, commandId: Option<string>)
  {
    /** `validate_topic_key` and the subscription-id check. */
    predicate WellFormed() {
      (!SetPolicy? ==> topic != "") && (Ack? || Seek? || CloseSubscription? ==> subscriptionId != "")
    }
  }

  datatype StatusKind =
    | TopicCreated | TopicClosed | MessagePublished | RetentionTrimmed | DuplicateCommand
    | SubscriptionOpened | SubscriptionAcked | SubscriptionSought | SubscriptionClosed

  datatype IssueCode =
    | MalformedCommand | DuplicateCommandIssue | UnknownTopic | ClosedTopic | PolicyRejected
    | UnknownSubscription | SubscriptionIsClosed | RetentionGap | SourceCursorStale | CursorOutOfRange

  datatype Event<T> =
    | Message(message: Envelope<T>)
    | Status(kind: StatusKind, subject: Option<string>, cursor: Option<nat>)
    | Issue(code: IssueCode, about: Option<string>)

  datatype DeadLetter<T> = DeadLetter(entrySeq: nat, topic: Option<string>, command: Option<Command<T>>, code: IssueCode)

  datatype Bus<T> = Bus(
    policy: TopicPolicy,
    retention: Retention,
    dedupe: DedupeAction,
    topics: map<string, Topic<T>>,
    subscriptions: map<string, Subscription>,
    seenCommandIds: set<string>,
    seenIdempotencyKeys: set<string>,
    deadLetters: seq<DeadLetter<T>>)

  type Outcome<T> = (Bus<T>, seq<Event<T>>)

  function SubscriptionKey(topic: string, id: string): string { TupleKey([topic, id]) }

  function IdempotencyKeyFor(topic: string, key: string): string { TupleKey([topic, key]) }

  // ---- issues ----

  function TopicOf<T>(c: Option<Command<T>>): Option<string> {
    match c
    case Some(command) => if command.SetPolicy? then None else Some(command.topic)
    case None => None
  }

  /** An issue goes out as an event and is kept as a numbered dead letter. */
  function Raise<T>(b: Bus<T>, command: Option<Command<T>>, code: IssueCode): Outcome<T> {
    var entry := DeadLetter(|b.deadLetters| + 1, TopicOf(command), command, code);
    (b.(deadLetters := b.deadLetters + [entry]), [Issue(code, TopicOf(command))])
  }

  /** `n` retention-gap issues, one for each subscription newly behind the head. */
  function RaiseGaps<T>(b: Bus<T>, n: nat): Outcome<T> {
    if n == 0 then (b, [])
    else
      var (b', events) := RaiseGaps(b, n - 1);
      var (b'', event) := Raise<T>(b', None, RetentionGap);
      (b'', events + event)
  }

  // ---- the reducer ----

  function Reduce<T>(b: Bus<T>, c: Command<T>, stamp: nat, now: nat): Outcome<T> {
    if !c.WellFormed() then Raise(b, Some(c), MalformedCommand)
    else if c.commandId.Some? && c.commandId.value in b.seenCommandIds then ReportDuplicate(b, c)
    else if IsRepeatedPublish(b, c) then ReportDuplicate(Remember(b, c), c)
    else Dispatch(Remember(b, c), c, stamp, now)
  }

  /** The command id is remembered whatever becomes of the command. */
  function Remember<T>(b: Bus<T>, c: Command<T>): Bus<T> {
    if c.commandId.Some? then b.(seenCommandIds := b.seenCommandIds + {c.commandId.value}) else b
  }

  /** The commands that reach dispatch. */
  predicate Admits<T>(b: Bus<T>, c: Command<T>) {
    c.WellFormed() && !(c.commandId.Some? && c.commandId.value in b.seenCommandIds) && !IsRepeatedPublish(b, c)
  }

  predicate IsRepeatedPublish<T>(b: Bus<T>, c: Command<T>) {
    c.Publish? && c.idempotencyKey.Some? && IdempotencyKeyFor(c.topic, c.idempotencyKey.value) in b.seenIdempotencyKeys
  }

  function ReportDuplicate<T>(b: Bus<T>, c: Command<T>): Outcome<T> {
    if b.dedupe == ReportIssue then Raise(b, Some(c), DuplicateCommandIssue)
    else (b, [Status(DuplicateCommand, TopicOf(Some(c)), None)])
  }

  function Dispatch<T>(b: Bus<T>, c: Command<T>, stamp: nat, now: nat): Outcome<T> {
    match c
    case EnsureTopic(t, _) => DoEnsureTopic(b, t)
    case CloseTopic(t, _) =>
      if t !in b.topics then Raise(b, Some(c), UnknownTopic)
      else (b.(topics := b.topics[t := b.topics[t].(closed := true)]), [Status(TopicClosed, Some(t), None)])
    case SetPolicy(p, _) => (b.(policy := p), [])
    case Publish(_, _, _, _, _) => DoPublish(b, c, stamp, now)
    case Ack(_, _, _, _) => DoAck(b, c)
    case Seek(_, _, _, _) => DoSeek(b, c)
    case CloseSubscription(_, _, _) => DoCloseSubscription(b, c)
  }

  function NewTopic<T>(): Topic<T> { Topic(false, 1, 1, []) }

  function DoEnsureTopic<T>(b: Bus<T>, t: string): Outcome<T> {
    (if t in b.topics then b else b.(topics := b.topics[t := NewTopic()]), [Status(TopicCreated, Some(t), None)])
  }

  function DoPublish<T>(b: Bus<T>, c: Command<T>, stamp: nat, now: nat): Outcome<T>
    requires c.Publish?
  {
    if c.topic !in b.topics && b.policy != CreateAsFact then Raise(b, Some(c), UnknownTopic)
    else
      var (b1, created) := if c.topic in b.topics then (b, []) else DoEnsureTopic(b, c.topic);
      if b1.topics[c.topic].closed then Raise(b1, Some(c), ClosedTopic)
      else
        var (b2, m) := Append(b1, c, stamp);
        var (b3, trimmed) := Trim(b2, c.topic, now);
        (b3, created + [Message(m), Status(MessagePublished, Some(c.topic), Some(m.seq_))] + trimmed)
  }

  /** Puts the message at the tail of its topic and remembers its idempotency key. */
  function Append<T>(b: Bus<T>, c: Command<T>, stamp: nat): (Bus<T>, Envelope<T>)
    requires c.Publish? && c.topic in b.topics
  {
    var topic := b.topics[c.topic];
    var m := Envelope(c.topic, topic.nextSeq, c.payload, c.key, stamp, c.commandId, c.idempotencyKey);
    var keys := if c.idempotencyKey.Some?
                then b.seenIdempotencyKeys + {IdempotencyKeyFor(c.topic, c.idempotencyKey.value)}
                else b.seenIdempotencyKeys;
    (b.(topics := b.topics[c.topic := topic.(nextSeq := topic.nextSeq + 1, messages := topic.messages + [m])],
        seenIdempotencyKeys := keys),
     m)
  }

  // ---- retention ----

  /** The messages no older than `maxAge`, in order; unlike a cut it may drop from the middle. */
  function Fresh<T>(ms: seq<Envelope<T>>, now: nat, maxAge: Option<nat>): (r: seq<Envelope<T>>)
    ensures |r| <= |ms|
  {
    if maxAge.None? then ms
    else if ms == [] then []
    else
      var rest := Fresh(ms[..|ms| - 1], now, maxAge);
      if SaturatingSub(now, ms[|ms| - 1].timestampMs) <= maxAge.value then rest + [ms[|ms| - 1]] else rest
  }

  function LastN<T>(ms: seq<T>, n: Option<nat>): seq<T> {
    if n.None? || |ms| <= n.value then ms else ms[|ms| - n.value..]
  }

  function HeadOf<T>(ms: seq<Envelope<T>>, nextSeq: nat): nat {
    if ms == [] then nextSeq else ms[0].seq_
  }

  predicate FallsBehind(s: Subscription, topic: string, headSeq: nat) {
    !s.closed && s.topic == topic && s.nextSeq < headSeq && !s.retentionGap
  }

  function MarkBehind(subs: map<string, Subscription>, topic: string, headSeq: nat): map<string, Subscription> {
    map k | k in subs :: if FallsBehind(subs[k], topic, headSeq) then subs[k].(retentionGap := true) else subs[k]
  }

  function BehindKeys(subs: map<string, Subscription>, topic: string, headSeq: nat): set<string> {
    set k | k in subs && FallsBehind(subs[k], topic, headSeq)
  }

  function Trim<T>(b: Bus<T>, t: string, now: nat): Outcome<T> {
    if t !in b.topics then (b, [])
    else
      var topic := b.topics[t];
      var young := Fresh(topic.messages, now, b.retention.maxAgeMs);
      if b.retention.maxMessages == Some(0) then
        Raise<T>(b.(topics := b.topics[t := topic.(messages := young)]), None, PolicyRejected)
      else
        var kept := LastN(young, b.retention.maxMessages);
        var head := HeadOf(kept, topic.nextSeq);
        var b1 := b.(topics := b.topics[t := topic.(messages := kept, headSeq := head)]);
        if head == topic.headSeq then (b1, [])
        else
          var b2 := b1.(subscriptions := MarkBehind(b1.subscriptions, t, head));
          var (b3, issues) := RaiseGaps(b2, |BehindKeys(b1.subscriptions, t, head)|);
          (b3, [Status(RetentionTrimmed, Some(t), Some(head))] + issues)
  }

  // ---- cursors ----

  /** The shared checks of ack and seek: topic, subscription and its state, in the code's order. */
  function CursorProblem<T>(b: Bus<T>, t: string, id: string): Option<IssueCode> {
    var k := SubscriptionKey(t, id);
    if t !in b.topics then Some(UnknownTopic)
    else if k !in b.subscriptions then Some(UnknownSubscription)
    else if b.subscriptions[k].closed then Some(SubscriptionIsClosed)
    else None
  }

  function AckProblem<T>(b: Bus<T>, c: Command<T>): Option<IssueCode>
    requires c.Ack?
  {
    match CursorProblem(b, c.topic, c.subscriptionId)
    case Some(code) => Some(code)
    case None =>
      var s := b.subscriptions[SubscriptionKey(c.topic, c.subscriptionId)];
      if s.retentionGap then Some(RetentionGap)
      else if c.seq_ < s.nextSeq then Some(SourceCursorStale)
      else if c.seq_ >= b.topics[c.topic].nextSeq then Some(CursorOutOfRange)
      else None
  }

  function DoAck<T>(b: Bus<T>, c: Command<T>): Outcome<T>
    requires c.Ack?
  {
    match AckProblem(b, c)
    case Some(code) => Raise<T>(b, None, code)
    case None =>
      var k := SubscriptionKey(c.topic, c.subscriptionId);
      (b.(subscriptions := b.subscriptions[k := b.subscriptions[k].(nextSeq := c.seq_ + 1)]),
       [Status(SubscriptionAcked, Some(c.topic), Some(c.seq_ + 1))])
  }

  function SeekProblem<T>(b: Bus<T>, c: Command<T>): Option<IssueCode>
    requires c.Seek?
  {
    match CursorProblem(b, c.topic, c.subscriptionId)
    case Some(code) => Some(code)
    case None =>
      if c.nextSeq < b.topics[c.topic].headSeq then Some(RetentionGap)
      else if c.nextSeq > b.topics[c.topic].nextSeq then Some(CursorOutOfRange)
      else None
  }

  function DoSeek<T>(b: Bus<T>, c: Command<T>): Outcome<T>
    requires c.Seek?
  {
    match SeekProblem(b, c)
    case Some(code) => Raise<T>(b, None, code)
    case None =>
      var k := SubscriptionKey(c.topic, c.subscriptionId);
      var s := b.subscriptions[k].(nextSeq := c.nextSeq, retentionGap := false);
      (b.(subscriptions := b.subscriptions[k := s]), [Status(SubscriptionSought, Some(c.topic), Some(c.nextSeq))])
  }

  function DoCloseSubscription<T>(b: Bus<T>, c: Command<T>): Outcome<T>
    requires c.CloseSubscription?
  {
    var k := SubscriptionKey(c.topic, c.subscriptionId);
    if c.topic !in b.topics then Raise<T>(b, None, UnknownTopic)
    else if k !in b.subscriptions then Raise<T>(b, None, UnknownSubscription)
    else
      var s := b.subscriptions[k];
      (b.(subscriptions := b.subscriptions[k := s.(closed := true)]),
       [Status(SubscriptionClosed, Some(c.topic), Some(s.nextSeq))])
  }

  // ---- opening a subscription ----

  datatype From = Earliest | Latest | AtSeq(s: nat)

  function StartSeq<T>(b: Bus<T>, t: string, from: From): nat {
    match from
    case Earliest => if t in b.topics then b.topics[t].headSeq else 1
    case Latest => if t in b.topics then b.topics[t].nextSeq else 1
    case AtSeq(s) => s
  }

  predicate StartOutOfRange<T>(b: Bus<T>, t: string, from: From) {
    t in b.topics && !(b.topics[t].headSeq <= StartSeq(b, t, from) <= b.topics[t].nextSeq)
  }

  /** An existing subscription is returned as it is; a new one starts where asked, if that is retained. */
  function Open<T>(b: Bus<T>, t: string, id: string, from: From): Outcome<T> {
    var k := SubscriptionKey(t, id);
    if k in b.subscriptions then (b, [])
    else
      var bad := StartOutOfRange(b, t, from);
      var start := if bad then b.topics[t].headSeq else StartSeq(b, t, from);
      var gap := t in b.topics && start < b.topics[t].headSeq;
      var entry := DeadLetter(|b.deadLetters| + 1, Some(t), None, CursorOutOfRange);
      (b.(subscriptions := b.subscriptions[k := Subscription(t, id, start, false, gap)],
          deadLetters := if bad then b.deadLetters + [entry] else b.deadLetters),
       [Status(SubscriptionOpened, Some(t), Some(start))] + (if bad then [Issue(CursorOutOfRange, Some(t))] else []))
  }

  // ---- reads ----

  datatype Page<T> = Page(messages: seq<Envelope<T>>, fromSeq: nat, throughSeq: Option<nat>, nextAfterSeq: Option<nat>, hasMore: bool)

  function Since<T>(ms: seq<Envelope<T>>, start: nat): (r: seq<Envelope<T>>)
    ensures |r| <= |ms|
  {
    if ms == [] then []
    else
      var rest := Since(ms[..|ms| - 1], start);
      if ms[|ms| - 1].seq_ >= start then rest + [ms[|ms| - 1]] else rest
  }

  function PageOf<T>(all: seq<Envelope<T>>, start: nat, limit: nat): Page<T>
    requires limit > 0
  {
    var more := |all| > limit;
    var ms := if more then all[..limit] else all;
    var through := if ms == [] then None else Some(ms[|ms| - 1].seq_);
    Page(ms, start, through, if more then through else None, more)
  }

  /** `available_page`: nothing while a gap is flagged, else the retained messages from the cursor on. */
  function AvailablePage<T>(b: Bus<T>, key: string, afterSeq: Option<nat>, limit: nat): Page<T>
    requires key in b.subscriptions && limit > 0
  {
    var s := b.subscriptions[key];
    var start := if afterSeq.Some? then afterSeq.value + 1 else s.nextSeq;
    var all := if s.retentionGap || s.topic !in b.topics then [] else Since(b.topics[s.topic].messages, start);
    PageOf(all, start, limit)
  }

  function TopicPage<T>(b: Bus<T>, t: string, afterSeq: Option<nat>, limit: nat): Page<T>
    requires limit > 0
  {
    var start := if afterSeq.Some? then afterSeq.value + 1 else if t in b.topics then b.topics[t].headSeq else 1;
    PageOf(if t in b.topics then Since(b.topics[t].messages, start) else [], start, limit)
  }

  // ---- runs ----

  /** One operation on the bus; a command carries its publish stamp and its later retention reading. */
  datatype Op<T> = Do(command: Command<T>, stamp: nat, now: nat) | OpenSubscription(topic: string, id: string, from: From)

  function Apply<T>(b: Bus<T>, op: Op<T>): Outcome<T> {
    match op
    case Do(c, stamp, now) => Reduce(b, c, stamp, now)
    case OpenSubscription(t, id, from) => Open(b, t, id, from)
  }

  function Run<T>(b: Bus<T>, ops: seq<Op<T>>): Outcome<T> {
    if ops == [] then (b, [])
    else
      var (b1, events) := Run(b, ops[..|ops| - 1]);
      var (b2, more) := Apply(b1, ops[|ops| - 1]);
      (b2, events + more)
  }

  function Initial<T>(topics: set<string>, policy: TopicPolicy, retention: Retention, dedupe: DedupeAction): Bus<T> {
    Bus(policy, retention, dedupe, map t | t in topics :: NewTopic(), map[], {}, {}, [])
  }

  /** Everything ever published to a topic, read off the events of a run. */
  function Published<T>(events: seq<Event<T>>, t: string): seq<Envelope<T>> {
    if events == [] then []
    else
      var rest := Published(events[..|events| - 1], t);
      var e := events[|events| - 1];
      if e.Message? && e.message.topic == t then rest + [e.message] else rest
  }

  function LastReading<T>(ops: seq<Op<T>>): nat {
    if ops == [] then 0
    else if ops[|ops| - 1].Do? then ops[|ops| - 1].now
    else LastReading(ops[..|ops| - 1])
  }

  /** The clock never goes back. */
  predicate ClockMonotone<T>(ops: seq<Op<T>>) {
    ops == [] || (ClockMonotone(ops[..|ops| - 1]) &&
                  var op := ops[|ops| - 1];
                  op.Do? ==> LastReading(ops[..|ops| - 1]) <= op.stamp <= op.now)
  }
}
