/**
 * The acknowledgement driver (graphrefly-bindings-py): attempts, acks, nacks, statuses and clock facts
 * arrive in any order; a pending attempt times out once, and once more after the announced retry delay.
 */
module AckDriver {
  import opened Prelude

  const U64_MAX: nat := 0xFFFF_FFFF_FFFF_FFFF

  function SaturatingAdd(a: nat, b: nat): nat {
    if a + b <= U64_MAX then a + b else U64_MAX
  }

  datatype Pending = Pending(
    seqNo: nat, attempt: nat, observedAt: Option<nat>,
    timedOutAttempt: Option<nat>, timedOutAt: Option<nat>,
    retryDueAt: Option<nat>, retryReleasedAttempt: Option<nat>)

  datatype StatusState = Waiting | Exhausted | Other

  datatype Status = Status(pending: nat, state: StatusState, lastSeq: Option<nat>, lastDelay: Option<nat>)

  datatype DriverEvent =
    | Timeout(seqNo: nat, attempt: nat, pending: nat, now: nat)
    | State(pending: nat, now: nat)
    | Issue(pending: nat, lastNow: Option<nat>)

  // ---- one record under one clock fact ----

  function Observed(p: Pending, now: nat): (q: Pending)
    ensures q.observedAt.Some?
  {
    if p.observedAt.None? then p.(observedAt := Some(now)) else p
  }

  predicate FirstDue(p: Pending, now: nat, timeout: nat) {
    p.observedAt.Some? && SaturatingSub(now, p.observedAt.value) >= timeout && p.timedOutAttempt != Some(p.attempt)
  }

  predicate RetryDue(p: Pending, now: nat) {
    p.retryDueAt.Some? && now >= p.retryDueAt.value && p.retryReleasedAttempt != Some(p.attempt)
  }

  predicate Fires(p: Pending, now: nat, timeout: nat) {
    FirstDue(Observed(p, now), now, timeout) || RetryDue(p, now)
  }

  /** The timeout of a record that fires. */
  predicate IsTimeoutOf(ev: DriverEvent, before: map<nat, Pending>, now: nat, timeout: nat) {
    && ev.Timeout? && ev.seqNo in before && Fires(before[ev.seqNo], now, timeout)
    && ev.attempt == before[ev.seqNo].attempt && ev.pending == |before| && ev.now == now
  }

  function Ticked(p: Pending, now: nat, timeout: nat): Pending {
    var q := Observed(p, now);
    if FirstDue(q, now, timeout) then q.(timedOutAttempt := Some(q.attempt), timedOutAt := Some(now))
    else if RetryDue(q, now) then q.(retryReleasedAttempt := Some(q.attempt))
    else q
  }

  /** The retry time a WAITING status sets, while the retry is still to come. */
  function Rescheduled(p: Pending, delay: nat): Pending {
    if p.timedOutAt.Some? && p.retryReleasedAttempt != Some(p.attempt)
    then p.(retryDueAt := Some(SaturatingAdd(p.timedOutAt.value, delay)))
    else p
  }

  // ---- the life of one inserted attempt ----

  /** When it was observed, when it timed out, and the last delay announced between the two timeouts. */
  datatype Life = Life(observedAt: Option<nat>, fired: seq<nat>, delay: Option<nat>)

  /** At most two timeouts: one a full timeout after the observation, one a full delay after the first. */
  ghost predicate LifeOk(l: Life, timeout: nat, now: Option<nat>) {
    && |l.fired| <= 2
    && (l.observedAt.Some? ==> now.Some? && l.observedAt.value <= now.value)
    && (forall i :: 0 <= i < |l.fired| ==> now.Some? && l.fired[i] <= now.value)
    && (|l.fired| >= 1 ==> l.observedAt.Some? && l.fired[0] >= l.observedAt.value + timeout)
    && (|l.fired| == 2 ==> l.delay.Some? && l.fired[1] >= SaturatingAdd(l.fired[0], l.delay.value))
  }

  /** The record's fields say how far its life has come. */
  ghost predicate Tracks(p: Pending, l: Life) {
    && p.observedAt == l.observedAt
    && p.timedOutAttempt == (if |l.fired| >= 1 then Some(p.attempt) else None)
    && p.timedOutAt == (if |l.fired| >= 1 then Some(l.fired[0]) else None)
    && p.retryReleasedAttempt == (if |l.fired| >= 2 then Some(p.attempt) else None)
    && p.retryDueAt == (if |l.fired| >= 1 && l.delay.Some? then Some(SaturatingAdd(l.fired[0], l.delay.value)) else None)
    && (|l.fired| == 0 ==> l.delay.None?)
  }

  ghost function LifeTicked(l: Life, fires: bool, now: nat): Life {
    Life(if l.observedAt.None? then Some(now) else l.observedAt, if fires then l.fired + [now] else l.fired, l.delay)
  }

  ghost function LifeDelayed(l: Life, delay: nat): Life {
    if |l.fired| == 1 then l.(delay := Some(delay)) else l
  }

  /** A clock fact keeps the two in step, and never fires a third time. */
  lemma TickTracks(p: Pending, l: Life, before: Option<nat>, now: nat, timeout: nat)
    requires Tracks(p, l) && LifeOk(l, timeout, before) && (before.Some? ==> before.value <= now)
    ensures var after := LifeTicked(l, Fires(p, now, timeout), now);
            Tracks(Ticked(p, now, timeout), after) && LifeOk(after, timeout, Some(now))
  {
  }

  lemma DelayTracks(p: Pending, l: Life, delay: nat, timeout: nat, now: Option<nat>)
    requires Tracks(p, l) && LifeOk(l, timeout, now)
    ensures Tracks(Rescheduled(p, delay), LifeDelayed(l, delay)) && LifeOk(LifeDelayed(l, delay), timeout, now)
  {
  }

  lemma LaterStillOk(l: Life, timeout: nat, before: Option<nat>, now: nat)
    requires LifeOk(l, timeout, before) && (before.Some? ==> before.value <= now)
    ensures LifeOk(l, timeout, Some(now))
  {
  }

  /** The life of number `i` after a clock fact: its record's, if it is still pending. */
  ghost function MovedLife(pending: map<nat, Pending>, owner: map<nat, nat>, lives: seq<Life>, i: nat, now: nat,
                           timeout: nat): Life
    requires i < |lives| && owner.Keys == pending.Keys
  {
    if exists k: nat :: k in owner && owner[k] == i then
      var k: nat :| k in owner && owner[k] == i;
      LifeTicked(lives[i], Fires(pending[k], now, timeout), now)
    else lives[i]
  }

  /** Every pending record brought to `now`. */
  ghost function TickedAll(pending: map<nat, Pending>, now: nat, timeout: nat): map<nat, Pending> {
    map k | k in pending :: Ticked(pending[k], now, timeout)
  }

  /** Each pending record has a life of its own and is in step with it. */
  ghost predicate OwnedOk(pending: map<nat, Pending>, owner: map<nat, nat>, lives: seq<Life>) {
    && owner.Keys == pending.Keys
    && (forall k :: k in pending ==> pending[k].seqNo == k && owner[k] < |lives| && Tracks(pending[k], lives[owner[k]]))
    && Injective(owner)
  }

  ghost predicate LivesOk(lives: seq<Life>, timeout: nat, now: Option<nat>) {
    forall i :: 0 <= i < |lives| ==> LifeOk(lives[i], timeout, now)
  }

  ghost function MovedLives(pending: map<nat, Pending>, owner: map<nat, nat>, lives: seq<Life>, now: nat, timeout: nat): (r: seq<Life>)
    requires owner.Keys == pending.Keys
    ensures |r| == |lives| && forall i :: 0 <= i < |lives| ==> r[i] == MovedLife(pending, owner, lives, i, now, timeout)
  {
    seq(|lives|, i requires 0 <= i < |lives| && owner.Keys == pending.Keys => MovedLife(pending, owner, lives, i, now, timeout))
  }

  lemma MovedOk(pending: map<nat, Pending>, owner: map<nat, nat>, lives: seq<Life>, i: nat, before: Option<nat>,
                now: nat, timeout: nat)
    requires OwnedOk(pending, owner, lives) && LivesOk(lives, timeout, before) && (before.Some? ==> before.value <= now)
    requires i < |lives|
    ensures LifeOk(MovedLife(pending, owner, lives, i, now, timeout), timeout, Some(now))
  {
    LaterStillOk(lives[i], timeout, before, now);
    if exists k: nat :: k in owner && owner[k] == i {
      var k: nat :| k in owner && owner[k] == i;
      MovedTracks(pending, owner, lives, k, before, now, timeout);
    }
  }

  lemma MovedTracks(pending: map<nat, Pending>, owner: map<nat, nat>, lives: seq<Life>, k: nat, before: Option<nat>,
                    now: nat, timeout: nat)
    requires OwnedOk(pending, owner, lives) && LivesOk(lives, timeout, before) && (before.Some? ==> before.value <= now)
    requires k in pending
    ensures var moved := MovedLife(pending, owner, lives, owner[k], now, timeout);
            Tracks(Ticked(pending[k], now, timeout), moved) && LifeOk(moved, timeout, Some(now))
  {
    assert exists j: nat :: j in owner && owner[j] == owner[k];
    assert forall j: nat :: j in owner && owner[j] == owner[k] ==> j == k;
    assert MovedLife(pending, owner, lives, owner[k], now, timeout)
           == LifeTicked(lives[owner[k]], Fires(pending[k], now, timeout), now);
    TickTracks(pending[k], lives[owner[k]], before, now, timeout);
  }

  lemma {:induction false} AllMove(pending: map<nat, Pending>, owner: map<nat, nat>, lives: seq<Life>,
                                   before: Option<nat>, now: nat, timeout: nat)
    requires OwnedOk(pending, owner, lives) && LivesOk(lives, timeout, before) && (before.Some? ==> before.value <= now)
    ensures LivesOk(MovedLives(pending, owner, lives, now, timeout), timeout, Some(now))
    ensures OwnedOk(TickedAll(pending, now, timeout), owner, MovedLives(pending, owner, lives, now, timeout))
  {
    forall i | 0 <= i < |lives| ensures LifeOk(MovedLife(pending, owner, lives, i, now, timeout), timeout, Some(now)) {
      MovedOk(pending, owner, lives, i, before, now, timeout);
    }
    AllOwned(pending, owner, lives, before, now, timeout);
  }

  lemma {:induction false} AllOwned(pending: map<nat, Pending>, owner: map<nat, nat>, lives: seq<Life>,
                                    before: Option<nat>, now: nat, timeout: nat)
    requires OwnedOk(pending, owner, lives) && LivesOk(lives, timeout, before) && (before.Some? ==> before.value <= now)
    ensures OwnedOk(TickedAll(pending, now, timeout), owner, MovedLives(pending, owner, lives, now, timeout))
  {
    var ticked, moved := TickedAll(pending, now, timeout), MovedLives(pending, owner, lives, now, timeout);
    assert ticked.Keys == pending.Keys;
    forall k | k in ticked ensures ticked[k].seqNo == k && owner[k] < |moved| && Tracks(ticked[k], moved[owner[k]]) {
      MovedTracks(pending, owner, lives, k, before, now, timeout);
      assert ticked[k] == Ticked(pending[k], now, timeout);
    }
  }

  ghost predicate IsLeast(s: set<nat>, m: nat) {
    m in s && forall k :: k in s ==> m <= k
  }

  /** A set of numbers has a least one. */
  lemma {:induction false} LeastExists(s: set<nat>)
    requires s != {}
    ensures exists m :: IsLeast(s, m)
    decreases |s|
  {
    var x: nat :| x in s;
    var rest := s - {x};
    if rest == {} {
      assert s == {x};
      assert IsLeast(s, x);
    } else {
      LeastExists(rest);
      var m :| IsLeast(rest, m);
      assert s == rest + {x};
      assert IsLeast(s, if x <= m then x else m);
    }
  }

  // ---- the events of one clock fact ----

  /** One timeout for each record that fires, in ascending order of number; otherwise one state event. */
  ghost predicate SentFor(events: seq<DriverEvent>, before: map<nat, Pending>, now: nat, timeout: nat) {
    if exists k :: k in before && Fires(before[k], now, timeout) then FiredSoFar(events, before, {}, now, timeout)
    else events == [State(|before|, now)]
  }

  /** The events for the records already visited: those below the ones left. */
  ghost predicate FiredSoFar(events: seq<DriverEvent>, before: map<nat, Pending>, rest: set<nat>, now: nat,
                             timeout: nat) {
    && (forall i :: 0 <= i < |events| ==> IsTimeoutOf(events[i], before, now, timeout))
    && (forall i, j :: 0 <= i < j < |events| ==> events[i].seqNo < events[j].seqNo)
    && (forall k :: k in before && k !in rest && Fires(before[k], now, timeout) ==>
          Timeout(k, before[k].attempt, |before|, now) in events)
    && (forall i, k :: 0 <= i < |events| && k in rest ==> events[i].seqNo < k)
  }

  lemma OneMoreVisited(events: seq<DriverEvent>, before: map<nat, Pending>, rest: set<nat>, k: nat, now: nat,
                       timeout: nat)
    requires FiredSoFar(events, before, rest, now, timeout) && IsLeast(rest, k) && k in before
    ensures var sent := if Fires(before[k], now, timeout) then [Timeout(k, before[k].attempt, |before|, now)] else [];
            FiredSoFar(events + sent, before, rest - {k}, now, timeout)
  {
    if Fires(before[k], now, timeout) {
      var ev := Timeout(k, before[k].attempt, |before|, now);
      assert IsTimeoutOf(ev, before, now, timeout);
      assert ev in events + [ev];
    }
  }

  lemma AllVisited(events: seq<DriverEvent>, before: map<nat, Pending>, now: nat, timeout: nat)
    requires FiredSoFar(events, before, {}, now, timeout)
    ensures SentFor(if events == [] then [State(|before|, now)] else events, before, now, timeout)
  {
    assert events != [] ==> IsTimeoutOf(events[0], before, now, timeout);
  }

  /** A clock fact that is no integer or goes back. */
  predicate Refused(fact: Option<nat>, now: Option<nat>) {
    fact.None? || (now.Some? && fact.value < now.value)
  }

  // ---- every event ever sent ----

  /** An event sent, with the inserted attempt a timeout belongs to. */
  datatype Sent = Sent(event: DriverEvent, life: Option<nat>)

  ghost function Tagged(events: seq<DriverEvent>, owner: map<nat, nat>): (r: seq<Sent>)
    ensures |r| == |events| && forall j :: 0 <= j < |events| ==> r[j] == Tag(events[j], owner)
  {
    seq(|events|, j requires 0 <= j < |events| => Tag(events[j], owner))
  }

  ghost function Tag(event: DriverEvent, owner: map<nat, nat>): Sent {
    Sent(event, if event.Timeout? && event.seqNo in owner then Some(owner[event.seqNo]) else None)
  }

  /** The times of the timeouts sent for inserted attempt number `i`. */
  ghost function TimesOf(log: seq<Sent>, i: nat): seq<nat> {
    if log == [] then []
    else
      var rest, last := TimesOf(log[..|log| - 1], i), log[|log| - 1];
      if last.event.Timeout? && last.life == Some(i) then rest + [last.event.now] else rest
  }

  lemma {:induction false} TimesConcat(a: seq<Sent>, b: seq<Sent>, i: nat)
    ensures TimesOf(a + b, i) == TimesOf(a, i) + TimesOf(b, i)
    decreases |b|
  {
    if b == [] {
      assert a + b == a;
    } else {
      var n := |b| - 1;
      assert (a + b)[..|a + b| - 1] == a + b[..n];
      TimesConcat(a, b[..n], i);
    }
  }

  /** The timeouts sent are those of the lives, and each belongs to one. */
  ghost predicate LogOk(log: seq<Sent>, lives: seq<Life>) {
    && (forall i: nat {:trigger TimesOf(log, i)} :: TimesOf(log, i) == if i < |lives| then lives[i].fired else [])
    && (forall j :: 0 <= j < |log| && log[j].event.Timeout? ==> log[j].life.Some? && log[j].life.value < |lives|)
  }

  ghost predicate BelongsTo(event: DriverEvent, owner: map<nat, nat>, i: nat) {
    event.Timeout? && Tag(event, owner).life == Some(i)
  }

  ghost predicate SomeBelong(events: seq<DriverEvent>, owner: map<nat, nat>, i: nat) {
    exists j :: 0 <= j < |events| && BelongsTo(events[j], owner, i)
  }

  /** Timeouts at `now`, in ascending order of number. */
  ghost predicate Ascending(events: seq<DriverEvent>, now: nat) {
    && (forall j :: 0 <= j < |events| ==> events[j].Timeout? && events[j].now == now)
    && (forall j, k :: 0 <= j < k < |events| ==> events[j].seqNo < events[k].seqNo)
  }

  ghost predicate Injective(owner: map<nat, nat>) {
    forall a, b :: a in owner && b in owner && owner[a] == owner[b] ==> a == b
  }

  lemma NoneBelong(events: seq<DriverEvent>, owner: map<nat, nat>, i: nat)
    requires !SomeBelong(events, owner, i)
    ensures TimesOf(Tagged(events, owner), i) == []
  {
    if events != [] {
      var n := |events| - 1;
      assert Tagged(events, owner)[..n] == Tagged(events[..n], owner);
      NoneBelong(events[..n], owner, i);
      assert !BelongsTo(events[n], owner, i);
    }
  }

  /** Of ascending numbers at most one belongs to attempt `i`. */
  lemma {:induction false} OneTimeAtMost(events: seq<DriverEvent>, owner: map<nat, nat>, now: nat, i: nat)
    requires Injective(owner) && Ascending(events, now)
    ensures TimesOf(Tagged(events, owner), i) == if SomeBelong(events, owner, i) then [now] else []
  {
    if events != [] {
      var n := |events| - 1;
      var rest := events[..n];
      assert Tagged(events, owner)[..n] == Tagged(rest, owner);
      if BelongsTo(events[n], owner, i) {
        assert !SomeBelong(rest, owner, i);
        NoneBelong(rest, owner, i);
      } else {
        OneTimeAtMost(rest, owner, now, i);
        assert SomeBelong(events, owner, i) <==> SomeBelong(rest, owner, i);
      }
    }
  }

  /** Some pending record of attempt `i` fires. */
  ghost predicate FiresFor(pending: map<nat, Pending>, owner: map<nat, nat>, i: nat, now: nat, timeout: nat)
    requires owner.Keys == pending.Keys
  {
    exists k: nat :: k in owner && owner[k] == i && Fires(pending[k], now, timeout)
  }

  lemma BelongIffFires(events: seq<DriverEvent>, pending: map<nat, Pending>, owner: map<nat, nat>, now: nat,
                       timeout: nat, i: nat)
    requires owner.Keys == pending.Keys && FiredSoFar(events, pending, {}, now, timeout)
    ensures SomeBelong(events, owner, i) <==> FiresFor(pending, owner, i, now, timeout)
  {
    if FiresFor(pending, owner, i, now, timeout) {
      var k: nat :| k in owner && owner[k] == i && Fires(pending[k], now, timeout);
      var ev := Timeout(k, pending[k].attempt, |pending|, now);
      assert ev in events && BelongsTo(ev, owner, i);
    }
    if SomeBelong(events, owner, i) {
      var j :| 0 <= j < |events| && BelongsTo(events[j], owner, i);
      assert IsTimeoutOf(events[j], pending, now, timeout);
    }
  }

  lemma FiresMeansMoved(pending: map<nat, Pending>, owner: map<nat, nat>, lives: seq<Life>, now: nat, timeout: nat, i: nat)
    requires OwnedOk(pending, owner, lives)
    ensures FiresFor(pending, owner, i, now, timeout) ==> i < |lives|
    ensures i < |lives| ==>
              MovedLife(pending, owner, lives, i, now, timeout).fired
              == lives[i].fired + if FiresFor(pending, owner, i, now, timeout) then [now] else []
  {
  }

  /** The timeouts of one clock fact are one for each life that moves to one more. */
  lemma SentMatchesLives(events: seq<DriverEvent>, pending: map<nat, Pending>, owner: map<nat, nat>, lives: seq<Life>,
                         now: nat, timeout: nat, i: nat)
    requires OwnedOk(pending, owner, lives) && SentFor(events, pending, now, timeout)
    ensures var times := TimesOf(Tagged(events, owner), i);
            if i < |lives| then MovedLife(pending, owner, lives, i, now, timeout).fired == lives[i].fired + times
            else times == []
  {
    FiresMeansMoved(pending, owner, lives, now, timeout, i);
    if exists k :: k in pending && Fires(pending[k], now, timeout) {
      SentAscends(events, pending, now, timeout);
      OneTimeAtMost(events, owner, now, i);
      BelongIffFires(events, pending, owner, now, timeout, i);
    } else {
      NoneBelong(events, owner, i);
    }
  }

  lemma SentAscends(events: seq<DriverEvent>, pending: map<nat, Pending>, now: nat, timeout: nat)
    requires FiredSoFar(events, pending, {}, now, timeout)
    ensures Ascending(events, now)
  {
    forall j | 0 <= j < |events| ensures events[j].Timeout? && events[j].now == now {
      assert IsTimeoutOf(events[j], pending, now, timeout);
    }
  }

  lemma LogGrows(log: seq<Sent>, events: seq<DriverEvent>, pending: map<nat, Pending>, owner: map<nat, nat>,
                 lives: seq<Life>, now: nat, timeout: nat)
    requires LogOk(log, lives) && OwnedOk(pending, owner, lives) && SentFor(events, pending, now, timeout)
    ensures LogOk(log + Tagged(events, owner), MovedLives(pending, owner, lives, now, timeout))
  {
    var sent := Tagged(events, owner);
    forall i: nat
      ensures TimesOf(log + sent, i) == TimesOf(log, i) + TimesOf(sent, i)
      ensures if i < |lives| then MovedLife(pending, owner, lives, i, now, timeout).fired == lives[i].fired + TimesOf(sent, i)
              else TimesOf(sent, i) == []
    {
      TimesConcat(log, sent, i);
      SentMatchesLives(events, pending, owner, lives, now, timeout, i);
    }
    forall j | 0 <= j < |events| && events[j].Timeout? ensures sent[j].life.Some? && sent[j].life.value < |lives| {
      assert IsTimeoutOf(events[j], pending, now, timeout);
    }
  }

  lemma IssueKeepsLog(log: seq<Sent>, events: seq<DriverEvent>, owner: map<nat, nat>, lives: seq<Life>)
    requires LogOk(log, lives) && |events| == 1 && !events[0].Timeout?
    ensures LogOk(log + Tagged(events, owner), lives)
  {
    forall i: nat ensures TimesOf(log + Tagged(events, owner), i) == TimesOf(log, i) {
      TimesConcat(log, Tagged(events, owner), i);
      NoneBelong(events, owner, i);
    }
  }

  lemma LogStaysOk(log: seq<Sent>, lives: seq<Life>, after: seq<Life>)
    requires LogOk(log, lives) && |lives| <= |after|
    requires forall i :: 0 <= i < |lives| ==> after[i].fired == lives[i].fired
    requires forall i :: |lives| <= i < |after| ==> after[i].fired == []
    ensures LogOk(log, after)
  {
  }

  lemma DelayKeepsAll(pending: map<nat, Pending>, owner: map<nat, nat>, lives: seq<Life>, k: nat, delay: nat,
                      timeout: nat, now: Option<nat>)
    requires OwnedOk(pending, owner, lives) && LivesOk(lives, timeout, now) && k in pending
    ensures var after := lives[owner[k] := LifeDelayed(lives[owner[k]], delay)];
            OwnedOk(pending[k := Rescheduled(pending[k], delay)], owner, after) && LivesOk(after, timeout, now)
  {
    DelayTracks(pending[k], lives[owner[k]], delay, timeout, now);
  }

  // ---- what is due ----

  /**
   * A timeout is due: the first a full timeout after the attempt was observed, the second the last announced
   * delay after the first, or at the end of time.
   */
  predicate Due(l: Life, now: nat, timeout: nat) {
    || (l.fired == [] && (if l.observedAt.Some? then now - l.observedAt.value else 0) >= timeout)
    || (|l.fired| == 1 && l.delay.Some? && (now >= l.fired[0] + l.delay.value || now >= 0xFFFF_FFFF_FFFF_FFFF))
  }

  lemma FiresIffDue(p: Pending, l: Life, before: Option<nat>, now: nat, timeout: nat)
    requires Tracks(p, l) && LifeOk(l, timeout, before) && (before.Some? ==> before.value <= now)
    ensures Fires(p, now, timeout) <==> Due(l, now, timeout)
  {
  }

  function Told(l: Life, now: nat, timeout: nat): Life {
    Life(if l.observedAt.None? then Some(now) else l.observedAt,
         if Due(l, now, timeout) then l.fired + [now] else l.fired, l.delay)
  }

  /** A clock fact observes every pending attempt and fires what is due, once; the other lives stay. */
  ghost predicate LivesTold(owner: map<nat, nat>, before: seq<Life>, after: seq<Life>, now: nat, timeout: nat) {
    && |after| == |before|
    && (forall k :: k in owner ==> owner[k] < |before| && after[owner[k]] == Told(before[owner[k]], now, timeout))
    && (forall i :: 0 <= i < |before| && (forall k :: k in owner ==> owner[k] != i) ==> after[i] == before[i])
  }

  /** One timeout for each pending attempt that has one due, in ascending order of number; else one state event. */
  ghost predicate DueSent(events: seq<DriverEvent>, pending: map<nat, Pending>, owner: map<nat, nat>, lives: seq<Life>,
                          now: nat, timeout: nat)
  {
    && owner.Keys == pending.Keys && (forall k :: k in owner ==> owner[k] < |lives|)
    && (forall k :: k in pending && Due(lives[owner[k]], now, timeout) ==>
          Timeout(k, pending[k].attempt, |pending|, now) in events)
    && (forall e :: e in events && e.Timeout? ==>
          e.seqNo in pending && Due(lives[owner[e.seqNo]], now, timeout)
          && e == Timeout(e.seqNo, pending[e.seqNo].attempt, |pending|, now))
    && (forall i, j :: 0 <= i < j < |events| ==> events[i].Timeout? && events[j].Timeout? && events[i].seqNo < events[j].seqNo)
    && (forall e :: e in events && !e.Timeout? ==> e == State(|pending|, now))
    && events != []
  }

  lemma ToldByMoves(pending: map<nat, Pending>, owner: map<nat, nat>, lives: seq<Life>, before: Option<nat>, now: nat,
                    timeout: nat)
    requires OwnedOk(pending, owner, lives) && LivesOk(lives, timeout, before) && (before.Some? ==> before.value <= now)
    ensures LivesTold(owner, lives, MovedLives(pending, owner, lives, now, timeout), now, timeout)
  {
    forall k | k in owner
      ensures MovedLife(pending, owner, lives, owner[k], now, timeout)
              == LifeTicked(lives[owner[k]], Due(lives[owner[k]], now, timeout), now)
    {
      FiresIffDue(pending[k], lives[owner[k]], before, now, timeout);
      assert forall j: nat :: j in owner && owner[j] == owner[k] ==> j == k;
    }
  }

  lemma SentAreDue(events: seq<DriverEvent>, pending: map<nat, Pending>, owner: map<nat, nat>, lives: seq<Life>,
                   before: Option<nat>, now: nat, timeout: nat)
    requires OwnedOk(pending, owner, lives) && LivesOk(lives, timeout, before) && (before.Some? ==> before.value <= now)
    requires SentFor(events, pending, now, timeout)
    ensures DueSent(events, pending, owner, lives, now, timeout)
  {
    forall k | k in pending ensures Fires(pending[k], now, timeout) <==> Due(lives[owner[k]], now, timeout) {
      FiresIffDue(pending[k], lives[owner[k]], before, now, timeout);
    }
    if exists k :: k in pending && Fires(pending[k], now, timeout) {
      forall e | e in events ensures IsTimeoutOf(e, pending, now, timeout) {
        var i :| 0 <= i < |events| && events[i] == e;
        assert IsTimeoutOf(events[i], pending, now, timeout);
      }
      SentAscends(events, pending, now, timeout);
    }
  }

  class Driver {
    const timeoutMs: nat
    var nowMs: Option<nat>
    var pending: map<nat, Pending>

    // every attempt ever inserted; `owner` says which one a pending record is
    ghost var lives: seq<Life>
    ghost var owner: map<nat, nat>

    // every event ever sent on a clock fact
    ghost var log: seq<Sent>

    constructor (timeoutMs: nat)
      ensures Valid() && this.timeoutMs == timeoutMs && nowMs == None && pending == map[] && lives == [] && log == []
    {
      this.timeoutMs := timeoutMs;
      nowMs, pending, lives, owner, log := None, map[], [], map[], [];
    }

    ghost predicate Owned()
      reads this`pending, this`lives, this`owner
    {
      OwnedOk(pending, owner, lives)
    }

    /** Every life obeys the two-timeout rule, is in step with its record, and is what the events sent say. */
    ghost predicate Valid()
      reads this
    {
      LivesOk(lives, timeoutMs, nowMs) && Owned() && LogOk(log, lives)
    }

    /** A new attempt replaces whatever was pending under its number. */
    method OnAttempt(seqNo: nat, attempt: nat)
      requires Valid()
      modifies this`pending, this`lives, this`owner
      ensures Valid() && pending == old(pending)[seqNo := Pending(seqNo, attempt, nowMs, None, None, None, None)]
      ensures lives == old(lives) + [Life(nowMs, [], None)]
      ensures owner == old(owner)[seqNo := |old(lives)|]
    {
      pending := pending[seqNo := Pending(seqNo, attempt, nowMs, None, None, None, None)];
      owner := owner[seqNo := |lives|];
      lives := lives + [Life(nowMs, [], None)];
    }

    /** An ack or a nack ends the attempt. */
    method OnAckOrNack(ackForSeq: nat)
      requires Valid()
      modifies this`pending, this`owner
      ensures Valid() && pending == old(pending) - {ackForSeq} && owner == old(owner) - {ackForSeq}
    {
      pending := pending - {ackForSeq};
      owner := owner - {ackForSeq};
    }

    method OnStatus(status: Status)
      requires Valid()
      modifies this`pending, this`lives, this`owner
      ensures Valid() && |lives| == |old(lives)|
      ensures forall k :: k in owner ==> k in old(owner) && owner[k] == old(owner)[k]
      ensures if status.pending == 0 then pending == map[] && lives == old(lives)
              else match status.state
                case Exhausted =>
                  lives == old(lives)
                  && pending == if status.lastSeq.Some? then old(pending) - {status.lastSeq.value} else old(pending)
                case Waiting =>
                  if status.lastSeq.Some? && status.lastDelay.Some? && status.lastSeq.value in old(pending) then
                    var k := status.lastSeq.value;
                    && pending == old(pending)[k := Rescheduled(old(pending)[k], status.lastDelay.value)]
                    && old(owner)[k] < |old(lives)|
                    && var l := old(lives)[old(owner)[k]];
                    lives == old(lives)[old(owner)[k] := if |l.fired| == 1 then l.(delay := status.lastDelay) else l]
                  else pending == old(pending) && lives == old(lives)
                case Other => pending == old(pending) && lives == old(lives)
    {
      if status.pending == 0 {
        pending, owner := map[], map[];
      } else if status.state == Exhausted {
        if status.lastSeq.Some? {
          pending := pending - {status.lastSeq.value};
          owner := owner - {status.lastSeq.value};
        }
      } else if status.state == Waiting {
        if status.lastSeq.Some? && status.lastDelay.Some? && status.lastSeq.value in pending {
          Reschedule(status.lastSeq.value, status.lastDelay.value);
        }
      }
    }

    method Reschedule(k: nat, delay: nat)
      requires Valid() && k in pending
      modifies this`pending, this`lives
      ensures Valid() && pending == old(pending)[k := Rescheduled(old(pending)[k], delay)]
      ensures owner[k] < |old(lives)| && lives == old(lives)[owner[k] := LifeDelayed(old(lives)[owner[k]], delay)]
    {
      DelayKeepsAll(pending, owner, lives, k, delay, timeoutMs, nowMs);
      LogStaysOk(log, lives, lives[owner[k] := LifeDelayed(lives[owner[k]], delay)]);
      pending := pending[k := Rescheduled(pending[k], delay)];
      lives := lives[owner[k] := LifeDelayed(lives[owner[k]], delay)];
    }

    /** A clock fact: refused, with the time kept, when it is no integer or goes back. */
    method OnClock(fact: Option<nat>) returns (events: seq<DriverEvent>)
      requires Valid()
      modifies this`nowMs, this`pending, this`lives, this`log
      ensures Valid() && log == old(log) + Tagged(events, owner)
      ensures old(nowMs).Some? ==> nowMs.Some? && old(nowMs).value <= nowMs.value
      ensures fact.None? || (old(nowMs).Some? && fact.value < old(nowMs).value) ==>
                events == [Issue(|pending|, nowMs)] && nowMs == old(nowMs) && pending == old(pending) && lives == old(lives)
      ensures fact.Some? && (old(nowMs).Some? ==> old(nowMs).value <= fact.value) ==>
                && nowMs == fact && pending == TickedAll(old(pending), fact.value, timeoutMs)
                && SentFor(events, old(pending), fact.value, timeoutMs)
                && owner.Keys == old(pending).Keys
                && lives == MovedLives(old(pending), owner, old(lives), fact.value, timeoutMs)
      ensures fact.Some? && (old(nowMs).Some? ==> old(nowMs).value <= fact.value) ==>
                && LivesTold(owner, old(lives), lives, fact.value, timeoutMs)
                && DueSent(events, old(pending), owner, old(lives), fact.value, timeoutMs)
    {
      if Refused(fact, nowMs) {
        events := Refuse();
      } else {
        events := TickTold(fact.value);
      }
    }

    method TickTold(now: nat) returns (events: seq<DriverEvent>)
      requires Valid() && (nowMs.Some? ==> nowMs.value <= now)
      modifies this`nowMs, this`pending, this`lives, this`log
      ensures Valid() && nowMs == Some(now) && log == old(log) + Tagged(events, owner)
      ensures pending == TickedAll(old(pending), now, timeoutMs) && SentFor(events, old(pending), now, timeoutMs)
      ensures owner.Keys == old(pending).Keys && lives == MovedLives(old(pending), owner, old(lives), now, timeoutMs)
      ensures LivesTold(owner, old(lives), lives, now, timeoutMs)
      ensures DueSent(events, old(pending), owner, old(lives), now, timeoutMs)
    {
      ToldByMoves(pending, owner, lives, nowMs, now, timeoutMs);
      events := Tick(now);
      SentAreDue(events, old(pending), owner, old(lives), old(nowMs), now, timeoutMs);
    }

    method Refuse() returns (events: seq<DriverEvent>)
      requires Valid()
      modifies this`log
      ensures Valid() && events == [Issue(|pending|, nowMs)] && log == old(log) + Tagged(events, owner)
    {
      events := [Issue(|pending|, nowMs)];
      IssueKeepsLog(log, events, owner, lives);
      log := log + Tagged(events, owner);
    }

    method Tick(now: nat) returns (events: seq<DriverEvent>)
      requires Valid() && (nowMs.Some? ==> nowMs.value <= now)
      modifies this`nowMs, this`pending, this`lives, this`log
      ensures Valid() && nowMs == Some(now) && log == old(log) + Tagged(events, owner)
      ensures pending == TickedAll(old(pending), now, timeoutMs) && SentFor(events, old(pending), now, timeoutMs)
      ensures owner.Keys == old(pending).Keys && lives == MovedLives(old(pending), owner, old(lives), now, timeoutMs)
    {
      AllMove(pending, owner, lives, nowMs, now, timeoutMs);
      nowMs := Some(now);
      events := VisitAll(now);
      LogGrows(log, events, old(pending), owner, lives, now, timeoutMs);
      log := log + Tagged(events, owner);
      lives := MovedLives(old(pending), owner, lives, now, timeoutMs);
    }

    /** The records in ascending order of number, each brought to `now`. */
    method VisitAll(now: nat) returns (events: seq<DriverEvent>)
      modifies this`pending
      ensures pending == TickedAll(old(pending), now, timeoutMs) && SentFor(events, old(pending), now, timeoutMs)
    {
      ghost var before := pending;
      events := [];
      var rest := pending.Keys;
      while rest != {}
        invariant rest <= pending.Keys == before.Keys
        invariant forall k :: k in before ==> pending[k] == if k in rest then before[k] else Ticked(before[k], now, timeoutMs)
        invariant FiredSoFar(events, before, rest, now, timeoutMs)
        decreases |rest|
      {
        LeastExists(rest);
        var k: nat :| k in rest && forall j :: j in rest ==> k <= j;
        OneMoreVisited(events, before, rest, k, now, timeoutMs);
        assert |pending| == |pending.Keys| == |before.Keys| == |before|;
        if Fires(pending[k], now, timeoutMs) {
          events := events + [Timeout(k, pending[k].attempt, |pending|, now)];
        }
        pending := pending[k := Ticked(pending[k], now, timeoutMs)];
        rest := rest - {k};
      }
      AllVisited(events, before, now, timeoutMs);
      assert |pending| == |pending.Keys| == |before.Keys| == |before|;
      if events == [] { events := [State(|pending|, now)]; }
    }

    /**
     * Whatever the interleaving: of all events ever sent at most two are timeouts of one inserted attempt,
     * neither too early, and every timeout belongs to one.
     */
    lemma TwoTimeoutsAtMost(i: nat)
      requires Valid() && i < |lives|
      ensures var times, l := TimesOf(log, i), lives[i];
              && |times| <= 2
              && (|times| >= 1 ==> l.observedAt.Some? && times[0] - l.observedAt.value >= timeoutMs)
              && (|times| == 2 ==> l.delay.Some?
                                   && (times[1] - times[0] >= l.delay.value || times[1] >= 0xFFFF_FFFF_FFFF_FFFF))
      ensures forall j :: 0 <= j < |log| && log[j].event.Timeout? ==> log[j].life.Some? && log[j].life.value < |lives|
    {
      assert LifeOk(lives[i], timeoutMs, nowMs) && TimesOf(log, i) == lives[i].fired;
    }
  }
}
