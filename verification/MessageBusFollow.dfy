/**
 * Paging while the bus runs on: a reader fetches a page, later the next one from where it stands, and in
 * between messages are published and trimmed.
 */
module MessageBusFollow {
  import opened Prelude
  import opened MessageBusModel
  import opened MessageBusLog
  import opened MessageBusReaders

  // ---- on sequence numbers ----

  /** A topic when a page of up to `limit` is fetched: the retained numbers are `head` to `len`. */
  datatype Glimpse = Glimpse(head: nat, len: nat, limit: nat)

  /** Heads and lengths never fall. */
  ghost predicate Ordered(gs: seq<Glimpse>) {
    && (forall i :: 0 <= i < |gs| ==> 1 <= gs[i].head <= gs[i].len + 1 && gs[i].limit > 0)
    && (forall i, j :: 0 <= i < j < |gs| ==> gs[i].head <= gs[j].head && gs[i].len <= gs[j].len)
  }

  function Lo(place: nat, g: Glimpse): nat {
    if place < g.head then g.head else place
  }

  /** A page holds the numbers from `Lo` up to, not including, `Hi`. */
  function Hi(place: nat, g: Glimpse): nat {
    var lo := Lo(place, g);
    if lo + g.limit <= g.len + 1 then lo + g.limit else if lo <= g.len then g.len + 1 else lo
  }

  /** The number a reader stands at after its pages. */
  function Place(floor: nat, gs: seq<Glimpse>): nat {
    if gs == [] then floor
    else
      var place, g := Place(floor, gs[..|gs| - 1]), gs[|gs| - 1];
      if Lo(place, g) < Hi(place, g) then Hi(place, g) else place
  }

  function Range(lo: nat, hi: nat): (r: seq<nat>)
    requires lo <= hi
    ensures |r| == hi - lo && forall i :: 0 <= i < |r| ==> r[i] == lo + i
  {
    seq(hi - lo, i requires 0 <= i => lo + i)
  }

  /** The numbers a reader has read. */
  function Numbers(floor: nat, gs: seq<Glimpse>): seq<nat> {
    if gs == [] then []
    else
      var init, g := gs[..|gs| - 1], gs[|gs| - 1];
      var place := Place(floor, init);
      Numbers(floor, init) + Range(Lo(place, g), Hi(place, g))
  }

  /**
   * The reader stood at or before `s` when it fetched page `i`, and a trim had taken `s`; at the page before
   * it was not trimmed yet.
   */
  predicate LostAt(floor: nat, gs: seq<Glimpse>, i: nat, s: nat)
    requires i < |gs|
  {
    Place(floor, gs[..i]) <= s < gs[i].head && (i > 0 ==> gs[i - 1].head <= s)
  }

  ghost predicate Lost(floor: nat, gs: seq<Glimpse>, s: nat) {
    exists i :: 0 <= i < |gs| && LostAt(floor, gs, i, s)
  }

  lemma {:induction false} PlaceRises(floor: nat, gs: seq<Glimpse>, i: nat)
    requires i <= |gs|
    ensures floor <= Place(floor, gs[..i]) <= Place(floor, gs)
    decreases |gs|, |gs| - i
  {
    if i < |gs| {
      var init := gs[..|gs| - 1];
      PlaceRises(floor, init, i);
      assert init[..i] == gs[..i];
    } else {
      assert gs[..i] == gs;
      if gs != [] { PlaceRises(floor, gs[..|gs| - 1], 0); }
    }
  }

  /** The least page whose head lies past `s`. */
  lemma {:induction false} FirstPast(gs: seq<Glimpse>, s: nat, n: nat) returns (i: nat)
    requires n < |gs| && s < gs[n].head
    ensures i <= n && s < gs[i].head && (i > 0 ==> gs[i - 1].head <= s)
  {
    if n == 0 || gs[n - 1].head <= s { i := n; } else { i := FirstPast(gs, s, n - 1); }
  }

  lemma LostStays(floor: nat, gs: seq<Glimpse>, s: nat)
    requires gs != []
    ensures Lost(floor, gs[..|gs| - 1], s) ==> Lost(floor, gs, s)
    ensures Lost(floor, gs, s) && !Lost(floor, gs[..|gs| - 1], s) ==> LostAt(floor, gs, |gs| - 1, s)
  {
    var init := gs[..|gs| - 1];
    forall i | 0 <= i < |init| ensures LostAt(floor, init, i, s) <==> LostAt(floor, gs, i, s) {
      assert init[..i] == gs[..i];
    }
  }

  /** Skipped numbers are lost ones: some trim took them while the reader stood before them. */
  lemma SkippedIsLost(floor: nat, gs: seq<Glimpse>, s: nat)
    requires gs != [] && Ordered(gs)
    requires Place(floor, gs[..|gs| - 1]) <= s < gs[|gs| - 1].head
    ensures Lost(floor, gs, s)
  {
    var i := FirstPast(gs, s, |gs| - 1);
    PlaceRises(floor, gs[..|gs| - 1], i);
    assert gs[..|gs| - 1][..i] == gs[..i];
    assert LostAt(floor, gs, i, s);
  }

  /** What a page holds is not lost at any page so far. */
  lemma PagedIsKept(floor: nat, gs: seq<Glimpse>, s: nat)
    requires gs != [] && Ordered(gs) && gs[|gs| - 1].head <= s
    ensures !Lost(floor, gs, s)
  {
  }

  /** Of the numbers a reader has passed, it has read exactly those that no trim took before it came to them. */
  lemma {:induction false} ReadIffKept(floor: nat, gs: seq<Glimpse>, s: nat)
    requires Ordered(gs)
    ensures s in Numbers(floor, gs) <==> floor <= s < Place(floor, gs) && !Lost(floor, gs, s)
  {
    if gs != [] {
      ReadIffKept(floor, gs[..|gs| - 1], s);
      OneMorePage(floor, gs, s);
    }
  }

  lemma OneMorePage(floor: nat, gs: seq<Glimpse>, s: nat)
    requires gs != [] && Ordered(gs)
    requires var init := gs[..|gs| - 1];
             s in Numbers(floor, init) <==> floor <= s < Place(floor, init) && !Lost(floor, init, s)
    ensures s in Numbers(floor, gs) <==> floor <= s < Place(floor, gs) && !Lost(floor, gs, s)
  {
    var init, g := gs[..|gs| - 1], gs[|gs| - 1];
    var place := Place(floor, init);
    PageNumbers(Lo(place, g), Hi(place, g), s);
    assert s in Numbers(floor, gs) <==> s in Numbers(floor, init) || Lo(place, g) <= s < Hi(place, g);
    FloorBelow(floor, init);
    LostStays(floor, gs, s);
    if g.head <= s { PagedIsKept(floor, gs, s); }
    if place <= s < g.head { SkippedIsLost(floor, gs, s); }
  }

  lemma FloorBelow(floor: nat, gs: seq<Glimpse>)
    ensures floor <= Place(floor, gs)
  {
    PlaceRises(floor, gs, 0);
    assert gs[..0] == [];
  }

  lemma PageNumbers(lo: nat, hi: nat, s: nat)
    requires lo <= hi
    ensures s in Range(lo, hi) <==> lo <= s < hi
  {
    if lo <= s < hi { assert Range(lo, hi)[s - lo] == s; }
  }

  ghost predicate Ascending(s: seq<nat>) {
    forall i, j :: 0 <= i < j < |s| ==> s[i] < s[j]
  }

  lemma {:induction false} NumbersAscend(floor: nat, gs: seq<Glimpse>)
    requires Ordered(gs)
    ensures Ascending(Numbers(floor, gs))
    ensures forall i :: 0 <= i < |Numbers(floor, gs)| ==>
              floor <= Numbers(floor, gs)[i] < Place(floor, gs) && 1 <= Numbers(floor, gs)[i] <= gs[|gs| - 1].len
  {
    if gs != [] {
      NumbersAscend(floor, gs[..|gs| - 1]);
      PlaceRises(floor, gs[..|gs| - 1], 0);
      assert gs[..|gs| - 1][..0] == [];
    }
  }

  /** A lost number is lost at one page. */
  lemma LostOnce(floor: nat, gs: seq<Glimpse>, i: nat, j: nat, s: nat)
    requires Ordered(gs) && i < |gs| && j < |gs| && LostAt(floor, gs, i, s) && LostAt(floor, gs, j, s)
    ensures i == j
  {
  }

  ghost predicate SameNumbers(a: seq<nat>, b: seq<nat>) {
    forall x :: x in a <==> x in b
  }

  lemma {:induction false} AscendingUnique(a: seq<nat>, b: seq<nat>)
    requires Ascending(a) && Ascending(b) && SameNumbers(a, b)
    ensures a == b
  {
    BothEmpty(a, b);
    if a != [] {
      WithoutLast(a, b);
      AscendingUnique(a[..|a| - 1], b[..|b| - 1]);
      assert a == a[..|a| - 1] + [a[|a| - 1]] && b == b[..|b| - 1] + [b[|b| - 1]];
    }
  }

  lemma BothEmpty(a: seq<nat>, b: seq<nat>)
    requires SameNumbers(a, b)
    ensures a == [] <==> b == []
  {
    if a != [] { assert a[0] in b; }
    if b != [] { assert b[0] in a; }
  }

  lemma WithoutLast(a: seq<nat>, b: seq<nat>)
    requires Ascending(a) && Ascending(b) && SameNumbers(a, b) && a != [] && b != []
    ensures a[|a| - 1] == b[|b| - 1] && SameNumbers(a[..|a| - 1], b[..|b| - 1])
    ensures Ascending(a[..|a| - 1]) && Ascending(b[..|b| - 1])
  {
    SameLast(a, b);
    var a', b' := a[..|a| - 1], b[..|b| - 1];
    forall z: nat ensures z in a' <==> z in b' {
      ButLast(a, z);
      ButLast(b, z);
    }
  }

  lemma ButLast(a: seq<nat>, z: nat)
    requires Ascending(a) && a != []
    ensures z in a[..|a| - 1] <==> z in a && z != a[|a| - 1]
  {
  }

  lemma SameLast(a: seq<nat>, b: seq<nat>)
    requires Ascending(a) && Ascending(b) && a != [] && b != []
    requires SameNumbers(a, b)
    ensures a[|a| - 1] == b[|b| - 1]
  {
    assert a[|a| - 1] in b && b[|b| - 1] in a;
    var i :| 0 <= i < |a| && a[i] == b[|b| - 1];
    var j :| 0 <= j < |b| && b[j] == a[|a| - 1];
  }

  /** Whenever the reader moved on past its place, that was not behind the head. */
  ghost predicate NeverBehind(floor: nat, gs: seq<Glimpse>) {
    forall i :: 0 <= i < |gs| ==> gs[i].head <= Place(floor, gs[..i]) || Place(floor, gs[..i]) == Place(floor, gs)
  }

  /** Exactly then it has read everything it passed. */
  lemma {:induction false} NoHoleIff(floor: nat, gs: seq<Glimpse>)
    requires Ordered(gs)
    ensures floor <= Place(floor, gs)
    ensures Numbers(floor, gs) == Range(floor, Place(floor, gs)) <==> NeverBehind(floor, gs)
  {
    FloorBelow(floor, gs);
    var all := Range(floor, Place(floor, gs));
    if NeverBehind(floor, gs) {
      forall s ensures s in Numbers(floor, gs) <==> s in all {
        ReadIffKept(floor, gs, s);
        PageNumbers(floor, Place(floor, gs), s);
      }
      NumbersAscend(floor, gs);
      AscendingUnique(Numbers(floor, gs), all);
    } else {
      var i :| 0 <= i < |gs| && !(gs[i].head <= Place(floor, gs[..i]) || Place(floor, gs[..i]) == Place(floor, gs));
      BehindLoses(floor, gs, i);
      PageNumbers(floor, Place(floor, gs), Place(floor, gs[..i]));
    }
  }

  lemma BehindLoses(floor: nat, gs: seq<Glimpse>, i: nat)
    requires Ordered(gs) && i < |gs|
    requires Place(floor, gs[..i]) < gs[i].head && Place(floor, gs[..i]) != Place(floor, gs)
    ensures floor <= Place(floor, gs[..i]) < Place(floor, gs) && Place(floor, gs[..i]) !in Numbers(floor, gs)
  {
    var s := Place(floor, gs[..i]);
    PlaceRises(floor, gs, i);
    var k := FirstPast(gs, s, i);
    PlaceRises(floor, gs[..i], k);
    assert gs[..i][..k] == gs[..k];
    assert LostAt(floor, gs, k, s);
    ReadIffKept(floor, gs, s);
  }

  // ---- on the bus ----

  /** The bus when a page is fetched, with what had been published to the topic by then. */
  datatype Moment<T> = Moment(bus: Bus<T>, history: seq<Envelope<T>>, clock: nat, limit: nat)

  function HeadIn<T>(b: Bus<T>, t: string): nat {
    if t in b.topics then b.topics[t].headSeq else 1
  }

  function GlimpseOf<T>(m: Moment<T>, t: string): Glimpse {
    Glimpse(HeadIn(m.bus, t), |m.history|, m.limit)
  }

  function Glimpses<T>(ms: seq<Moment<T>>, t: string): (gs: seq<Glimpse>)
    ensures |gs| == |ms| && forall i :: 0 <= i < |gs| ==> gs[i] == GlimpseOf(ms[i], t)
  {
    seq(|ms|, i requires 0 <= i < |ms| => GlimpseOf(ms[i], t))
  }

  /** The place after which the next page is asked for, and everything read. */
  datatype Reading<T> = Reading(after: Option<nat>, read: seq<Envelope<T>>)

  /** The next place is the page's `throughSeq`, which is also its `nextAfterSeq` where there is more. */
  function ReadOnto<T>(r: Reading<T>, page: Page<T>): (r': Reading<T>)
    ensures r.after.Some? ==> r'.after.Some?
  {
    Reading(if page.throughSeq.Some? then page.throughSeq else r.after, r.read + page.messages)
  }

  function NextReading<T>(r: Reading<T>, m: Moment<T>, t: string): Reading<T>
    requires m.limit > 0
  {
    ReadOnto(r, TopicPage(m.bus, t, r.after, m.limit))
  }

  /** Page after page of a topic, each from the last message read on. */
  function ReadTopic<T>(t: string, after: Option<nat>, ms: seq<Moment<T>>): Reading<T>
    requires forall i :: 0 <= i < |ms| ==> ms[i].limit > 0
  {
    if ms == [] then Reading(after, []) else NextReading(ReadTopic(t, after, ms[..|ms| - 1]), ms[|ms| - 1], t)
  }

  /** The number a reader starts at: after what it was given, or at the head when it first looks. */
  function Floor<T>(t: string, after: Option<nat>, ms: seq<Moment<T>>): nat {
    if after.Some? then after.value + 1 else if ms == [] then 1 else HeadIn(ms[0].bus, t)
  }

  /** Moments of one run, in order, with the whole history `p`. */
  ghost predicate OneRun<T>(ms: seq<Moment<T>>, t: string, p: seq<Envelope<T>>) {
    && (forall i :: 0 <= i < |ms| ==> ms[i].limit > 0 && Fits(ms[i], t, p))
    && Ordered(Glimpses(ms, t))
  }

  ghost predicate Fits<T>(m: Moment<T>, t: string, p: seq<Envelope<T>>) {
    TopicAgrees(m.bus, m.history, t, m.clock) && m.history <= p
  }

  // ---- one page ----

  /** What a page is cut from. */
  function Tail<T>(p: seq<Envelope<T>>, lo: nat): seq<Envelope<T>> {
    if 1 <= lo <= |p| then p[lo - 1..] else []
  }

  ghost predicate Numbered<T>(p: seq<Envelope<T>>) {
    forall i :: 0 <= i < |p| ==> p[i].seq_ == i + 1
  }

  /** The page is that range of the history. */
  ghost predicate Shows<T>(page: Page<T>, p: seq<Envelope<T>>, lo: nat, hi: nat) {
    if lo < hi then 1 <= lo && hi <= |p| + 1 && page.messages == p[lo - 1..hi - 1] && page.throughSeq == Some(hi - 1)
    else page.messages == [] && page.throughSeq == None
  }

  /** The history from the reader's place or the head on. */
  lemma SinceIsTail<T>(b: Bus<T>, p: seq<Envelope<T>>, t: string, clock: nat, start: nat)
    requires TopicAgrees(b, p, t, clock) && t in b.topics
    ensures Since(b.topics[t].messages, start) == Tail(p, Lo(start, Glimpse(HeadIn(b, t), |p|, 1)))
  {
    TailContiguous(b.topics[t], p, t, clock);
    SinceCut(p, b.topics[t].headSeq, start);
  }

  lemma SinceCut<T>(p: seq<Envelope<T>>, head: nat, start: nat)
    requires 1 <= head <= |p| + 1 && Contiguous(p[head - 1..], head)
    ensures Since(p[head - 1..], start) == Tail(p, Lo(start, Glimpse(head, |p|, 1)))
  {
    SinceIsSuffix(p[head - 1..], head, start);
    DropTwice(p, head - 1, Skipped(head, start, |p| - (head - 1)));
  }

  function StartOf<T>(b: Bus<T>, t: string, after: Option<nat>): nat {
    if after.Some? then after.value + 1 else HeadIn(b, t)
  }

  lemma PageIsCut<T>(m: Moment<T>, t: string, p: seq<Envelope<T>>, after: Option<nat>)
    requires Fits(m, t, p) && m.limit > 0
    ensures Numbered(m.history) && 1 <= HeadIn(m.bus, t) && m.history <= p
    ensures var start := StartOf(m.bus, t, after);
            TopicPage(m.bus, t, after, m.limit) == PageOf(Tail(m.history, Lo(start, GlimpseOf(m, t))), start, m.limit)
  {
    if t in m.bus.topics { SinceIsTail(m.bus, m.history, t, m.clock, StartOf(m.bus, t, after)); }
  }

  lemma PageOfTail<T>(p: seq<Envelope<T>>, start: nat, place: nat, g: Glimpse)
    requires Numbered(p) && g.len == |p| && g.limit > 0 && 1 <= g.head && Lo(place, g) == Lo(start, g)
    ensures Shows(PageOf(Tail(p, Lo(start, g)), start, g.limit), p, Lo(place, g), Hi(place, g))
  {
  }

  ghost predicate StandsAt<T>(m: Moment<T>, t: string, after: Option<nat>, place: nat) {
    if after.Some? then place == after.value + 1 else place <= HeadIn(m.bus, t)
  }

  lemma ShowsMore<T>(page: Page<T>, now: seq<Envelope<T>>, p: seq<Envelope<T>>, lo: nat, hi: nat)
    requires Shows(page, now, lo, hi) && now <= p
    ensures Shows(page, p, lo, hi)
  {
    if lo < hi { assert now[lo - 1..hi - 1] == p[lo - 1..hi - 1]; }
  }

  /** A page is its range of the history. */
  lemma PageIsRange<T>(m: Moment<T>, t: string, p: seq<Envelope<T>>, after: Option<nat>, place: nat)
    requires Fits(m, t, p) && m.limit > 0 && StandsAt(m, t, after, place)
    ensures Shows(TopicPage(m.bus, t, after, m.limit), p, Lo(place, GlimpseOf(m, t)), Hi(place, GlimpseOf(m, t)))
  {
    var g := GlimpseOf(m, t);
    PageIsCut(m, t, p, after);
    PageOfTail(m.history, StartOf(m.bus, t, after), place, g);
    ShowsMore(TopicPage(m.bus, t, after, m.limit), m.history, p, Lo(place, g), Hi(place, g));
  }

  // ---- all pages ----

  /** The history's messages with these numbers. */
  ghost function Messages<T>(p: seq<Envelope<T>>, numbers: seq<nat>): (ms: seq<Envelope<T>>)
    requires forall i :: 0 <= i < |numbers| ==> 1 <= numbers[i] <= |p|
    ensures |ms| == |numbers| && forall i :: 0 <= i < |ms| ==> ms[i] == p[numbers[i] - 1]
  {
    seq(|numbers|, i requires 0 <= i < |numbers| => p[numbers[i] - 1])
  }

  /** How the reader's state follows from the numbers it has read and the number it stands at. */
  ghost predicate FollowsFrom<T>(r: Reading<T>, after: Option<nat>, floor: nat, numbers: seq<nat>, place: nat,
                                 p: seq<Envelope<T>>) {
    && (forall i :: 0 <= i < |numbers| ==> 1 <= numbers[i] <= |p|)
    && r.read == Messages(p, numbers)
    && (if after.None? && numbers == [] then r.after == None && place == floor
        else place >= 1 && r.after == Some(place - 1))
  }

  ghost predicate Follows<T>(r: Reading<T>, after: Option<nat>, floor: nat, gs: seq<Glimpse>, p: seq<Envelope<T>>) {
    FollowsFrom(r, after, floor, Numbers(floor, gs), Place(floor, gs), p)
  }

  lemma MessagesConcat<T>(p: seq<Envelope<T>>, a: seq<nat>, lo: nat, hi: nat)
    requires forall i :: 0 <= i < |a| ==> 1 <= a[i] <= |p|
    requires lo <= hi && (lo < hi ==> 1 <= lo && hi <= |p| + 1)
    ensures forall i :: 0 <= i < |a + Range(lo, hi)| ==> 1 <= (a + Range(lo, hi))[i] <= |p|
    ensures Messages(p, a + Range(lo, hi)) == Messages(p, a) + (if lo < hi then p[lo - 1..hi - 1] else [])
  {
  }

  /** A page with messages. */
  lemma FollowSome<T>(r: Reading<T>, after: Option<nat>, floor: nat, numbers: seq<nat>, place: nat,
                      p: seq<Envelope<T>>, page: Page<T>, lo: nat, hi: nat)
    requires FollowsFrom(r, after, floor, numbers, place, p) && lo < hi && Shows(page, p, lo, hi)
    ensures FollowsFrom(ReadOnto(r, page), after, floor, numbers + Range(lo, hi), hi, p)
  {
    MessagesConcat(p, numbers, lo, hi);
    assert |numbers + Range(lo, hi)| > 0;
  }

  /** An empty page. */
  lemma FollowNone(floor: nat, gs: seq<Glimpse>)
    requires gs != []
    requires var place, g := Place(floor, gs[..|gs| - 1]), gs[|gs| - 1]; Lo(place, g) >= Hi(place, g)
    ensures Numbers(floor, gs) == Numbers(floor, gs[..|gs| - 1]) && Place(floor, gs) == Place(floor, gs[..|gs| - 1])
  {
    var place, g := Place(floor, gs[..|gs| - 1]), gs[|gs| - 1];
    assert Range(Lo(place, g), Hi(place, g)) == [];
  }

  lemma FollowStep<T>(r: Reading<T>, after: Option<nat>, floor: nat, gs: seq<Glimpse>, p: seq<Envelope<T>>,
                      page: Page<T>)
    requires gs != [] && Follows(r, after, floor, gs[..|gs| - 1], p)
    requires var place := Place(floor, gs[..|gs| - 1]); Shows(page, p, Lo(place, gs[|gs| - 1]), Hi(place, gs[|gs| - 1]))
    ensures Follows(ReadOnto(r, page), after, floor, gs, p)
  {
    var place, g := Place(floor, gs[..|gs| - 1]), gs[|gs| - 1];
    if Lo(place, g) < Hi(place, g) {
      FollowSome(r, after, floor, Numbers(floor, gs[..|gs| - 1]), place, p, page, Lo(place, g), Hi(place, g));
    } else {
      FollowNone(floor, gs);
      assert r.read + page.messages == r.read;
    }
  }

  lemma RunPrefix<T>(ms: seq<Moment<T>>, t: string, p: seq<Envelope<T>>)
    requires OneRun(ms, t, p) && ms != []
    ensures OneRun(ms[..|ms| - 1], t, p)
    ensures Glimpses(ms, t)[..|ms| - 1] == Glimpses(ms[..|ms| - 1], t)
    ensures HeadIn(ms[0].bus, t) <= HeadIn(ms[|ms| - 1].bus, t)
  {
    var gs := Glimpses(ms, t);
    assert gs[0] == GlimpseOf(ms[0], t) && gs[|gs| - 1] == GlimpseOf(ms[|ms| - 1], t);
    if |gs| > 1 { assert gs[0].head <= gs[|gs| - 1].head; }
  }

  lemma FollowsAtFirst<T>(after: Option<nat>, floor: nat, p: seq<Envelope<T>>)
    requires after.Some? ==> floor == after.value + 1
    ensures Follows(Reading(after, []), after, floor, [], p)
  {
    assert Numbers(floor, []) == [];
  }

  lemma FollowPage<T>(r: Reading<T>, after: Option<nat>, floor: nat, gs: seq<Glimpse>, p: seq<Envelope<T>>,
                      m: Moment<T>, t: string)
    requires gs != [] && gs[|gs| - 1] == GlimpseOf(m, t) && Fits(m, t, p) && m.limit > 0
    requires Follows(r, after, floor, gs[..|gs| - 1], p) && (after.None? ==> floor <= HeadIn(m.bus, t))
    ensures Follows(NextReading(r, m, t), after, floor, gs, p)
  {
    PageIsRange(m, t, p, r.after, Place(floor, gs[..|gs| - 1]));
    FollowStep(r, after, floor, gs, p, TopicPage(m.bus, t, r.after, m.limit));
  }

  lemma {:induction false} ReaderFollows<T>(t: string, after: Option<nat>, floor: nat, ms: seq<Moment<T>>,
                                            p: seq<Envelope<T>>)
    requires OneRun(ms, t, p) && (after.Some? || ms != [] ==> floor == Floor(t, after, ms))
    ensures Follows(ReadTopic(t, after, ms), after, floor, Glimpses(ms, t), p)
  {
    var gs := Glimpses(ms, t);
    if ms == [] {
      FollowsAtFirst(after, floor, p);
    } else {
      var init, m := ms[..|ms| - 1], ms[|ms| - 1];
      RunPrefix(ms, t, p);
      ReaderFollows(t, after, floor, init, p);
      FollowPage(ReadTopic(t, after, init), after, floor, gs, p, m, t);
    }
  }

  // ---- over a run ----

  /** A page fetched when `at` operations have been done. */
  datatype Visit = Visit(at: nat, limit: nat)

  ghost predicate VisitsOf(visits: seq<Visit>, n: nat) {
    && (forall i :: 0 <= i < |visits| ==> visits[i].at <= n && visits[i].limit > 0)
    && (forall i, j :: 0 <= i < j < |visits| ==> visits[i].at <= visits[j].at)
  }

  function BusAt<T>(b: Bus<T>, ops: seq<Op<T>>, n: nat): Bus<T>
    requires n <= |ops|
  {
    Run(b, ops[..n]).0
  }

  function HistoryAt<T>(b: Bus<T>, ops: seq<Op<T>>, n: nat, t: string): seq<Envelope<T>>
    requires n <= |ops|
  {
    Published(Run(b, ops[..n]).1, t)
  }

  function MomentAt<T>(b: Bus<T>, ops: seq<Op<T>>, t: string, v: Visit): Moment<T>
    requires v.at <= |ops|
  {
    Moment(BusAt(b, ops, v.at), HistoryAt(b, ops, v.at, t), LastReading(ops[..v.at]), v.limit)
  }

  function Moments<T>(b: Bus<T>, ops: seq<Op<T>>, t: string, visits: seq<Visit>): (ms: seq<Moment<T>>)
    requires forall i :: 0 <= i < |visits| ==> visits[i].at <= |ops|
    ensures |ms| == |visits| && forall i :: 0 <= i < |ms| ==> ms[i] == MomentAt(b, ops, t, visits[i])
  {
    seq(|visits|, i requires 0 <= i < |visits| => MomentAt(b, ops, t, visits[i]))
  }

  lemma {:induction false} HistoryGrows<T>(b: Bus<T>, ops: seq<Op<T>>, n: nat, t: string)
    requires n <= |ops|
    ensures HistoryAt(b, ops, n, t) <= Published(Run(b, ops).1, t)
    decreases |ops|
  {
    if n == |ops| {
      assert ops[..n] == ops;
    } else {
      var before, op := ops[..|ops| - 1], ops[|ops| - 1];
      assert before[..n] == ops[..n];
      HistoryGrows(b, before, n, t);
      var (b1, events) := Run(b, before);
      PublishedAppend(events, Apply(b1, op).1, t);
    }
  }

  lemma HistoryGrowsTo<T>(b: Bus<T>, ops: seq<Op<T>>, m: nat, n: nat, t: string)
    requires m <= n <= |ops|
    ensures HistoryAt(b, ops, m, t) <= HistoryAt(b, ops, n, t)
  {
    assert ops[..n][..m] == ops[..m];
    HistoryGrows(b, ops[..n], m, t);
  }

  lemma AgreesAt<T>(b: Bus<T>, ops: seq<Op<T>>, n: nat, t: string)
    requires LogAgrees(b, [], 0) && Retains(b) && ClockMonotone(ops) && n <= |ops|
    ensures TopicAgrees(BusAt(b, ops, n), HistoryAt(b, ops, n, t), t, LastReading(ops[..n]))
    ensures 1 <= HeadIn(BusAt(b, ops, n), t) <= |HistoryAt(b, ops, n, t)| + 1
  {
    ClockMonotonePrefix(ops, n);
    RunAgrees(b, ops[..n]);
  }

  lemma HeadRises<T>(b: Bus<T>, ops: seq<Op<T>>, m: nat, n: nat, t: string)
    requires LogAgrees(b, [], 0) && Retains(b) && ClockMonotone(ops) && m <= n <= |ops|
    ensures HeadIn(BusAt(b, ops, m), t) <= HeadIn(BusAt(b, ops, n), t)
  {
    AgreesAt(b, ops, n, t);
    if t in BusAt(b, ops, m).topics {
      ClockMonotonePrefix(ops, n);
      assert ops[..n][..m] == ops[..m];
      HeadNeverFalls(b, ops[..n], m, t);
    }
  }

  lemma GlimpsesOrdered<T>(b: Bus<T>, ops: seq<Op<T>>, t: string, visits: seq<Visit>)
    requires LogAgrees(b, [], 0) && Retains(b) && ClockMonotone(ops) && VisitsOf(visits, |ops|)
    ensures Ordered(Glimpses(Moments(b, ops, t, visits), t))
  {
    var ms := Moments(b, ops, t, visits);
    var gs := Glimpses(ms, t);
    forall i | 0 <= i < |gs| ensures 1 <= gs[i].head <= gs[i].len + 1 && gs[i].limit > 0 {
      AgreesAt(b, ops, visits[i].at, t);
      assert gs[i] == GlimpseOf(MomentAt(b, ops, t, visits[i]), t);
    }
    forall i, j | 0 <= i < j < |gs| ensures gs[i].head <= gs[j].head && gs[i].len <= gs[j].len {
      HeadRises(b, ops, visits[i].at, visits[j].at, t);
      HistoryGrowsTo(b, ops, visits[i].at, visits[j].at, t);
      assert gs[i] == GlimpseOf(MomentAt(b, ops, t, visits[i]), t);
      assert gs[j] == GlimpseOf(MomentAt(b, ops, t, visits[j]), t);
    }
  }

  lemma MomentsAreOneRun<T>(b: Bus<T>, ops: seq<Op<T>>, t: string, visits: seq<Visit>)
    requires LogAgrees(b, [], 0) && Retains(b) && ClockMonotone(ops) && VisitsOf(visits, |ops|)
    ensures OneRun(Moments(b, ops, t, visits), t, Published(Run(b, ops).1, t))
  {
    var ms, p := Moments(b, ops, t, visits), Published(Run(b, ops).1, t);
    forall i | 0 <= i < |ms| ensures ms[i].limit > 0 && Fits(ms[i], t, p) {
      AgreesAt(b, ops, visits[i].at, t);
      HistoryGrows(b, ops, visits[i].at, t);
    }
    GlimpsesOrdered(b, ops, t, visits);
  }

  /**
   * A reader that pages through a topic while the bus runs on, each page from the last message it read, reads
   * messages of the publish history in order and each once; and of those between where it started and where it
   * stands it has missed exactly the ones that a trim took while it stood before them.
   */
  lemma ReadsAllButTrimmed<T>(topics: set<string>, policy: TopicPolicy, retention: Retention, dedupe: DedupeAction,
                              ops: seq<Op<T>>, t: string, after: Option<nat>, visits: seq<Visit>)
    requires retention.maxMessages != Some(0) && ClockMonotone(ops) && VisitsOf(visits, |ops|)
    ensures var b := Initial<T>(topics, policy, retention, dedupe);
            var p, ms := Published(Run(b, ops).1, t), Moments(b, ops, t, visits);
            var floor, gs := Floor(t, after, ms), Glimpses(ms, t);
            var numbers := Numbers(floor, gs);
            && Ascending(numbers) && (forall i :: 0 <= i < |numbers| ==> 1 <= numbers[i] <= |p|)
            && ReadTopic(t, after, ms).read == Messages(p, numbers)
            && (forall s :: s in numbers <==> floor <= s < Place(floor, gs) && !Lost(floor, gs, s))
  {
    var b := Initial<T>(topics, policy, retention, dedupe);
    InitialAgrees<T>(topics, policy, retention, dedupe);
    MomentsAreOneRun(b, ops, t, visits);
    var p, ms := Published(Run(b, ops).1, t), Moments(b, ops, t, visits);
    var floor, gs := Floor(t, after, ms), Glimpses(ms, t);
    ReaderFollows(t, after, floor, ms, p);
    NumbersAscend(floor, gs);
    forall s: nat ensures s in Numbers(floor, gs) <==> floor <= s < Place(floor, gs) && !Lost(floor, gs, s) {
      ReadIffKept(floor, gs, s);
    }
  }

  /** A lost message is gone at that page; if it was there at the page before, that one left it for later. */
  lemma LostMeansTrimmed<T>(ms: seq<Moment<T>>, t: string, p: seq<Envelope<T>>, floor: nat, i: nat, s: nat)
    requires OneRun(ms, t, p) && 1 <= floor && i < |ms| && LostAt(floor, Glimpses(ms, t), i, s)
    ensures 1 <= s <= |ms[i].history| <= |p|
    ensures t in ms[i].bus.topics && p[s - 1] !in ms[i].bus.topics[t].messages
    ensures i > 0 && s <= |ms[i - 1].history| ==>
              t in ms[i - 1].bus.topics && p[s - 1] in ms[i - 1].bus.topics[t].messages
  {
    var gs, m := Glimpses(ms, t), ms[i];
    FloorBelow(floor, gs[..i]);
    assert gs[i] == GlimpseOf(m, t) && Fits(m, t, p);
    TrimmedIsGone(m.bus.topics[t], m.history, t, m.clock, s - 1);
    if i > 0 && s <= |ms[i - 1].history| {
      var before := ms[i - 1];
      assert gs[i - 1] == GlimpseOf(before, t) && Fits(before, t, p);
      KeptIsThere(before, t, p, s);
    }
  }

  lemma KeptIsThere<T>(m: Moment<T>, t: string, p: seq<Envelope<T>>, s: nat)
    requires Fits(m, t, p) && HeadIn(m.bus, t) <= s <= |m.history|
    ensures t in m.bus.topics && s >= 1 && p[s - 1] in m.bus.topics[t].messages
  {
    var topic := m.bus.topics[t];
    assert topic.messages[s - topic.headSeq] == p[s - 1];
  }

  // ---- a subscriber ----

  predicate Known<T>(ms: seq<Moment<T>>, key: string) {
    forall i :: 0 <= i < |ms| ==> ms[i].limit > 0 && key in ms[i].bus.subscriptions
  }

  function NextAvailable<T>(r: Reading<T>, m: Moment<T>, key: string): (r': Reading<T>)
    requires m.limit > 0 && key in m.bus.subscriptions
    ensures r.after.Some? ==> r'.after.Some?
  {
    ReadOnto(r, AvailablePage(m.bus, key, r.after, m.limit))
  }

  /** A reader of the pages of a subscription, each page from the last message read. */
  function ReadAvailable<T>(key: string, after: nat, ms: seq<Moment<T>>): (r: Reading<T>)
    requires Known(ms, key)
    ensures r.after.Some?
  {
    if ms == [] then Reading(Some(after), [])
    else
      NextAvailable(ReadAvailable(key, after, ms[..|ms| - 1]), ms[|ms| - 1], key)
  }

  /** The subscription is open and unflagged, and its cursor does not lie past the reader's place. */
  predicate Serves<T>(m: Moment<T>, key: string, t: string, place: nat) {
    key in m.bus.subscriptions &&
    var s := m.bus.subscriptions[key];
    s.topic == t && !s.closed && !s.retentionGap && s.nextSeq <= place
  }

  /** The subscription serves the reader at every page. */
  predicate Subscribed<T>(ms: seq<Moment<T>>, key: string, t: string, after: nat) {
    Known(ms, key) &&
    (ms != [] ==>
       var init, m := ms[..|ms| - 1], ms[|ms| - 1];
       Subscribed(init, key, t, after) && Serves(m, key, t, ReadAvailable(key, after, init).after.value + 1))
  }

  ghost predicate ReadTo<T>(r: Reading<T>, p: seq<Envelope<T>>, after: nat) {
    r.after.Some? && after <= r.after.value &&
    if after < r.after.value then r.after.value <= |p| && r.read == p[after..r.after.value] else r.read == []
  }

  lemma ServedFromPlace<T>(m: Moment<T>, key: string, t: string, p: seq<Envelope<T>>, after: nat)
    requires Fits(m, t, p) && CursorsAgree(m.bus) && m.limit > 0 && Serves(m, key, t, after + 1)
    ensures AvailablePage(m.bus, key, Some(after), m.limit) == TopicPage(m.bus, t, Some(after), m.limit)
    ensures Lo(after + 1, GlimpseOf(m, t)) == after + 1
  {
    assert Covered(m.bus, m.bus.subscriptions[key]);
  }

  lemma ReadOn<T>(r: Reading<T>, p: seq<Envelope<T>>, after: nat, page: Page<T>, hi: nat)
    requires ReadTo(r, p, after) && Shows(page, p, r.after.value + 1, hi)
    ensures ReadTo(ReadOnto(r, page), p, after)
  {
  }

  lemma ServedShows<T>(m: Moment<T>, key: string, t: string, p: seq<Envelope<T>>, after: nat)
    requires Fits(m, t, p) && CursorsAgree(m.bus) && m.limit > 0 && Serves(m, key, t, after + 1)
    ensures Shows(AvailablePage(m.bus, key, Some(after), m.limit), p, after + 1, Hi(after + 1, GlimpseOf(m, t)))
  {
    ServedFromPlace(m, key, t, p, after);
    PageIsRange(m, t, p, Some(after), after + 1);
  }

  lemma ServedPage<T>(r: Reading<T>, m: Moment<T>, key: string, t: string, p: seq<Envelope<T>>, after: nat)
    requires Fits(m, t, p) && CursorsAgree(m.bus) && m.limit > 0
    requires ReadTo(r, p, after) && Serves(m, key, t, r.after.value + 1)
    ensures ReadTo(NextAvailable(r, m, key), p, after)
  {
    var at := r.after.value;
    assert r.after == Some(at);
    ServedShows(m, key, t, p, at);
    ReadOn(r, p, after, AvailablePage(m.bus, key, Some(at), m.limit), Hi(at + 1, GlimpseOf(m, t)));
  }

  lemma {:induction false} SubscriberFollows<T>(ms: seq<Moment<T>>, key: string, t: string, p: seq<Envelope<T>>,
                                                after: nat)
    requires Subscribed(ms, key, t, after)
    requires forall i :: 0 <= i < |ms| ==> Fits(ms[i], t, p) && CursorsAgree(ms[i].bus)
    ensures ReadTo(ReadAvailable(key, after, ms), p, after)
  {
    if ms != [] {
      var init, m := ms[..|ms| - 1], ms[|ms| - 1];
      SubscriberFollows(init, key, t, p, after);
      ServedPage(ReadAvailable(key, after, init), m, key, t, p, after);
    }
  }

  /**
   * A subscriber that keeps its cursor at or before the last message it read, and sees no gap flag when it
   * fetches its pages, reads every message published after where it started, with no hole, however the bus
   * runs on between the pages.
   */
  lemma SubscriberMissesNothing<T>(topics: set<string>, policy: TopicPolicy, retention: Retention,
                                   dedupe: DedupeAction, ops: seq<Op<T>>, key: string, t: string, after: nat,
                                   visits: seq<Visit>)
    requires retention.maxMessages != Some(0) && ClockMonotone(ops) && VisitsOf(visits, |ops|)
    requires Subscribed(Moments(Initial<T>(topics, policy, retention, dedupe), ops, t, visits), key, t, after)
    ensures var b := Initial<T>(topics, policy, retention, dedupe);
            ReadTo(ReadAvailable(key, after, Moments(b, ops, t, visits)), Published(Run(b, ops).1, t), after)
  {
    var b := Initial<T>(topics, policy, retention, dedupe);
    InitialAgrees<T>(topics, policy, retention, dedupe);
    MomentsAreOneRun(b, ops, t, visits);
    var ms := Moments(b, ops, t, visits);
    forall i | 0 <= i < |ms| ensures CursorsAgree(ms[i].bus) { CursorsAgreeAt(b, ops, visits[i].at); }
    SubscriberFollows(ms, key, t, Published(Run(b, ops).1, t), after);
  }

  lemma CursorsAgreeAt<T>(b: Bus<T>, ops: seq<Op<T>>, n: nat)
    requires LogAgrees(b, [], 0) && Retains(b) && ClockMonotone(ops) && n <= |ops|
    ensures CursorsAgree(BusAt(b, ops, n))
  {
    ClockMonotonePrefix(ops, n);
    RunAgrees(b, ops[..n]);
  }
}
