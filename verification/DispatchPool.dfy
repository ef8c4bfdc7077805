/**
 * The dispatch pool (dispatcher.rs): a slot map whose 32-bit ids and generations wrap.  Every handle ever
 * issued is remembered beside it, with how often its slot had been recycled by then.
 */
module DispatchPool {
  import opened Prelude

  const U32: nat := 0x1_0000_0000

  datatype Slot<F> = Slot(f: Option<F>, generation: nat)

  datatype Handle = Handle(id: nat, generation: nat)

  /** One registration: its function, the slot it got, and how often that slot had been recycled. */
  datatype Issue<F> = Issue(f: F, slot: nat, recycled: nat) {
    function HandleOf(): Handle {
      Handle(slot % U32, recycled % U32)
    }
  }

  lemma SameGeneration(a: nat, b: nat)
    requires a >= b
    ensures a % U32 == b % U32 <==> (a - b) % U32 == 0
  {
  }

  /** The slot is free, and waits in the free list, exactly while it holds no function. */
  ghost predicate FreeSlots<F>(slots: seq<Slot<F>>, free: seq<nat>) {
    && Distinct(free)
    && (forall i :: i in free ==> i < |slots| && slots[i].f.None?)
    && (forall s :: 0 <= s < |slots| && slots[s].f.None? ==> s in free)
  }

  lemma FreePop<F>(slots: seq<Slot<F>>, free: seq<nat>, slot: Slot<F>)
    requires FreeSlots(slots, free) && free != [] && slot.f.Some?
    ensures var id := free[|free| - 1];
            id < |slots| && slots[id].f.None? && FreeSlots(slots[id := slot], free[..|free| - 1])
  {
    var id, rest := free[|free| - 1], free[..|free| - 1];
    assert free == rest + [id] && id in free;
    DistinctConcat(rest, [id]);
    forall i | i in rest ensures i in free && i != id {}
    forall s | 0 <= s < |slots| && s != id && slots[s].f.None? ensures s in rest { assert s in free; }
  }

  lemma FreePush<F>(slots: seq<Slot<F>>, free: seq<nat>, id: nat, slot: Slot<F>)
    requires FreeSlots(slots, free) && id < |slots| && slots[id].f.Some? && slot.f.None?
    ensures FreeSlots(slots[id := slot], free + [id])
  {
    DistinctConcat(free, [id]);
  }

  /** How the slots hold the functions of the issues, and where each issue's handle stands. */
  ghost predicate Consistent<F>(slots: seq<Slot<F>>, recycles: seq<nat>, occupant: seq<Option<nat>>,
                                issues: seq<Issue<F>>) {
    && |slots| == |recycles| == |occupant|
    && (forall s :: 0 <= s < |slots| ==> slots[s].generation == recycles[s] % U32)
    && (forall s :: 0 <= s < |slots| ==> (slots[s].f.Some? <==> occupant[s].Some?))
    && (forall s :: 0 <= s < |slots| && occupant[s].Some? ==>
          var k := occupant[s].value;
          k < |issues| && issues[k].slot == s && issues[k].recycled == recycles[s] && slots[s].f == Some(issues[k].f))
    && (forall k :: 0 <= k < |issues| ==> issues[k].slot < |slots| && issues[k].recycled <= recycles[issues[k].slot])
    && (forall k :: 0 <= k < |issues| && occupant[issues[k].slot] != Some(k) ==> issues[k].recycled < recycles[issues[k].slot])
  }

  /** A free slot taken by a new issue. */
  lemma ConsistentTake<F>(slots: seq<Slot<F>>, recycles: seq<nat>, occupant: seq<Option<nat>>, issues: seq<Issue<F>>,
                          id: nat, f: F)
    requires Consistent(slots, recycles, occupant, issues) && id < |slots| && slots[id].f.None?
    ensures Consistent(slots[id := Slot(Some(f), slots[id].generation)], recycles, occupant[id := Some(|issues|)],
                       issues + [Issue(f, id, recycles[id])])
  {
  }

  lemma ConsistentPush<F>(slots: seq<Slot<F>>, recycles: seq<nat>, occupant: seq<Option<nat>>, issues: seq<Issue<F>>,
                          f: F)
    requires Consistent(slots, recycles, occupant, issues)
    ensures Consistent(slots + [Slot(Some(f), 0)], recycles + [0], occupant + [Some(|issues|)], issues + [Issue(f, |slots|, 0)])
  {
  }

  lemma ConsistentFree<F>(slots: seq<Slot<F>>, recycles: seq<nat>, occupant: seq<Option<nat>>, issues: seq<Issue<F>>,
                          id: nat)
    requires Consistent(slots, recycles, occupant, issues) && id < |slots| && slots[id].f.Some?
    ensures Consistent(slots[id := Slot(None, (slots[id].generation + 1) % U32)], recycles[id := recycles[id] + 1],
                       occupant[id := None], issues)
  {
  }

  lemma FreeAppend<F>(slots: seq<Slot<F>>, slot: Slot<F>)
    requires FreeSlots(slots, []) && slot.f.Some?
    ensures FreeSlots(slots + [slot], [])
  {
    forall s | 0 <= s < |slots| ensures slots[s].f.Some? { assert slots[s].f.None? ==> s in []; }
  }

  class Pool<F> {
    var slots: seq<Slot<F>>
    var free: seq<nat>
    ghost var recycles: seq<nat>
    ghost var occupant: seq<Option<nat>>
    ghost var issues: seq<Issue<F>>

    constructor ()
      ensures Valid() && issues == []
    {
      slots, free, recycles, occupant, issues := [], [], [], [], [];
    }

    ghost predicate Valid()
      reads this
    {
      && Consistent(slots, recycles, occupant, issues)
      && FreeSlots(slots, free) && forall i :: i in free ==> i < U32
    }

    /** From its registration until its slot is freed, an issue is live. */
    ghost predicate Live(k: nat)
      requires k < |issues| && issues[k].slot < |occupant|
      reads this`issues, this`occupant
    {
      occupant[issues[k].slot] == Some(k)
    }

    method Register(f: F) returns (h: Handle)
      requires Valid()
      modifies this
      ensures Valid() && |issues| == |old(issues)| + 1 && issues[..|old(issues)|] == old(issues)
      ensures var k := |old(issues)|;
              issues[k].f == f && h == issues[k].HandleOf() && issues[k].slot < |occupant| && Live(k)
      ensures |old(occupant)| <= |occupant|
      ensures forall k :: 0 <= k < |old(issues)| && old(issues)[k].slot < |old(occupant)| ==>
                (Live(k) <==> old(occupant)[old(issues)[k].slot] == Some(k))
      ensures |slots| == |old(slots)| + (if old(free) == [] then 1 else 0)
      ensures if old(free) == [] then issues[|old(issues)|].slot == |old(slots)| && free == []
              else old(free) == free + [issues[|old(issues)|].slot]
    {
      ghost var k := |issues|;
      if free != [] {
        var id := free[|free| - 1];
        assert id in free;
        FreePop(slots, free, Slot(Some(f), slots[id].generation));
        ConsistentTake(slots, recycles, occupant, issues, id, f);
        free := free[..|free| - 1];
        slots := slots[id := Slot(Some(f), slots[id].generation)];
        h := Handle(id, slots[id].generation);
        occupant := occupant[id := Some(k)];
        issues := issues + [Issue(f, id, recycles[id])];
      } else {
        FreeAppend(slots, Slot(Some(f), 0));
        ConsistentPush(slots, recycles, occupant, issues, f);
        h := Handle(|slots| % U32, 0);
        issues := issues + [Issue(f, |slots|, 0)];
        slots := slots + [Slot(Some(f), 0)];
        recycles, occupant := recycles + [0], occupant + [Some(k)];
      }
    }

    /** Frees the slot a handle names if its generation is the slot's own; a stale handle does nothing. */
    method Unregister(h: Handle)
      requires Valid() && h.id < U32
      modifies this`slots, this`free, this`recycles, this`occupant
      ensures Valid() && |slots| == |old(slots)|
      ensures if h.id < |slots| && old(slots)[h.id].f.Some? && old(slots)[h.id].generation == h.generation then
                occupant == old(occupant)[h.id := None] && recycles == old(recycles)[h.id := old(recycles)[h.id] + 1]
                && free == old(free) + [h.id]
              else slots == old(slots) && occupant == old(occupant) && recycles == old(recycles)
    {
      if h.id < |slots| {
        var slot := slots[h.id];
        if slot.generation == h.generation && slot.f.Some? {
          ConsistentFree(slots, recycles, occupant, issues, h.id);
          FreePush(slots, free, h.id, Slot(None, (slot.generation + 1) % U32));
          slots := slots[h.id := Slot(None, (slot.generation + 1) % U32)];
          free := free + [h.id];
          recycles := recycles[h.id := recycles[h.id] + 1];
          occupant := occupant[h.id := None];
        }
      }
    }

    function Get(h: Handle): Option<F>
      reads this`slots
    {
      if h.id < |slots| && slots[h.id].generation == h.generation then slots[h.id].f else None
    }

    /** Exactly what a handle resolves to, below 2^32 slots: the slot's function, when the wraps cancel out. */
    lemma ResolvesIff(k: nat)
      requires Valid() && k < |issues| && issues[k].slot < 0x1_0000_0000
      ensures var s := issues[k].slot;
              && s < |slots| == |occupant| == |recycles| && issues[k].recycled <= recycles[s]
              && (Get(issues[k].HandleOf()).Some? <==>
                    occupant[s].Some? && (recycles[s] - issues[k].recycled) % 0x1_0000_0000 == 0)
              && (Get(issues[k].HandleOf()).Some? ==>
                    occupant[s].value < |issues| && Get(issues[k].HandleOf()) == Some(issues[occupant[s].value].f))
    {
      SameGeneration(recycles[issues[k].slot], issues[k].recycled);
    }

    /** So the pool is a map from handles to functions until some slot has been recycled 2^32 times. */
    lemma HandleResolvesToItsOwn(k: nat)
      requires Valid() && k < |issues| && issues[k].slot < 0x1_0000_0000
      requires recycles[issues[k].slot] - issues[k].recycled < 0x1_0000_0000
      ensures Get(issues[k].HandleOf()) == if Live(k) then Some(issues[k].f) else None
    {
      ResolvesIff(k);
    }

    /** A live handle resolves to its own function, however often its slot has been recycled. */
    lemma LiveResolves(k: nat)
      requires Valid() && k < |issues| && issues[k].slot < 0x1_0000_0000 && Live(k)
      ensures Get(issues[k].HandleOf()) == Some(issues[k].f)
    {
      ResolvesIff(k);
    }

    /** Freeing by a handle ends that issue and no other, until some slot has been recycled 2^32 times. */
    lemma UnregisterEndsItsOwn(k: nat)
      requires Valid() && k < |issues| && issues[k].slot < 0x1_0000_0000
      requires recycles[issues[k].slot] - issues[k].recycled < 0x1_0000_0000
      ensures var h := issues[k].HandleOf();
              h.id == issues[k].slot
              && (h.id < |slots| && slots[h.id].f.Some? && slots[h.id].generation == h.generation <==> Live(k))
    {
      ResolvesIff(k);
    }

    /** A slot past 2^32 is named by a handle of another slot: its function is out of reach. */
    lemma TruncatedIdMisses(k: nat)
      requires Valid() && k < |issues| && issues[k].slot >= 0x1_0000_0000
      ensures var s := issues[k].HandleOf().id;
              s < issues[k].slot && (Get(issues[k].HandleOf()).Some? ==> s < |occupant| && occupant[s].Some? && occupant[s] != Some(k))
    {
    }
  }
}
