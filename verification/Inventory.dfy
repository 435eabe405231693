/**
 The counters agree with the seats in every run of disciplined callers, with seats expiring at
 any moment; and the discipline is exact: the calls it forbids break the agreement.
 */
module Inventory {
  import opened Collections
  import opened Redis
  import opened Seeding
  import opened Protocol
  import opened Worlds
  import opened Accounting

  // ---- The main theorems

  /**
   The discipline is exact: in every consistent state a call, refused or not and whatever seats it
   names, keeps seats and counters in agreement if and only if it is disciplined.
   */
  lemma DisciplineIsExact(w: World, e: Event)
    requires Consistent(w) && Addressed(w, e)
    ensures Consistent(Step(w, e)) <==> Disciplined(w, e)
  {
    hide Consistent, Structure, Counters, Apply, Step;
    if e.Hold? {
      ConsistentParts(w);
      HoldIsExact(w, e);
      ConsistentParts(Step(w, e));
    } else if e.Release? {
      ReleaseIsExact(w, e);
    } else if e.Commit? {
      CommitIsExact(w, e);
    } else if e.Seed? {
      SeedIsExact(w, e);
    } else if e.SeatExpires? {
      ExpiryKeepsStructure(w, e) by { ConsistentParts(w); }
      ExpiryKeepsCounters(w, e);
      ConsistentParts(Step(w, e));
    } else {
      QuietKeeps(w, e);
    }
  }

  lemma ConsistentParts(w: World)
    ensures Consistent(w) <==> Structure(w) && Counters(w)
  {
    hide Structure, Counters;
  }

  lemma StepIsExact(w: World, es: seq<Event>, i: nat)
    requires AddressedRun(w, es) && i < |es| && Consistent(WorldAt(w, es, i))
    ensures Consistent(WorldAt(w, es, i + 1)) <==> Disciplined(WorldAt(w, es, i), es[i])
  {
    hide Consistent, Disciplined, Addressed, Step;
    assert Addressed(WorldAt(w, es, i), es[i]);
    DisciplineIsExact(WorldAt(w, es, i), es[i]);
  }

  /** Under the discipline the counters agree with the seats in every reachable state. */
  lemma {:induction false} ConsistentAlways(w: World, es: seq<Event>, i: nat)
    requires Consistent(w) && AddressedRun(w, es) && i <= |es| && DisciplinedUpTo(w, es, i)
    ensures Consistent(WorldAt(w, es, i))
  {
    hide Consistent, Disciplined, AddressedRun, Step;
    if i > 0 {
      ConsistentAlways(w, es, i - 1);
      StepIsExact(w, es, i - 1);
    }
  }

  lemma OnlyDisciplined(w: World, es: seq<Event>, i: nat)
    requires AddressedRun(w, es) && i <= |es| && ConsistentUpTo(w, es, i)
    ensures DisciplinedUpTo(w, es, i)
  {
    hide Consistent, Disciplined, AddressedRun, WorldAt;
    forall j | 0 <= j < i
      ensures Disciplined(WorldAt(w, es, j), es[j])
    {
      assert Consistent(WorldAt(w, es, j)) && Consistent(WorldAt(w, es, j + 1));
      StepIsExact(w, es, j);
    }
  }

  /**
   And only under the discipline: a run stays in agreement up to a point if and only if it was disciplined up
   to it.
   */
  lemma ConsistentExactly(w: World, es: seq<Event>, i: nat)
    requires Consistent(w) && AddressedRun(w, es) && i <= |es|
    ensures ConsistentUpTo(w, es, i) <==> DisciplinedUpTo(w, es, i)
  {
    hide Consistent, Disciplined, AddressedRun, WorldAt;
    if ConsistentUpTo(w, es, i) {
      OnlyDisciplined(w, es, i);
    }
    if DisciplinedUpTo(w, es, i) {
      forall j | 0 <= j <= i
        ensures Consistent(WorldAt(w, es, j))
      {
        ConsistentAlways(w, es, j);
      }
    }
  }

  lemma {:induction false} WorldFollowsStore(w: World, es: seq<Event>, i: nat)
    requires i <= |es|
    ensures WorldAt(w, es, i).store == StateAt(w.store, es, i)
  {
    if i > 0 {
      WorldFollowsStore(w, es, i - 1);
      StepFollowsStore(WorldAt(w, es, i - 1), es[i - 1]);
      hide Step, Apply;
    }
  }

  lemma StepFollowsStore(w: World, e: Event)
    ensures Step(w, e).store == Apply(w.store, e).0
  {
    hide Apply;
  }

  lemma SeatsByKind(w: World)
    requires LossesAgree(w)
    ensures var a, h, s := With(w.store.seats, AVAILABLE), With(w.store.seats, HELD), With(w.store.seats, SOLD);
            var l, r := LostIn(w, Live), LostIn(w, Returned);
            && a !! h && (a + h) !! s && l !! r && (a + h + s) !! (l + r)
            && w.universe == (a + h + s) + (l + r)
  {
    forall k | k in w.lost
      ensures k in LostIn(w, Live) || k in LostIn(w, Returned)
    {
      assert LossAgrees(w, k);
    }
    assert w.universe == w.store.seats.Keys + w.lost.Keys;
  }

  /** The counters of a consistent state are non-negative and add up to the number of seats. */
  lemma CountersAddUp(w: World)
    requires Consistent(w)
    ensures Read(w.store.inv, Available) >= 0 && Read(w.store.inv, Held) >= 0 && Read(w.store.inv, Sold) >= 0
    ensures Read(w.store.inv, Available) + Read(w.store.inv, Held) + Read(w.store.inv, Sold) == Read(w.store.inv, Quota)
    ensures Read(w.store.inv, Quota) == |w.universe|
  {
    hide With, LostIn, LossesAgree, SeatsAgree, HoldsAgree;
    SeatsByKind(w);
    ThreeAndTwo(With(w.store.seats, AVAILABLE), With(w.store.seats, HELD), With(w.store.seats, SOLD), LostIn(w, Live),
        LostIn(w, Returned));
  }

  /** The SOLD_OUT test never refuses a hold that names different seats, all of them AVAILABLE. */
  lemma NeverFalselySoldOut(w: World, e: Event)
    requires Consistent(w) && e.Hold? && Distinct(e.keys) && AllAvailable(w.store.seats, e.keys)
    ensures Apply(w.store, e).1 == Granted(e.hold) || Apply(w.store, e).1 == Rejected(LimitExceeded)
  {
    DistinctCardinality(e.keys);
    HoldSeatsSets(w.store.seats, e.keys, e.user, e.hold, e.expiresAt);
    SubsetCardinality(ToSet(e.keys), With(w.store.seats, AVAILABLE));
    hide With, LostIn, Structure, HoldSeats;
  }

  /**
   The counter of available seats is right about the seats that can be held exactly if none expired under a
   hold released since.
   */
  lemma AvailableIsHoldableIff(w: World)
    requires Consistent(w)
    ensures Read(w.store.inv, Available) >= |With(w.store.seats, AVAILABLE)|
    ensures Read(w.store.inv, Available) == |With(w.store.seats, AVAILABLE)|
      <==> forall k :: k in w.universe && k !in w.store.seats ==> InPhase(w, w.lost[k], Live)
  {
    hide With, SeatsAgree, HoldsAgree, LedgerAgrees;
    forall k | k in w.lost
      ensures InPhase(w, w.lost[k], Live) <==> k !in LostIn(w, Returned)
    {
      assert LossAgrees(w, k);
    }
    if LostIn(w, Returned) != {} {
      var k :| k in LostIn(w, Returned);
      assert k in w.lost;
    }
  }

  /** One seat held, and released under another hold's id: it stays HELD, but the counter moved back. */
  lemma HeldAndMiscounted(a: SeatKey, user: UserId, h1: HoldId, h2: HoldId, at: int, max: nat)
    requires max > 0 && h1 != h2
    ensures var s0 := Stocked([a], 1).store;
            var s1 := Apply(s0, Hold(user, h1, [a], at, max)).0;
            var s2 := Apply(s1, Release(h2, user, [a])).0;
            && Read(s2.inv, Held) == 0
            && Claimable(s2.seats, a, h1, user) && s2.seats[a].status == HELD
            && s2.orderOfHold == map[] && s2.holdOfOrder == map[]
  {
    var s0 := Stocked([a], 1).store;
    assert s0.seats == map[a := NEW_SEAT] && s0.inv == map[Quota := 1, Available := 1, Held := 0, Sold := 0];
    assert IsAvailable(s0.seats, a);
    hide Stocked, SeedInventory, SeedSeats;
  }

  /**
   A release that names another hold's seat moves the counters back, and a standalone commit of that seat is
   clamped.
   */
  lemma ClampLiftsCounters(a: SeatKey, user: UserId, h1: HoldId, h2: HoldId, order: OrderId, at: int, max: nat)
    requires max > 0 && h1 != h2 && h1.id != "" && user.id != ""
    ensures var s0 := Stocked([a], 1).store;
            var s1 := Apply(s0, Hold(user, h1, [a], at, max)).0;
            var s2 := Apply(s1, Release(h2, user, [a])).0;
            var e := Commit(Standalone, h1, user, [a], order, at);
            Balanced(s0.inv) && Clamped(s2, e) && Excess(Apply(s2, e).0.inv) == 1
  {
    var s0 := Stocked([a], 1).store;
    assert Balanced(s0.inv) by { assert Quota in s0.inv; }
    hide Stocked, Apply, ClampedMove, Total, Takes;
    HeldAndMiscounted(a, user, h1, h2, at, max);
    var s1 := Apply(s0, Hold(user, h1, [a], at, max)).0;
    var s2 := Apply(s1, Release(h2, user, [a])).0;
    var e := Commit(Standalone, h1, user, [a], order, at);
    ApplyExcess(s0, Hold(user, h1, [a], at, max));
    ApplyExcess(s1, Release(h2, user, [a]));
    OneSeatTakes(s2, e, a);
    TakesIff(s2, e);
    CommitInventory(s2, e);
    ClampedMoveTotal(s2.inv, 1);
  }

  lemma OneSeatTakes(s: Store, e: Event, a: SeatKey)
    requires e.Commit? && e.kind == Standalone && e.keys == [a] && Claimable(s.seats, a, e.hold, e.user)
        && s.seats[a].status == HELD
    requires e.hold.id != "" && e.user.id != "" && s.inv != map[] && s.orderOfHold == map[] && s.holdOfOrder == map[]
    ensures Takes(s, e)
  {
    assert a in e.keys && StatusOf(s.seats, a) == Some(HELD);
  }

  /** A seat that is held, expires and is released is counted as available, and is gone. */
  lemma ExpiredSeatIsCounted(a: SeatKey, user: UserId, hold: HoldId, expiresAt: int, max: nat)
    requires max > 0
    ensures var w := Stocked([a], 1);
            var es := [Hold(user, hold, [a], expiresAt, max), SeatExpires(a), Release(hold, user, [a])];
            var s := StateAt(w.store, es, 3);
            Read(s.inv, Available) == 1 && s.seats == map[]
  {
    var w := Stocked([a], 1);
    var es := [Hold(user, hold, [a], expiresAt, max), SeatExpires(a), Release(hold, user, [a])];
    var s1, s2 := StateAt(w.store, es, 1), StateAt(w.store, es, 2);
    assert StateAt(w.store, es, 0) == w.store && w.store.seats == map[a := NEW_SEAT];
    assert IsAvailable(w.store.seats, a);
    assert s1.seats.Keys == {a} && s1.seats[a].volatile && Read(s1.inv, Available) == 0;
    assert s2.seats == map[] && s2.inv == s1.inv;
  }

  // ---- Where runs start

  const EMPTY_STORE := Store(map[], map[], map[], map[], map[], map[])

  /** A category freshly stocked with the seats of the given names. */
  function Stocked(names: seq<SeatKey>, quota: nat): World {
    World(SeedCategory(EMPTY_STORE, names, quota), ToSet(names), map[], map[])
  }

  lemma StockedIsConsistent(names: seq<SeatKey>, quota: nat)
    requires |ToSet(names)| == quota
    ensures Consistent(Stocked(names, quota))
  {
    hide Structure, Counters;
    StockedStructure(names, quota);
    StockedCounters(names, quota);
  }

  lemma StockedStructure(names: seq<SeatKey>, quota: nat)
    ensures Structure(Stocked(names, quota))
  {
    assert Stocked(names, quota).store.seats.Keys == ToSet(names);
    hide ToSet, SeedInventory;
  }

  lemma StockedCounters(names: seq<SeatKey>, quota: nat)
    requires |ToSet(names)| == quota
    ensures Counters(Stocked(names, quota))
  {
    var w := Stocked(names, quota);
    assert With(w.store.seats, AVAILABLE) == ToSet(names);
    assert With(w.store.seats, HELD) == {} && With(w.store.seats, SOLD) == {};
    assert LostIn(w, Live) == {} && LostIn(w, Returned) == {};
    hide ToSet, With, LostIn, SeedSeats;
  }

  /** What the seeding script makes of an empty store. */
  lemma OpeningIsConsistent(base: string, quota: nat)
    ensures |ToSet(SeedNames(base, quota))| == quota
    ensures Consistent(Stocked(SeedNames(base, quota), quota))
    ensures Stocked(SeedNames(base, quota), quota).store == AfterSeed(EMPTY_STORE, base, quota)
  {
    NamesCount(base, PadWidth(quota), quota);
    hide Names, Consistent;
    StockedIsConsistent(SeedNames(base, quota), quota);
  }

  /**
   A disciplined run over a freshly stocked category: in every state the counters say how many seats
   are sold, held and available, counting expired seats with their hold, and add up to the quota.
   */
  lemma CountersAgreeWithSeats(names: seq<SeatKey>, quota: nat, es: seq<Event>, i: nat)
    requires |ToSet(names)| == quota && DisciplinedRun(Stocked(names, quota), es) && i <= |es|
    ensures var w := WorldAt(Stocked(names, quota), es, i);
            var inv := w.store.inv;
            && w.store == StateAt(Stocked(names, quota).store, es, i)
            && Read(inv, Sold) == |With(w.store.seats, SOLD)|
            && Read(inv, Held) == |With(w.store.seats, HELD)| + |LostIn(w, Live)|
            && Read(inv, Available) == |With(w.store.seats, AVAILABLE)| + |LostIn(w, Returned)|
            && Read(inv, Available) + Read(inv, Held) + Read(inv, Sold) == Read(inv, Quota) == |w.universe|
  {
    hide AddressedRun, Disciplined, Structure, With, LostIn, ToSet, Step, Apply, Stocked;
    StockedIsConsistent(names, quota);
    ConsistentAlways(Stocked(names, quota), es, i);
    WorldFollowsStore(Stocked(names, quota), es, i);
    CountersAddUp(WorldAt(Stocked(names, quota), es, i));
  }

  /** Growing a category whose seats were all created with one pad width meets the re-seeding rule. */
  lemma GrowthIsDisciplined(w: World, base: string, q0: nat, quota: nat)
    requires Consistent(w) && w.universe == ToSet(SeedNames(base, q0)) && PadWidth(q0) == PadWidth(quota)
    requires ToSet(SeedNames(base, quota)) !! LostIn(w, Live)
    ensures Disciplined(w, Seed(SeedNames(base, quota), quota))
    ensures quota >= q0 ==> Step(w, Seed(SeedNames(base, quota), quota)).universe == ToSet(SeedNames(base, quota))
  {
    var n0, n1 := ToSet(SeedNames(base, q0)), ToSet(SeedNames(base, quota));
    NamesCount(base, PadWidth(q0), q0);
    NamesCount(base, PadWidth(quota), quota);
    assert |n0| == q0 && |n1| == quota;
    if q0 <= quota {
      NamesOverlap(base, q0, quota);
      assert n0 + n1 == n1;
    } else {
      NamesOverlap(base, quota, q0);
      assert n0 + n1 == n0;
    }
    hide SeedNames, Names, PadWidth, Structure, With, LostIn, Apply, ToSet;
  }
}
