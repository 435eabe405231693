/**
 Script by script: how the seats of each kind and the counters move together, and exactly when a
 call keeps them in agreement.
 */
module Accounting {
  import opened Collections
  import opened Redis
  import opened Seeding
  import opened Protocol
  import opened Worlds

  // ---- What the scripts do to the sets of seats of each kind

  lemma HoldSeatsSets(seats: map<SeatKey, Seat>, keys: seq<SeatKey>, user: UserId, hold: HoldId, expiresAt: int)
    requires AllAvailable(seats, keys)
    ensures var r := HoldSeats(seats, keys, user, hold, expiresAt);
            && ToSet(keys) <= With(seats, AVAILABLE)
            && With(r, AVAILABLE) == With(seats, AVAILABLE) - ToSet(keys)
            && With(r, HELD) == With(seats, HELD) + ToSet(keys)
            && With(r, SOLD) == With(seats, SOLD)
  {
    forall k | k in keys
      ensures k in seats && seats[k].status == AVAILABLE
    {
      assert IsAvailable(seats, k);
    }
  }

  /** The seats among `keys` that carry this hold id. */
  function Carrying(seats: map<SeatKey, Seat>, keys: seq<SeatKey>, hold: HoldId): set<SeatKey> {
    set k | k in keys && k in seats && seats[k].holdId == Some(hold)
  }

  lemma FreeSeatsSets(seats: map<SeatKey, Seat>, keys: seq<SeatKey>, hold: HoldId)
    ensures var r := FreeSeats(seats, keys, hold);
            var K := Carrying(seats, keys, hold);
            && With(r, AVAILABLE) == With(seats, AVAILABLE) + K
            && With(r, HELD) == With(seats, HELD) - K
            && With(r, SOLD) == With(seats, SOLD) - K
  {
  }

  lemma SeedSeatsSets(seats: map<SeatKey, Seat>, names: seq<SeatKey>)
    ensures var r := SeedSeats(seats, names);
            && With(r, AVAILABLE) == With(seats, AVAILABLE) + Missing(seats, names)
            && With(r, HELD) == With(seats, HELD)
            && With(r, SOLD) == With(seats, SOLD)
  {
  }

  /**
   Moving seats between kinds together with the counters. `a`, `h`, `s` say how many seats became
   AVAILABLE, HELD and SOLD, expired ones included, and `q` how many are new.
   */
  ghost predicate Moves(w: World, t: World, a: int, h: int, s: int, q: int) {
    && Available in t.store.inv
    && Read(t.store.inv, Available) == Read(w.store.inv, Available) + a
    && Read(t.store.inv, Held) == Read(w.store.inv, Held) + h
    && Read(t.store.inv, Sold) == Read(w.store.inv, Sold) + s
    && Read(t.store.inv, Quota) == Read(w.store.inv, Quota) + q
  }

  ghost predicate SeatsMove(w: World, t: World, a: int, h: int, s: int, q: int) {
    && |With(t.store.seats, AVAILABLE)| + |LostIn(t, Returned)|
        == |With(w.store.seats, AVAILABLE)| + |LostIn(w, Returned)| + a
    && |With(t.store.seats, HELD)| + |LostIn(t, Live)| == |With(w.store.seats, HELD)| + |LostIn(w, Live)| + h
    && |With(t.store.seats, SOLD)| == |With(w.store.seats, SOLD)| + s
    && |t.universe| == |w.universe| + q
  }

  // ---- HOLD keeps the invariant

  function Grant(w: World, user: UserId, hold: HoldId, keys: seq<SeatKey>, expiresAt: int): World {
    var s := w.store;
    w.(store := s.(seats := HoldSeats(s.seats, keys, user, hold, expiresAt),
                   inv := IncrBy(IncrBy(s.inv, Available, -|keys|), Held, |keys|),
                   limits := s.limits[user := Limit(s.limits, user) + |keys|],
                   holds := s.holds[hold := HoldRecord(user, keys, expiresAt)]),
       holdings := w.holdings[hold := Holding(user, ToSet(keys), Live)])
  }

  lemma HoldIsGrant(w: World, e: Event)
    requires e.Hold?
    ensures var ok := Apply(w.store, e).1.Granted?;
            && (ok ==> AllAvailable(w.store.seats, e.keys) && Available in w.store.inv)
            && Step(w, e) == if ok then Grant(w, e.user, e.hold, e.keys, e.expiresAt) else w
  {
  }

  lemma GrantKeepsLosses(w: World, user: UserId, hold: HoldId, keys: seq<SeatKey>, expiresAt: int)
    requires Structure(w) && hold !in w.holdings
    ensures var t := Grant(w, user, hold, keys, expiresAt);
            LostIn(t, Live) == LostIn(w, Live) && LostIn(t, Returned) == LostIn(w, Returned)
  {
    forall k | k in w.lost
      ensures w.lost[k] in w.holdings && w.lost[k] != hold
    {
      assert LossAgrees(w, k);
    }
    hide Structure, HoldSeats;
  }

  /** Granting a hold moves as many seats as it names different keys. */
  lemma GrantMoves(w: World, user: UserId, hold: HoldId, keys: seq<SeatKey>, expiresAt: int)
    requires Structure(w) && hold !in w.holdings && AllAvailable(w.store.seats, keys)
    ensures var t := Grant(w, user, hold, keys, expiresAt);
            SeatsMove(w, t, -|ToSet(keys)|, |ToSet(keys)|, 0, 0)
  {
    HoldSeatsSets(w.store.seats, keys, user, hold, expiresAt);
    GrantKeepsLosses(w, user, hold, keys, expiresAt);
    hide Structure, With, LostIn, HoldSeats;
  }

  lemma GrantKeepsSeats(w: World, user: UserId, hold: HoldId, keys: seq<SeatKey>, expiresAt: int)
    requires SeatsAgree(w) && hold !in w.holdings && AllAvailable(w.store.seats, keys)
    ensures SeatsAgree(Grant(w, user, hold, keys, expiresAt))
  {
    var t := Grant(w, user, hold, keys, expiresAt);
    forall k | k in t.store.seats
      ensures SeatAgrees(t, k)
    {
      assert SeatAgrees(w, k);
    }
  }

  lemma GrantKeepsHolds(w: World, user: UserId, hold: HoldId, keys: seq<SeatKey>, expiresAt: int)
    requires SeatsAgree(w) && HoldsAgree(w) && hold !in w.holdings && keys != [] && AllAvailable(w.store.seats, keys)
    ensures HoldsAgree(Grant(w, user, hold, keys, expiresAt))
  {
    var t := Grant(w, user, hold, keys, expiresAt);
    assert keys[0] in ToSet(keys);
    assert forall k :: k in keys ==> IsAvailable(w.store.seats, k) && SeatAgrees(w, k);
    forall h | h in t.holdings
      ensures HoldAgrees(t, h)
    {
      assert h != hold ==> HoldAgrees(w, h);
    }
  }

  lemma GrantKeepsLossesAgree(w: World, user: UserId, hold: HoldId, keys: seq<SeatKey>, expiresAt: int)
    requires LossesAgree(w) && hold !in w.holdings && AllAvailable(w.store.seats, keys)
    ensures LossesAgree(Grant(w, user, hold, keys, expiresAt))
  {
    var t := Grant(w, user, hold, keys, expiresAt);
    forall k | k in t.lost
      ensures LossAgrees(t, k)
    {
      assert LossAgrees(w, k);
    }
  }

  lemma GrantKeepsStructure(w: World, user: UserId, hold: HoldId, keys: seq<SeatKey>, expiresAt: int)
    requires Structure(w) && hold !in w.holdings && keys != [] && AllAvailable(w.store.seats, keys)
    ensures Structure(Grant(w, user, hold, keys, expiresAt))
  {
    hide SeatsAgree, HoldsAgree, LossesAgree;
    GrantKeepsSeats(w, user, hold, keys, expiresAt);
    GrantKeepsHolds(w, user, hold, keys, expiresAt);
    GrantKeepsLossesAgree(w, user, hold, keys, expiresAt);
  }

  /** A hold under a fresh id keeps everything right if and only if it is refused or names no seat twice. */
  lemma HoldIsExact(w: World, e: Event)
    requires Consistent(w) && e.Hold? && Addressed(w, e)
    ensures Structure(Step(w, e))
    ensures Counters(Step(w, e)) <==> Disciplined(w, e)
  {
    hide Structure, With, LostIn, HoldSeats, Apply, Step, Takes;
    HoldIsGrant(w, e);
    TakesIff(w.store, e);
    if Takes(w.store, e) {
      GrantKeepsStructure(w, e.user, e.hold, e.keys, e.expiresAt);
      GrantMoves(w, e.user, e.hold, e.keys, e.expiresAt);
      DistinctCardinality(e.keys);
    }
  }

  // ---- RELEASE

  function GiveBack(w: World, hold: HoldId, user: UserId, keys: seq<SeatKey>): World {
    w.(store := ReleaseScript(w.store, hold, user, keys).0, holdings := SetPhase(w.holdings, hold, Returned))
  }

  function LostTo(w: World, hold: HoldId): set<SeatKey> {
    set k | k in w.lost && w.lost[k] == hold
  }

  /** The seats that carry this hold id. */
  function CarriedBy(w: World, hold: HoldId): set<SeatKey> {
    set k | k in w.store.seats && w.store.seats[k].holdId == Some(hold)
  }

  /** The seats of an open hold are the ones still HELD for it and the ones that expired under it. */
  lemma OpenSeats(w: World, hold: HoldId)
    requires SeatsAgree(w) && LossesAgree(w) && HoldsAgree(w) && InPhase(w, hold, Live)
    ensures w.holdings[hold].seats == CarriedBy(w, hold) + LostTo(w, hold)
    ensures CarriedBy(w, hold) !! LostTo(w, hold)
    ensures CarriedBy(w, hold) <= With(w.store.seats, HELD)
    ensures LostTo(w, hold) <= LostIn(w, Live) && LostTo(w, hold) !! LostIn(w, Returned)
  {
    assert HoldAgrees(w, hold);
    forall k | k in w.holdings[hold].seats
      ensures k in CarriedBy(w, hold) + LostTo(w, hold)
    {
      assert Owner(w, k) == Some(hold);
    }
    forall k | k in LostTo(w, hold)
      ensures k in w.holdings[hold].seats
    {
      assert LossAgrees(w, k);
    }
    forall k | k in CarriedBy(w, hold)
      ensures w.store.seats[k].status == HELD && k in w.holdings[hold].seats
    {
      assert SeatAgrees(w, k);
    }
  }

  lemma CarryingIsCarried(w: World, hold: HoldId, keys: seq<SeatKey>)
    ensures Carrying(w.store.seats, keys, hold) <= CarriedBy(w, hold)
    ensures Carrying(w.store.seats, keys, hold) == CarriedBy(w, hold)
      <==> forall k :: k in w.store.seats && w.store.seats[k].holdId == Some(hold) ==> k in keys
  {
    if Carrying(w.store.seats, keys, hold) == CarriedBy(w, hold) {
      assert forall k :: k in w.store.seats && w.store.seats[k].holdId == Some(hold) ==> k in CarriedBy(w, hold);
    }
  }

  lemma GiveBackLosses(w: World, hold: HoldId, user: UserId, keys: seq<SeatKey>)
    requires LossesAgree(w) && hold in w.holdings && w.holdings[hold].phase != Bought
    ensures var t := GiveBack(w, hold, user, keys);
            && LostIn(t, Live) == LostIn(w, Live) - LostTo(w, hold)
            && LostIn(t, Returned) == LostIn(w, Returned) + LostTo(w, hold)
  {
  }

  /** Releasing an open hold frees the seats on the list that carry its id, and all that expired under it. */
  lemma GiveBackMoves(w: World, hold: HoldId, user: UserId, keys: seq<SeatKey>)
    requires Structure(w) && InPhase(w, hold, Live)
    ensures var n := |Carrying(w.store.seats, keys, hold)| + |LostTo(w, hold)|;
            && SeatsMove(w, GiveBack(w, hold, user, keys), n, -n, 0, 0)
            && |w.holdings[hold].seats| == |CarriedBy(w, hold)| + |LostTo(w, hold)|
  {
    hide Structure, SeatsAgree, LossesAgree, HoldsAgree, With, LostIn, Carrying, CarriedBy, LostTo, GiveBack;
    StructureParts(w);
    GiveBackSets(w, hold, user, keys);
    OpenSeats(w, hold);
    CarryingIsCarried(w, hold, keys);
    var K := Carrying(w.store.seats, keys, hold);
    KindsAreDisjoint(w, K);
    MoveSizes(With(w.store.seats, AVAILABLE), With(w.store.seats, HELD), K, LostIn(w, Returned), LostIn(w, Live),
        LostTo(w, hold));
  }

  lemma GiveBackSets(w: World, hold: HoldId, user: UserId, keys: seq<SeatKey>)
    requires LossesAgree(w) && hold in w.holdings && w.holdings[hold].phase == Live
    ensures var t := GiveBack(w, hold, user, keys);
            var K := Carrying(w.store.seats, keys, hold);
            && With(t.store.seats, AVAILABLE) == With(w.store.seats, AVAILABLE) + K
            && With(t.store.seats, HELD) == With(w.store.seats, HELD) - K
            && With(t.store.seats, SOLD) == With(w.store.seats, SOLD) - K
            && LostIn(t, Live) == LostIn(w, Live) - LostTo(w, hold)
            && LostIn(t, Returned) == LostIn(w, Returned) + LostTo(w, hold)
            && t.universe == w.universe
  {
    GiveBackLosses(w, hold, user, keys);
    FreeSeatsSets(w.store.seats, keys, hold);
    hide LossesAgree, With, LostIn, Carrying, LostTo, FreeSeats;
  }

  lemma KindsAreDisjoint(w: World, K: set<SeatKey>)
    ensures With(w.store.seats, AVAILABLE) !! With(w.store.seats, HELD)
    ensures LostIn(w, Returned) !! LostIn(w, Live)
    ensures K <= With(w.store.seats, HELD) ==> With(w.store.seats, SOLD) - K == With(w.store.seats, SOLD)
  {
  }

  lemma StructureParts(w: World)
    requires Structure(w)
    ensures OnlyHeldExpire(w.store) && SeatsAgree(w) && LossesAgree(w) && HoldsAgree(w) && LedgerAgrees(w)
  {
  }

  /** The seats agree after the release of an open hold if and only if none is left that carries its id. */
  lemma GiveBackKeepsSeats(w: World, hold: HoldId, user: UserId, keys: seq<SeatKey>)
    requires SeatsAgree(w) && InPhase(w, hold, Live)
    ensures SeatsAgree(GiveBack(w, hold, user, keys)) <==> Carrying(w.store.seats, keys, hold) == CarriedBy(w, hold)
  {
    var t := GiveBack(w, hold, user, keys);
    if Carrying(w.store.seats, keys, hold) == CarriedBy(w, hold) {
      forall k | k in t.store.seats
        ensures SeatAgrees(t, k)
      {
        assert SeatAgrees(w, k);
        assert k in CarriedBy(w, hold) <==> k in Carrying(w.store.seats, keys, hold);
      }
    } else {
      CarryingIsCarried(w, hold, keys);
      var k :| k in CarriedBy(w, hold) && k !in keys;
      assert SeatAgrees(w, k) && !SeatAgrees(t, k);
    }
  }

  lemma GiveBackKeepsLosses(w: World, hold: HoldId, user: UserId, keys: seq<SeatKey>)
    requires LossesAgree(w) && hold in w.holdings
    ensures LossesAgree(GiveBack(w, hold, user, keys))
  {
    var t := GiveBack(w, hold, user, keys);
    forall k | k in t.lost
      ensures LossAgrees(t, k)
    {
      assert LossAgrees(w, k);
    }
  }

  lemma GiveBackKeepsHolds(w: World, hold: HoldId, user: UserId, keys: seq<SeatKey>)
    requires HoldsAgree(w) && hold in w.holdings
    ensures HoldsAgree(GiveBack(w, hold, user, keys))
  {
    var t := GiveBack(w, hold, user, keys);
    forall h | h in t.holdings
      ensures HoldAgrees(t, h)
    {
      assert HoldAgrees(w, h);
    }
  }

  lemma GiveBackKeepsStructure(w: World, hold: HoldId, user: UserId, keys: seq<SeatKey>)
    requires Structure(w) && InPhase(w, hold, Live)
    ensures Structure(GiveBack(w, hold, user, keys)) <==> Carrying(w.store.seats, keys, hold) == CarriedBy(w, hold)
  {
    GiveBackKeepsSeats(w, hold, user, keys);
    GiveBackKeepsLosses(w, hold, user, keys);
    GiveBackKeepsHolds(w, hold, user, keys);
    hide SeatsAgree, LossesAgree, HoldsAgree, Carrying, CarriedBy;
  }

  /** A committed hold has a seat, and all its seats are SOLD to it. */
  lemma BoughtSeats(w: World, hold: HoldId)
    requires Structure(w) && InPhase(w, hold, Bought)
    ensures w.holdings[hold].seats != {}
    ensures forall k :: k in w.holdings[hold].seats ==>
      k in w.store.seats && w.store.seats[k].status == SOLD && w.store.seats[k].holdId == Some(hold)
      && w.store.seats[k].heldBy == Some(w.holdings[hold].user)
  {
    assert HoldAgrees(w, hold);
    forall k | k in w.holdings[hold].seats
      ensures k in w.store.seats && SeatAgrees(w, k) && w.store.seats[k].holdId == Some(hold)
    {
      assert Owner(w, k) == Some(hold);
      assert k in w.lost ==> LossAgrees(w, k);
    }
  }

  /** Releasing a committed hold unsells a seat behind the back of the sold counter. */
  lemma ReleaseOfBought(w: World, hold: HoldId, user: UserId, keys: seq<SeatKey>, k: SeatKey)
    requires Structure(w) && InPhase(w, hold, Bought) && k in w.holdings[hold].seats && k in keys
    ensures |With(GiveBack(w, hold, user, keys).store.seats, SOLD)| < |With(w.store.seats, SOLD)|
  {
    BoughtSeats(w, hold);
    FreeSeatsSets(w.store.seats, keys, hold);
    assert k in Carrying(w.store.seats, keys, hold) && k in With(w.store.seats, SOLD);
    var left := With(w.store.seats, SOLD) - Carrying(w.store.seats, keys, hold);
    hide With, FreeSeats;
    SubsetCardinality(left, With(w.store.seats, SOLD) - {k});
  }

  /** So no release of a committed hold keeps everything right, whatever seats it names. */
  lemma BoughtIsNotReleased(w: World, hold: HoldId, user: UserId, keys: seq<SeatKey>)
    requires Consistent(w) && InPhase(w, hold, Bought)
    ensures !Consistent(GiveBack(w, hold, user, keys))
  {
    BoughtSeats(w, hold);
    var t := GiveBack(w, hold, user, keys);
    var k :| k in w.holdings[hold].seats;
    if k in keys {
      ReleaseOfBought(w, hold, user, keys, k);
      GiveBackCounters(w, hold, user, keys);
      hide Structure, With, LostIn, GiveBack;
    } else {
      assert !SeatAgrees(t, k);
      hide Counters;
    }
  }

  /** Releasing a hold again, or one that never was, finds no seat to free, but moves the counters. */
  lemma ReleaseOfNone(w: World, hold: HoldId, user: UserId, keys: seq<SeatKey>)
    requires Structure(w) && !InPhase(w, hold, Live) && !InPhase(w, hold, Bought)
    ensures var t := GiveBack(w, hold, user, keys);
            && t == w.(store := t.store) && t.store.seats == w.store.seats && t.store.orderOfHold == w.store.orderOfHold
            && LostIn(t, Live) == LostIn(w, Live) && LostIn(t, Returned) == LostIn(w, Returned)
  {
    forall k | k in w.store.seats
      ensures w.store.seats[k].holdId != Some(hold)
    {
      assert SeatAgrees(w, k);
    }
  }

  /**
   A release keeps everything right if and only if it is that of an open hold and its list is as long
   as the hold is large and has every seat that still carries the hold's id, or it moves nothing.
   */
  lemma ReleaseIsExact(w: World, e: Event)
    requires Consistent(w) && e.Release?
    ensures Consistent(Step(w, e)) <==> Disciplined(w, e)
  {
    hide Structure, With, LostIn, FreeSeats, Apply, Step, GiveBack, Carrying, CarriedBy;
    assert Step(w, e) == GiveBack(w, e.hold, e.user, e.keys) by { ReleaseIsGiveBack(w, e); }
    GiveBackCounters(w, e.hold, e.user, e.keys);
    if InPhase(w, e.hold, Live) {
      GiveBackKeepsStructure(w, e.hold, e.user, e.keys);
      GiveBackMoves(w, e.hold, e.user, e.keys);
      CarryingIsCarried(w, e.hold, e.keys);
    } else if InPhase(w, e.hold, Bought) {
      BoughtIsNotReleased(w, e.hold, e.user, e.keys);
    } else {
      ReleaseOfNone(w, e.hold, e.user, e.keys);
      if e.keys == [] { SameSeatsKeep(w, Step(w, e)); }
    }
  }

  /** A hold's own seats, each once, cover it. */
  lemma OwnSeatsCover(w: World, hold: HoldId, keys: seq<SeatKey>)
    requires SeatsAgree(w) && OwnSeats(w, hold, keys)
    ensures Covers(w, hold, keys)
  {
    DistinctCardinality(keys);
    forall k | k in w.store.seats && w.store.seats[k].holdId == Some(hold)
      ensures k in keys
    {
      assert SeatAgrees(w, k);
      assert k in ToSet(keys);
    }
  }

  lemma ReleaseIsGiveBack(w: World, e: Event)
    requires e.Release?
    ensures Step(w, e) == GiveBack(w, e.hold, e.user, e.keys)
  {
  }

  lemma GiveBackCounters(w: World, hold: HoldId, user: UserId, keys: seq<SeatKey>)
    requires Available in w.store.inv
    ensures Moves(w, GiveBack(w, hold, user, keys), |keys|, -|keys|, 0, 0)
    ensures GiveBack(w, hold, user, keys).universe == w.universe
  {
  }

  // ---- COMMIT

  /** The seats `keys` became SOLD to `hold`, with either script, and nothing else moved. */
  ghost predicate Buys(w: World, t: World, hold: HoldId, keys: seq<SeatKey>) {
    && t.universe == w.universe && t.lost == w.lost
    && t.holdings == SetPhase(w.holdings, hold, Bought)
    && (forall h :: h in t.store.orderOfHold ==> h == hold || h in w.store.orderOfHold)
    && t.store.seats.Keys == w.store.seats.Keys
    && (forall k :: k in w.store.seats ==>
          var a, b := w.store.seats[k], t.store.seats[k];
          if k in keys then b.status == SOLD && !b.volatile && b.holdId == a.holdId && b.heldBy == a.heldBy
          else b == a)
  }

  lemma CommitStep(w: World, e: Event)
    requires e.Commit?
    ensures var (store, reply) := Apply(w.store, e);
            Step(w, e) == if reply.Committed? then w.(store := store, holdings := SetPhase(w.holdings, e.hold, Bought))
                          else w.(store := store)
  {
    hide Apply;
  }

  /** What an accepted commit does to the seats, the counters and the ledger, whichever script ran. */
  lemma CommitEffects(s: Store, e: Event)
    requires e.Commit? && Apply(s, e).1.Committed?
    ensures var t := Apply(s, e).0;
            && AllClaimable(s.seats, e.keys, e.hold, e.user)
            && t.seats == (if e.kind == Booking then SellSeats(s.seats, e.keys, e.soldAt)
                           else SellSeatsStandalone(s.seats, e.keys, e.user, e.soldAt))
            && t.inv == (if e.kind == Booking then IncrBy(IncrBy(s.inv, Held, -|e.keys|), Sold, |e.keys|)
                         else ClampedMove(s.inv, |e.keys|))
            && (forall h :: h in t.orderOfHold ==> h == e.hold || h in s.orderOfHold)
            && (e.kind == Standalone ==> !AllSold(s.seats, e.keys))
            && (e.kind == Booking ==> e.hold !in s.orderOfHold)
  {
    hide CommitScript, CommitStandalone, AllClaimable, AllSold, SellSeats, SellSeatsStandalone, ClampedMove;
    if e.kind == Booking {
      BookingEffects(s, e.hold, e.user, e.keys, e.order, e.soldAt);
    } else {
      StandaloneEffects(s, e.hold, e.user, e.keys, e.order, e.soldAt);
    }
  }

  lemma BookingEffects(s: Store, hold: HoldId, user: UserId, keys: seq<SeatKey>, order: OrderId, soldAt: int)
    requires CommitScript(s, hold, user, keys, order, soldAt).1.Committed?
    ensures var t := CommitScript(s, hold, user, keys, order, soldAt).0;
            && AllClaimable(s.seats, keys, hold, user) && hold !in s.orderOfHold
            && t.seats == SellSeats(s.seats, keys, soldAt)
            && t.inv == IncrBy(IncrBy(s.inv, Held, -|keys|), Sold, |keys|)
            && t.orderOfHold == s.orderOfHold[hold := order]
  {
    hide AllClaimable, SellSeats;
  }

  lemma StandaloneEffects(s: Store, hold: HoldId, user: UserId, keys: seq<SeatKey>, order: OrderId, soldAt: int)
    requires CommitStandalone(s, hold, user, keys, order, soldAt).1.Committed?
    ensures var t := CommitStandalone(s, hold, user, keys, order, soldAt).0;
            && AllClaimable(s.seats, keys, hold, user) && !AllSold(s.seats, keys)
            && t.seats == SellSeatsStandalone(s.seats, keys, user, soldAt)
            && t.inv == ClampedMove(s.inv, |keys|)
            && (forall h :: h in t.orderOfHold ==> h == hold || h in s.orderOfHold)
  {
    hide AllClaimable, AllSold, SellSeatsStandalone, ClampedMove;
  }

  lemma CommitBuys(w: World, e: Event)
    requires e.Commit? && Apply(w.store, e).1.Committed? && ToSet(e.keys) <= With(w.store.seats, HELD)
    ensures Buys(w, Step(w, e), e.hold, e.keys)
  {
    hide Apply, Step, AllClaimable, AllSold, ClampedMove;
    CommitStep(w, e);
    CommitEffects(w.store, e);
    forall k | k in e.keys
      ensures k in w.store.seats && w.store.seats[k].status == HELD
    {
      assert k in ToSet(e.keys);
    }
  }

  lemma BuysKeepsSeats(w: World, t: World, hold: HoldId, keys: seq<SeatKey>)
    requires Buys(w, t, hold, keys) && SeatsAgree(w) && OwnSeats(w, hold, keys) && w.holdings[hold].phase == Live
    requires ToSet(keys) <= Carrying(w.store.seats, keys, hold)
    ensures SeatsAgree(t) && (OnlyHeldExpire(w.store) ==> OnlyHeldExpire(t.store))
  {
    forall k | k in t.store.seats
      ensures SeatAgrees(t, k)
    {
      assert SeatAgrees(w, k);
      assert k in w.holdings[hold].seats <==> k in ToSet(keys);
    }
  }

  lemma BuysKeepsHolds(w: World, t: World, hold: HoldId, keys: seq<SeatKey>)
    requires Buys(w, t, hold, keys) && HoldsAgree(w) && OwnSeats(w, hold, keys) && w.holdings[hold].phase == Live
    ensures HoldsAgree(t)
  {
    forall h | h in t.holdings
      ensures HoldAgrees(t, h)
    {
      assert HoldAgrees(w, h);
    }
  }

  lemma BuysKeepsLosses(w: World, t: World, hold: HoldId, keys: seq<SeatKey>)
    requires Buys(w, t, hold, keys) && LossesAgree(w) && OwnSeats(w, hold, keys)
    requires ToSet(keys) <= Carrying(w.store.seats, keys, hold)
    ensures LossesAgree(t)
    ensures LostIn(t, Live) == LostIn(w, Live) && LostIn(t, Returned) == LostIn(w, Returned)
  {
    forall k | k in t.lost
      ensures LossAgrees(t, k) && w.lost[k] != hold
    {
      assert LossAgrees(w, k);
      assert k in w.holdings[hold].seats <==> k in ToSet(keys);
    }
  }

  /** What it means for a list of seats that all of them are HELD by or SOLD to a hold. */
  lemma ClaimableSeats(w: World, hold: HoldId, user: UserId, keys: seq<SeatKey>)
    requires Structure(w) && keys != [] && AllClaimable(w.store.seats, keys, hold, user)
    ensures hold in w.holdings && w.holdings[hold].user == user && w.holdings[hold].phase != Returned
    ensures ToSet(keys) <= w.holdings[hold].seats
    ensures w.holdings[hold].phase == Live ==>
      ToSet(keys) <= With(w.store.seats, HELD) && ToSet(keys) <= Carrying(w.store.seats, keys, hold)
          && !AllSold(w.store.seats, keys)
    ensures w.holdings[hold].phase == Bought ==> AllSold(w.store.seats, keys)
  {
    assert keys[0] in keys;
    forall k | k in keys
      ensures SeatAgrees(w, k) && Claimable(w.store.seats, k, hold, user)
    {
    }
  }

  /** An accepted commit adds every key to the sold counter, and takes them out of held unless clamped. */
  lemma CommitCounters(w: World, e: Event)
    requires Counters(w) && e.Commit? && Apply(w.store, e).1.Committed?
    ensures Read(Step(w, e).store.inv, Sold) == Read(w.store.inv, Sold) + |e.keys|
    ensures Distinct(e.keys) && (e.kind == Standalone ==> ToSet(e.keys) <= With(w.store.seats, HELD)) ==>
      Moves(w, Step(w, e), 0, -|e.keys|, |e.keys|, 0)
  {
    CommitEffects(w.store, e);
    CommitStep(w, e);
    DistinctCardinality(e.keys);
    hide Apply, Step, With, LostIn, AllClaimable, AllSold, SellSeats, SellSeatsStandalone;
    if ToSet(e.keys) <= With(w.store.seats, HELD) {
      SubsetCardinality(ToSet(e.keys), With(w.store.seats, HELD));
    }
  }

  lemma CommitMoves(w: World, e: Event)
    requires Structure(w) && e.Commit? && Apply(w.store, e).1.Committed?
    requires OwnSeats(w, e.hold, e.keys) && w.holdings[e.hold].phase == Live && e.keys != []
    ensures Structure(Step(w, e)) && SeatsMove(w, Step(w, e), 0, -|e.keys|, |e.keys|, 0)
  {
    hide Apply, Step, AllClaimable, AllSold, SellSeats, SellSeatsStandalone, SeatsAgree, LossesAgree, HoldsAgree, Buys,
        With, LostIn;
    var t := Step(w, e);
    CommitEffects(w.store, e);
    ClaimableSeats(w, e.hold, e.user, e.keys);
    CommitBuys(w, e);
    BuysKeepsSeats(w, t, e.hold, e.keys);
    BuysKeepsHolds(w, t, e.hold, e.keys);
    BuysKeepsLosses(w, t, e.hold, e.keys);
    BuysKeepsLedger(w, t, e.hold, e.keys);
    BuysSizes(w, t, e.hold, e.keys);
    DistinctCardinality(e.keys);
  }

  /** After a sale the open hold's other seats, HELD or expired, no longer agree with it. */
  lemma BuysLeavesNone(w: World, t: World, hold: HoldId, keys: seq<SeatKey>)
    requires Structure(w) && Structure(t) && Buys(w, t, hold, keys) && InPhase(w, hold, Live)
    ensures w.holdings[hold].seats <= ToSet(keys)
  {
    assert HoldAgrees(w, hold);
    forall k | k in w.lost
      ensures w.lost[k] != hold
    {
      assert LossAgrees(t, k);
    }
    forall k | k in w.holdings[hold].seats
      ensures k in keys
    {
      assert Owner(w, k) == Some(hold) && k in w.store.seats;
      assert SeatAgrees(w, k) && SeatAgrees(t, k);
    }
  }

  lemma BuysKeepsLedger(w: World, t: World, hold: HoldId, keys: seq<SeatKey>)
    requires Buys(w, t, hold, keys) && LedgerAgrees(w) && hold in w.holdings
    ensures LedgerAgrees(t) && t.universe == w.universe
  {
  }

  lemma BuysSets(w: World, t: World, hold: HoldId, keys: seq<SeatKey>)
    requires Buys(w, t, hold, keys) && ToSet(keys) <= With(w.store.seats, HELD)
    ensures With(t.store.seats, AVAILABLE) == With(w.store.seats, AVAILABLE)
    ensures With(t.store.seats, HELD) == With(w.store.seats, HELD) - ToSet(keys)
    ensures With(t.store.seats, SOLD) == With(w.store.seats, SOLD) + ToSet(keys)
    ensures ToSet(keys) !! With(w.store.seats, SOLD)
  {
    forall k | k in keys
      ensures k in With(w.store.seats, HELD)
    {
      assert k in ToSet(keys);
    }
  }

  lemma BuysSizes(w: World, t: World, hold: HoldId, keys: seq<SeatKey>)
    requires Buys(w, t, hold, keys) && ToSet(keys) <= With(w.store.seats, HELD)
    ensures |With(t.store.seats, AVAILABLE)| == |With(w.store.seats, AVAILABLE)|
    ensures |With(t.store.seats, HELD)| == |With(w.store.seats, HELD)| - |ToSet(keys)|
    ensures |With(t.store.seats, SOLD)| == |With(w.store.seats, SOLD)| + |ToSet(keys)|
  {
    BuysSets(w, t, hold, keys);
    hide Buys, With, ToSet;
  }

  /**
   A commit that does not sell leaves seats and counters alone; at most it restores the ledger of a committed
   hold.
   */
  lemma CommitRefused(w: World, e: Event)
    requires Consistent(w) && e.Commit? && Addressed(w, e) && !Apply(w.store, e).1.Committed?
    ensures Consistent(Step(w, e))
  {
    var t := Step(w, e);
    if t != w {
      assert e.keys != [] && AllClaimable(w.store.seats, e.keys, e.hold, e.user) && AllSold(w.store.seats, e.keys);
      assert t == w.(store := Record(w.store, e.hold, e.order));
      ClaimableSeats(w, e.hold, e.user, e.keys);
      hide Apply, Step, AllClaimable, AllSold, SeatAgrees, With, LostIn, HoldAgrees, LossAgrees;
      RecordKeeps(w, e.hold, e.order);
    }
  }

  lemma RecordKeeps(w: World, hold: HoldId, order: OrderId)
    requires Consistent(w) && hold in w.holdings && w.holdings[hold].phase == Bought
    ensures Consistent(w.(store := Record(w.store, hold, order)))
  {
    SameSeatsKeep(w, w.(store := Record(w.store, hold, order)));
  }

  /** The booking script sells a committed hold a second time once its ledger entry is gone. */
  lemma CommitOfBought(w: World, e: Event)
    requires Consistent(w) && e.Commit? && e.keys != [] && InPhase(w, e.hold, Bought)
    ensures Apply(w.store, e).1.Committed?
      <==> && e.kind == Booking && e.hold !in w.store.orderOfHold
           && w.holdings[e.hold].user == e.user && ToSet(e.keys) <= w.holdings[e.hold].seats
    ensures Apply(w.store, e).1.Committed? ==> Step(w, e).store.seats == w.store.seats
  {
    BoughtSeats(w, e.hold);
    hide Apply, Step;
    TakesIff(w.store, e);
    if AllClaimable(w.store.seats, e.keys, e.hold, e.user) {
      ClaimableSeats(w, e.hold, e.user, e.keys);
    } else if ToSet(e.keys) <= w.holdings[e.hold].seats {
      assert forall k :: k in e.keys ==> k in ToSet(e.keys);
    }
    if Apply(w.store, e).1.Committed? {
      CommitEffects(w.store, e);
      CommitStep(w, e);
    }
    hide Structure, Counters, With, LostIn;
  }

  /** Selling for an open hold keeps everything right if and only if the call names each of its seats once. */
  lemma SaleIsExact(w: World, e: Event)
    requires Consistent(w) && e.Commit? && e.keys != [] && Apply(w.store, e).1.Committed? && InPhase(w, e.hold, Live)
    ensures Consistent(Step(w, e)) <==> OwnSeats(w, e.hold, e.keys)
  {
    hide Structure, With, LostIn, Apply, Step, AllClaimable, AllSold, Buys;
    CommitEffects(w.store, e);
    ClaimableSeats(w, e.hold, e.user, e.keys);
    CommitCounters(w, e);
    CommitBuys(w, e);
    BuysSizes(w, Step(w, e), e.hold, e.keys);
    DistinctCardinality(e.keys);
    if OwnSeats(w, e.hold, e.keys) {
      CommitMoves(w, e);
    } else if Structure(Step(w, e)) {
      BuysLeavesNone(w, Step(w, e), e.hold, e.keys);
    }
  }

  /**
   A commit, with either script and of whatever seats, keeps everything right if and only if it sells
   nothing or is that of an open hold and names each of its seats once.
   */
  lemma CommitIsExact(w: World, e: Event)
    requires Consistent(w) && e.Commit? && Addressed(w, e)
    ensures Consistent(Step(w, e)) <==> Disciplined(w, e)
  {
    hide Structure, With, LostIn, Apply, Step, AllClaimable, AllSold, FastPath, OwnSeats;
    TakesIff(w.store, e);
    if !Takes(w.store, e) {
      CommitRefused(w, e);
    } else {
      if e.kind == Standalone { FastPathSeats(w.store, e); }
      ClaimableSeats(w, e.hold, e.user, e.keys);
      if w.holdings[e.hold].phase == Live {
        SaleIsExact(w, e);
      } else {
        CommitOfBought(w, e);
        CommitCounters(w, e);
      }
    }
  }

  lemma FastPathSeats(s: Store, e: Event)
    requires e.Commit? && FastPath(s, e.hold, e.user, e.keys, e.order) == None
    ensures e.keys != []
  {
  }

  // ---- SEED

  lemma SeedLosses(w: World, e: Event)
    requires Structure(w) && e.Seed?
    ensures var t := Step(w, e);
            var names := ToSet(e.names);
            && LostIn(t, Live) == LostIn(w, Live) - names
            && LostIn(t, Returned) == LostIn(w, Returned) - names
            && Missing(w.store.seats, e.names)
                == (names - w.universe) + (names * LostIn(w, Live)) + (names * LostIn(w, Returned))
            && LostIn(w, Live) <= w.universe && LostIn(w, Returned) <= w.universe
                && LostIn(w, Live) !! LostIn(w, Returned)
  {
    hide SeatsAgree, HoldsAgree, LedgerAgrees, OnlyHeldExpire, Step, Apply;
    SeedStep(w, e);
    LossesSplit(w);
    hide LossAgrees;
    assert forall k :: k in LostIn(w, Live) + LostIn(w, Returned) <==> k in w.universe && k !in w.store.seats;
  }

  /** Every expired seat expired under a hold that is still open or was released. */
  lemma LossesSplit(w: World)
    requires LossesAgree(w)
    ensures LostIn(w, Live) + LostIn(w, Returned) == w.universe - w.store.seats.Keys
    ensures LostIn(w, Live) !! LostIn(w, Returned)
  {
    forall k | k in w.lost
      ensures k in LostIn(w, Live) || k in LostIn(w, Returned)
    {
      assert LossAgrees(w, k);
    }
  }

  lemma SeedKeepsStructure(w: World, e: Event)
    requires Structure(w) && e.Seed? && ToSet(e.names) !! LostIn(w, Live)
    ensures Structure(Step(w, e))
  {
    var t := Step(w, e);
    SeedKeepsSeats(w, e);
    SeedKeepsLosses(w, e);
    SeedKeepsHolds(w, e);
    hide SeatsAgree, LossesAgree, HoldsAgree;
  }

  lemma SeedKeepsSeats(w: World, e: Event)
    requires SeatsAgree(w) && e.Seed?
    ensures SeatsAgree(Step(w, e))
  {
    var t := Step(w, e);
    forall k | k in t.store.seats
      ensures SeatAgrees(t, k)
    {
      assert k in w.store.seats ==> SeatAgrees(w, k);
    }
  }

  lemma SeedKeepsLosses(w: World, e: Event)
    requires LossesAgree(w) && e.Seed?
    ensures LossesAgree(Step(w, e))
  {
    var t := Step(w, e);
    forall k | k in t.lost
      ensures LossAgrees(t, k)
    {
      assert LossAgrees(w, k);
    }
  }

  lemma SeedKeepsHolds(w: World, e: Event)
    requires LossesAgree(w) && HoldsAgree(w) && e.Seed? && ToSet(e.names) !! LostIn(w, Live)
    ensures HoldsAgree(Step(w, e))
  {
    var t := Step(w, e);
    forall h | h in t.holdings
      ensures HoldAgrees(t, h)
    {
      assert HoldAgrees(w, h);
      if w.holdings[h].phase != Returned {
        forall k | k in w.holdings[h].seats
          ensures Owner(t, k) == Some(h)
        {
          assert Owner(w, k) == Some(h);
          if k in w.lost {
            assert LossAgrees(w, k);
            assert k in LostIn(w, Live);
          }
        }
      }
    }
  }

  lemma SeedSizes<T>(names: set<T>, universe: set<T>, missing: set<T>, live: set<T>, returned: set<T>)
    requires missing == (names - universe) + (names * live) + (names * returned)
    requires live <= universe && returned <= universe && live !! returned
    ensures |missing| == |universe + names| - |universe| + |names * live| + |names * returned|
    ensures |live - names| == |live| - |names * live|
    ensures |returned - names| == |returned| - |names * returned|
    ensures names !! live <==> |names * live| == 0
  {
    assert universe + names == universe + (names - universe);
    assert (names - universe) !! (names * live);
    assert ((names - universe) + (names * live)) !! (names * returned);
    assert live - names == live - (names * live);
    assert returned - names == returned - (names * returned);
  }

  lemma SeedInventoryEffect(inv: map<Counter, int>, quota: nat)
    requires inv != map[] && Available in inv
    ensures var r := SeedInventory(inv, quota);
            var added := if quota > Read(inv, Quota) then quota - Read(inv, Quota) else 0;
            && Available in r
            && Read(r, Available) == Read(inv, Available) + added
            && Read(r, Quota) == Read(inv, Quota) + added
            && Read(r, Held) == Read(inv, Held) && Read(r, Sold) == Read(inv, Sold)
  {
  }

  lemma SeedSeatsNew(s: Store, e: Event)
    requires e.Seed?
    ensures Apply(s, e).0 == s.(inv := SeedInventory(s.inv, e.quota), seats := SeedSeats(s.seats, e.names))
    ensures var r := SeedSeats(s.seats, e.names);
            && |With(r, AVAILABLE)| == |With(s.seats, AVAILABLE)| + |Missing(s.seats, e.names)|
            && |With(r, HELD)| == |With(s.seats, HELD)|
            && |With(r, SOLD)| == |With(s.seats, SOLD)|
  {
    SeedSeatsSets(s.seats, e.names);
    assert With(s.seats, AVAILABLE) !! Missing(s.seats, e.names);
  }

  lemma SeedStep(w: World, e: Event)
    requires e.Seed?
    ensures Step(w, e) == w.(store := Apply(w.store, e).0, universe := w.universe + ToSet(e.names),
        lost := w.lost - ToSet(e.names))
  {
    hide Apply;
  }

  /**
   Re-seeding keeps the counters right if and only if it names as many seats as its quota says and
   brings back none that expired under a hold still open.
   */
  lemma SeedIsExact(w: World, e: Event)
    requires Consistent(w) && e.Seed?
    ensures Consistent(Step(w, e)) <==> Disciplined(w, e)
  {
    hide Structure, With, LostIn, Apply, Step, SeedInventory, SeedSeats, Missing;
    SeedLosses(w, e);
    SeedStep(w, e);
    SeedSeatsNew(w.store, e);
    SeedInventoryEffect(w.store.inv, e.quota);
    SeedSizes(ToSet(e.names), w.universe, Missing(w.store.seats, e.names), LostIn(w, Live), LostIn(w, Returned));
    if ToSet(e.names) !! LostIn(w, Live) {
      SeedKeepsStructure(w, e);
    }
  }

  // ---- Expiry

  lemma ExpiryKeepsStructure(w: World, e: Event)
    requires Structure(w) && e.SeatExpires?
    ensures Structure(Step(w, e))
  {
    var t := Step(w, e);
    if e.key in w.store.seats && w.store.seats[e.key].volatile {
      assert SeatAgrees(w, e.key);
      forall k | k in t.store.seats
        ensures SeatAgrees(t, k)
      {
        assert SeatAgrees(w, k);
      }
      forall k | k in t.lost
        ensures LossAgrees(t, k)
      {
        assert k in w.lost ==> LossAgrees(w, k);
      }
      forall h | h in t.holdings
        ensures HoldAgrees(t, h)
      {
        assert HoldAgrees(w, h);
      }
    } else {
      assert t == w;
    }
  }

  lemma ExpirySets(w: World, k: SeatKey)
    requires Structure(w) && k in w.store.seats && w.store.seats[k].volatile
    ensures var t := Step(w, SeatExpires(k));
            && k in With(w.store.seats, HELD) && k !in LostIn(w, Live)
            && With(t.store.seats, HELD) == With(w.store.seats, HELD) - {k}
            && With(t.store.seats, AVAILABLE) == With(w.store.seats, AVAILABLE)
            && With(t.store.seats, SOLD) == With(w.store.seats, SOLD)
            && LostIn(t, Live) == LostIn(w, Live) + {k}
            && LostIn(t, Returned) == LostIn(w, Returned)
            && t.store.inv == w.store.inv && t.universe == w.universe
  {
    assert SeatAgrees(w, k);
    assert k !in w.lost;
    hide SeatsAgree, HoldsAgree, LedgerAgrees;
  }

  /** An expiring seat moves from HELD to the expired seats of an open hold, which the held counter covers. */
  lemma ExpiryKeepsCounters(w: World, e: Event)
    requires Consistent(w) && e.SeatExpires?
    ensures Counters(Step(w, e))
  {
    hide Structure, With, LostIn, Step;
    var k := e.key;
    if k in w.store.seats && w.store.seats[k].volatile {
      ExpirySets(w, k);
    } else {
      NoExpiry(w, k);
    }
  }

  lemma NoExpiry(w: World, k: SeatKey)
    requires !(k in w.store.seats && w.store.seats[k].volatile)
    ensures Step(w, SeatExpires(k)) == w
  {
  }

  lemma QuietStep(w: World, e: Event)
    requires e.HoldRecordExpires? || e.LedgerExpires? || e.OrderExpires? || e.LimitExpires?
    ensures var t := Step(w, e);
            && t == w.(store := t.store) && t.store.seats == w.store.seats && t.store.inv == w.store.inv
            && (forall h :: h in t.store.orderOfHold ==> h in w.store.orderOfHold)
  {
  }

  lemma QuietKeeps(w: World, e: Event)
    requires Consistent(w) && (e.HoldRecordExpires? || e.LedgerExpires? || e.OrderExpires? || e.LimitExpires?)
    ensures Consistent(Step(w, e))
  {
    hide Step;
    QuietStep(w, e);
    SameSeatsKeep(w, Step(w, e));
  }

  /** A step that leaves seats, counters and history alone and adds nothing to the ledger keeps the invariant. */
  lemma SameSeatsKeep(w: World, t: World)
    requires Consistent(w) && t == w.(store := t.store) && t.store.seats == w.store.seats
    requires Moves(w, t, 0, 0, 0, 0)
    requires forall h ::
      h in t.store.orderOfHold ==> h in w.store.orderOfHold || (h in w.holdings && w.holdings[h].phase == Bought)
    ensures Consistent(t)
  {
    assert SeatsAgree(t) by { forall k | k in t.store.seats ensures SeatAgrees(t, k) { assert SeatAgrees(w, k); } }
    assert LossesAgree(t) by { forall k | k in t.lost ensures LossAgrees(t, k) { assert LossAgrees(w, k); } }
    assert HoldsAgree(t) by { forall h | h in t.holdings ensures HoldAgrees(t, h) { assert HoldAgrees(w, h); } }
    hide SeatsAgree, LossesAgree, HoldsAgree, With;
    assert LostIn(t, Live) == LostIn(w, Live) && LostIn(t, Returned) == LostIn(w, Returned);
  }
}
