/**
 The inventory protocol with its history: which holds were granted and what became of them, which
 seats expired under which hold. Here are the invariant that ties the counters to the seats and
 the discipline that callers must keep to.
 */
module Worlds {
  import opened Collections
  import opened Redis
  import opened Seeding
  import opened Protocol

  /** What became of a granted hold: still open, released, or committed. */
  datatype Phase = Live | Returned | Bought

  datatype Holding = Holding(user: UserId, seats: set<SeatKey>, phase: Phase)

  /**
   The store, and the history the store does not record: the seats ever seeded, every granted
   hold, and for each seat that expired the hold it expired under.
   */
  datatype World = World(
    store: Store,
    universe: set<SeatKey>,
    holdings: map<HoldId, Holding>,
    lost: map<SeatKey, HoldId>)

  function SetPhase(holdings: map<HoldId, Holding>, hold: HoldId, phase: Phase): map<HoldId, Holding> {
    if hold in holdings then holdings[hold := holdings[hold].(phase := phase)] else holdings
  }

  function Step(w: World, e: Event): World {
    var (store, reply) := Apply(w.store, e);
    match e
    case Hold(user, hold, keys, _, _) =>
      if reply.Granted? then w.(store := store, holdings := w.holdings[hold := Holding(user, ToSet(keys), Live)])
      else w.(store := store)
    case Release(hold, _, _) => w.(store := store, holdings := SetPhase(w.holdings, hold, Returned))
    case Commit(_, hold, _, _, _, _) =>
      if reply.Committed? then w.(store := store, holdings := SetPhase(w.holdings, hold, Bought))
      else w.(store := store)
    case Seed(names, _) => w.(store := store, universe := w.universe + ToSet(names), lost := w.lost - ToSet(names))
    case SeatExpires(k) =>
      if k in w.store.seats && w.store.seats[k].volatile && w.store.seats[k].holdId.Some?
      then w.(store := store, lost := w.lost[k := w.store.seats[k].holdId.value])
      else w.(store := store)
    case _ => w.(store := store)
  }

  function WorldAt(w: World, es: seq<Event>, i: nat): World
    requires i <= |es|
  {
    if i == 0 then w else Step(WorldAt(w, es, i - 1), es[i - 1])
  }

  // ---- The invariant

  function With(seats: map<SeatKey, Seat>, status: Status): set<SeatKey> {
    set k | k in seats && seats[k].status == status
  }

  /** The expired seats whose hold is in the given phase. */
  function LostIn(w: World, phase: Phase): set<SeatKey> {
    set k | k in w.lost && w.lost[k] in w.holdings && w.holdings[w.lost[k]].phase == phase
  }

  /** The hold a seat belongs to, or belonged to when it expired. */
  function Owner(w: World, k: SeatKey): Option<HoldId> {
    if k in w.store.seats then w.store.seats[k].holdId
    else if k in w.lost then Some(w.lost[k])
    else None
  }

  /** A seat's hash agrees with the hold it names. */
  ghost predicate SeatAgrees(w: World, k: SeatKey)
    requires k in w.store.seats
  {
    var seat := w.store.seats[k];
    if seat.status == AVAILABLE then seat.holdId == None
    else
      && seat.holdId.Some?
      && var h := seat.holdId.value;
      && h in w.holdings
      && k in w.holdings[h].seats
      && seat.heldBy == Some(w.holdings[h].user)
      && w.holdings[h].phase == if seat.status == HELD then Live else Bought
  }

  /** An expired seat's hold was never committed. */
  ghost predicate LossAgrees(w: World, k: SeatKey)
    requires k in w.lost
  {
    var h := w.lost[k];
    h in w.holdings && k in w.holdings[h].seats && w.holdings[h].phase != Bought
  }

  /** A hold that was not released still has all its seats, expired ones included. */
  ghost predicate HoldAgrees(w: World, h: HoldId)
    requires h in w.holdings
  {
    w.holdings[h].phase != Returned ==> forall k :: k in w.holdings[h].seats ==> Owner(w, k) == Some(h)
  }

  ghost predicate SeatsAgree(w: World) {
    forall k :: k in w.store.seats ==> SeatAgrees(w, k)
  }

  ghost predicate LossesAgree(w: World) {
    && w.store.seats.Keys <= w.universe
    && w.lost.Keys == w.universe - w.store.seats.Keys
    && (forall k :: k in w.lost ==> LossAgrees(w, k))
  }

  ghost predicate HoldsAgree(w: World) {
    forall h :: h in w.holdings ==> w.holdings[h].seats != {} && HoldAgrees(w, h)
  }

  ghost predicate LedgerAgrees(w: World) {
    forall h :: h in w.store.orderOfHold ==> h in w.holdings && w.holdings[h].phase == Bought
  }

  ghost predicate Structure(w: World) {
    OnlyHeldExpire(w.store) && SeatsAgree(w) && LossesAgree(w) && HoldsAgree(w) && LedgerAgrees(w)
  }

  /** The counters say how many seats there are of each kind; expired seats count for their hold. */
  ghost predicate Counters(w: World) {
    && Available in w.store.inv
    && Read(w.store.inv, Sold) == |With(w.store.seats, SOLD)|
    && Read(w.store.inv, Held) == |With(w.store.seats, HELD)| + |LostIn(w, Live)|
    && Read(w.store.inv, Available) == |With(w.store.seats, AVAILABLE)| + |LostIn(w, Returned)|
    && Read(w.store.inv, Quota) == |w.universe|
  }

  ghost predicate Consistent(w: World) {
    Structure(w) && Counters(w)
  }

  // ---- The discipline

  /** `keys` names each seat of the hold once. */
  predicate OwnSeats(w: World, hold: HoldId, keys: seq<SeatKey>) {
    hold in w.holdings && Distinct(keys) && ToSet(keys) == w.holdings[hold].seats
  }

  predicate InPhase(w: World, hold: HoldId, phase: Phase) {
    hold in w.holdings && w.holdings[hold].phase == phase
  }

  /** A list as long as the hold is large, with every seat that still carries the hold's id. */
  predicate Covers(w: World, hold: HoldId, keys: seq<SeatKey>)
    requires hold in w.holdings
  {
    && |keys| == |w.holdings[hold].seats|
    && forall k :: k in w.store.seats && w.store.seats[k].holdId == Some(hold) ==> k in keys
  }

  /** What every handler sees to: holds come under new ids, holds and commits name at least one seat. */
  predicate Addressed(w: World, e: Event) {
    match e
    case Hold(_, hold, keys, _, _) => hold !in w.holdings && keys != []
    case Commit(kind, _, _, keys, _, _) => keys != [] || kind == Standalone
    case _ => true
  }

  /**
   What the callers must keep to: a hold that is granted names no seat twice; a release is that of
   an open hold and covers it, or moves nothing; a commit that sells does so for an open hold and
   names its seats once each; re-seeding keeps to the numbering of the category and does not bring
   back a seat that expired under an open hold.
   */
  predicate Disciplined(w: World, e: Event) {
    match e
    case Hold(_, _, keys, _, _) => Takes(w.store, e) ==> Distinct(keys)
    case Release(hold, _, keys) =>
      if InPhase(w, hold, Live) then Covers(w, hold, keys) else !InPhase(w, hold, Bought) && keys == []
    case Commit(_, hold, _, keys, _, _) => Takes(w.store, e) ==> InPhase(w, hold, Live) && OwnSeats(w, hold, keys)
    case Seed(names, quota) =>
      && |w.universe + ToSet(names)| == (if quota > Read(w.store.inv, Quota) then quota else Read(w.store.inv, Quota))
      && ToSet(names) !! LostIn(w, Live)
    case _ => true
  }

  ghost predicate AddressedRun(w: World, es: seq<Event>) {
    forall i :: 0 <= i < |es| ==> Addressed(WorldAt(w, es, i), es[i])
  }

  ghost predicate DisciplinedUpTo(w: World, es: seq<Event>, i: nat)
    requires i <= |es|
  {
    forall j :: 0 <= j < i ==> Disciplined(WorldAt(w, es, j), es[j])
  }

  ghost predicate ConsistentUpTo(w: World, es: seq<Event>, i: nat)
    requires i <= |es|
  {
    forall j :: 0 <= j <= i ==> Consistent(WorldAt(w, es, j))
  }

  ghost predicate DisciplinedRun(w: World, es: seq<Event>) {
    AddressedRun(w, es) && DisciplinedUpTo(w, es, |es|)
  }
}
