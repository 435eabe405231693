/**
 Runs of the inventory protocol. A run is any interleaving of script calls, re-seedings and
 expirations; nothing is assumed here about who calls which script with which arguments.
 */
module Protocol {
  import opened Collections
  import opened Redis
  import opened Seeding

  /** Which of the two commit scripts a call runs. */
  datatype CommitKind = Booking | Standalone

  datatype Event =
    | Hold(user: UserId, hold: HoldId, keys: seq<SeatKey>, expiresAt: int, max: int)
    | Release(hold: HoldId, user: UserId, keys: seq<SeatKey>)
    | Commit(kind: CommitKind, hold: HoldId, user: UserId, keys: seq<SeatKey>, order: OrderId, soldAt: int)
    | Seed(names: seq<SeatKey>, quota: nat)
    | SeatExpires(key: SeatKey)
    | HoldRecordExpires(hold: HoldId)
    | LedgerExpires(hold: HoldId)
    | OrderExpires(order: OrderId)
    | LimitExpires(user: UserId)

  function Apply(s: Store, e: Event): (Store, Reply) {
    match e
    case Hold(user, hold, keys, expiresAt, max) => HoldScript(s, user, hold, keys, expiresAt, max)
    case Release(hold, user, keys) => ReleaseScript(s, hold, user, keys)
    case Commit(kind, hold, user, keys, order, soldAt) =>
      if kind == Booking then CommitScript(s, hold, user, keys, order, soldAt)
      else CommitStandalone(s, hold, user, keys, order, soldAt)
    case Seed(names, quota) => (SeedCategory(s, names, quota), Silent)
    case SeatExpires(key) =>
      (if key in s.seats && s.seats[key].volatile then s.(seats := s.seats - {key}) else s, Silent)
    case HoldRecordExpires(hold) => (s.(holds := s.holds - {hold}), Silent)
    case LedgerExpires(hold) => (s.(orderOfHold := s.orderOfHold - {hold}), Silent)
    case OrderExpires(order) => (s.(holdOfOrder := s.holdOfOrder - {order}), Silent)
    case LimitExpires(user) => (s.(limits := s.limits - {user}), Silent)
  }

  function StateAt(s: Store, es: seq<Event>, i: nat): Store
    requires i <= |es|
  {
    if i == 0 then s else Apply(StateAt(s, es, i - 1), es[i - 1]).0
  }

  function ReplyAt(s: Store, es: seq<Event>, i: nat): Reply
    requires i < |es|
  {
    Apply(StateAt(s, es, i), es[i]).1
  }

  /** The keyspace meets every test of the script, so that a hold is granted or a commit sells. */
  predicate Takes(s: Store, e: Event) {
    match e
    case Hold(user, _, keys, _, max) =>
      && Available in s.inv && |keys| <= s.inv[Available]
      && Limit(s.limits, user) + |keys| <= max
      && AllAvailable(s.seats, keys)
    case Commit(kind, hold, user, keys, order, _) =>
      && AllClaimable(s.seats, keys, hold, user)
      && (if kind == Booking then hold !in s.orderOfHold
          else FastPath(s, hold, user, keys, order) == None && !AllSold(s.seats, keys))
    case _ => true
  }

  /** Holds are granted and commits sell if and only if these tests are met. */
  lemma TakesIff(s: Store, e: Event)
    ensures e.Hold? ==> (Apply(s, e).1.Granted? <==> Takes(s, e)) && (Apply(s, e).1.Rejected? <==> !Takes(s, e))
    ensures e.Commit? ==> (Apply(s, e).1.Committed? <==> Takes(s, e))
    ensures e.Commit? && e.kind == Booking ==> (Apply(s, e).1.Rejected? <==> !Takes(s, e) && e.hold !in s.orderOfHold)
  {
    hide AllAvailable, AllClaimable, AllSold, FirstTaken, FirstInvalid, ScanError, ClampedMove;
  }

  // ---- Only HELD seats may expire

  ghost predicate OnlyHeldExpire(s: Store) {
    forall k :: k in s.seats ==> (s.seats[k].volatile <==> s.seats[k].status == HELD)
  }

  lemma CommitKeepsOnlyHeldExpire(s: Store, e: Event)
    requires OnlyHeldExpire(s) && e.Commit?
    ensures OnlyHeldExpire(Apply(s, e).0)
  {
    hide AllClaimable, AllSold, ScanError, FirstInvalid, ClampedMove;
  }

  lemma ApplyKeepsOnlyHeldExpire(s: Store, e: Event)
    requires OnlyHeldExpire(s)
    ensures OnlyHeldExpire(Apply(s, e).0)
  {
    hide CommitScript, CommitStandalone, AllAvailable, FirstTaken;
    if e.Commit? {
      CommitKeepsOnlyHeldExpire(s, e);
    }
  }

  /** In every reachable state a seat carries a TTL exactly while it is HELD. */
  lemma {:induction false} OnlyHeldExpireAlways(s: Store, es: seq<Event>, i: nat)
    requires OnlyHeldExpire(s) && i <= |es|
    ensures OnlyHeldExpire(StateAt(s, es, i))
  {
    if i > 0 {
      OnlyHeldExpireAlways(s, es, i - 1);
      ApplyKeepsOnlyHeldExpire(StateAt(s, es, i - 1), es[i - 1]);
    }
  }

  // ---- A sold seat stays sold until its own hold is released

  predicate SoldTo(s: Store, k: SeatKey, hold: HoldId) {
    k in s.seats && s.seats[k].status == SOLD && s.seats[k].holdId == Some(hold)
  }

  predicate Frees(e: Event, hold: HoldId, k: SeatKey) {
    e.Release? && e.hold == hold && k in e.keys
  }

  lemma ApplyKeepsSold(s: Store, e: Event, k: SeatKey, hold: HoldId)
    requires OnlyHeldExpire(s) && SoldTo(s, k, hold)
    requires !Frees(e, hold, k)
    ensures SoldTo(Apply(s, e).0, k, hold)
    ensures Apply(s, e).0.seats[k].heldBy == s.seats[k].heldBy
  {
    if e.Hold? {
      assert !IsAvailable(s.seats, k);
    }
  }

  lemma {:induction false} SoldUntilReleased(s: Store, es: seq<Event>, i: nat, j: nat, k: SeatKey, hold: HoldId)
    requires OnlyHeldExpire(s) && i <= j <= |es|
    requires SoldTo(StateAt(s, es, i), k, hold)
    requires forall m :: i <= m < j ==> !Frees(es[m], hold, k)
    ensures SoldTo(StateAt(s, es, j), k, hold)
    ensures StateAt(s, es, j).seats[k].heldBy == StateAt(s, es, i).seats[k].heldBy
    decreases j
  {
    hide Apply, OnlyHeldExpire, Frees;
    if i < j {
      SoldUntilReleased(s, es, i, j - 1, k, hold);
      OnlyHeldExpireAlways(s, es, j - 1);
      ApplyKeepsSold(StateAt(s, es, j - 1), es[j - 1], k, hold);
    }
  }

  // ---- No double sale

  /** The event at position `i` sold seat `k` to hold `hold`. */
  predicate Sells(s: Store, es: seq<Event>, i: nat, k: SeatKey, hold: HoldId)
    requires i < |es|
  {
    es[i].Commit? && es[i].hold == hold && k in es[i].keys && ReplyAt(s, es, i).Committed?
  }

  /** A committed call leaves each of its seats SOLD to its hold, and found each HELD by or SOLD to it. */
  lemma CommitSells(s: Store, e: Event, k: SeatKey)
    requires e.Commit? && k in e.keys && Apply(s, e).1.Committed?
    ensures SoldTo(Apply(s, e).0, k, e.hold)
    ensures Claimable(s.seats, k, e.hold, e.user)
  {
    var j :| 0 <= j < |e.keys| && e.keys[j] == k;
    assert Claimable(s.seats, e.keys[j], e.hold, e.user);
  }

  /**
   If two commits in the name of different holds both sell seat `k`, then a release that names
   the first hold and that seat ran between them. The run is arbitrary otherwise.
   */
  lemma NoDoubleSale(s: Store, es: seq<Event>, i: nat, j: nat, k: SeatKey, h1: HoldId, h2: HoldId)
    requires OnlyHeldExpire(s) && i < j < |es|
    requires Sells(s, es, i, k, h1) && Sells(s, es, j, k, h2) && h1 != h2
    ensures exists m :: i < m < j && Frees(es[m], h1, k)
  {
    hide Apply;
    CommitSells(StateAt(s, es, i), es[i], k);
    CommitSells(StateAt(s, es, j), es[j], k);
    if forall m :: i < m < j ==> !Frees(es[m], h1, k) {
      assert SoldTo(StateAt(s, es, i + 1), k, h1);
      SoldUntilReleased(s, es, i + 1, j, k, h1);
      assert false;
    }
  }

  /** No release in the run names a hold that an earlier event of the run committed. */
  ghost predicate NeverReleasesCommitted(s: Store, es: seq<Event>) {
    forall i, m :: 0 <= i < m < |es| && es[i].Commit? && ReplyAt(s, es, i).Committed? && es[m].Release?
      ==> es[m].hold != es[i].hold
  }

  /** So in a run that never releases a committed hold every seat is sold to at most one hold. */
  lemma SeatSoldToOneHold(s: Store, es: seq<Event>, i: nat, j: nat, k: SeatKey, h1: HoldId, h2: HoldId)
    requires OnlyHeldExpire(s) && NeverReleasesCommitted(s, es) && i < |es| && j < |es|
    requires Sells(s, es, i, k, h1) && Sells(s, es, j, k, h2)
    ensures h1 == h2
  {
    hide Apply;
    if h1 != h2 && i < j {
      NoDoubleSale(s, es, i, j, k, h1, h2);
    } else if h1 != h2 && j < i {
      NoDoubleSale(s, es, j, i, k, h2, h1);
    }
  }

  // ---- The counters always add up to the quota

  function Total(inv: map<Counter, int>): int {
    Read(inv, Available) + Read(inv, Held) + Read(inv, Sold)
  }

  predicate Balanced(inv: map<Counter, int>) {
    inv != map[] && Total(inv) == Read(inv, Quota)
  }

  lemma MoveKeepsTotal(inv: map<Counter, int>, from: Counter, to: Counter, n: int)
    requires from != to && from != Quota && to != Quota
    ensures var r := IncrBy(IncrBy(inv, from, -n), to, n);
            r != map[] && Total(r) == Total(inv) && Read(r, Quota) == Read(inv, Quota)
  {
    var r := IncrBy(IncrBy(inv, from, -n), to, n);
    assert to in r;
  }

  lemma ClampedMoveTotal(inv: map<Counter, int>, n: nat)
    ensures var r := ClampedMove(inv, n);
            var held := if Read(inv, Held) > 0 then Read(inv, Held) else 0;
            && r != map[] && Read(r, Quota) == Read(inv, Quota)
            && Total(r) == Total(inv) + (if held < n then n - held else 0)
            && (held < n <==> n > 0 && Read(inv, Held) < n)
  {
    assert Sold in ClampedMove(inv, n);
  }

  /** How far the counters are above the quota. */
  function Excess(inv: map<Counter, int>): int {
    Total(inv) - Read(inv, Quota)
  }

  lemma SeedKeepsExcess(inv: map<Counter, int>, quota: nat)
    requires inv != map[]
    ensures SeedInventory(inv, quota) != map[] && Excess(SeedInventory(inv, quota)) == Excess(inv)
  {
    assert Quota in SeedInventory(inv, quota) || SeedInventory(inv, quota) == inv;
  }

  /** The standalone commit meets fewer held seats than it sells, so that its decrement is clamped. */
  predicate Clamped(s: Store, e: Event) {
    e.Commit? && e.kind == Standalone && Takes(s, e) && Read(s.inv, Held) < |e.keys|
  }

  lemma HoldKeepsExcess(s: Store, e: Event)
    requires s.inv != map[] && (e.Hold? || e.Release?)
    ensures Apply(s, e).0.inv != map[] && Excess(Apply(s, e).0.inv) == Excess(s.inv)
  {
    hide AllAvailable, HoldSeats, FreeSeats, FirstTaken;
    MoveKeepsTotal(s.inv, Available, Held, |e.keys|);
    MoveKeepsTotal(s.inv, Available, Held, -|e.keys|);
  }

  lemma CommitExcess(s: Store, e: Event)
    requires s.inv != map[] && e.Commit?
    ensures var r := Apply(s, e).0.inv;
            r != map[] && Excess(r) >= Excess(s.inv) && (Excess(r) == Excess(s.inv) <==> !Clamped(s, e))
  {
    hide CommitScript, CommitStandalone, ClampedMove, Takes;
    CommitInventory(s, e);
    TakesIff(s, e);
    if e.kind == Booking {
      MoveKeepsTotal(s.inv, Held, Sold, |e.keys|);
    } else {
      ClampedMoveTotal(s.inv, |e.keys|);
    }
  }

  /** What a commit does to the counters; one that is refused or finds nothing to sell leaves them. */
  lemma CommitInventory(s: Store, e: Event)
    requires e.Commit?
    ensures var (t, reply) := Apply(s, e);
            t.inv == if !reply.Committed? then s.inv
                     else if e.kind == Booking then IncrBy(IncrBy(s.inv, Held, -|e.keys|), Sold, |e.keys|)
                     else ClampedMove(s.inv, |e.keys|)
    ensures e.kind == Standalone && Apply(s, e).1.Committed? ==> e.keys != []
  {
    hide AllClaimable, AllSold, SellSeats, SellSeatsStandalone, FirstInvalid, ScanError, ClampedMove;
  }

  /** No step brings the counters down towards the quota, and exactly the clamped commits lift them above it. */
  lemma ApplyExcess(s: Store, e: Event)
    requires s.inv != map[]
    ensures var r := Apply(s, e).0.inv;
            r != map[] && Excess(r) >= Excess(s.inv) && (Excess(r) == Excess(s.inv) <==> !Clamped(s, e))
  {
    if e.Hold? || e.Release? {
      HoldKeepsExcess(s, e);
    } else if e.Commit? {
      CommitExcess(s, e);
    } else if e.Seed? {
      SeedKeepsExcess(s.inv, e.quota);
    }
    hide HoldScript, ReleaseScript, CommitScript, CommitStandalone, SeedInventory, Total;
  }

  lemma ApplyKeepsBalance(s: Store, e: Event)
    requires Balanced(s.inv)
    ensures Balanced(Apply(s, e).0.inv) <==> !Clamped(s, e)
  {
    hide Apply, Clamped, Total;
    ApplyExcess(s, e);
  }

  lemma {:induction false} ExcessOnlyGrows(s: Store, es: seq<Event>, i: nat)
    requires Balanced(s.inv) && i <= |es|
    ensures StateAt(s, es, i).inv != map[] && Excess(StateAt(s, es, i).inv) >= 0
    ensures Excess(StateAt(s, es, i).inv) == 0 <==> forall m :: 0 <= m < i ==> !Clamped(StateAt(s, es, m), es[m])
  {
    hide Apply, Clamped, Total;
    if i > 0 {
      ExcessOnlyGrows(s, es, i - 1);
      ApplyExcess(StateAt(s, es, i - 1), es[i - 1]);
    }
  }

  /**
   Whatever the callers do, available + held + sold = quota in a reachable state if and only if no
   standalone commit was clamped on the way to it.
   */
  lemma CountersAddUpToQuota(s: Store, es: seq<Event>, i: nat)
    requires Balanced(s.inv) && i <= |es|
    ensures Balanced(StateAt(s, es, i).inv) <==> forall m :: 0 <= m < i ==> !Clamped(StateAt(s, es, m), es[m])
  {
    hide Apply, Clamped, Total, StateAt;
    ExcessOnlyGrows(s, es, i);
  }

  // ---- An expired seat is gone until it is seeded again

  lemma OnlySeedingCreates(s: Store, e: Event, k: SeatKey)
    requires k !in s.seats
    ensures k in Apply(s, e).0.seats <==> e.Seed? && k in e.names
    ensures e.Hold? && k in e.keys ==> !Apply(s, e).1.Granted?
  {
    if e.Hold? && k in e.keys {
      assert !IsAvailable(s.seats, k);
    }
    hide FirstTaken, FirstInvalid, ScanError, ClampedMove, AllClaimable, AllSold;
  }

  /** A missing seat stays missing, and every hold that names it is refused, until a seeding names it. */
  lemma {:induction false} MissingUntilSeeded(s: Store, es: seq<Event>, i: nat, j: nat, k: SeatKey)
    requires i <= j <= |es| && k !in StateAt(s, es, i).seats
    requires forall m :: i <= m < j ==> !(es[m].Seed? && k in es[m].names)
    ensures k !in StateAt(s, es, j).seats
    ensures j < |es| && es[j].Hold? && k in es[j].keys ==> !ReplyAt(s, es, j).Granted?
    decreases j
  {
    hide Apply;
    if i < j {
      MissingUntilSeeded(s, es, i, j - 1, k);
      OnlySeedingCreates(StateAt(s, es, j - 1), es[j - 1], k);
    }
    if j < |es| {
      OnlySeedingCreates(StateAt(s, es, j), es[j], k);
    }
  }
}
