/**
 The two commit scripts compared: exactly when they agree on one call, that they agree throughout
 every disciplined run, and that the standalone one may be replayed any number of times.
 */
module CommitScripts {
  import opened Collections
  import opened Redis
  import opened Seeding
  import opened Protocol
  import opened Worlds
  import opened Accounting
  import opened Inventory

  /** Equal but for the fields that only one of the scripts maintains: buyer, version and expiry stamp. */
  predicate SeatAlike(a: Seat, b: Seat) {
    a.status == b.status && a.heldBy == b.heldBy && a.holdId == b.holdId && a.soldAt == b.soldAt
        && a.volatile == b.volatile
  }

  ghost predicate SeatsAlike(a: map<SeatKey, Seat>, b: map<SeatKey, Seat>) {
    a.Keys == b.Keys && forall k :: k in a ==> SeatAlike(a[k], b[k])
  }

  /** Equal counters, limits, hold records and ledgers, and alike seats. */
  ghost predicate Alike(s: Store, t: Store) {
    s.(seats := t.seats) == t && SeatsAlike(s.seats, t.seats)
  }

  /** Both refuse, or both answer the same. */
  predicate SameReply(a: Reply, b: Reply) {
    a == b || (a.Rejected? && b.Rejected?)
  }

  // ---- One call

  /** The call goes beyond the ledger and finds all seats in its name. */
  ghost predicate Accepted(s: Store, hold: HoldId, user: UserId, keys: seq<SeatKey>) {
    hold !in s.orderOfHold && AllClaimable(s.seats, keys, hold, user)
  }

  /**
   With non-empty ids, at least one seat and a fresh order id, the two scripts agree on seats,
   counters, ledger and reply, except on an accepted call that finds all its seats sold already or
   the held counter below the number of seats.
   */
  lemma CommitsAgreeIff(s: Store, hold: HoldId, user: UserId, keys: seq<SeatKey>, order: OrderId, soldAt: int)
    requires hold.id != "" && user.id != "" && order.id != "" && keys != []
    requires s.inv != map[] && order !in s.holdOfOrder
    ensures var (b, rb) := CommitScript(s, hold, user, keys, order, soldAt);
            var (n, rn) := CommitStandalone(s, hold, user, keys, order, soldAt);
            Alike(b, n) && SameReply(rb, rn)
            <==> !(Accepted(s, hold, user, keys) && (AllSold(s.seats, keys) || Read(s.inv, Held) < |keys|))
  {
    var (b, rb) := CommitScript(s, hold, user, keys, order, soldAt);
    var (n, rn) := CommitStandalone(s, hold, user, keys, order, soldAt);
    if Accepted(s, hold, user, keys) && !AllSold(s.seats, keys) {
      assert SeatsAlike(b.seats, n.seats);
      if Read(s.inv, Held) < |keys| {
        assert Read(b.inv, Held) < Read(n.inv, Held);
      } else {
        assert b.inv == n.inv;
      }
    }
  }

  /** What a commit call needs beside the discipline for the comparison: real ids and a fresh order id. */
  predicate Fresh(s: Store, e: Event) {
    e.Commit? ==> e.hold.id != "" && e.user.id != "" && e.order.id != "" && e.order !in s.holdOfOrder
  }

  /** In a consistent state, neither the clamp nor the partly or fully sold case can occur in a disciplined call. */
  lemma DisciplinedCommitsAgree(w: World, e: Event)
    requires Consistent(w) && e.Commit? && e.kind == Booking && Addressed(w, e) && Disciplined(w, e)
        && Fresh(w.store, e)
    ensures var a, b := Apply(w.store, e), Apply(w.store, e.(kind := Standalone));
            Alike(a.0, b.0) && SameReply(a.1, b.1)
  {
    assert w.store.inv != map[] by { assert Available in w.store.inv; }
    hide With, LostIn, CommitScript, CommitStandalone, AllSold, AllClaimable, Structure;
    if Accepted(w.store, e.hold, e.user, e.keys) {
      ClaimableSeats(w, e.hold, e.user, e.keys);
      SubsetCardinality(ToSet(e.keys), With(w.store.seats, HELD));
      DistinctCardinality(e.keys);
    }
    CommitsAgreeIff(w.store, e.hold, e.user, e.keys, e.order, e.soldAt);
  }

  // ---- Whole runs

  lemma TestsAlike(a: map<SeatKey, Seat>, b: map<SeatKey, Seat>, keys: seq<SeatKey>, hold: HoldId, user: UserId)
    requires SeatsAlike(a, b)
    ensures AllAvailable(a, keys) <==> AllAvailable(b, keys)
    ensures AllClaimable(a, keys, hold, user) <==> AllClaimable(b, keys, hold, user)
    ensures AllSold(a, keys) <==> AllSold(b, keys)
  {
    assert forall k :: IsAvailable(a, k) <==> IsAvailable(b, k);
    assert forall k :: Claimable(a, k, hold, user) <==> Claimable(b, k, hold, user);
    assert forall k :: StatusOf(a, k) == StatusOf(b, k);
  }

  lemma SalesAlike(a: map<SeatKey, Seat>, b: map<SeatKey, Seat>, keys: seq<SeatKey>, user: UserId, at: int)
    requires SeatsAlike(a, b)
    ensures SeatsAlike(SellSeats(a, keys, at), SellSeats(b, keys, at))
    ensures SeatsAlike(SellSeatsStandalone(a, keys, user, at), SellSeatsStandalone(b, keys, user, at))
  {
  }

  lemma WritesAlike(a: map<SeatKey, Seat>, b: map<SeatKey, Seat>, keys: seq<SeatKey>, hold: HoldId, user: UserId,
      at: int)
    requires SeatsAlike(a, b)
    ensures SeatsAlike(HoldSeats(a, keys, user, hold, at), HoldSeats(b, keys, user, hold, at))
    ensures SeatsAlike(FreeSeats(a, keys, hold), FreeSeats(b, keys, hold))
    ensures SeatsAlike(SellSeats(a, keys, at), SellSeats(b, keys, at))
    ensures SeatsAlike(SellSeatsStandalone(a, keys, user, at), SellSeatsStandalone(b, keys, user, at))
  {
    hide SellSeats, SellSeatsStandalone;
    SalesAlike(a, b, keys, user, at);
  }

  lemma HoldsAlike(s: Store, t: Store, e: Event)
    requires Alike(s, t) && (e.Hold? || e.Release?)
    ensures Alike(Apply(s, e).0, Apply(t, e).0) && SameReply(Apply(s, e).1, Apply(t, e).1)
  {
    hide SeatsAlike, AllAvailable, HoldSeats, FreeSeats, FirstTaken, AllClaimable, AllSold, SellSeats,
        SellSeatsStandalone;
    TestsAlike(s.seats, t.seats, e.keys, e.hold, e.user);
    WritesAlike(s.seats, t.seats, e.keys, e.hold, e.user, if e.Hold? then e.expiresAt else 0);
    if e.Hold? { hide ReleaseScript; } else { hide HoldScript; }
  }

  lemma BookingAlike(s: Store, t: Store, e: Event)
    requires Alike(s, t) && e.Commit?
    ensures var a, b := CommitScript(s, e.hold, e.user, e.keys, e.order, e.soldAt),
        CommitScript(t, e.hold, e.user, e.keys, e.order, e.soldAt);
            Alike(a.0, b.0) && SameReply(a.1, b.1)
  {
    TestsAlike(s.seats, t.seats, e.keys, e.hold, e.user);
    WritesAlike(s.seats, t.seats, e.keys, e.hold, e.user, e.soldAt);
    hide SeatsAlike, AllClaimable, SellSeats, FirstInvalid;
  }

  lemma SlowPathAlike(s: Store, t: Store, e: Event)
    requires Alike(s, t) && e.Commit?
    ensures var a, b := SlowPath(s, e.hold, e.user, e.keys, e.order, e.soldAt),
        SlowPath(t, e.hold, e.user, e.keys, e.order, e.soldAt);
            Alike(a.0, b.0) && SameReply(a.1, b.1)
  {
    hide SeatsAlike, AllClaimable, AllSold, SellSeatsStandalone, ScanError, ClampedMove, Record;
    TestsAlike(s.seats, t.seats, e.keys, e.hold, e.user);
    WritesAlike(s.seats, t.seats, e.keys, e.hold, e.user, e.soldAt);
    RecordAlike(s, t, e.hold, e.order);
    var s' := s.(seats := SellSeatsStandalone(s.seats, e.keys, e.user, e.soldAt), inv := ClampedMove(s.inv, |e.keys|),
        holds := s.holds - {e.hold});
    var t' := t.(seats := SellSeatsStandalone(t.seats, e.keys, e.user, e.soldAt), inv := ClampedMove(t.inv, |e.keys|),
        holds := t.holds - {e.hold});
    assert Alike(s', t');
    RecordAlike(s', t', e.hold, e.order);
  }

  lemma RecordAlike(s: Store, t: Store, hold: HoldId, order: OrderId)
    requires Alike(s, t)
    ensures Alike(Record(s, hold, order), Record(t, hold, order))
  {
    hide SeatsAlike;
  }

  lemma StandaloneAlike(s: Store, t: Store, e: Event)
    requires Alike(s, t) && e.Commit?
    ensures var a, b := CommitStandalone(s, e.hold, e.user, e.keys, e.order, e.soldAt),
        CommitStandalone(t, e.hold, e.user, e.keys, e.order, e.soldAt);
            Alike(a.0, b.0) && SameReply(a.1, b.1)
  {
    FastPathAlike(s, t, e);
    SlowPathAlike(s, t, e);
    hide FastPath, SlowPath, SeatsAlike;
  }

  lemma FastPathAlike(s: Store, t: Store, e: Event)
    requires Alike(s, t) && e.Commit?
    ensures FastPath(s, e.hold, e.user, e.keys, e.order) == FastPath(t, e.hold, e.user, e.keys, e.order)
  {
    hide SeatsAlike;
  }

  /** The scripts read none of the fields that only one of them maintains. */
  lemma ApplyAlike(s: Store, t: Store, e: Event)
    requires Alike(s, t)
    ensures Alike(Apply(s, e).0, Apply(t, e).0) && SameReply(Apply(s, e).1, Apply(t, e).1)
  {
    hide CommitScript, CommitStandalone, HoldScript, ReleaseScript;
    if e.Hold? || e.Release? {
      HoldsAlike(s, t, e);
    } else if e.Commit? {
      BookingAlike(s, t, e);
      StandaloneAlike(s, t, e);
    }
  }

  lemma AlikeTransitive(s: Store, t: Store, u: Store)
    requires Alike(s, t) && Alike(t, u)
    ensures Alike(s, u)
  {
  }

  /** The same run with any of its commits handed to the other script. */
  ghost predicate SameRun(es: seq<Event>, fs: seq<Event>) {
    |es| == |fs| && forall i :: 0 <= i < |es| ==>
      fs[i] == es[i] || (es[i].Commit? && fs[i] == es[i].(kind := Standalone))
  }

  ghost predicate FreshRun(w: World, es: seq<Event>) {
    forall i :: 0 <= i < |es| ==> Fresh(WorldAt(w, es, i).store, es[i]) && (es[i].Commit? ==> es[i].kind == Booking)
  }

  /**
   In a disciplined run of the booking script, with live ledgers and fresh order ids, every commit may
   be run by the standalone script instead: all states stay alike and all replies the same.
   */
  lemma {:induction false} ScriptsAreInterchangeable(w: World, es: seq<Event>, fs: seq<Event>, i: nat)
    requires Consistent(w) && DisciplinedRun(w, es) && FreshRun(w, es) && SameRun(es, fs) && i <= |es|
    ensures Alike(StateAt(w.store, es, i), StateAt(w.store, fs, i))
    ensures i < |es| ==> SameReply(ReplyAt(w.store, es, i), ReplyAt(w.store, fs, i))
  {
    hide Consistent, Disciplined, Step, Apply, Alike, Fresh;
    if i == 0 {
      AlikeReflexive(w.store);
    } else {
      ScriptsAreInterchangeable(w, es, fs, i - 1);
      AfterOneMore(w, es, fs, i - 1);
    }
    if i < |es| {
      AfterOneMore(w, es, fs, i);
    }
  }

  lemma AlikeReflexive(s: Store)
    ensures Alike(s, s)
  {
  }

  lemma AfterOneMore(w: World, es: seq<Event>, fs: seq<Event>, i: nat)
    requires Consistent(w) && DisciplinedRun(w, es) && FreshRun(w, es) && SameRun(es, fs) && i < |es|
    requires Alike(StateAt(w.store, es, i), StateAt(w.store, fs, i))
    ensures Alike(StateAt(w.store, es, i + 1), StateAt(w.store, fs, i + 1))
    ensures SameReply(ReplyAt(w.store, es, i), ReplyAt(w.store, fs, i))
  {
    hide Consistent, Disciplined, Addressed, Step, Apply, Alike, Fresh;
    var v := WorldAt(w, es, i);
    var s, t := StateAt(w.store, es, i), StateAt(w.store, fs, i);
    WorldFollowsStore(w, es, i);
    ConsistentAlways(w, es, i);
    assert Addressed(v, es[i]) && Disciplined(v, es[i]) && Fresh(v.store, es[i]);
    ApplyAlike(s, t, fs[i]);
    if fs[i] != es[i] {
      DisciplinedCommitsAgree(v, es[i]);
      AlikeTransitive(Apply(s, es[i]).0, Apply(s, fs[i]).0, Apply(t, fs[i]).0);
    }
  }

  // ---- Replays of the standalone script

  lemma ApplyKeepsInventory(s: Store, e: Event)
    requires s.inv != map[]
    ensures Apply(s, e).0.inv != map[]
  {
    hide CommitScript, CommitStandalone, AllAvailable, HoldSeats, FreeSeats, SeedSeats;
    var t := Apply(s, e).0;
    if e.Commit? {
      CommitsKeepInventory(s, e);
    } else {
      assert t.inv == s.inv || Held in t.inv || Quota in t.inv;
    }
  }

  lemma CommitsKeepInventory(s: Store, e: Event)
    requires s.inv != map[] && e.Commit?
    ensures CommitScript(s, e.hold, e.user, e.keys, e.order, e.soldAt).0.inv != map[]
    ensures CommitStandalone(s, e.hold, e.user, e.keys, e.order, e.soldAt).0.inv != map[]
  {
    hide CommitScript, CommitStandalone, ClampedMove;
    CommitInventory(s, e.(kind := Booking));
    CommitInventory(s, e.(kind := Standalone));
    assert Sold in IncrBy(IncrBy(s.inv, Held, -|e.keys|), Sold, |e.keys|);
    assert Sold in ClampedMove(s.inv, |e.keys|) by { SoldStays(s.inv, |e.keys|); }
  }

  lemma SoldStays(inv: map<Counter, int>, need: nat)
    ensures Sold in ClampedMove(inv, need)
  {
  }

  lemma {:induction false} InventoryStays(s: Store, es: seq<Event>, i: nat, j: nat)
    requires i <= j <= |es| && StateAt(s, es, i).inv != map[]
    ensures StateAt(s, es, j).inv != map[]
    decreases j
  {
    hide Apply;
    if i < j {
      InventoryStays(s, es, i, j - 1);
      ApplyKeepsInventory(StateAt(s, es, j - 1), es[j - 1]);
    }
  }

  /** All the seats are sold to the hold and its user. */
  ghost predicate AllSoldTo(s: Store, keys: seq<SeatKey>, hold: HoldId, user: UserId) {
    forall k :: k in keys ==> SoldTo(s, k, hold) && s.seats[k].heldBy == Some(user)
  }

  /** A replay over sold seats, whatever is left of the ledger. */
  lemma ReplayReplies(s: Store, e: Event)
    requires e.Commit? && e.kind == Standalone && e.hold.id != "" && e.user.id != "" && e.keys != []
    requires s.inv != map[] && AllSoldTo(s, e.keys, e.hold, e.user)
    ensures var (t, reply) := Apply(s, e);
            var reverse := e.order.id != "" && e.order in s.holdOfOrder && s.holdOfOrder[e.order] == e.hold;
            && reply.AlreadyCommitted?
            && t == s.(orderOfHold := t.orderOfHold, holdOfOrder := t.holdOfOrder)
            && (e.hold in t.orderOfHold <==> e.hold in s.orderOfHold || (e.order.id != "" && !reverse))
            && (e.order.id != "" ==>
                 e.hold in t.orderOfHold || (e.order in t.holdOfOrder && t.holdOfOrder[e.order] == e.hold))
  {
    forall k | k in e.keys
      ensures Claimable(s.seats, k, e.hold, e.user) && StatusOf(s.seats, k) == Some(SOLD)
    {
      assert SoldTo(s, k, e.hold);
    }
  }

  /**
   Once a hold's seats are sold to it, a standalone commit of the same hold, user and seats at any
   later point, whatever ran and expired between except a release of those seats, answers
   ALREADY_COMMITTED, changes no seat, counter, limit or hold record, and leaves the order linked to
   the hold in the ledger again.
   */
  lemma ReplayIsIdempotent(s: Store, es: seq<Event>, i: nat, j: nat)
    requires OnlyHeldExpire(s) && i <= j < |es|
    requires var e := es[j];
             && e.Commit? && e.kind == Standalone && e.hold.id != "" && e.user.id != "" && e.keys != []
             && AllSoldTo(StateAt(s, es, i), e.keys, e.hold, e.user)
             && StateAt(s, es, i).inv != map[]
             && (forall m, k :: i <= m < j && k in e.keys ==> !Frees(es[m], e.hold, k))
    ensures var e := es[j];
            var u, t := StateAt(s, es, j), StateAt(s, es, j + 1);
            && ReplyAt(s, es, j).AlreadyCommitted?
            && t.seats == u.seats && t.inv == u.inv && t.limits == u.limits && t.holds == u.holds
            && (e.order.id != "" ==>
                 e.hold in t.orderOfHold || (e.order in t.holdOfOrder && t.holdOfOrder[e.order] == e.hold))
            && AllSoldTo(t, e.keys, e.hold, e.user)
  {
    hide Apply, OnlyHeldExpire;
    var e := es[j];
    InventoryStays(s, es, i, j);
    forall k | k in e.keys
      ensures SoldTo(StateAt(s, es, j), k, e.hold) && StateAt(s, es, j).seats[k].heldBy == Some(e.user)
    {
      SoldUntilReleased(s, es, i, j, k, e.hold);
    }
    ReplayReplies(StateAt(s, es, j), e);
  }
}
