/**
 The booking service over the inventory protocol. The callers' discipline becomes a short list of
 conditions on requests and sweeps that no handler checks, and they are shown to be exactly what is
 missing: a run stays in agreement as long as, and only as long as, they are met.
 */
module Service {
  import opened Collections
  import opened Redis
  import opened Protocol
  import opened Worlds
  import opened Accounting
  import opened Inventory
  import opened Booking

  /** Every reservation row mirrors a hold not yet released: same user, and each of its seats once. */
  ghost predicate RowsAgree(w: World, db: Db) {
    forall h :: h in db.rows ==>
      && OwnSeats(w, h, db.rows[h].seats)
      && w.holdings[h].user == db.rows[h].user
      && w.holdings[h].phase != Returned
  }

  /** Orders exist only for committed holds, and name only their seats. */
  ghost predicate OrdersAgree(w: World, db: Db) {
    forall key :: key in db.orders ==>
      && InPhase(w, db.orders[key].hold, Bought)
      && ToSet(db.orders[key].seats) <= w.holdings[db.orders[key].hold].seats
  }

  ghost predicate TablesAgree(w: World, db: Db) {
    Consistent(w) && RowsAgree(w, db) && OrdersAgree(w, db)
  }

  lemma StockedTablesAgree(names: seq<SeatKey>, quota: nat)
    requires |ToSet(names)| == quota
    ensures TablesAgree(Stocked(names, quota), Db(map[], map[]))
  {
    StockedIsConsistent(names, quota);
    hide Consistent;
  }

  // ---- The reservation row mirrors the hold

  /** A row names the seats of its hold if and only if every seat id of the request was canonical. */
  lemma {:induction false} MirrorIsFaithful(parse: SeatKey -> Option<SeatKey>, seats: seq<SeatKey>)
    ensures |Mirror(parse, seats)| <= |seats|
    ensures Mirror(parse, seats) == seats <==> forall k :: k in seats ==> parse(k) == Some(k)
  {
    if seats != [] {
      var n := |seats| - 1;
      MirrorIsFaithful(parse, seats[..n]);
      FrontAndLast(seats);
      var front := Mirror(parse, seats[..n]);
      if parse(seats[n]).Some? && |front| == n {
        assert (front + [parse(seats[n]).value])[..n] == front;
      }
    }
  }

  /** A mirror of different seats that names the same seats names each of them once. */
  lemma MirrorIsDistinct(parse: SeatKey -> Option<SeatKey>, seats: seq<SeatKey>)
    requires Distinct(seats) && ToSet(Mirror(parse, seats)) == ToSet(seats)
    ensures Distinct(Mirror(parse, seats))
  {
    MirrorIsFaithful(parse, seats);
    DistinctCardinality(seats);
    DistinctCardinality(Mirror(parse, seats));
  }

  /** Seat ids that do not parse, such as the ones the seeding script makes, leave a row without seats. */
  lemma {:induction false} UnparsedLeaveNothing(parse: SeatKey -> Option<SeatKey>, seats: seq<SeatKey>)
    ensures Mirror(parse, seats) == [] <==> forall k :: k in seats ==> parse(k) == None
  {
    if seats != [] {
      var n := |seats| - 1;
      UnparsedLeaveNothing(parse, seats[..n]);
      FrontAndLast(seats);
    }
  }

  // ---- Client requests

  function ServeWorld(parse: SeatKey -> Option<SeatKey>, w: World, db: Db, r: Request): (World, Db) {
    match PlanOf(db, r)
    case Answer(_) => (w, db)
    case Ask(event) => (Step(w, event), Finish(parse, db, r, Apply(w.store, event).1).0)
  }

  lemma ServeWorldFollowsService(parse: SeatKey -> Option<SeatKey>, w: World, db: Db, r: Request)
    ensures var (v, d) := ServeWorld(parse, w, db, r);
            var (t, e, _) := Serve(parse, w.store, db, r);
            v.store == t && d == e
  {
    hide Step, Apply, Finish;
    match PlanOf(db, r)
    case Answer(_) =>
    case Ask(event) => StepFollowsStore(w, event);
  }

  /** Hold ids are new. */
  predicate FreshRequest(w: World, r: Request) {
    r.HoldRequest? ==> r.hold !in w.holdings
  }

  /** The commit request is answered as paid: the ledger has its hold, or all its seats are the hold's. */
  predicate AddsOrder(s: Store, db: Db, r: Request) {
    && r.CommitRequest? && PlanOf(db, r).Ask?
    && (r.hold in s.orderOfHold || AllClaimable(s.seats, CommitSeats(db, r), r.hold, r.user))
  }

  /**
   What the handlers do not check: that a hold request names different seats in canonical form; that
   a commit request that sells names the seats of an open hold, each once; that one answered as paid
   names no seat of another hold; that a released hold is not committed.
   */
  ghost predicate GoodRequest(w: World, db: Db, parse: SeatKey -> Option<SeatKey>, r: Request) {
    match PlanOf(db, r)
    case Answer(_) => true
    case Ask(e) =>
      match r
      case HoldRequest(_, _, seats, _, _, _) =>
        Takes(w.store, e) ==> Distinct(seats) && ToSet(Mirror(parse, seats)) == ToSet(seats)
      case CommitRequest(_, _, hold, _, _, _) =>
        && (Takes(w.store, e) ==> InPhase(w, hold, Live) && OwnSeats(w, hold, CommitSeats(db, r)))
        && (AddsOrder(w.store, db, r) ==>
             hold in w.holdings && ToSet(Mirror(parse, CommitSeats(db, r))) <= w.holdings[hold].seats)
      case ReleaseRequest(_, hold) => !InPhase(w, hold, Bought)
  }

  /** Holds keep user and seats, and the rows' holds do not become released. */
  ghost predicate RowsKept(w: World, t: World, db: Db) {
    forall h :: h in db.rows && h in w.holdings ==>
      && h in t.holdings
      && t.holdings[h].user == w.holdings[h].user && t.holdings[h].seats == w.holdings[h].seats
      && (w.holdings[h].phase != Returned ==> t.holdings[h].phase != Returned)
  }

  lemma RowsFollow(w: World, t: World, db: Db)
    requires RowsAgree(w, db) && RowsKept(w, t, db)
    ensures RowsAgree(t, db)
  {
    forall h | h in db.rows
      ensures OwnSeats(t, h, db.rows[h].seats)
    {
      assert OwnSeats(w, h, db.rows[h].seats);
    }
  }

  lemma SameHoldings(w: World, t: World, db: Db)
    requires RowsAgree(w, db) && OrdersAgree(w, db) && t.holdings == w.holdings
    ensures RowsAgree(t, db) && OrdersAgree(t, db)
  {
    RowsFollow(w, t, db);
  }

  // ---- Hold requests

  /** The rows agree after a hold was granted if and only if the new row names its seats, each once. */
  lemma GrantRows(w: World, t: World, db: Db, hold: HoldId, user: UserId, seats: seq<SeatKey>, row: Row)
    requires RowsAgree(w, db) && OrdersAgree(w, db) && hold !in w.holdings && row.user == user
    requires t.holdings == w.holdings[hold := Holding(user, ToSet(seats), Live)]
    ensures RowsAgree(t, InsertRow(db, hold, row)) <==> Distinct(row.seats) && ToSet(row.seats) == ToSet(seats)
    ensures OrdersAgree(t, InsertRow(db, hold, row))
  {
    var d := InsertRow(db, hold, row);
    assert RowsAgree(t, db) by { RowsFollow(w, t, db); }
    assert hold !in db.rows && d.rows == db.rows[hold := row];
    hide Distinct, ToSet;
    if RowsAgree(t, d) {
      assert OwnSeats(t, hold, d.rows[hold].seats);
    }
  }

  lemma HoldRequestIsExact(parse: SeatKey -> Option<SeatKey>, w: World, db: Db, r: Request)
    requires TablesAgree(w, db) && r.HoldRequest? && FreshRequest(w, r) && PlanOf(db, r).Ask?
    ensures var (t, d) := ServeWorld(parse, w, db, r);
            TablesAgree(t, d) <==> GoodRequest(w, db, parse, r)
  {
    hide Consistent, Step, Apply, Mirror, RowsAgree, OrdersAgree, OwnSeats, InsertRow, Takes, Distinct, ToSet, Grant;
    var e := PlanOf(db, r).event;
    HoldIsGrant(w, e);
    TakesIff(w.store, e);
    DisciplineIsExact(w, e);
    if Takes(w.store, e) {
      GrantHoldings(w, r.user, r.hold, r.seats, r.expiresAt);
      GrantRows(w, Step(w, e), db, r.hold, r.user, r.seats, Row(r.user, Mirror(parse, r.seats), r.expiresAt));
      if Distinct(r.seats) && ToSet(Mirror(parse, r.seats)) == ToSet(r.seats) {
        MirrorIsDistinct(parse, r.seats);
      }
    }
  }

  lemma GrantHoldings(w: World, user: UserId, hold: HoldId, keys: seq<SeatKey>, expiresAt: int)
    ensures Grant(w, user, hold, keys, expiresAt).holdings == w.holdings[hold := Holding(user, ToSet(keys), Live)]
  {
  }

  // ---- Commit requests

  /** What a commit request does to the orders. */
  lemma OrdersAfter(parse: SeatKey -> Option<SeatKey>, s: Store, db: Db, r: Request)
    ensures var (_, d, response) := Serve(parse, s, db, r);
            if AddsOrder(s, db, r) then
              && (r.idem, r.user) !in db.orders && r.hold in db.rows && response == Paid(r.order) && d.rows == db.rows
              && d.orders == db.orders[(r.idem, r.user) := OrderRow(r.order, r.hold, Mirror(parse, CommitSeats(db, r)))]
            else d.orders == db.orders
  {
    hide Apply, Mirror, AllClaimable;
    if r.CommitRequest? && PlanOf(db, r).Ask? {
      TakesIff(s, PlanOf(db, r).event);
    }
  }

  /** The orders agree after one was added if and only if it names only seats of its hold. */
  lemma OrderRows(w: World, t: World, db: Db, key: (IdempotencyKey, UserId), row: OrderRow)
    requires RowsAgree(w, db) && OrdersAgree(w, db) && row.hold in w.holdings && w.holdings[row.hold].phase != Returned
    requires t.holdings == SetPhase(w.holdings, row.hold, Bought) && key !in db.orders
    ensures var d := db.(orders := db.orders[key := row]);
            RowsAgree(t, d) && (OrdersAgree(t, d) <==> ToSet(row.seats) <= w.holdings[row.hold].seats)
  {
    RowsFollow(w, t, db);
    var d := db.(orders := db.orders[key := row]);
    assert d.orders[key] == row;
    hide ToSet;
    if OrdersAgree(t, d) {
      assert ToSet(d.orders[key].seats) <= t.holdings[row.hold].seats;
    }
  }

  /** A commit that the script did not refuse leaves a committed hold behind. */
  lemma CommitHoldings(w: World, e: Event)
    requires Consistent(w) && Addressed(w, e) && e.Commit? && e.kind == CommitKind.Booking
    ensures var in_ledger := e.hold in w.store.orderOfHold;
            && (in_ledger || Takes(w.store, e) ==>
                  && e.hold in w.holdings && w.holdings[e.hold].phase != Returned
                  && Step(w, e).holdings == SetPhase(w.holdings, e.hold, Bought))
            && (!in_ledger && !Takes(w.store, e) ==> Step(w, e).holdings == w.holdings)
  {
    CommitStep(w, e);
    TakesIff(w.store, e);
    if Takes(w.store, e) {
      ClaimableSeats(w, e.hold, e.user, e.keys);
    }
    hide Apply, Step, With, LostIn, Counters, AllClaimable;
  }

  lemma CommitRequestIsExact(parse: SeatKey -> Option<SeatKey>, w: World, db: Db, r: Request)
    requires TablesAgree(w, db) && r.CommitRequest? && PlanOf(db, r).Ask?
    ensures var (t, d) := ServeWorld(parse, w, db, r);
            TablesAgree(t, d) <==> GoodRequest(w, db, parse, r)
  {
    var e := PlanOf(db, r).event;
    assert AddsOrder(w.store, db, r) <==> e.hold in w.store.orderOfHold || Takes(w.store, e);
    hide Consistent, Step, Apply, Mirror, RowsAgree, OrdersAgree, OwnSeats, Takes, AddsOrder, Finish, Serve, ToSet;
    DisciplineIsExact(w, e);
    CommitHoldings(w, e);
    CommitRowsStay(parse, w.store, db, r);
    ServeWorldFollowsService(parse, w, db, r);
    OrdersAfter(parse, w.store, db, r);
    if AddsOrder(w.store, db, r) {
      OrderRows(w, Step(w, e), db, (r.idem, r.user), OrderRow(r.order, r.hold, Mirror(parse, CommitSeats(db, r))));
    } else {
      SameHoldings(w, Step(w, e), db);
    }
  }

  lemma CommitRowsStay(parse: SeatKey -> Option<SeatKey>, s: Store, db: Db, r: Request)
    requires r.CommitRequest?
    ensures Serve(parse, s, db, r).1.rows == db.rows
  {
    hide Apply, Mirror;
  }

  // ---- Release requests

  lemma ReleaseRequestIsExact(parse: SeatKey -> Option<SeatKey>, w: World, db: Db, r: Request)
    requires TablesAgree(w, db) && r.ReleaseRequest? && PlanOf(db, r).Ask?
    ensures var (t, d) := ServeWorld(parse, w, db, r);
            TablesAgree(t, d) <==> GoodRequest(w, db, parse, r)
  {
    hide Step, Apply, TablesAgree, GiveBack, DeleteRow, OwnSeats, Consistent, Unsold, Finish;
    var e := PlanOf(db, r).event;
    ReleaseIsGiveBack(w, e);
    TablesAgreeRow(w, db, r.hold);
    ReleaseRowIsExact(w, db, r.hold);
    ReleaseReplies(parse, w.store, db, r);
    var (t, d) := ServeWorld(parse, w, db, r);
    if TablesAgree(t, d) { TablesConsistent(t, d); }
  }

  lemma TablesAgreeRow(w: World, db: Db, hold: HoldId)
    requires TablesAgree(w, db) && hold in db.rows
    ensures hold in w.holdings && OwnSeats(w, hold, db.rows[hold].seats) && w.holdings[hold].phase != Returned
  {
    hide Consistent;
  }

  lemma ReleaseReplies(parse: SeatKey -> Option<SeatKey>, s: Store, db: Db, r: Request)
    requires r.ReleaseRequest? && PlanOf(db, r).Ask?
    ensures Finish(parse, db, r, Apply(s, PlanOf(db, r).event).1).0 == DeleteRow(db, r.hold)
  {
  }

  /** Releasing the hold of a row that is not committed removes the row with it. */
  lemma ReleaseKeepsTables(w: World, db: Db, hold: HoldId)
    requires RowsAgree(w, db) && OrdersAgree(w, db) && hold in db.rows && w.holdings[hold].phase != Bought
    ensures var t, d := GiveBack(w, hold, db.rows[hold].user, db.rows[hold].seats), DeleteRow(db, hold);
            RowsAgree(t, d) && OrdersAgree(t, d)
  {
    var t, d := GiveBack(w, hold, db.rows[hold].user, db.rows[hold].seats), DeleteRow(db, hold);
    assert !Ordered(db, hold);
    forall h | h in d.rows
      ensures OwnSeats(t, h, d.rows[h].seats)
    {
      assert OwnSeats(w, h, db.rows[h].seats);
    }
  }

  // ---- All requests

  /**
   Every request, good or not: it keeps seats, counters, rows and orders in agreement if and only if
   it is good.
   */
  lemma RequestIsExact(parse: SeatKey -> Option<SeatKey>, w: World, db: Db, r: Request)
    requires TablesAgree(w, db) && FreshRequest(w, r)
    ensures var (t, d) := ServeWorld(parse, w, db, r);
            TablesAgree(t, d) <==> GoodRequest(w, db, parse, r)
  {
    hide TablesAgree, Step, Apply, Finish;
    if PlanOf(db, r).Ask? {
      match r
      case HoldRequest(_, _, _, _, _, _) => HoldRequestIsExact(parse, w, db, r);
      case CommitRequest(_, _, _, _, _, _) => CommitRequestIsExact(parse, w, db, r);
      case ReleaseRequest(_, _) => ReleaseRequestIsExact(parse, w, db, r);
    }
  }

  /** It keeps seats and counters in agreement if and only if the script call it leads to, if any, is disciplined. */
  lemma RequestKeepsConsistency(parse: SeatKey -> Option<SeatKey>, w: World, db: Db, r: Request)
    requires Consistent(w) && FreshRequest(w, r)
    ensures Consistent(ServeWorld(parse, w, db, r).0) <==> (PlanOf(db, r).Ask? ==> Disciplined(w, PlanOf(db, r).event))
  {
    hide Consistent, Step, Apply, Disciplined, Finish;
    if PlanOf(db, r).Ask? {
      DisciplineIsExact(w, PlanOf(db, r).event);
    }
  }

  /**
   A commit request may name any of the open hold's remaining seats, as often as it likes: it is
   answered as paid, and keeps seats and counters in agreement only if it names all of the hold's seats, once each.
   */
  lemma AnyListIsPaid(parse: SeatKey -> Option<SeatKey>, w: World, db: Db, r: Request)
    requires Consistent(w) && r.CommitRequest? && InPhase(w, r.hold, Live) && w.holdings[r.hold].user == r.user
    requires (r.idem, r.user) !in db.orders && r.hold in db.rows
    requires r.seats != [] && forall k :: k in r.seats ==> k in w.store.seats && w.store.seats[k].holdId == Some(r.hold)
    ensures Serve(parse, w.store, db, r).2 == Paid(r.order)
    ensures Consistent(ServeWorld(parse, w, db, r).0) <==> OwnSeats(w, r.hold, r.seats)
  {
    forall k | k in r.seats
      ensures Claimable(w.store.seats, k, r.hold, r.user)
    {
      assert SeatAgrees(w, k);
    }
    assert r.hold !in w.store.orderOfHold;
    assert AddsOrder(w.store, db, r) && Takes(w.store, PlanOf(db, r).event);
    hide Structure, Counters, Serve, Step, Apply, Finish, OwnSeats, AllClaimable;
    OrdersAfter(parse, w.store, db, r);
    RequestKeepsConsistency(parse, w, db, r);
  }

  /** One of two held seats can be bought alone, and a held seat twice; either is paid and breaks the agreement. */
  lemma PartialAndRepeatedListsArePaid(parse: SeatKey -> Option<SeatKey>, w: World, db: Db, r: Request, a: SeatKey,
      b: SeatKey)
    requires Consistent(w) && r.CommitRequest? && InPhase(w, r.hold, Live) && w.holdings[r.hold].user == r.user
    requires (r.idem, r.user) !in db.orders && r.hold in db.rows
    requires a in w.store.seats && w.store.seats[a].holdId == Some(r.hold)
    requires (w.holdings[r.hold].seats == {a, b} && a != b && r.seats == [a])
        || (w.holdings[r.hold].seats == {a} && r.seats == [a, a])
    ensures Serve(parse, w.store, db, r).2 == Paid(r.order) && !Consistent(ServeWorld(parse, w, db, r).0)
  {
    assert !OwnSeats(w, r.hold, r.seats) by {
      if r.seats == [a] {
        assert b !in ToSet(r.seats);
      } else {
        assert r.seats[0] == r.seats[1];
      }
    }
    hide Consistent, Serve, ServeWorld, OwnSeats;
    AnyListIsPaid(parse, w, db, r);
  }

  /** From the start: of two seats held by one request a second one buys the first alone, and is paid. */
  lemma PartOfHoldIsSold(parse: SeatKey -> Option<SeatKey>, hold: Request, buy: Request, a: SeatKey, b: SeatKey)
    requires a != b && parse(a) == Some(a) && parse(b) == Some(b)
    requires hold.HoldRequest? && buy.CommitRequest? && hold.seats == [a, b] && buy.seats == [a]
    requires buy.hold == hold.hold && buy.user == hold.user && hold.max >= 2
    ensures var (w1, d1) := ServeWorld(parse, Stocked([a, b], 2), Db(map[], map[]), hold);
            && TablesAgree(w1, d1)
            && Serve(parse, w1.store, d1, buy).2 == Paid(buy.order)
            && !Consistent(ServeWorld(parse, w1, d1, buy).0)
  {
    hide Stocked, Consistent, TablesAgree, Serve, ServeWorld;
    FirstHold(parse, hold, a, b);
    var (w1, d1) := ServeWorld(parse, Stocked([a, b], 2), Db(map[], map[]), hold);
    TablesConsistent(w1, d1);
    PartialAndRepeatedListsArePaid(parse, w1, d1, buy, a, b);
  }

  /** The state after two seats were held. */
  lemma FirstHold(parse: SeatKey -> Option<SeatKey>, hold: Request, a: SeatKey, b: SeatKey)
    requires a != b && parse(a) == Some(a) && parse(b) == Some(b)
    requires hold.HoldRequest? && hold.seats == [a, b] && hold.max >= 2
    ensures var (w1, d1) := ServeWorld(parse, Stocked([a, b], 2), Db(map[], map[]), hold);
            && TablesAgree(w1, d1)
            && w1.holdings == map[hold.hold := Holding(hold.user, {a, b}, Live)]
            && a in w1.store.seats && w1.store.seats[a].holdId == Some(hold.hold)
            && d1.orders == map[] && hold.hold in d1.rows
  {
    var w0, d0 := Stocked([a, b], 2), Db(map[], map[]);
    var e := Hold(hold.user, hold.hold, [a, b], hold.expiresAt, hold.max);
    hide Stocked, Takes, Apply, Step, TablesAgree, Mirror, Distinct;
    TwoAreStocked(a, b);
    StockedTakes(e, a, b);
    StockedTablesAgree([a, b], 2);
    assert Mirror(parse, [a, b]) == [a, b] by { MirrorIsFaithful(parse, [a, b]); }
    assert Distinct([a, b]) by { DistinctCardinality([a, b]); }
    RequestIsExact(parse, w0, d0, hold);
    HoldIsGrant(w0, e);
    TakesIff(w0.store, e);
    GrantedSeat(w0, hold.user, hold.hold, [a, b], hold.expiresAt, a);
    hide Grant, HoldScript;
  }

  lemma StockedTakes(e: Event, a: SeatKey, b: SeatKey)
    requires a != b && e.Hold? && e.keys == [a, b] && e.max >= 2
    ensures var w := Stocked([a, b], 2);
            Takes(w.store, e) && w.holdings == map[] && a in w.store.seats
  {
  }

  lemma GrantedSeat(w: World, user: UserId, hold: HoldId, keys: seq<SeatKey>, expiresAt: int, k: SeatKey)
    requires k in keys && k in w.store.seats
    ensures var t := Grant(w, user, hold, keys, expiresAt);
            && k in t.store.seats && t.store.seats[k].holdId == Some(hold)
            && t.holdings == w.holdings[hold := Holding(user, ToSet(keys), Live)]
  {
  }

  lemma TwoAreStocked(a: SeatKey, b: SeatKey)
    requires a != b
    ensures ToSet([a, b]) == {a, b} && |ToSet([a, b])| == 2
  {
    assert ToSet([a, b]) == {a, b};
  }

  // ---- At most one order for a hold

  ghost predicate OneOrderPerHold(db: Db) {
    forall x, y :: x in db.orders && y in db.orders && db.orders[x].hold == db.orders[y].hold ==> x == y
  }

  /** The commit request is answered as paid for a hold that has an order. */
  predicate OrdersAgain(s: Store, db: Db, r: Request) {
    AddsOrder(s, db, r) && Ordered(db, r.hold)
  }

  /** A request leaves every hold with at most one order if and only if it does not order again. */
  lemma OneOrderIff(parse: SeatKey -> Option<SeatKey>, s: Store, db: Db, r: Request)
    requires OneOrderPerHold(db)
    ensures OneOrderPerHold(Serve(parse, s, db, r).1) <==> !OrdersAgain(s, db, r)
  {
    hide Serve, Mirror, AllClaimable, PlanOf;
    OrdersAfter(parse, s, db, r);
    var d := Serve(parse, s, db, r).1;
    if AddsOrder(s, db, r) && Ordered(db, r.hold) {
      var x :| x in db.orders && db.orders[x].hold == r.hold;
      assert x in d.orders && d.orders[x].hold == d.orders[(r.idem, r.user)].hold;
    }
  }

  // ---- The reaper

  /** The world and tables after the reaper released the first `n` rows of its batch. */
  function SweptWorld(w: World, db: Db, rows: map<HoldId, Row>, batch: seq<HoldId>, n: nat): (World, Db)
    requires n <= |batch| && forall h :: h in batch ==> h in rows
  {
    if n == 0 then (w, db)
    else
      var (v, d) := SweptWorld(w, db, rows, batch, n - 1);
      var h := batch[n - 1];
      (GiveBack(v, h, rows[h].user, rows[h].seats), DeleteRow(d, h))
  }

  lemma {:induction false} SweptWorldFollowsSweep(w: World, db: Db, rows: map<HoldId, Row>, batch: seq<HoldId>, n: nat)
    requires n <= |batch| && forall h :: h in batch ==> h in rows
    ensures var (v, d) := SweptWorld(w, db, rows, batch, n);
            (v.store, d) == Swept(w.store, db, rows, batch, n)
  {
    hide ReleaseScript, DeleteRow, GiveBack;
    if n > 0 {
      SweptWorldFollowsSweep(w, db, rows, batch, n - 1);
      var (v, d) := SweptWorld(w, db, rows, batch, n - 1);
      var h := batch[n - 1];
      GiveBackStore(v, h, rows[h].user, rows[h].seats);
    }
  }

  lemma GiveBackStore(w: World, hold: HoldId, user: UserId, keys: seq<SeatKey>)
    ensures GiveBack(w, hold, user, keys).store == ReleaseScript(w.store, hold, user, keys).0
  {
    hide ReleaseScript;
  }

  lemma ReleaseRowIsExact(w: World, db: Db, hold: HoldId)
    requires TablesAgree(w, db) && hold in db.rows
    ensures var t, d := GiveBack(w, hold, db.rows[hold].user, db.rows[hold].seats), DeleteRow(db, hold);
            if w.holdings[hold].phase == Bought then !Consistent(t) && Unsold(t) > 0 else TablesAgree(t, d)
  {
    var row := db.rows[hold];
    var e := Release(hold, row.user, row.seats);
    hide Step, Structure, Counters, With, LostIn, GiveBack;
    ReleaseIsGiveBack(w, e);
    if w.holdings[hold].phase == Bought {
      BoughtRowUnsells(w, hold, row.user, row.seats);
      ConsistentUnsold(w);
      var t := GiveBack(w, hold, row.user, row.seats);
      if Consistent(t) { ConsistentUnsold(t); }
    } else {
      assert SeatsAgree(w) by { StructureParts(w); }
      OwnSeatsCover(w, hold, row.seats);
      ReleaseIsExact(w, e);
      ReleaseKeepsTables(w, db, hold);
    }
  }

  lemma BoughtRowUnsells(w: World, hold: HoldId, user: UserId, keys: seq<SeatKey>)
    requires Structure(w) && InPhase(w, hold, Bought) && OwnSeats(w, hold, keys)
    ensures Unsold(GiveBack(w, hold, user, keys)) > Unsold(w)
  {
    BoughtSeats(w, hold);
    var k :| k in w.holdings[hold].seats;
    assert k in ToSet(keys);
    hide Structure, With, GiveBack;
    ReleaseOfBought(w, hold, user, keys, k);
    GiveBackUnsold(w, hold, user, keys);
  }

  /** How many more sales the counter claims than there are SOLD seats. */
  function Unsold(w: World): int {
    Read(w.store.inv, Sold) - |With(w.store.seats, SOLD)|
  }

  lemma ConsistentUnsold(w: World)
    requires Consistent(w)
    ensures Unsold(w) == 0
  {
    hide Structure, LostIn, With;
  }

  /** A release never sells a seat and never touches the sold counter. */
  lemma GiveBackUnsold(w: World, hold: HoldId, user: UserId, keys: seq<SeatKey>)
    ensures var t := GiveBack(w, hold, user, keys);
            Unsold(t) == Unsold(w) + |With(w.store.seats, SOLD)| - |With(t.store.seats, SOLD)| >= Unsold(w)
  {
    FreeSeatsSets(w.store.seats, keys, hold);
    SubsetCardinality(With(GiveBack(w, hold, user, keys).store.seats, SOLD), With(w.store.seats, SOLD));
    hide With, FreeSeats;
  }

  predicate AnyBought(w: World, batch: seq<HoldId>, n: nat)
    requires n <= |batch|
  {
    exists i :: 0 <= i < n && batch[i] in w.holdings && w.holdings[batch[i]].phase == Bought
  }

  /** While no committed hold was swept, everything agrees and the rest of the batch is as it was. */
  ghost predicate SweepSound(w: World, db: Db, v: World, d: Db, batch: seq<HoldId>, n: nat)
    requires n <= |batch|
  {
    && TablesAgree(v, d)
    && (forall i :: n <= i < |batch| ==>
          && batch[i] in d.rows && batch[i] in db.rows && d.rows[batch[i]] == db.rows[batch[i]]
          && batch[i] in v.holdings && batch[i] in w.holdings
              && v.holdings[batch[i]].phase == w.holdings[batch[i]].phase)
  }

  lemma SweepSoundStep(w: World, db: Db, v: World, d: Db, batch: seq<HoldId>, n: nat)
    requires n < |batch| && Distinct(batch) && SweepSound(w, db, v, d, batch, n)
    requires w.holdings[batch[n]].phase != Bought
    ensures var h := batch[n];
            SweepSound(w, db, GiveBack(v, h, db.rows[h].user, db.rows[h].seats), DeleteRow(d, h), batch, n + 1)
  {
    ReleaseRowIsExact(v, d, batch[n]);
    hide TablesAgree;
  }

  lemma SweepBoughtStep(w: World, db: Db, v: World, d: Db, batch: seq<HoldId>, n: nat)
    requires n < |batch| && SweepSound(w, db, v, d, batch, n)
    requires w.holdings[batch[n]].phase == Bought
    ensures var h := batch[n];
            Unsold(GiveBack(v, h, db.rows[h].user, db.rows[h].seats)) > 0
  {
    ReleaseRowIsExact(v, d, batch[n]);
    hide TablesAgree, GiveBack, Unsold;
  }

  lemma SweepSoundStart(w: World, db: Db, batch: seq<HoldId>)
    requires TablesAgree(w, db) && forall h :: h in batch ==> h in db.rows
    ensures SweepSound(w, db, w, db, batch, 0)
  {
    assert forall i :: 0 <= i < |batch| ==> batch[i] in db.rows && OwnSeats(w, batch[i], db.rows[batch[i]].seats);
    hide Consistent;
  }

  lemma AnyBoughtStep(w: World, batch: seq<HoldId>, n: nat)
    requires n < |batch|
    ensures AnyBought(w, batch, n + 1) <==>
      AnyBought(w, batch, n) || (batch[n] in w.holdings && w.holdings[batch[n]].phase == Bought)
  {
  }

  lemma SweepSoundKnows(w: World, db: Db, v: World, d: Db, batch: seq<HoldId>, n: nat)
    requires n < |batch| && SweepSound(w, db, v, d, batch, n)
    ensures batch[n] in w.holdings
  {
  }

  lemma {:induction false} SweepInduction(w: World, db: Db, batch: seq<HoldId>, n: nat)
    requires TablesAgree(w, db) && Distinct(batch) && n <= |batch| && (forall h :: h in batch ==> h in db.rows)
    ensures var (v, d) := SweptWorld(w, db, db.rows, batch, n);
            if AnyBought(w, batch, n) then Unsold(v) > 0 else SweepSound(w, db, v, d, batch, n)
  {
    hide TablesAgree, GiveBack, DeleteRow, Unsold, SweepSound, AnyBought, Distinct;
    if n == 0 {
      NoneBought(w, batch);
      SweepSoundStart(w, db, batch);
    } else {
      SweepInduction(w, db, batch, n - 1);
      AnyBoughtStep(w, batch, n - 1);
      var (v, d) := SweptWorld(w, db, db.rows, batch, n - 1);
      var h := batch[n - 1];
      if AnyBought(w, batch, n - 1) {
        GiveBackUnsold(v, h, db.rows[h].user, db.rows[h].seats);
      } else {
        SweepSoundKnows(w, db, v, d, batch, n - 1);
        if w.holdings[h].phase == Bought {
          SweepBoughtStep(w, db, v, d, batch, n - 1);
        } else {
          SweepSoundStep(w, db, v, d, batch, n - 1);
        }
      }
    }
  }

  lemma NoneBought(w: World, batch: seq<HoldId>)
    ensures !AnyBought(w, batch, 0)
  {
  }

  /**
   A sweep over any batch of reservation rows leaves seats and counters in agreement if and only if
   none of the rows belongs to a committed hold. Nothing in the reaper's query excludes such rows.
   */
  lemma SweepIsExact(w: World, db: Db, batch: seq<HoldId>)
    requires TablesAgree(w, db) && Distinct(batch) && (forall h :: h in batch ==> h in db.rows)
    ensures var (v, d) := SweptWorld(w, db, db.rows, batch, |batch|);
            && (Consistent(v) <==> !AnyBought(w, batch, |batch|))
            && (!AnyBought(w, batch, |batch|) ==> TablesAgree(v, d))
  {
    SweepInduction(w, db, batch, |batch|);
    var (v, d) := SweptWorld(w, db, db.rows, batch, |batch|);
    if Consistent(v) {
      ConsistentUnsold(v);
    }
    hide Consistent, AnyBought;
  }

  // ---- Whole runs of the service

  datatype Happening = Client(request: Request) | Reaped(batch: seq<HoldId>) | Elsewhere(event: Event)

  /**
   What holds of every run: hold ids are new, sweeps take rows of the table, and the rest is expirations and
   seeding.
   */
  predicate Proper(w: World, db: Db, x: Happening) {
    match x
    case Client(r) => FreshRequest(w, r)
    case Reaped(batch) => Distinct(batch) && forall h :: h in batch ==> h in db.rows
    case Elsewhere(e) => !e.Hold? && !e.Release? && !e.Commit?
  }

  function Next(parse: SeatKey -> Option<SeatKey>, w: World, db: Db, x: Happening): (World, Db)
    requires Proper(w, db, x)
  {
    match x
    case Client(r) => ServeWorld(parse, w, db, r)
    case Reaped(batch) => SweptWorld(w, db, db.rows, batch, |batch|)
    case Elsewhere(e) => (Step(w, e), db)
  }

  ghost predicate IsRun(parse: SeatKey -> Option<SeatKey>, ws: seq<(World, Db)>, xs: seq<Happening>) {
    && |ws| == |xs| + 1
    && forall i :: 0 <= i < |xs| ==>
         Proper(ws[i].0, ws[i].1, xs[i]) && ws[i + 1] == Next(parse, ws[i].0, ws[i].1, xs[i])
  }

  /** The request is good, no committed hold is swept, the seeding is disciplined. */
  ghost predicate Good(parse: SeatKey -> Option<SeatKey>, w: World, db: Db, x: Happening) {
    match x
    case Client(r) => GoodRequest(w, db, parse, r)
    case Reaped(batch) => !AnyBought(w, batch, |batch|)
    case Elsewhere(e) => Disciplined(w, e)
  }

  lemma ElsewhereIsExact(w: World, db: Db, e: Event)
    requires TablesAgree(w, db) && !e.Hold? && !e.Release? && !e.Commit?
    ensures TablesAgree(Step(w, e), db) <==> Disciplined(w, e)
  {
    hide Consistent, RowsAgree, OrdersAgree, Apply, Disciplined;
    DisciplineIsExact(w, e);
    SameHoldings(w, Step(w, e), db);
  }

  lemma NextIsExact(parse: SeatKey -> Option<SeatKey>, w: World, db: Db, x: Happening)
    requires TablesAgree(w, db) && Proper(w, db, x)
    ensures var (t, d) := Next(parse, w, db, x);
            TablesAgree(t, d) <==> Good(parse, w, db, x)
  {
    hide TablesAgree, Step, Apply, Disciplined, GoodRequest, ServeWorld, SweptWorld, AnyBought;
    match x
    case Client(r) => RequestIsExact(parse, w, db, r);
    case Reaped(batch) =>
      SweepIsExact(w, db, batch);
      var (v, d) := SweptWorld(w, db, db.rows, batch, |batch|);
      assert TablesAgree(v, d) ==> Consistent(v) by { if TablesAgree(v, d) { TablesConsistent(v, d); } }
    case Elsewhere(e) => ElsewhereIsExact(w, db, e);
  }

  lemma TablesConsistent(w: World, db: Db)
    requires TablesAgree(w, db)
    ensures Consistent(w) && OrdersAgree(w, db)
  {
    hide Consistent, RowsAgree, OrdersAgree;
  }

  ghost predicate AgreesUpTo(ws: seq<(World, Db)>, i: nat)
    requires i < |ws|
  {
    forall j :: 0 <= j <= i ==> TablesAgree(ws[j].0, ws[j].1)
  }

  ghost predicate GoodUpTo(parse: SeatKey -> Option<SeatKey>, ws: seq<(World, Db)>, xs: seq<Happening>, i: nat)
    requires i <= |xs| < |ws|
  {
    forall j :: 0 <= j < i ==> Good(parse, ws[j].0, ws[j].1, xs[j])
  }

  /** In every state of a good run from a state of agreement seats, counters, reservation rows and orders agree. */
  lemma {:induction false} AgreementAlways(parse: SeatKey -> Option<SeatKey>, ws: seq<(World, Db)>, xs: seq<Happening>,
      i: nat)
    requires IsRun(parse, ws, xs) && i <= |xs| && TablesAgree(ws[0].0, ws[0].1) && GoodUpTo(parse, ws, xs, i)
    ensures TablesAgree(ws[i].0, ws[i].1)
  {
    hide TablesAgree, Good, Next, Proper;
    if i > 0 {
      AgreementAlways(parse, ws, xs, i - 1);
      NextIsExact(parse, ws[i - 1].0, ws[i - 1].1, xs[i - 1]);
    }
  }

  lemma OnlyGood(parse: SeatKey -> Option<SeatKey>, ws: seq<(World, Db)>, xs: seq<Happening>, i: nat)
    requires IsRun(parse, ws, xs) && i <= |xs| && AgreesUpTo(ws, i)
    ensures GoodUpTo(parse, ws, xs, i)
  {
    hide TablesAgree, Good, Next, Proper;
    forall j | 0 <= j < i
      ensures Good(parse, ws[j].0, ws[j].1, xs[j])
    {
      assert TablesAgree(ws[j].0, ws[j].1) && TablesAgree(ws[j + 1].0, ws[j + 1].1);
      NextIsExact(parse, ws[j].0, ws[j].1, xs[j]);
    }
  }

  /** And a run from a state of agreement stays in agreement up to a point if and only if it was good up to it. */
  lemma AgreementExactly(parse: SeatKey -> Option<SeatKey>, ws: seq<(World, Db)>, xs: seq<Happening>, i: nat)
    requires IsRun(parse, ws, xs) && i <= |xs| && TablesAgree(ws[0].0, ws[0].1)
    ensures AgreesUpTo(ws, i) <==> GoodUpTo(parse, ws, xs, i)
  {
    assert |ws| == |xs| + 1;
    hide TablesAgree, Good, IsRun;
    if AgreesUpTo(ws, i) {
      OnlyGood(parse, ws, xs, i);
    }
    if GoodUpTo(parse, ws, xs, i) {
      forall j | 0 <= j <= i
        ensures TablesAgree(ws[j].0, ws[j].1)
      {
        AgreementAlways(parse, ws, xs, j);
      }
    }
  }

  // ---- Orders over whole runs

  lemma {:induction false} SweepKeepsOrders(w: World, db: Db, rows: map<HoldId, Row>, batch: seq<HoldId>, n: nat)
    requires n <= |batch| && forall h :: h in batch ==> h in rows
    ensures SweptWorld(w, db, rows, batch, n).1.orders == db.orders
  {
    hide GiveBack;
    if n > 0 {
      SweepKeepsOrders(w, db, rows, batch, n - 1);
    }
  }

  predicate HappensAgain(w: World, db: Db, x: Happening) {
    x.Client? && OrdersAgain(w.store, db, x.request)
  }

  /** Orders are only ever added, and a second one for a hold exactly by a request that orders again. */
  lemma NextOrders(parse: SeatKey -> Option<SeatKey>, w: World, db: Db, x: Happening)
    requires Proper(w, db, x)
    ensures var d := Next(parse, w, db, x).1;
            && (forall key :: key in db.orders ==> key in d.orders && d.orders[key] == db.orders[key])
            && (OneOrderPerHold(db) ==> (OneOrderPerHold(d) <==> !HappensAgain(w, db, x)))
  {
    hide Step, Apply, OneOrderPerHold, OrdersAgain, AddsOrder, Mirror, Serve, SweptWorld;
    match x
    case Client(r) =>
      ServeWorldFollowsService(parse, w, db, r);
      OrdersAfter(parse, w.store, db, r);
      if OneOrderPerHold(db) { OneOrderIff(parse, w.store, db, r); }
    case Reaped(batch) =>
      SweepKeepsOrders(w, db, db.rows, batch, |batch|);
      SameOrders(db, SweptWorld(w, db, db.rows, batch, |batch|).1);
    case Elsewhere(e) =>
  }

  lemma SameOrders(db: Db, d: Db)
    requires d.orders == db.orders
    ensures OneOrderPerHold(d) <==> OneOrderPerHold(db)
  {
  }

  lemma MoreOrders(db: Db, d: Db)
    requires OneOrderPerHold(d) && forall key :: key in db.orders ==> key in d.orders && d.orders[key] == db.orders[key]
    ensures OneOrderPerHold(db)
  {
  }

  /** Over any run: every hold has at most one order if and only if no request of the run ordered again. */
  lemma {:induction false} OneOrderExactly(parse: SeatKey -> Option<SeatKey>, ws: seq<(World, Db)>, xs: seq<Happening>,
      i: nat)
    requires IsRun(parse, ws, xs) && i <= |xs| && OneOrderPerHold(ws[0].1)
    ensures OneOrderPerHold(ws[i].1) <==> forall j :: 0 <= j < i ==> !HappensAgain(ws[j].0, ws[j].1, xs[j])
  {
    hide OneOrderPerHold, HappensAgain, Next, Proper;
    if i > 0 {
      OneOrderExactly(parse, ws, xs, i - 1);
      NextOrders(parse, ws[i - 1].0, ws[i - 1].1, xs[i - 1]);
      if OneOrderPerHold(ws[i].1) { MoreOrders(ws[i - 1].1, ws[i].1); }
    }
  }

  /** Where the orders agree, those of different holds have no seat in common. */
  lemma OrdersOfTwoHolds(w: World, db: Db, x: (IdempotencyKey, UserId), y: (IdempotencyKey, UserId))
    requires Consistent(w) && OrdersAgree(w, db) && x in db.orders && y in db.orders
        && db.orders[x].hold != db.orders[y].hold
    ensures ToSet(db.orders[x].seats) !! ToSet(db.orders[y].seats)
  {
    assert InPhase(w, db.orders[x].hold, Bought) && InPhase(w, db.orders[y].hold, Bought);
    BoughtSeats(w, db.orders[x].hold);
    BoughtSeats(w, db.orders[y].hold);
    hide Structure, Counters;
  }

  /** In every good run in which no request orders again, no seat is in two paid orders. */
  lemma SeatInOneOrder(parse: SeatKey -> Option<SeatKey>, ws: seq<(World, Db)>, xs: seq<Happening>, i: nat,
                       x: (IdempotencyKey, UserId), y: (IdempotencyKey, UserId))
    requires IsRun(parse, ws, xs) && i <= |xs| && TablesAgree(ws[0].0, ws[0].1) && OneOrderPerHold(ws[0].1)
    requires GoodUpTo(parse, ws, xs, i) && forall j :: 0 <= j < i ==> !HappensAgain(ws[j].0, ws[j].1, xs[j])
    requires x in ws[i].1.orders && y in ws[i].1.orders && x != y
    ensures ToSet(ws[i].1.orders[x].seats) !! ToSet(ws[i].1.orders[y].seats)
  {
    assert OneOrderPerHold(ws[i].1) by {
      hide OneOrderPerHold, HappensAgain, TablesAgree, Good, GoodUpTo;
      OneOrderExactly(parse, ws, xs, i);
    }
    hide HappensAgain, TablesAgree, GoodUpTo, IsRun;
    AgreementAlways(parse, ws, xs, i);
    TablesConsistent(ws[i].0, ws[i].1);
    hide Consistent, OrdersAgree;
    OrdersOfTwoHolds(ws[i].0, ws[i].1, x, y);
  }

  // ---- Whose order it is

  /** Orders belong to the users of their holds. */
  ghost predicate OwnOrders(w: World, db: Db) {
    forall key :: key in db.orders && db.orders[key].hold in w.holdings
        ==> key.1 == w.holdings[db.orders[key].hold].user
  }

  /** Rows and orders are of granted holds. */
  ghost predicate Known(w: World, db: Db) {
    db.rows.Keys <= w.holdings.Keys && forall key :: key in db.orders ==> db.orders[key].hold in w.holdings
  }

  lemma TablesAreKnown(w: World, db: Db)
    requires TablesAgree(w, db)
    ensures Known(w, db)
  {
    hide Consistent;
    assert forall h :: h in db.rows ==> OwnSeats(w, h, db.rows[h].seats);
  }

  /** The commit request is answered as paid for another user's hold. */
  predicate OrdersForAnother(w: World, db: Db, r: Request) {
    AddsOrder(w.store, db, r) && r.hold in w.holdings && w.holdings[r.hold].user != r.user
  }

  ghost predicate UsersStay(w: World, t: World) {
    forall h :: h in w.holdings ==> h in t.holdings && t.holdings[h].user == w.holdings[h].user
  }

  lemma StepKeepsUsers(w: World, e: Event)
    requires e.Hold? ==> e.hold !in w.holdings
    ensures UsersStay(w, Step(w, e))
    ensures e.Hold? && Apply(w.store, e).1.Granted? ==> e.hold in Step(w, e).holdings
  {
    hide Apply;
  }

  /** The orders stay their users' own if and only if the request does not order for another. */
  lemma OwnOrdersIff(parse: SeatKey -> Option<SeatKey>, w: World, db: Db, r: Request)
    requires Known(w, db) && OwnOrders(w, db) && FreshRequest(w, r)
    ensures var (t, d) := ServeWorld(parse, w, db, r);
            OwnOrders(t, d) <==> !OrdersForAnother(w, db, r)
  {
    hide Step, Apply, AddsOrder, Mirror, Serve, Finish;
    var (t, d) := ServeWorld(parse, w, db, r);
    RequestUsers(parse, w, db, r);
    ServeWorldFollowsService(parse, w, db, r);
    OrdersAfter(parse, w.store, db, r);
    if AddsOrder(w.store, db, r) {
      var key := (r.idem, r.user);
      assert r.hold in w.holdings && key in d.orders && d.orders[key].hold == r.hold;
    }
  }

  lemma RequestUsers(parse: SeatKey -> Option<SeatKey>, w: World, db: Db, r: Request)
    requires FreshRequest(w, r)
    ensures UsersStay(w, ServeWorld(parse, w, db, r).0)
    ensures AddsOrder(w.store, db, r) ==> r.CommitRequest? && r.hold in db.rows
  {
    hide Step, Apply, Finish;
    if PlanOf(db, r).Ask? {
      StepKeepsUsers(w, PlanOf(db, r).event);
    }
  }

  /**
   In a consistent state such a request is served from the ledger: it is answered as paid, and the store stays
   as it is.
   */
  lemma AnotherUserIsPaid(parse: SeatKey -> Option<SeatKey>, w: World, db: Db, r: Request)
    requires Consistent(w) && OrdersForAnother(w, db, r)
    ensures r.hold in w.store.orderOfHold
    ensures var (t, d, response) := Serve(parse, w.store, db, r);
            && response == Paid(r.order) && t == w.store
            && (r.idem, r.user) in d.orders && d.orders[(r.idem, r.user)].hold == r.hold
  {
    if r.hold !in w.store.orderOfHold {
      ClaimableSeats(w, r.hold, r.user, CommitSeats(db, r));
    }
    OrdersAfter(parse, w.store, db, r);
    hide Structure, Counters, Mirror, AllClaimable;
  }

  predicate HappensForAnother(w: World, db: Db, x: Happening) {
    x.Client? && OrdersForAnother(w, db, x.request)
  }

  lemma {:induction false} SweepUsers(w: World, db: Db, rows: map<HoldId, Row>, batch: seq<HoldId>, n: nat)
    requires n <= |batch| && forall h :: h in batch ==> h in rows
    ensures var (v, d) := SweptWorld(w, db, rows, batch, n);
            UsersStay(w, v) && d.rows.Keys <= db.rows.Keys
  {
    hide ReleaseScript;
    if n > 0 {
      SweepUsers(w, db, rows, batch, n - 1);
    }
  }

  lemma RequestKnown(parse: SeatKey -> Option<SeatKey>, w: World, db: Db, r: Request)
    requires Known(w, db) && FreshRequest(w, r)
    ensures var (t, d) := ServeWorld(parse, w, db, r);
            Known(t, d) && UsersStay(w, t)
  {
    RequestUsers(parse, w, db, r);
    ServeWorldFollowsService(parse, w, db, r);
    OrdersAfter(parse, w.store, db, r);
    RowsAfter(parse, w, db, r);
    hide Step, Apply, AddsOrder, Mirror, Serve, Finish, ServeWorld;
  }

  lemma RowsAfter(parse: SeatKey -> Option<SeatKey>, w: World, db: Db, r: Request)
    requires FreshRequest(w, r)
    ensures var (t, d) := ServeWorld(parse, w, db, r);
            forall h :: h in d.rows ==> h in db.rows || h in t.holdings
  {
    hide Step, Apply, Mirror;
    if PlanOf(db, r).Ask? {
      StepKeepsUsers(w, PlanOf(db, r).event);
      TakesIff(w.store, PlanOf(db, r).event);
    }
  }

  lemma NextUsers(parse: SeatKey -> Option<SeatKey>, w: World, db: Db, x: Happening)
    requires Proper(w, db, x) && Known(w, db)
    ensures var (t, d) := Next(parse, w, db, x);
            && Known(t, d) && UsersStay(w, t)
            && (OwnOrders(w, db) ==> (OwnOrders(t, d) <==> !HappensForAnother(w, db, x)))
  {
    hide Step, Apply, OrdersForAnother, ServeWorld, SweptWorld;
    match x
    case Client(r) =>
      RequestKnown(parse, w, db, r);
      if OwnOrders(w, db) { OwnOrdersIff(parse, w, db, r); }
    case Reaped(batch) =>
      SweepUsers(w, db, db.rows, batch, |batch|);
      SweepKeepsOrders(w, db, db.rows, batch, |batch|);
    case Elsewhere(e) => StepKeepsUsers(w, e);
  }

  lemma EarlierOwnOrders(w: World, db: Db, t: World, d: Db)
    requires Known(w, db) && UsersStay(w, t) && OwnOrders(t, d)
    requires forall key :: key in db.orders ==> key in d.orders && d.orders[key] == db.orders[key]
    ensures OwnOrders(w, db)
  {
  }

  lemma {:induction false} KnownAlways(parse: SeatKey -> Option<SeatKey>, ws: seq<(World, Db)>, xs: seq<Happening>,
      i: nat)
    requires IsRun(parse, ws, xs) && i <= |xs| && Known(ws[0].0, ws[0].1)
    ensures Known(ws[i].0, ws[i].1)
  {
    hide Known, Next, Proper, OwnOrders;
    if i > 0 {
      KnownAlways(parse, ws, xs, i - 1);
      NextUsers(parse, ws[i - 1].0, ws[i - 1].1, xs[i - 1]);
    }
  }

  /** Over any run: all orders are their users' own if and only if no request of the run ordered for another. */
  lemma {:induction false} OwnOrdersExactly(parse: SeatKey -> Option<SeatKey>, ws: seq<(World, Db)>,
      xs: seq<Happening>, i: nat)
    requires IsRun(parse, ws, xs) && i <= |xs| && Known(ws[0].0, ws[0].1) && OwnOrders(ws[0].0, ws[0].1)
    ensures OwnOrders(ws[i].0, ws[i].1) <==> forall j :: 0 <= j < i ==> !HappensForAnother(ws[j].0, ws[j].1, xs[j])
  {
    hide Known, OwnOrders, HappensForAnother, HappensAgain, OneOrderPerHold, UsersStay, Next, Proper;
    if i > 0 {
      var v, t := ws[i - 1], ws[i];
      OwnOrdersExactly(parse, ws, xs, i - 1);
      KnownAlways(parse, ws, xs, i - 1);
      NextUsers(parse, v.0, v.1, xs[i - 1]);
      NextOrders(parse, v.0, v.1, xs[i - 1]);
      if OwnOrders(t.0, t.1) { EarlierOwnOrders(v.0, v.1, t.0, t.1); }
    }
  }

  // ---- What happens without the missing condition

  /** A seat can be held and bought by a user: what the two requests answer and leave behind. */
  lemma HoldThenBuy(parse: SeatKey -> Option<SeatKey>, s: Store, db: Db, hold: Request, buy: Request, k: SeatKey)
    requires hold.HoldRequest? && buy.CommitRequest? && hold.seats == [k] && buy.seats == [k] && parse(k) == Some(k)
    requires buy.hold == hold.hold && buy.user == hold.user && hold.max >= 1
    requires IsAvailable(s.seats, k) && Available in s.inv && s.inv[Available] >= 1
        && Limit(s.limits, hold.user) + 1 <= hold.max
    requires hold.hold !in s.orderOfHold && hold.hold !in db.rows
    requires (hold.idem, hold.user) !in db.orders && (buy.idem, buy.user) !in db.orders
    ensures var (s1, d1, r1) := Serve(parse, s, db, hold);
            var (s2, d2, r2) := Serve(parse, s1, d1, buy);
            && r1 == HoldCreated(hold.hold) && r2 == Paid(buy.order)
            && SoldTo(s2, k, hold.hold)
            && d2.orders == db.orders[(buy.idem, buy.user) := OrderRow(buy.order, hold.hold, [k])]
            && d2.rows == db.rows[hold.hold := Row(hold.user, [k], hold.expiresAt)]
            && Available in s2.inv && s2.inv[Available] == s.inv[Available] - 1
            && (forall u :: u != hold.user ==> Limit(s2.limits, u) == Limit(s.limits, u))
            && (forall h :: h in s2.orderOfHold ==> h == hold.hold || h in s.orderOfHold)
  {
    hide Apply, Mirror;
    OneSeatMirror(parse, k);
    HoldOne(s, hold, k);
    var e := Hold(hold.user, hold.hold, [k], hold.expiresAt, hold.max);
    var s1 := Apply(s, e).0;
    CommitOne(s1, buy, k);
  }

  lemma OneSeatMirror(parse: SeatKey -> Option<SeatKey>, k: SeatKey)
    requires parse(k) == Some(k)
    ensures Mirror(parse, [k]) == [k]
  {
    MirrorIsFaithful(parse, [k]);
  }

  lemma HoldOne(s: Store, r: Request, k: SeatKey)
    requires r.HoldRequest? && IsAvailable(s.seats, k) && Available in s.inv && s.inv[Available] >= 1
        && Limit(s.limits, r.user) + 1 <= r.max
    ensures var (t, reply) := Apply(s, Hold(r.user, r.hold, [k], r.expiresAt, r.max));
            && reply == Granted(r.hold)
            && k in t.seats && t.seats[k].status == HELD && Claimable(t.seats, k, r.hold, r.user)
            && Available in t.inv && t.inv[Available] == s.inv[Available] - 1
            && (forall u :: u != r.user ==> Limit(t.limits, u) == Limit(s.limits, u))
            && t.orderOfHold == s.orderOfHold
  {
  }

  lemma CommitOne(s: Store, r: Request, k: SeatKey)
    requires r.CommitRequest? && Claimable(s.seats, k, r.hold, r.user) && s.seats[k].status == HELD
    requires r.hold !in s.orderOfHold && Available in s.inv
    ensures var (t, reply) := Apply(s, Commit(CommitKind.Booking, r.hold, r.user, [k], r.order, r.soldAt));
            && reply == Committed(r.order) && SoldTo(t, k, r.hold)
            && Available in t.inv && t.inv[Available] == s.inv[Available]
            && t.limits == s.limits
            && t.orderOfHold == s.orderOfHold[r.hold := r.order]
  {
  }

  lemma SweepOne(s: Store, db: Db, h: HoldId, k: SeatKey)
    requires h in db.rows && db.rows[h].seats == [k] && SoldTo(s, k, h) && Available in s.inv
    ensures var (t, d) := Swept(s, db, db.rows, [h], 1);
            && IsAvailable(t.seats, k) && Available in t.inv && t.inv[Available] == s.inv[Available] + 1
            && (forall u :: u != db.rows[h].user ==> Limit(t.limits, u) == Limit(s.limits, u))
            && t.orderOfHold == s.orderOfHold && d.orders == db.orders
            && (forall g :: g in d.rows ==> g in db.rows)
  {
    assert Swept(s, db, db.rows, [h], 0) == (s, db);
    assert Swept(s, db, db.rows, [h], 1) == (ReleaseScript(s, h, db.rows[h].user, [k]).0, DeleteRow(db, h));
    hide Swept;
  }

  /**
   The reaper can undo a sale: a seat bought by one user, whose reservation row has outlived its
   expiry, is sold again to another user after one sweep over that row. Both users have a paid order
   for the seat.
   */
  lemma SweptSaleIsResold(parse: SeatKey -> Option<SeatKey>, s: Store, db: Db, hold1: Request, buy1: Request,
      hold2: Request, buy2: Request, k: SeatKey)
    requires parse(k) == Some(k) && IsAvailable(s.seats, k) && Available in s.inv && s.inv[Available] >= 1
    requires forall a, b :: (a, b) in [(hold1, buy1), (hold2, buy2)] ==>
      && a.HoldRequest? && b.CommitRequest? && a.seats == [k] && b.seats == [k] && b.hold == a.hold && b.user == a.user
      && a.max >= 1 && Limit(s.limits, a.user) + 1 <= a.max
      && a.hold !in s.orderOfHold && a.hold !in db.rows && (a.idem, a.user) !in db.orders
          && (b.idem, b.user) !in db.orders
    requires hold1.hold != hold2.hold && hold1.user != hold2.user
    ensures var (s1, d1, _) := Serve(parse, s, db, hold1);
            var (s2, d2, r2) := Serve(parse, s1, d1, buy1);
            hold1.hold in d2.rows &&
            var (s3, d3) := Swept(s2, d2, d2.rows, [hold1.hold], 1);
            var (s4, d4, _) := Serve(parse, s3, d3, hold2);
            var (s5, d5, r5) := Serve(parse, s4, d4, buy2);
            && r2 == Paid(buy1.order) && r5 == Paid(buy2.order)
            && (buy1.idem, buy1.user) in d5.orders && d5.orders[(buy1.idem, buy1.user)].seats == [k]
            && (buy2.idem, buy2.user) in d5.orders && d5.orders[(buy2.idem, buy2.user)].seats == [k]
  {
    assert (hold1, buy1) in [(hold1, buy1), (hold2, buy2)];
    assert (hold2, buy2) in [(hold1, buy1), (hold2, buy2)];
    hide Serve, Swept, IsAvailable, SoldTo;
    HoldThenBuy(parse, s, db, hold1, buy1, k);
    var (s1, d1, _) := Serve(parse, s, db, hold1);
    var (s2, d2, _) := Serve(parse, s1, d1, buy1);
    SweepOne(s2, d2, hold1.hold, k);
    var (s3, d3) := Swept(s2, d2, d2.rows, [hold1.hold], 1);
    HoldThenBuy(parse, s3, d3, hold2, buy2, k);
  }

  /** A release request does what a sweep over its row does. */
  lemma ReleaseIsSweep(parse: SeatKey -> Option<SeatKey>, s: Store, db: Db, r: Request)
    requires r.ReleaseRequest? && r.hold in db.rows && (r.caller.Some? ==> r.caller.value == db.rows[r.hold].user)
    ensures var (t, d, response) := Serve(parse, s, db, r);
            (t, d) == Swept(s, db, db.rows, [r.hold], 1) && response == ReleaseDone
  {
    hide ReleaseScript, DeleteRow;
    assert Swept(s, db, db.rows, [r.hold], 0) == (s, db);
    ReleaseIsDone(s, r.hold, db.rows[r.hold].user, db.rows[r.hold].seats);
  }

  lemma ReleaseIsDone(s: Store, hold: HoldId, user: UserId, keys: seq<SeatKey>)
    ensures ReleaseScript(s, hold, user, keys).1 == Released
  {
  }

  /**
   The owner of a paid hold can release it, and so undo the sale: the seat is sold again to another
   user, and both users have a paid order for it.
   */
  lemma ReleasedSaleIsResold(parse: SeatKey -> Option<SeatKey>, s: Store, db: Db, hold1: Request, buy1: Request,
      release: Request,
                             hold2: Request, buy2: Request, k: SeatKey)
    requires parse(k) == Some(k) && IsAvailable(s.seats, k) && Available in s.inv && s.inv[Available] >= 1
    requires forall a, b :: (a, b) in [(hold1, buy1), (hold2, buy2)] ==>
      && a.HoldRequest? && b.CommitRequest? && a.seats == [k] && b.seats == [k] && b.hold == a.hold && b.user == a.user
      && a.max >= 1 && Limit(s.limits, a.user) + 1 <= a.max
      && a.hold !in s.orderOfHold && a.hold !in db.rows && (a.idem, a.user) !in db.orders
          && (b.idem, b.user) !in db.orders
    requires hold1.hold != hold2.hold && hold1.user != hold2.user
    requires release == ReleaseRequest(Some(hold1.user), hold1.hold)
    ensures var (s1, d1, _) := Serve(parse, s, db, hold1);
            var (s2, d2, r2) := Serve(parse, s1, d1, buy1);
            var (s3, d3, r3) := Serve(parse, s2, d2, release);
            var (s4, d4, _) := Serve(parse, s3, d3, hold2);
            var (s5, d5, r5) := Serve(parse, s4, d4, buy2);
            && r2 == Paid(buy1.order) && r3 == ReleaseDone && r5 == Paid(buy2.order)
            && (buy1.idem, buy1.user) in d5.orders && d5.orders[(buy1.idem, buy1.user)].seats == [k]
            && (buy2.idem, buy2.user) in d5.orders && d5.orders[(buy2.idem, buy2.user)].seats == [k]
  {
    assert (hold1, buy1) in [(hold1, buy1), (hold2, buy2)];
    hide Serve, Swept, IsAvailable, SoldTo;
    HoldThenBuy(parse, s, db, hold1, buy1, k);
    SweptSaleIsResold(parse, s, db, hold1, buy1, hold2, buy2, k);
    var (s1, d1, _) := Serve(parse, s, db, hold1);
    var (s2, d2, _) := Serve(parse, s1, d1, buy1);
    ReleaseIsSweep(parse, s2, d2, release);
  }

  /**
   A request that orders again is answered as paid and adds one more order of the same hold; with the
   ledger entry alive it changes nothing in the store.
   */
  lemma RepeatedCommitOrdersAgain(parse: SeatKey -> Option<SeatKey>, s: Store, db: Db, r: Request)
    requires OrdersAgain(s, db, r)
    ensures var (t, d, response) := Serve(parse, s, db, r);
            && response == Paid(r.order)
            && (r.idem, r.user) in d.orders && d.orders[(r.idem, r.user)].hold == r.hold
            && |d.orders| == |db.orders| + 1
            && (r.hold in s.orderOfHold ==> t == s)
  {
    OrdersAfter(parse, s, db, r);
    hide Mirror;
  }
}
