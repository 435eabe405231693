/**
 The booking service in pieces. Handlers and the reaper run at the same time, and only their script
 calls and their single table statements are atomic: what a handler read may be out of date when it
 goes on. A run is any sequence of such pieces, each with whatever its handler read or was sent
 before. Exactly which pieces keep seats, counters and tables in agreement is shown for every state
 and for whole runs; uninterrupted handlers and sweeps are the steps of Service.dfy.
 */
module Interleaving {
  import opened Collections
  import opened Redis
  import opened Protocol
  import opened Worlds
  import opened Accounting
  import opened Inventory
  import opened Booking
  import opened Service

  datatype Piece =
    | Script(event: Event)
    | PutRow(hold: HoldId, row: Row)
    | DropRow(hold: HoldId)
    | PutOrder(key: (IdempotencyKey, UserId), order: OrderRow)

  /** An order needs the row of its hold, by the foreign key. */
  function Perform(w: World, db: Db, p: Piece): (World, Db) {
    match p
    case Script(e) => (Step(w, e), db)
    case PutRow(hold, row) => (w, InsertRow(db, hold, row))
    case DropRow(hold) => (w, DeleteRow(db, hold))
    case PutOrder(key, row) => (w, if row.hold in db.rows then InsertOrder(db, key, row) else db)
  }

  function PerformAll(w: World, db: Db, ps: seq<Piece>): (World, Db) {
    if ps == [] then (w, db)
    else
      var (v, d) := PerformAll(w, db, ps[..|ps| - 1]);
      Perform(v, d, ps[|ps| - 1])
  }

  // ---- Uninterrupted handlers

  /** The pieces of a handler that is not interrupted. */
  function Pieces(parse: SeatKey -> Option<SeatKey>, s: Store, db: Db, r: Request): seq<Piece> {
    match PlanOf(db, r)
    case Answer(_) => []
    case Ask(e) =>
      if Apply(s, e).1.Rejected? then [Script(e)]
      else
        match r
        case HoldRequest(user, _, seats, hold, expiresAt, _) =>
          [Script(e), PutRow(hold, Row(user, Mirror(parse, seats), expiresAt))]
        case CommitRequest(user, idem, hold, _, order, _) =>
          [Script(e), PutOrder((idem, user), OrderRow(order, hold, Mirror(parse, CommitSeats(db, r))))]
        case ReleaseRequest(_, hold) => [Script(e), DropRow(hold)]
  }

  lemma PerformOne(w: World, db: Db, p: Piece)
    ensures PerformAll(w, db, [p]) == Perform(w, db, p)
  {
    assert PerformAll(w, db, [p][..0]) == (w, db);
    hide Perform;
  }

  lemma PerformTwo(w: World, db: Db, p: Piece, q: Piece)
    ensures var (v, d) := Perform(w, db, p);
            PerformAll(w, db, [p, q]) == Perform(v, d, q)
  {
    PerformOne(w, db, p);
    assert [p, q][..1] == [p];
    hide Perform;
  }

  /** A handler that is not interrupted does what the request does in one step. */
  lemma UninterruptedIsServe(parse: SeatKey -> Option<SeatKey>, w: World, db: Db, r: Request)
    ensures PerformAll(w, db, Pieces(parse, w.store, db, r)) == ServeWorld(parse, w, db, r)
  {
    hide Step, Apply, Mirror, DeleteRow, InsertRow, InsertOrder, PerformAll;
    var ps := Pieces(parse, w.store, db, r);
    match |ps|
    case 0 => PerformNone(w, db);
    case 1 => PerformOne(w, db, ps[0]);
    case _ => PerformTwo(w, db, ps[0], ps[1]);
  }

  lemma PerformNone(w: World, db: Db)
    ensures PerformAll(w, db, []) == (w, db)
  {
  }

  function SweepPieces(rows: map<HoldId, Row>, batch: seq<HoldId>, n: nat): seq<Piece>
    requires n <= |batch| && forall h :: h in batch ==> h in rows
  {
    if n == 0 then []
    else
      var h := batch[n - 1];
      SweepPieces(rows, batch, n - 1) + [Script(Release(h, rows[h].user, rows[h].seats)), DropRow(h)]
  }

  lemma PerformMore(w: World, db: Db, ps: seq<Piece>, p: Piece, q: Piece)
    ensures var (v, d) := PerformAll(w, db, ps);
            var (t, e) := Perform(v, d, p);
            PerformAll(w, db, ps + [p, q]) == Perform(t, e, q)
  {
    var all := ps + [p, q];
    assert all[..|all| - 1] == ps + [p];
    assert (ps + [p])[..|ps|] == ps;
    hide Perform;
  }

  /** A sweep that is not interrupted does what the sweep does in one step. */
  lemma {:induction false} UninterruptedIsSweep(w: World, db: Db, rows: map<HoldId, Row>, batch: seq<HoldId>, n: nat)
    requires n <= |batch| && forall h :: h in batch ==> h in rows
    ensures PerformAll(w, db, SweepPieces(rows, batch, n)) == SweptWorld(w, db, rows, batch, n)
  {
    hide Step, GiveBack, DeleteRow, PerformAll;
    if n == 0 {
      PerformNone(w, db);
    } else {
      UninterruptedIsSweep(w, db, rows, batch, n - 1);
      var h := batch[n - 1];
      var e := Release(h, rows[h].user, rows[h].seats);
      PerformMore(w, db, SweepPieces(rows, batch, n - 1), Script(e), DropRow(h));
      ReleaseIsGiveBack(SweptWorld(w, db, rows, batch, n - 1).0, e);
    }
  }

  // ---- Which pieces keep everything in agreement

  /** Every row names each seat of its hold once; the hold may be released already, with its row about to go. */
  ghost predicate RowsName(w: World, db: Db) {
    forall h :: h in db.rows ==> OwnSeats(w, h, db.rows[h].seats) && w.holdings[h].user == db.rows[h].user
  }

  ghost predicate Agree(w: World, db: Db) {
    Consistent(w) && RowsName(w, db) && OrdersAgree(w, db)
  }

  /** Between handlers the agreement of the one-step service is this one. */
  lemma TablesAgreeIsAgree(w: World, db: Db)
    requires TablesAgree(w, db)
    ensures Agree(w, db)
  {
    hide Consistent;
    forall h | h in db.rows
      ensures OwnSeats(w, h, db.rows[h].seats)
    {
    }
  }

  predicate Fit(w: World, db: Db, p: Piece) {
    match p
    case Script(e) => Disciplined(w, e)
    case PutRow(hold, row) => hold in db.rows || (OwnSeats(w, hold, row.seats) && w.holdings[hold].user == row.user)
    case DropRow(_) => true
    case PutOrder(key, row) =>
      || key in db.orders || row.hold !in db.rows
      || (InPhase(w, row.hold, Bought) && ToSet(row.seats) <= w.holdings[row.hold].seats)
  }

  /** Holds keep user and seats. */
  ghost predicate HoldingsStay(w: World, t: World) {
    forall h :: h in w.holdings ==>
      h in t.holdings && t.holdings[h].user == w.holdings[h].user && t.holdings[h].seats == w.holdings[h].seats
  }

  lemma ScriptKeepsHoldings(w: World, e: Event)
    requires Addressed(w, e)
    ensures HoldingsStay(w, Step(w, e))
    ensures Disciplined(w, e) ==> forall h :: InPhase(w, h, Bought) ==> InPhase(Step(w, e), h, Bought)
  {
    hide Apply, Takes;
  }

  lemma TablesFollow(w: World, t: World, db: Db)
    requires RowsName(w, db) && OrdersAgree(w, db) && HoldingsStay(w, t)
    requires forall h :: InPhase(w, h, Bought) ==> InPhase(t, h, Bought)
    ensures RowsName(t, db) && OrdersAgree(t, db)
  {
    forall h | h in db.rows
      ensures OwnSeats(t, h, db.rows[h].seats)
    {
      assert OwnSeats(w, h, db.rows[h].seats);
    }
  }

  lemma ScriptIsExact(w: World, db: Db, e: Event)
    requires Agree(w, db) && Addressed(w, e)
    ensures Agree(Step(w, e), db) <==> Disciplined(w, e)
  {
    hide Consistent, Step, Disciplined, RowsName, OrdersAgree, HoldingsStay;
    DisciplineIsExact(w, e);
    ScriptKeepsHoldings(w, e);
    if Disciplined(w, e) {
      TablesFollow(w, Step(w, e), db);
    }
  }

  lemma PutRowIsExact(w: World, db: Db, hold: HoldId, row: Row)
    requires Agree(w, db)
    ensures Agree(w, InsertRow(db, hold, row)) <==> Fit(w, db, PutRow(hold, row))
  {
    hide Consistent, OwnSeats;
    var d := InsertRow(db, hold, row);
    if hold !in db.rows {
      assert d.rows[hold] == row;
      assert forall h :: h in db.rows ==> h in d.rows && d.rows[h] == db.rows[h];
    }
  }

  lemma PutOrderIsExact(w: World, db: Db, key: (IdempotencyKey, UserId), row: OrderRow)
    requires Agree(w, db)
    ensures Agree(w, Perform(w, db, PutOrder(key, row)).1) <==> Fit(w, db, PutOrder(key, row))
  {
    hide Consistent, RowsName, ToSet;
    var d := Perform(w, db, PutOrder(key, row)).1;
    assert RowsName(w, d) by { SameRows(w, db, d); }
    if key !in db.orders && row.hold in db.rows {
      assert d.orders[key] == row;
    }
  }

  lemma SameRows(w: World, db: Db, d: Db)
    requires RowsName(w, db) && d.rows == db.rows
    ensures RowsName(w, d)
  {
  }

  /**
   A piece, of whatever handler and with whatever it read before, keeps everything in agreement if and only if
   it is fit.
   */
  lemma PieceIsExact(w: World, db: Db, p: Piece)
    requires Agree(w, db) && (p.Script? ==> Addressed(w, p.event))
    ensures var (t, d) := Perform(w, db, p);
            Agree(t, d) <==> Fit(w, db, p)
  {
    match p
    case Script(e) =>
      ScriptIsExact(w, db, e);
      hide Agree, Step, Disciplined;
    case PutRow(hold, row) =>
      PutRowIsExact(w, db, hold, row);
      hide Agree, InsertRow, OwnSeats;
    case DropRow(hold) => hide Consistent;
    case PutOrder(key, row) =>
      PutOrderIsExact(w, db, key, row);
      hide Agree, InsertOrder;
  }

  // ---- Any interleaving

  ghost predicate IsInterleaving(ws: seq<(World, Db)>, ps: seq<Piece>) {
    && |ws| == |ps| + 1
    && forall i :: 0 <= i < |ps| ==>
         && (ps[i].Script? ==> Addressed(ws[i].0, ps[i].event))
         && ws[i + 1] == Perform(ws[i].0, ws[i].1, ps[i])
  }

  ghost predicate AgreeUpTo(ws: seq<(World, Db)>, i: nat)
    requires i < |ws|
  {
    forall j :: 0 <= j <= i ==> Agree(ws[j].0, ws[j].1)
  }

  ghost predicate FitUpTo(ws: seq<(World, Db)>, ps: seq<Piece>, i: nat)
    requires i <= |ps| < |ws|
  {
    forall j :: 0 <= j < i ==> Fit(ws[j].0, ws[j].1, ps[j])
  }

  lemma {:induction false} FitAgrees(ws: seq<(World, Db)>, ps: seq<Piece>, i: nat)
    requires IsInterleaving(ws, ps) && i <= |ps| && Agree(ws[0].0, ws[0].1) && FitUpTo(ws, ps, i)
    ensures Agree(ws[i].0, ws[i].1)
  {
    hide Agree, Fit, Perform, Addressed;
    if i > 0 {
      FitAgrees(ws, ps, i - 1);
      PieceIsExact(ws[i - 1].0, ws[i - 1].1, ps[i - 1]);
    }
  }

  lemma OnlyFit(ws: seq<(World, Db)>, ps: seq<Piece>, i: nat)
    requires IsInterleaving(ws, ps) && i <= |ps| && AgreeUpTo(ws, i)
    ensures FitUpTo(ws, ps, i)
  {
    hide Agree, Fit, Perform, Addressed;
    forall j | 0 <= j < i
      ensures Fit(ws[j].0, ws[j].1, ps[j])
    {
      assert Agree(ws[j].0, ws[j].1) && Agree(ws[j + 1].0, ws[j + 1].1);
      PieceIsExact(ws[j].0, ws[j].1, ps[j]);
    }
  }

  /**
   Any interleaving of handlers and sweeps stays in agreement up to a point if and only if all pieces up to it
   were fit.
   */
  lemma InterleavingExactly(ws: seq<(World, Db)>, ps: seq<Piece>, i: nat)
    requires IsInterleaving(ws, ps) && i <= |ps| && Agree(ws[0].0, ws[0].1)
    ensures AgreeUpTo(ws, i) <==> FitUpTo(ws, ps, i)
  {
    hide Agree, Fit, IsInterleaving;
    PiecesBetween(ws, ps);
    if AgreeUpTo(ws, i) {
      OnlyFit(ws, ps, i);
    }
    if FitUpTo(ws, ps, i) {
      forall j | 0 <= j <= i
        ensures Agree(ws[j].0, ws[j].1)
      {
        FitAgrees(ws, ps, j);
      }
    }
  }

  // ---- Releases with a row read earlier

  lemma StayIsTransitive(a: World, b: World, c: World)
    requires HoldingsStay(a, b) && HoldingsStay(b, c)
    ensures HoldingsStay(a, c)
  {
  }

  lemma PiecesBetween(ws: seq<(World, Db)>, ps: seq<Piece>)
    requires IsInterleaving(ws, ps)
    ensures |ws| == |ps| + 1
  {
  }

  lemma {:induction false} HoldingsStayAlways(ws: seq<(World, Db)>, ps: seq<Piece>, i: nat, j: nat)
    requires IsInterleaving(ws, ps) && i <= j <= |ps|
    ensures HoldingsStay(ws[i].0, ws[j].0)
    decreases j
  {
    hide IsInterleaving, HoldingsStay;
    PiecesBetween(ws, ps);
    if i == j {
      StayIsReflexive(ws[i].0);
    } else {
      HoldingsStayAlways(ws, ps, i, j - 1);
      PieceKeepsHoldings(ws, ps, j - 1);
      StayIsTransitive(ws[i].0, ws[j - 1].0, ws[j].0);
    }
  }

  lemma StayIsReflexive(w: World)
    ensures HoldingsStay(w, w)
  {
  }

  lemma PieceKeepsHoldings(ws: seq<(World, Db)>, ps: seq<Piece>, i: nat)
    requires IsInterleaving(ws, ps) && i < |ps|
    ensures HoldingsStay(ws[i].0, ws[i + 1].0)
  {
    var w, p := ws[i].0, ps[i];
    assert ws[i + 1] == Perform(w, ws[i].1, p);
    hide IsInterleaving, HoldingsStay, Step, Disciplined;
    if p.Script? {
      ScriptKeepsHoldings(w, p.event);
    } else {
      StayIsReflexive(w);
    }
  }

  lemma OwnSeatsNonempty(w: World, hold: HoldId, keys: seq<SeatKey>)
    requires OwnSeats(w, hold, keys) && w.holdings[hold].seats != {}
    ensures keys != []
  {
    var k :| k in w.holdings[hold].seats;
    assert k in ToSet(keys);
  }

  /**
   A release, by its owner or by the reaper, whose row was read at an earlier point of the run keeps the
   agreement if and only if its hold is still open when the script runs.
   */
  lemma LateReleaseIsExact(ws: seq<(World, Db)>, ps: seq<Piece>, i: nat, j: nat, hold: HoldId)
    requires IsInterleaving(ws, ps) && i <= j <= |ps|
    requires Agree(ws[i].0, ws[i].1) && Agree(ws[j].0, ws[j].1) && hold in ws[i].1.rows
    ensures var row := ws[i].1.rows[hold];
            Agree(Step(ws[j].0, Release(hold, row.user, row.seats)), ws[j].1) <==> InPhase(ws[j].0, hold, Live)
  {
    var w, row := ws[j].0, ws[i].1.rows[hold];
    var e := Release(hold, row.user, row.seats);
    HoldingsStayAlways(ws, ps, i, j);
    assert OwnSeats(w, hold, row.seats);
    assert SeatsAgree(w) && w.holdings[hold].seats != {};
    OwnSeatsNonempty(w, hold, row.seats);
    OwnSeatsCover(w, hold, row.seats);
    hide Agree, IsInterleaving, HoldingsStay, Step, Covers, OwnSeats, SeatsAgree;
    ScriptIsExact(w, ws[j].1, e);
  }

  /**
   Two releases that read the row of one open hold before either ran: the first keeps the agreement,
   the second frees no seat and counts all the hold's seats as available once more.
   */
  lemma ReadTogetherReleasedTwice(w: World, db: Db, hold: HoldId)
    requires Agree(w, db) && hold in db.rows && InPhase(w, hold, Live)
    ensures var row := db.rows[hold];
            var e := Release(hold, row.user, row.seats);
            var w1 := Step(w, e);
            var w2 := Step(w1, e);
            && Consistent(w1) && !Consistent(w2) && w2.store.seats == w1.store.seats
            && Read(w2.store.inv, Available) == Read(w1.store.inv, Available) + |w.holdings[hold].seats|
  {
    var row := db.rows[hold];
    var e := Release(hold, row.user, row.seats);
    AgreedRow(w, db, hold);
    hide Agree, Consistent, Step, Covers, OwnSeats, SeatsAgree, GiveBack;
    DisciplineIsExact(w, e);
    ReleaseIsGiveBack(w, e);
    var w1 := Step(w, e);
    GivenBackIsReturned(w, hold, row.user, row.seats);
    DisciplineIsExact(w1, e);
    ReleaseIsGiveBack(w1, e);
    SecondRelease(w1, hold, row.user, row.seats);
  }

  lemma AgreedRow(w: World, db: Db, hold: HoldId)
    requires Agree(w, db) && hold in db.rows
    ensures var keys := db.rows[hold].seats;
            && hold in w.holdings && Consistent(w) && keys != [] && |keys| == |w.holdings[hold].seats|
            && (InPhase(w, hold, Live) ==> Covers(w, hold, keys))
  {
    var keys := db.rows[hold].seats;
    assert SeatsAgree(w) && OwnSeats(w, hold, keys) && w.holdings[hold].seats != {};
    OwnSeatsNonempty(w, hold, keys);
    DistinctCardinality(keys);
    hide Structure, Counters, RowsName, OrdersAgree, SeatsAgree;
    OwnSeatsCover(w, hold, keys);
  }

  lemma GivenBackIsReturned(w: World, hold: HoldId, user: UserId, keys: seq<SeatKey>)
    requires hold in w.holdings
    ensures InPhase(GiveBack(w, hold, user, keys), hold, Returned)
  {
  }

  lemma SecondRelease(w: World, hold: HoldId, user: UserId, keys: seq<SeatKey>)
    requires Consistent(w) && InPhase(w, hold, Returned)
    ensures var t := GiveBack(w, hold, user, keys);
            t.store.seats == w.store.seats && Read(t.store.inv, Available) == Read(w.store.inv, Available) + |keys|
  {
    ReleaseOfNone(w, hold, user, keys);
    GiveBackCounters(w, hold, user, keys);
    hide Structure, GiveBack, With, LostIn;
  }
}
