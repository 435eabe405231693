/**
 What the booking service answers and what it leaves in store and tables, request by request: who may
 release a hold, which seats a commit is about, which rows a sweep takes, and that orders keep their rows.
 */
module Answers {
  import opened Collections
  import opened Redis
  import opened Scripts
  import opened Protocol
  import opened Worlds
  import opened Effects
  import opened Booking
  import opened Service
  import opened Interleaving

  // ---- Release requests

  /** Only the row's user, or a caller who gives no user, releases a hold; to everybody else it is forbidden. */
  lemma ReleaseAnswers(parse: SeatKey -> Option<SeatKey>, s: Store, db: Db, r: Request)
    requires r.ReleaseRequest?
    ensures var (t, d, response) := Serve(parse, s, db, r);
            var mayRelease := r.hold in db.rows && (r.caller == None || r.caller == Some(db.rows[r.hold].user));
            && (response == NotFound <==> r.hold !in db.rows)
            && (response == Forbidden <==> r.hold in db.rows && !mayRelease)
            && (response == ReleaseDone <==> mayRelease)
            && (!mayRelease ==> t == s && d == db)
  {
    hide DeleteRow, FreeSeats;
  }

  /** A release frees the row's seats that carry the hold, for the row's user, and drops the row if it has no order. */
  lemma ReleaseRequestEffect(parse: SeatKey -> Option<SeatKey>, s: Store, db: Db, r: Request)
    requires r.ReleaseRequest? && r.hold in db.rows && (r.caller == None || r.caller == Some(db.rows[r.hold].user))
    ensures var (t, d, _) := Serve(parse, s, db, r);
            var row := db.rows[r.hold];
            && t == ReleaseScript(s, r.hold, row.user, row.seats).0
            && (forall k :: k in s.seats && k in row.seats && s.seats[k].holdId == Some(r.hold) ==>
                  t.seats[k].status == AVAILABLE && t.seats[k].holdId == None)
            && (forall u :: Limit(t.limits, u) == Limit(s.limits, u) - if u == row.user then |row.seats| else 0)
            && Read(t.inv, Held) == Read(s.inv, Held) - |row.seats|
            && (r.hold in d.rows <==> exists key :: key in db.orders && db.orders[key].hold == r.hold)
            && d.rows - {r.hold} == db.rows - {r.hold} && d.orders == db.orders
  {
    hide ReleaseScript, Limit, Read;
    var row := db.rows[r.hold];
    ReleaseEffect(s, r.hold, row.user, row.seats);
    assert PlanOf(db, r) == Ask(Release(r.hold, row.user, row.seats));
    if Ordered(db, r.hold) {
      var key :| key in db.orders && db.orders[key].hold == r.hold;
    }
  }

  /** Whoever changes store or tables by a release request is the row's user or gives no user. */
  lemma ReleaseNeedsOwner(parse: SeatKey -> Option<SeatKey>, s: Store, db: Db, r: Request)
    requires r.ReleaseRequest?
    requires var (t, d, _) := Serve(parse, s, db, r); t != s || d != db
    ensures r.hold in db.rows && (r.caller == None || r.caller == Some(db.rows[r.hold].user))
  {
    ReleaseAnswers(parse, s, db, r);
    hide Serve;
  }

  // ---- Hold requests

  /** Which answer a hold request gets, and that only a granted one changes anything. */
  lemma HoldRequestAnswers(parse: SeatKey -> Option<SeatKey>, s: Store, db: Db, r: Request)
    requires r.HoldRequest?
    ensures var (t, d, response) := Serve(parse, s, db, r);
            var n := |r.seats|;
            var asked := (r.idem, r.user) !in db.orders && 0 < n <= r.max;
            var fits := Available in s.inv && s.inv[Available] >= n && Limit(s.limits, r.user) + n <= r.max;
            && (forall o :: response == Idempotent(o) <==>
                  (r.idem, r.user) in db.orders && db.orders[(r.idem, r.user)].order == o)
            && (response == BadRequest <==> (r.idem, r.user) !in db.orders && (n == 0 || n > r.max))
            && (response == HoldCreated(r.hold) <==>
                  asked && fits && forall i :: 0 <= i < n ==> IsAvailable(s.seats, r.seats[i]))
            && (response == Conflict(InvNotFound) <==> asked && Available !in s.inv)
            && (response == Conflict(SoldOut) <==> asked && Available in s.inv && s.inv[Available] < n)
            && (response == Conflict(LimitExceeded) <==>
                  asked && Available in s.inv && s.inv[Available] >= n && Limit(s.limits, r.user) + n > r.max)
            && (forall k :: response == Conflict(SeatTaken(k)) <==>
                  asked && fits && IsFirstTaken(s.seats, r.seats, 0, k))
            && (response != HoldCreated(r.hold) ==> t == s && d == db)
  {
    hide HoldScript, IsAvailable, IsFirstTaken, Mirror, Limit, InsertRow;
    HoldAnswers(s, r.user, r.hold, r.seats, r.expiresAt, r.max);
  }

  /** A granted hold request stores what is mirrored of its seats under the hold, unless the hold has a row. */
  lemma HoldRequestEffect(parse: SeatKey -> Option<SeatKey>, s: Store, db: Db, r: Request)
    requires r.HoldRequest? && Serve(parse, s, db, r).2 == HoldCreated(r.hold)
    ensures var (t, d, _) := Serve(parse, s, db, r);
            && HoldScript(s, r.user, r.hold, r.seats, r.expiresAt, r.max) == (t, Granted(r.hold))
            && d.orders == db.orders && r.hold in d.rows && d.rows - {r.hold} == db.rows - {r.hold}
            && d.rows[r.hold] == if r.hold in db.rows then db.rows[r.hold]
                                 else Row(r.user, Mirror(parse, r.seats), r.expiresAt)
  {
    hide HoldScript, Mirror;
    HoldAnswers(s, r.user, r.hold, r.seats, r.expiresAt, r.max);
    var d := Serve(parse, s, db, r).1;
    assert r.hold in db.rows ==> d == db;
  }

  // ---- Commit requests

  /** Which answer a commit request gets: about the client's seats, or the row's when it names none. */
  lemma CommitRequestAnswers(parse: SeatKey -> Option<SeatKey>, s: Store, db: Db, r: Request)
    requires r.CommitRequest?
    ensures var (t, d, response) := Serve(parse, s, db, r);
            var isNew := (r.idem, r.user) !in db.orders;
            var bought := if r.seats == [] && r.hold in db.rows then db.rows[r.hold].seats else r.seats;
            && (forall o :: response == Idempotent(o) <==> !isNew && db.orders[(r.idem, r.user)].order == o)
            && (response == BadRequest <==> isNew && |bought| == 0)
            && (response == NotFound <==> isNew && |bought| > 0 && r.hold !in db.rows)
            && (response == Paid(r.order) <==>
                  isNew && |bought| > 0 && r.hold in db.rows &&
                  (r.hold in s.orderOfHold ||
                   forall i :: 0 <= i < |bought| ==> Claimable(s.seats, bought[i], r.hold, r.user)))
            && (forall j: nat ::
                  isNew && r.hold in db.rows && r.hold !in s.orderOfHold
                  && IsFirstInvalid(s.seats, bought, r.hold, r.user, 0, j) ==>
                    response == Conflict(HoldInvalid(bought[j], StatusOf(s.seats, bought[j]))))
            && (response != Paid(r.order) ==> t == s && d == db)
            && (response == Paid(r.order) ==>
                  && t == CommitScript(s, r.hold, r.user, bought, r.order, r.soldAt).0
                  && d.rows == db.rows
                  && d.orders == db.orders[(r.idem, r.user) := OrderRow(r.order, r.hold, Mirror(parse, bought))])
  {
    hide CommitScript, Mirror;
    var bought := CommitSeats(db, r);
    CommitAnswers(s, r.hold, r.user, bought, r.order, r.soldAt);
    if r.hold in s.orderOfHold {
      var reply := CommitScript(s, r.hold, r.user, bought, r.order, r.soldAt).1;
      assert reply == AlreadyCommitted(s.orderOfHold[r.hold]);
    }
  }

  /** A request without seats is the request for the row's seats. */
  lemma EmptyListMeansRow(parse: SeatKey -> Option<SeatKey>, s: Store, db: Db, r: Request)
    requires r.CommitRequest? && r.seats == [] && r.hold in db.rows
    ensures Serve(parse, s, db, r) == Serve(parse, s, db, r.(seats := db.rows[r.hold].seats))
  {
    hide CommitScript, Mirror;
  }

  // ---- The mirror

  /** Seat ids are read back one by one and in order: a list in two parts is read back in two parts. */
  lemma {:induction false} MirrorOfParts(parse: SeatKey -> Option<SeatKey>, a: seq<SeatKey>, b: seq<SeatKey>)
    ensures Mirror(parse, a + b) == Mirror(parse, a) + Mirror(parse, b)
    ensures |a| == 1 ==> Mirror(parse, a) == (if parse(a[0]).Some? then [parse(a[0]).value] else [])
  {
    if b == [] {
      assert a + b == a;
    } else {
      var n := |b| - 1;
      assert (a + b)[..|a| + n] == a + b[..n];
      MirrorOfParts(parse, a, b[..n]);
    }
  }

  // ---- The reaper

  /** The rows of a sweep's batch go, except those with an order; no other row and no order changes. */
  lemma {:induction false} SweptTables(s: Store, db: Db, rows: map<HoldId, Row>, batch: seq<HoldId>, n: nat)
    requires n <= |batch| && forall h :: h in batch ==> h in rows
    ensures var d := Swept(s, db, rows, batch, n).1;
            && d.orders == db.orders
            && d.rows == map h | h in db.rows && (h !in batch[..n] || Ordered(db, h)) :: db.rows[h]
  {
    hide ReleaseScript;
    if n > 0 {
      SweptTables(s, db, rows, batch, n - 1);
      assert batch[..n] == batch[..n - 1] + [batch[n - 1]];
    }
  }

  /** A sweep leaves every unexpired row, and leaves none of the expired ones behind unless it has an order. */
  lemma SweepTakesExpired(s: Store, db: Db, now: int, limit: nat, batch: seq<HoldId>)
    requires ExpiredBatch(db.rows, now, limit, batch)
    ensures var d := Swept(s, db, db.rows, batch, |batch|).1;
            && d.orders == db.orders
            && (forall h :: h in db.rows && db.rows[h].expiresAt >= now ==> h in d.rows && d.rows[h] == db.rows[h])
            && (|batch| < limit ==> forall h :: h in d.rows && d.rows[h].expiresAt < now ==> Ordered(db, h))
            && d.rows.Keys <= db.rows.Keys && |db.rows.Keys - d.rows.Keys| <= limit
  {
    SweptTables(s, db, db.rows, batch, |batch|);
    assert batch[..|batch|] == batch;
    var d := Swept(s, db, db.rows, batch, |batch|).1;
    DistinctCardinality(batch);
    SubsetCardinality(db.rows.Keys - d.rows.Keys, ToSet(batch));
    hide Swept, Distinct, Ordered;
  }

  /** One of the first `n` rows of the batch names the seat, and the seat carries its hold. */
  ghost predicate SweptSeat(s: Store, rows: map<HoldId, Row>, batch: seq<HoldId>, n: nat, k: SeatKey)
    requires n <= |batch| && forall h :: h in batch ==> h in rows
  {
    k in s.seats && exists i :: 0 <= i < n && k in rows[batch[i]].seats && s.seats[k].holdId == Some(batch[i])
  }

  /** A sweep frees exactly the seats that carry a hold of the batch and that its row names. */
  lemma {:induction false} SweptSeats(s: Store, db: Db, rows: map<HoldId, Row>, batch: seq<HoldId>, n: nat)
    requires n <= |batch| && forall h :: h in batch ==> h in rows
    ensures var t := Swept(s, db, rows, batch, n).0;
            && t.seats.Keys == s.seats.Keys
            && forall k :: k in s.seats ==>
                 if SweptSeat(s, rows, batch, n, k)
                 then t.seats[k].status == AVAILABLE && t.seats[k].heldBy == None && t.seats[k].holdId == None
                      && t.seats[k].expiresAt == None && !t.seats[k].volatile
                 else t.seats[k] == s.seats[k]
  {
    hide ReleaseScript, DeleteRow;
    if n > 0 {
      var (t, d) := Swept(s, db, rows, batch, n - 1);
      var h := batch[n - 1];
      SweptSeats(s, db, rows, batch, n - 1);
      ReleaseEffect(t, h, rows[h].user, rows[h].seats);
      forall k | k in s.seats
        ensures SweptSeat(s, rows, batch, n, k) <==>
                  SweptSeat(s, rows, batch, n - 1, k) || (k in rows[h].seats && s.seats[k].holdId == Some(h))
      {
      }
    }
  }

  /** How many seats of the user the first `n` rows of the batch name. */
  function NamedFor(rows: map<HoldId, Row>, batch: seq<HoldId>, n: nat, user: UserId): nat
    requires n <= |batch| && forall h :: h in batch ==> h in rows
  {
    if n == 0 then 0
    else NamedFor(rows, batch, n - 1, user) + if rows[batch[n - 1]].user == user then |rows[batch[n - 1]].seats| else 0
  }

  /** And gives them back to the limits of the rows' users, and from held to available. */
  lemma {:induction false} SweptLimits(s: Store, db: Db, rows: map<HoldId, Row>, batch: seq<HoldId>, n: nat,
      user: UserId)
    requires n <= |batch| && forall h :: h in batch ==> h in rows
    ensures var t := Swept(s, db, rows, batch, n).0;
            && Limit(t.limits, user) == Limit(s.limits, user) - NamedFor(rows, batch, n, user)
            && Read(t.inv, Available) + Read(t.inv, Held) == Read(s.inv, Available) + Read(s.inv, Held)
            && Read(t.inv, Held) <= Read(s.inv, Held) - NamedFor(rows, batch, n, user)
            && Read(t.inv, Sold) == Read(s.inv, Sold)
  {
    hide ReleaseScript, DeleteRow, Limit, Read;
    if n > 0 {
      var (t, d) := Swept(s, db, rows, batch, n - 1);
      var h := batch[n - 1];
      SweptLimits(s, db, rows, batch, n - 1, user);
      ReleaseEffect(t, h, rows[h].user, rows[h].seats);
    }
  }

  // ---- Orders keep their rows

  /** Every order's hold has a row. */
  ghost predicate ForeignKey(db: Db) {
    forall key :: key in db.orders ==> db.orders[key].hold in db.rows
  }

  lemma KeysButOne(a: map<HoldId, Row>, b: map<HoldId, Row>, hold: HoldId)
    requires a - {hold} == b - {hold}
    ensures forall h :: h != hold ==> (h in a <==> h in b)
  {
    forall h | h != hold
      ensures h in a <==> h in b
    {
      assert h in a - {hold} <==> h in b - {hold};
    }
  }

  lemma RequestKeepsForeignKey(parse: SeatKey -> Option<SeatKey>, w: World, db: Db, r: Request)
    requires ForeignKey(db)
    ensures ForeignKey(ServeWorld(parse, w, db, r).1)
  {
    hide Serve, ServeWorld, HoldScript, ReleaseScript, CommitScript, Claimable, IsAvailable, Mirror, Limit;
    ServeWorldFollowsService(parse, w, db, r);
    match r
    case HoldRequest(_, _, _, _, _, _) =>
      HoldRequestAnswers(parse, w.store, db, r);
      if Serve(parse, w.store, db, r).2 == HoldCreated(r.hold) {
        HoldRequestEffect(parse, w.store, db, r);
        KeysButOne(db.rows, Serve(parse, w.store, db, r).1.rows, r.hold);
      }
    case CommitRequest(_, _, _, _, _, _) => CommitRequestAnswers(parse, w.store, db, r);
    case ReleaseRequest(caller, hold) =>
      ReleaseAnswers(parse, w.store, db, r);
      if hold in db.rows && (caller == None || caller == Some(db.rows[hold].user)) {
        ReleaseRequestEffect(parse, w.store, db, r);
        KeysButOne(db.rows, Serve(parse, w.store, db, r).1.rows, hold);
      }
  }

  /** In every run each order's hold keeps its row: neither a release nor a sweep takes it. */
  lemma {:induction false} ForeignKeyAlways(parse: SeatKey -> Option<SeatKey>, ws: seq<(World, Db)>,
      xs: seq<Happening>, i: nat)
    requires IsRun(parse, ws, xs) && i <= |xs| && ForeignKey(ws[0].1)
    ensures ForeignKey(ws[i].1)
  {
    if i > 0 {
      ForeignKeyAlways(parse, ws, xs, i - 1);
      NextKeepsForeignKey(parse, ws[i - 1].0, ws[i - 1].1, xs[i - 1]);
    }
  }

  /** Nor does any interleaving of pieces, which also leaves every order as it was written. */
  lemma {:induction false} ForeignKeyUnderInterleaving(w: World, db: Db, ps: seq<Piece>)
    requires ForeignKey(db)
    ensures var d := PerformAll(w, db, ps).1;
            ForeignKey(d) && forall key :: key in db.orders ==> key in d.orders && d.orders[key] == db.orders[key]
  {
    hide Step;
    if ps != [] {
      ForeignKeyUnderInterleaving(w, db, ps[..|ps| - 1]);
      var (v, d) := PerformAll(w, db, ps[..|ps| - 1]);
      PieceKeepsForeignKey(v, d, ps[|ps| - 1]);
    }
  }

  lemma PieceKeepsForeignKey(w: World, db: Db, p: Piece)
    requires ForeignKey(db)
    ensures var d := Perform(w, db, p).1;
            ForeignKey(d) && forall key :: key in db.orders ==> key in d.orders && d.orders[key] == db.orders[key]
  {
    hide Step;
  }

  lemma NextKeepsForeignKey(parse: SeatKey -> Option<SeatKey>, w: World, db: Db, x: Happening)
    requires Proper(w, db, x) && ForeignKey(db)
    ensures ForeignKey(Next(parse, w, db, x).1)
  {
    hide ServeWorld, Step, Swept, SweptWorld;
    match x
    case Client(r) => RequestKeepsForeignKey(parse, w, db, r);
    case Reaped(batch) =>
      SweptWorldFollowsSweep(w, db, db.rows, batch, |batch|);
      SweptTables(w.store, db, db.rows, batch, |batch|);
    case Elsewhere(e) =>
  }
}
