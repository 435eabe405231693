/**
 The booking service's handlers and its reaper: which script calls they make, with which keys, and
 what they write to the reservation and order tables. Each handler runs as one step.
 */
module Booking {
  import opened Collections
  import opened Redis
  import opened Scripts
  import opened Protocol

  datatype IdempotencyKey = IdempotencyKey(id: string)

  /** A row of the reservations table, which mirrors a hold. */
  datatype Row = Row(user: UserId, seats: seq<SeatKey>, expiresAt: int)

  datatype OrderRow = OrderRow(order: OrderId, hold: HoldId, seats: seq<SeatKey>)

  datatype Db = Db(rows: map<HoldId, Row>, orders: map<(IdempotencyKey, UserId), OrderRow>)

  datatype Request =
    | HoldRequest(user: UserId, idem: IdempotencyKey, seats: seq<SeatKey>, hold: HoldId, expiresAt: int, max: int)
    | CommitRequest(user: UserId, idem: IdempotencyKey, hold: HoldId, seats: seq<SeatKey>, order: OrderId, soldAt: int)
    | ReleaseRequest(caller: Option<UserId>, hold: HoldId)

  datatype Response =
    | Idempotent(order: OrderId)
    | BadRequest
    | NotFound
    | Forbidden
    | Conflict(error: Error)
    | HoldCreated(hold: HoldId)
    | Paid(order: OrderId)
    | ReleaseDone

  // ---- Tables

  /** A client's seat ids as the service reads them back: the ones that parse, in canonical form. */
  function Mirror(parse: SeatKey -> Option<SeatKey>, seats: seq<SeatKey>): seq<SeatKey> {
    if seats == [] then []
    else
      var front := Mirror(parse, seats[..|seats| - 1]);
      match parse(seats[|seats| - 1])
      case Some(k) => front + [k]
      case None => front
  }

  /** INSERT ... ON CONFLICT (hold_id) DO NOTHING. */
  function InsertRow(db: Db, hold: HoldId, row: Row): Db {
    if hold in db.rows then db else db.(rows := db.rows[hold := row])
  }

  predicate Ordered(db: Db, hold: HoldId) {
    exists key :: key in db.orders && db.orders[key].hold == hold
  }

  /** DELETE, which the orders' foreign key refuses for a hold that has an order. */
  function DeleteRow(db: Db, hold: HoldId): Db {
    if Ordered(db, hold) then db else db.(rows := db.rows - {hold})
  }

  function InsertOrder(db: Db, key: (IdempotencyKey, UserId), row: OrderRow): Db {
    if key in db.orders then db else db.(orders := db.orders[key := row])
  }

  // ---- What a handler asks of Redis, and what it does with the answer

  /** The seats a commit is about: the client's, or else the reservation's. */
  function CommitSeats(db: Db, r: Request): seq<SeatKey>
    requires r.CommitRequest?
  {
    if r.seats == [] && r.hold in db.rows then db.rows[r.hold].seats else r.seats
  }

  /** Either the script call a request leads to or the response without one. */
  datatype Plan = Ask(event: Event) | Answer(response: Response)

  function PlanOf(db: Db, r: Request): Plan {
    match r
    case HoldRequest(user, idem, seats, hold, expiresAt, max) =>
      if (idem, user) in db.orders then Answer(Idempotent(db.orders[(idem, user)].order))
      else if |seats| == 0 || |seats| > max then Answer(BadRequest)
      else Ask(Hold(user, hold, seats, expiresAt, max))
    case CommitRequest(user, idem, hold, _, order, soldAt) =>
      if (idem, user) in db.orders then Answer(Idempotent(db.orders[(idem, user)].order))
      else if CommitSeats(db, r) == [] then Answer(BadRequest)
      else if hold !in db.rows then Answer(NotFound)
      else Ask(Commit(CommitKind.Booking, hold, user, CommitSeats(db, r), order, soldAt))
    case ReleaseRequest(caller, hold) =>
      if hold !in db.rows then Answer(NotFound)
      else if caller.Some? && caller.value != db.rows[hold].user then Answer(Forbidden)
      else Ask(Release(hold, db.rows[hold].user, db.rows[hold].seats))
  }

  function Finish(parse: SeatKey -> Option<SeatKey>, db: Db, r: Request, reply: Reply): (Db, Response) {
    if reply.Rejected? then (db, Conflict(reply.error))
    else
      match r
      case HoldRequest(user, _, seats, hold, expiresAt, _) =>
        (InsertRow(db, hold, Row(user, Mirror(parse, seats), expiresAt)), HoldCreated(hold))
      case CommitRequest(user, idem, hold, _, order, _) =>
        (InsertOrder(db, (idem, user), OrderRow(order, hold, Mirror(parse, CommitSeats(db, r)))), Paid(order))
      case ReleaseRequest(_, hold) => (DeleteRow(db, hold), ReleaseDone)
  }

  function Serve(parse: SeatKey -> Option<SeatKey>, s: Store, db: Db, r: Request): (Store, Db, Response) {
    match PlanOf(db, r)
    case Answer(response) => (s, db, response)
    case Ask(event) =>
      var (t, reply) := Apply(s, event);
      var (d, response) := Finish(parse, db, r, reply);
      (t, d, response)
  }

  // ---- The reaper

  /** Any at most `limit` expired rows, each once, and all of them when there are fewer. */
  ghost predicate ExpiredBatch(rows: map<HoldId, Row>, now: int, limit: nat, batch: seq<HoldId>) {
    && Distinct(batch) && |batch| <= limit
    && (forall h :: h in batch ==> h in rows && rows[h].expiresAt < now)
    && (|batch| < limit ==> forall h :: h in rows && rows[h].expiresAt < now ==> h in batch)
  }

  /** The store and tables after the reaper released the first `n` rows of its batch. */
  function Swept(s: Store, db: Db, rows: map<HoldId, Row>, batch: seq<HoldId>, n: nat): (Store, Db)
    requires n <= |batch| && forall h :: h in batch ==> h in rows
  {
    if n == 0 then (s, db)
    else
      var (t, d) := Swept(s, db, rows, batch, n - 1);
      var h := batch[n - 1];
      (ReleaseScript(t, h, rows[h].user, rows[h].seats).0, DeleteRow(d, h))
  }

  class BookingService {
    const redis: RedisServer
    const parse: SeatKey -> Option<SeatKey>
    var rows: map<HoldId, Row>
    var orders: map<(IdempotencyKey, UserId), OrderRow>

    constructor (redis: RedisServer, parse: SeatKey -> Option<SeatKey>)
      ensures this.redis == redis && this.parse == parse && Tables() == Db(map[], map[])
    {
      this.redis, this.parse := redis, parse;
      rows, orders := map[], map[];
    }

    ghost function Tables(): Db
      reads this
    {
      Db(rows, orders)
    }

    method ParseSeats(seats: seq<SeatKey>) returns (parsed: seq<SeatKey>)
      ensures parsed == Mirror(parse, seats)
    {
      parsed := [];
      var i := 0;
      while i < |seats|
        invariant 0 <= i <= |seats|
        invariant parsed == Mirror(parse, seats[..i])
      {
        var p := parse(seats[i]);
        assert seats[..i + 1][..i] == seats[..i];
        if p.Some? {
          parsed := parsed + [p.value];
        }
        i := i + 1;
      }
      assert seats[..i] == seats;
    }

    method HandleHold(r: Request) returns (response: Response)
      requires r.HoldRequest?
      modifies this, redis
      ensures (redis.View(), Tables(), response) == Serve(parse, old(redis.View()), old(Tables()), r)
    {
      if (r.idem, r.user) in orders {
        return Idempotent(orders[(r.idem, r.user)].order);
      }
      if |r.seats| == 0 || |r.seats| > r.max {
        return BadRequest;
      }
      var reply := redis.Hold(r.user, r.hold, r.seats, r.expiresAt, r.max);
      if reply.Rejected? {
        return Conflict(reply.error);
      }
      var seats := ParseSeats(r.seats);
      if r.hold !in rows {
        rows := rows[r.hold := Row(r.user, seats, r.expiresAt)];
      }
      return HoldCreated(r.hold);
    }

    method HandleCommit(r: Request) returns (response: Response)
      requires r.CommitRequest?
      modifies this, redis
      ensures (redis.View(), Tables(), response) == Serve(parse, old(redis.View()), old(Tables()), r)
    {
      if (r.idem, r.user) in orders {
        return Idempotent(orders[(r.idem, r.user)].order);
      }
      var seats := r.seats;
      if |seats| == 0 && r.hold in rows {
        seats := rows[r.hold].seats;
      }
      if |seats| == 0 {
        return BadRequest;
      }
      if r.hold !in rows {
        return NotFound;
      }
      var reply := redis.Commit(r.hold, r.user, seats, r.order, r.soldAt);
      if reply.Rejected? {
        return Conflict(reply.error);
      }
      var parsed := ParseSeats(seats);
      if (r.idem, r.user) !in orders {
        orders := orders[(r.idem, r.user) := OrderRow(r.order, r.hold, parsed)];
      }
      return Paid(r.order);
    }

    method DeleteReservation(hold: HoldId)
      modifies this`rows
      ensures Tables() == DeleteRow(old(Tables()), hold)
    {
      if !exists key :: key in orders && orders[key].hold == hold {
        rows := rows - {hold};
      }
    }

    method HandleRelease(r: Request) returns (response: Response)
      requires r.ReleaseRequest?
      modifies this, redis
      ensures (redis.View(), Tables(), response) == Serve(parse, old(redis.View()), old(Tables()), r)
    {
      if r.hold !in rows {
        return NotFound;
      }
      var res := rows[r.hold];
      if r.caller.Some? && r.caller.value != res.user {
        return Forbidden;
      }
      var reply := redis.Release(r.hold, res.user, res.seats);
      DeleteReservation(r.hold);
      return ReleaseDone;
    }

    /** SELECT ... WHERE expires_at < now LIMIT limit, in any order. */
    method ExpiredReservations(now: int, limit: nat) returns (batch: seq<HoldId>)
      ensures ExpiredBatch(rows, now, limit, batch)
    {
      batch := [];
      var left := set h | h in rows && rows[h].expiresAt < now;
      while left != {} && |batch| < limit
        invariant Distinct(batch) && |batch| <= limit
        invariant forall h :: h in batch ==> h in rows && rows[h].expiresAt < now && h !in left
        invariant forall h :: h in rows && rows[h].expiresAt < now ==> h in batch || h in left
        invariant forall h :: h in left ==> h in rows && rows[h].expiresAt < now
        decreases left
      {
        var h :| h in left;
        batch := batch + [h];
        left := left - {h};
      }
    }

    method ReleaseRow(hold: HoldId, row: Row)
      modifies this`rows, redis
      ensures redis.View() == ReleaseScript(old(redis.View()), hold, row.user, row.seats).0
      ensures Tables() == DeleteRow(old(Tables()), hold)
    {
      var reply := redis.Release(hold, row.user, row.seats);
      DeleteReservation(hold);
    }

    method SweepOnce(now: int, limit: nat) returns (ghost batch: seq<HoldId>)
      modifies this, redis
      ensures ExpiredBatch(old(rows), now, limit, batch)
      ensures (redis.View(), Tables()) == Swept(old(redis.View()), old(Tables()), old(rows), batch, |batch|)
    {
      var expired := ExpiredReservations(now, limit);
      batch := expired;
      var found := rows;
      hide ReleaseScript, DeleteRow;
      var i := 0;
      while i < |expired|
        invariant 0 <= i <= |expired|
        invariant (redis.View(), Tables()) == Swept(old(redis.View()), old(Tables()), found, expired, i)
      {
        ReleaseRow(expired[i], found[expired[i]]);
        i := i + 1;
      }
    }
  }
}
