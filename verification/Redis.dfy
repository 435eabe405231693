/**
 The Redis keyspace of one event and one ticket category, and what each Lua script does to it.

 Every script runs atomically, so a script is a function from one keyspace to the next one and
 a reply. The imperative scripts themselves are in Scripts.dfy.
 */
module Redis {
  import opened Collections

  datatype SeatKey = SeatKey(name: string)
  datatype HoldId = HoldId(id: string)
  datatype UserId = UserId(id: string)
  datatype OrderId = OrderId(id: string)

  datatype Status = AVAILABLE | HELD | SOLD

  /** A seat hash. `volatile` says that the key carries a TTL and may disappear at any moment. */
  datatype Seat = Seat(
    status: Status,
    heldBy: Option<UserId>,
    holdId: Option<HoldId>,
    expiresAt: Option<int>,
    soldAt: Option<int>,
    soldBy: Option<UserId>,
    version: int,
    volatile: bool)

  /** The counters of the inventory hash. */
  datatype Counter = Available | Held | Sold | Quota

  datatype HoldRecord = HoldRecord(user: UserId, seats: seq<SeatKey>, expiresAt: int)

  datatype Store = Store(
    inv: map<Counter, int>,
    seats: map<SeatKey, Seat>,
    limits: map<UserId, int>,
    holds: map<HoldId, HoldRecord>,
    orderOfHold: map<HoldId, OrderId>,
    holdOfOrder: map<OrderId, HoldId>)

  datatype Error =
    | InvNotFound
    | SoldOut
    | LimitExceeded
    | SeatTaken(key: SeatKey)
    | HoldInvalid(key: SeatKey, seen: Option<Status>)
    | HoldIdRequired
    | UserIdRequired
    | NoSeats
    | HoldNotFound
    | SeatNotHeld(key: SeatKey, seen: Option<Status>)
    | SeatAlreadySold(key: SeatKey)
    | HoldMismatch(key: SeatKey)
    | UserMismatch(key: SeatKey)

  datatype Reply =
    | Granted(hold: HoldId)
    | Released
    | Committed(order: OrderId)
    | AlreadyCommitted(order: OrderId)
    | Rejected(error: Error)
    | Silent

  // ---- Redis primitives

  /** HGET of a counter, read as a number with a default of 0. */
  function Read(inv: map<Counter, int>, c: Counter): int {
    if c in inv then inv[c] else 0
  }

  /** HINCRBY, which creates a missing field. */
  function IncrBy(inv: map<Counter, int>, c: Counter, delta: int): map<Counter, int> {
    inv[c := Read(inv, c) + delta]
  }

  function Limit(limits: map<UserId, int>, user: UserId): int {
    if user in limits then limits[user] else 0
  }

  function StatusOf(seats: map<SeatKey, Seat>, k: SeatKey): Option<Status> {
    if k in seats then Some(seats[k].status) else None
  }

  // ---- HOLD

  predicate IsAvailable(seats: map<SeatKey, Seat>, k: SeatKey) {
    StatusOf(seats, k) == Some(AVAILABLE)
  }

  predicate AllAvailable(seats: map<SeatKey, Seat>, keys: seq<SeatKey>) {
    forall k :: k in keys ==> IsAvailable(seats, k)
  }

  /** The first key, from position `i` on, whose seat is not AVAILABLE. */
  function FirstTaken(seats: map<SeatKey, Seat>, keys: seq<SeatKey>, i: nat): SeatKey
    requires i <= |keys| && exists j :: i <= j < |keys| && !IsAvailable(seats, keys[j])
    decreases |keys| - i
  {
    if !IsAvailable(seats, keys[i]) then keys[i] else FirstTaken(seats, keys, i + 1)
  }

  function HeldSeat(seat: Seat, user: UserId, hold: HoldId, expiresAt: int): Seat {
    seat.(status := HELD, heldBy := Some(user), holdId := Some(hold), expiresAt := Some(expiresAt), volatile := true)
  }

  function HoldSeats(seats: map<SeatKey, Seat>, keys: seq<SeatKey>, user: UserId, hold: HoldId, expiresAt: int)
    : map<SeatKey, Seat>
  {
    map k | k in seats :: if k in keys then HeldSeat(seats[k], user, hold, expiresAt) else seats[k]
  }

  function HoldScript(s: Store, user: UserId, hold: HoldId, keys: seq<SeatKey>, expiresAt: int, max: int)
    : (Store, Reply)
  {
    var need := |keys|;
    if Available !in s.inv then (s, Rejected(InvNotFound))
    else if s.inv[Available] < need then (s, Rejected(SoldOut))
    else if Limit(s.limits, user) + need > max then (s, Rejected(LimitExceeded))
    else if !AllAvailable(s.seats, keys) then (s, Rejected(SeatTaken(FirstTaken(s.seats, keys, 0))))
    else
      (s.(seats := HoldSeats(s.seats, keys, user, hold, expiresAt),
          inv := IncrBy(IncrBy(s.inv, Available, -need), Held, need),
          limits := s.limits[user := Limit(s.limits, user) + need],
          holds := s.holds[hold := HoldRecord(user, keys, expiresAt)]),
       Granted(hold))
  }

  // ---- RELEASE

  function FreedSeat(seat: Seat): Seat {
    seat.(status := AVAILABLE, heldBy := None, holdId := None, expiresAt := None, volatile := false)
  }

  function FreeSeats(seats: map<SeatKey, Seat>, keys: seq<SeatKey>, hold: HoldId): map<SeatKey, Seat> {
    map k | k in seats :: if k in keys && seats[k].holdId == Some(hold) then FreedSeat(seats[k]) else seats[k]
  }

  function ReleaseScript(s: Store, hold: HoldId, user: UserId, keys: seq<SeatKey>): (Store, Reply) {
    var need := |keys|;
    (s.(seats := FreeSeats(s.seats, keys, hold),
        inv := IncrBy(IncrBy(s.inv, Available, need), Held, -need),
        limits := s.limits[user := Limit(s.limits, user) - need],
        holds := s.holds - {hold}),
     Released)
  }

  // ---- COMMIT, as the booking service runs it

  /** The seat is HELD or SOLD in the name of this hold and this user. */
  predicate Claimable(seats: map<SeatKey, Seat>, k: SeatKey, hold: HoldId, user: UserId) {
    && k in seats
    && seats[k].status != AVAILABLE
    && seats[k].holdId == Some(hold)
    && seats[k].heldBy == Some(user)
  }

  predicate AllClaimable(seats: map<SeatKey, Seat>, keys: seq<SeatKey>, hold: HoldId, user: UserId) {
    forall k :: k in keys ==> Claimable(seats, k, hold, user)
  }

  function FirstInvalid(seats: map<SeatKey, Seat>, keys: seq<SeatKey>, hold: HoldId, user: UserId, i: nat): SeatKey
    requires i <= |keys| && exists j :: i <= j < |keys| && !Claimable(seats, keys[j], hold, user)
    decreases |keys| - i
  {
    if !Claimable(seats, keys[i], hold, user) then keys[i] else FirstInvalid(seats, keys, hold, user, i + 1)
  }

  function SoldSeat(seat: Seat, soldAt: int): Seat {
    seat.(status := SOLD, soldAt := Some(soldAt), volatile := false)
  }

  function SellSeats(seats: map<SeatKey, Seat>, keys: seq<SeatKey>, soldAt: int): map<SeatKey, Seat> {
    map k | k in seats :: if k in keys && seats[k].status == HELD then SoldSeat(seats[k], soldAt) else seats[k]
  }

  function CommitScript(s: Store, hold: HoldId, user: UserId, keys: seq<SeatKey>, order: OrderId, soldAt: int)
    : (Store, Reply)
  {
    var need := |keys|;
    if hold in s.orderOfHold then (s, AlreadyCommitted(s.orderOfHold[hold]))
    else if !AllClaimable(s.seats, keys, hold, user) then
      var k := FirstInvalid(s.seats, keys, hold, user, 0);
      (s, Rejected(HoldInvalid(k, StatusOf(s.seats, k))))
    else
      (s.(seats := SellSeats(s.seats, keys, soldAt),
          inv := IncrBy(IncrBy(s.inv, Held, -need), Sold, need),
          orderOfHold := s.orderOfHold[hold := order],
          holdOfOrder := s.holdOfOrder[order := hold],
          holds := s.holds - {hold}),
       Committed(order))
  }

  // ---- COMMIT, the standalone script

  /** What the validation loop makes of one seat, `sold` of the earlier ones being SOLD already. */
  function SeatError(seats: map<SeatKey, Seat>, k: SeatKey, hold: HoldId, user: UserId, holdExists: bool, sold: nat)
    : (r: Option<Error>)
    ensures r == None <==> Claimable(seats, k, hold, user)
  {
    match StatusOf(seats, k)
    case Some(SOLD) =>
      if seats[k].holdId == Some(hold) && seats[k].heldBy == Some(user) then None else Some(SeatAlreadySold(k))
    case Some(HELD) =>
      if seats[k].holdId != Some(hold) then Some(HoldMismatch(k))
      else if seats[k].heldBy != Some(user) then Some(UserMismatch(k))
      else None
    case _ =>
      if !holdExists && sold == 0 then Some(HoldNotFound) else Some(SeatNotHeld(k, StatusOf(seats, k)))
  }

  /** The error the validation loop stops with, from position `i` on. */
  function ScanError(seats: map<SeatKey, Seat>, keys: seq<SeatKey>, hold: HoldId, user: UserId, holdExists: bool,
      i: nat, sold: nat)
    : Error
    requires i <= |keys| && exists j :: i <= j < |keys| && !Claimable(seats, keys[j], hold, user)
    decreases |keys| - i
  {
    match SeatError(seats, keys[i], hold, user, holdExists, sold)
    case Some(e) => e
    case None =>
      var more := if seats[keys[i]].status == SOLD then sold + 1 else sold;
      ScanError(seats, keys, hold, user, holdExists, i + 1, more)
  }

  predicate AllSold(seats: map<SeatKey, Seat>, keys: seq<SeatKey>) {
    forall k :: k in keys ==> StatusOf(seats, k) == Some(SOLD)
  }

  function SoldSeatStandalone(seat: Seat, user: UserId, soldAt: int): Seat {
    seat.(status := SOLD, soldAt := Some(soldAt), soldBy := Some(user), expiresAt := None, volatile := false,
        version := seat.version + 1)
  }

  function SellSeatsStandalone(seats: map<SeatKey, Seat>, keys: seq<SeatKey>, user: UserId, soldAt: int)
    : map<SeatKey, Seat>
  {
    map k | k in seats ::
      if k in keys && seats[k].status == HELD then SoldSeatStandalone(seats[k], user, soldAt) else seats[k]
  }

  /** Moves `need` from held to sold, but takes no more out of held than it has. */
  function ClampedMove(inv: map<Counter, int>, need: nat): map<Counter, int> {
    var held := Read(inv, Held);
    var decr := if held < need then held else need;
    IncrBy(if decr > 0 then IncrBy(inv, Held, -decr) else inv, Sold, need)
  }

  function Record(s: Store, hold: HoldId, order: OrderId): Store {
    s.(orderOfHold := s.orderOfHold[hold := order], holdOfOrder := s.holdOfOrder[order := hold])
  }

  /** The answers given before any seat is looked at: missing arguments and the ledger's fast path. */
  function FastPath(s: Store, hold: HoldId, user: UserId, keys: seq<SeatKey>, order: OrderId): Option<Reply> {
    if hold.id == "" then Some(Rejected(HoldIdRequired))
    else if user.id == "" then Some(Rejected(UserIdRequired))
    else if |keys| == 0 then Some(Rejected(NoSeats))
    else if s.inv == map[] then Some(Rejected(InvNotFound))
    else if order.id != "" && hold in s.orderOfHold then Some(AlreadyCommitted(s.orderOfHold[hold]))
    else if order.id != "" && order in s.holdOfOrder && s.holdOfOrder[order] == hold then Some(AlreadyCommitted(order))
    else None
  }

  function SlowPath(s: Store, hold: HoldId, user: UserId, keys: seq<SeatKey>, order: OrderId, soldAt: int)
    : (Store, Reply)
  {
    var need := |keys|;
    if !AllClaimable(s.seats, keys, hold, user) then
      (s, Rejected(ScanError(s.seats, keys, hold, user, hold in s.holds, 0, 0)))
    else if AllSold(s.seats, keys) then
      (if order.id != "" then Record(s, hold, order) else s, AlreadyCommitted(order))
    else
      var t := s.(seats := SellSeatsStandalone(s.seats, keys, user, soldAt),
                  inv := ClampedMove(s.inv, need),
                  holds := s.holds - {hold});
      (if order.id != "" then Record(t, hold, order) else t, Committed(order))
  }

  function CommitStandalone(s: Store, hold: HoldId, user: UserId, keys: seq<SeatKey>, order: OrderId, soldAt: int)
    : (Store, Reply)
  {
    match FastPath(s, hold, user, keys, order)
    case Some(reply) => (s, reply)
    case None => SlowPath(s, hold, user, keys, order, soldAt)
  }
}
