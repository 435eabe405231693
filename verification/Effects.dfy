/**
 What each Lua script answers and leaves behind, seat by seat and field by field: which of its tests
 speaks first, which seat it names, and what stays as it was.
 */
module Effects {
  import opened Collections
  import opened Redis

  // ---- The first offending seat

  /** The first of the keys, from position `i` on, whose seat is not AVAILABLE. */
  ghost predicate IsFirstTaken(seats: map<SeatKey, Seat>, keys: seq<SeatKey>, i: nat, k: SeatKey) {
    exists j :: i <= j < |keys| && keys[j] == k && !IsAvailable(seats, k)
      && forall m :: i <= m < j ==> IsAvailable(seats, keys[m])
  }

  /** The first of the keys, from position `i` on, whose seat is not HELD by or SOLD to the hold and user. */
  ghost predicate IsFirstInvalid(seats: map<SeatKey, Seat>, keys: seq<SeatKey>, hold: HoldId, user: UserId, i: nat,
      j: int)
  {
    i <= j < |keys| && !Claimable(seats, keys[j], hold, user)
      && forall m :: i <= m < j ==> Claimable(seats, keys[m], hold, user)
  }

  lemma {:induction false} FirstTakenIsFirst(seats: map<SeatKey, Seat>, keys: seq<SeatKey>, i: nat, j: nat)
    requires i <= j < |keys| && !IsAvailable(seats, keys[j])
    requires forall m :: i <= m < j ==> IsAvailable(seats, keys[m])
    ensures FirstTaken(seats, keys, i) == keys[j]
    decreases j - i
  {
    if i < j {
      FirstTakenIsFirst(seats, keys, i + 1, j);
    }
  }

  lemma {:induction false} FirstInvalidIsFirst(seats: map<SeatKey, Seat>, keys: seq<SeatKey>, hold: HoldId,
      user: UserId, i: nat, j: nat)
    requires IsFirstInvalid(seats, keys, hold, user, i, j)
    ensures FirstInvalid(seats, keys, hold, user, i) == keys[j]
    decreases j - i
  {
    if i < j {
      FirstInvalidIsFirst(seats, keys, hold, user, i + 1, j);
    }
  }

  lemma {:induction false} SomeFirstTaken(seats: map<SeatKey, Seat>, keys: seq<SeatKey>, i: nat) returns (j: nat)
    requires i <= |keys| && exists m :: i <= m < |keys| && !IsAvailable(seats, keys[m])
    ensures i <= j < |keys| && !IsAvailable(seats, keys[j])
    ensures forall m :: i <= m < j ==> IsAvailable(seats, keys[m])
    decreases |keys| - i
  {
    if !IsAvailable(seats, keys[i]) {
      j := i;
    } else {
      j := SomeFirstTaken(seats, keys, i + 1);
    }
  }

  lemma {:induction false} SomeFirstInvalid(seats: map<SeatKey, Seat>, keys: seq<SeatKey>, hold: HoldId, user: UserId,
      i: nat)
    returns (j: nat)
    requires i <= |keys| && exists m :: i <= m < |keys| && !Claimable(seats, keys[m], hold, user)
    ensures IsFirstInvalid(seats, keys, hold, user, i, j)
    decreases |keys| - i
  {
    if !Claimable(seats, keys[i], hold, user) {
      j := i;
    } else {
      j := SomeFirstInvalid(seats, keys, hold, user, i + 1);
    }
  }

  // ---- HOLD

  /** A refused hold changes nothing and says which test failed first; the seat named is the first taken one. */
  lemma HoldAnswers(s: Store, user: UserId, hold: HoldId, keys: seq<SeatKey>, expiresAt: int, max: int)
    ensures var (t, reply) := HoldScript(s, user, hold, keys, expiresAt, max);
            var known := Available in s.inv;
            var enough := known && s.inv[Available] >= |keys|;
            var within := enough && Limit(s.limits, user) + |keys| <= max;
            && (reply == Rejected(InvNotFound) <==> !known)
            && (reply == Rejected(SoldOut) <==> known && !enough)
            && (reply == Rejected(LimitExceeded) <==> enough && !within)
            && (forall k :: reply == Rejected(SeatTaken(k)) <==> within && IsFirstTaken(s.seats, keys, 0, k))
            && (reply == Granted(hold) <==> within && forall i :: 0 <= i < |keys| ==> IsAvailable(s.seats, keys[i]))
            && (reply != Granted(hold) ==> t == s && reply.Rejected?)
  {
    if exists m :: 0 <= m < |keys| && !IsAvailable(s.seats, keys[m]) {
      var j := SomeFirstTaken(s.seats, keys, 0);
      FirstTakenIsFirst(s.seats, keys, 0, j);
      assert !AllAvailable(s.seats, keys);
      forall k | IsFirstTaken(s.seats, keys, 0, k)
        ensures k == keys[j]
      {
        var i :| 0 <= i < |keys| && keys[i] == k && !IsAvailable(s.seats, k)
          && forall m :: 0 <= m < i ==> IsAvailable(s.seats, keys[m]);
        assert i == j;
      }
      assert IsFirstTaken(s.seats, keys, 0, keys[j]);
      assert forall k :: IsFirstTaken(s.seats, keys, 0, k) <==> k == keys[j];
      hide IsAvailable, FirstTaken, HoldSeats, IsFirstTaken, AllAvailable;
    } else {
      assert AllAvailable(s.seats, keys);
      assert forall k :: !IsFirstTaken(s.seats, keys, 0, k);
      hide IsAvailable, HoldSeats, IsFirstTaken, AllAvailable;
    }
  }

  /** A granted hold writes holder, hold and expiry to its seats, counts them and keeps a record; all else stays. */
  lemma HoldEffect(s: Store, user: UserId, hold: HoldId, keys: seq<SeatKey>, expiresAt: int, max: int)
    requires HoldScript(s, user, hold, keys, expiresAt, max).1 == Granted(hold)
    ensures var t := HoldScript(s, user, hold, keys, expiresAt, max).0;
            && t.seats.Keys == s.seats.Keys
            && (forall k :: k in s.seats && k !in keys ==> t.seats[k] == s.seats[k])
            && (forall k :: k in keys ==>
                  k in s.seats &&
                  var a, b := s.seats[k], t.seats[k];
                  && b.status == HELD && b.heldBy == Some(user) && b.holdId == Some(hold)
                  && b.expiresAt == Some(expiresAt) && b.volatile
                  && b.soldAt == a.soldAt && b.soldBy == a.soldBy && b.version == a.version)
            && Read(t.inv, Available) == Read(s.inv, Available) - |keys|
            && Read(t.inv, Held) == Read(s.inv, Held) + |keys|
            && Read(t.inv, Sold) == Read(s.inv, Sold) && Read(t.inv, Quota) == Read(s.inv, Quota)
            && (forall u :: Limit(t.limits, u) == Limit(s.limits, u) + if u == user then |keys| else 0)
            && hold in t.holds && t.holds[hold].user == user && t.holds[hold].seats == keys
            && t.holds[hold].expiresAt == expiresAt
            && t.holds - {hold} == s.holds - {hold}
            && t.orderOfHold == s.orderOfHold && t.holdOfOrder == s.holdOfOrder
  {
    forall k | k in keys
      ensures IsAvailable(s.seats, k)
    {
    }
    hide FirstTaken;
  }

  // ---- RELEASE

  /** A release clears the named seats that carry its hold, and moves counters and limit by the number of names. */
  lemma ReleaseEffect(s: Store, hold: HoldId, user: UserId, keys: seq<SeatKey>)
    ensures var (t, reply) := ReleaseScript(s, hold, user, keys);
            && reply == Released && t.seats.Keys == s.seats.Keys
            && (forall k :: k in s.seats && (k !in keys || s.seats[k].holdId != Some(hold)) ==>
                  t.seats[k] == s.seats[k])
            && (forall k :: k in s.seats && k in keys && s.seats[k].holdId == Some(hold) ==>
                  var a, b := s.seats[k], t.seats[k];
                  && b.status == AVAILABLE && b.heldBy == None && b.holdId == None && b.expiresAt == None && !b.volatile
                  && b.soldAt == a.soldAt && b.soldBy == a.soldBy && b.version == a.version)
            && Read(t.inv, Available) == Read(s.inv, Available) + |keys|
            && Read(t.inv, Held) == Read(s.inv, Held) - |keys|
            && Read(t.inv, Sold) == Read(s.inv, Sold) && Read(t.inv, Quota) == Read(s.inv, Quota)
            && (forall u :: Limit(t.limits, u) == Limit(s.limits, u) - if u == user then |keys| else 0)
            && t.holds == s.holds - {hold} && t.orderOfHold == s.orderOfHold && t.holdOfOrder == s.holdOfOrder
  {
  }

  /** The seat is free and carries no trace of an earlier hold. */
  predicate Clean(seat: Seat) {
    seat.status == AVAILABLE && seat.heldBy == None && seat.holdId == None && seat.expiresAt == None && !seat.volatile
  }

  /** Releasing a hold that was just granted on clean seats undoes it. */
  lemma ReleaseUndoesHold(s: Store, user: UserId, hold: HoldId, keys: seq<SeatKey>, expiresAt: int, max: int)
    requires HoldScript(s, user, hold, keys, expiresAt, max).1 == Granted(hold) && hold !in s.holds
    requires forall k :: k in keys && k in s.seats ==> Clean(s.seats[k])
    ensures var t := ReleaseScript(HoldScript(s, user, hold, keys, expiresAt, max).0, hold, user, keys).0;
            && t.seats == s.seats && t.holds == s.holds
            && (forall c :: Read(t.inv, c) == Read(s.inv, c)) && (forall u :: Limit(t.limits, u) == Limit(s.limits, u))
            && t.orderOfHold == s.orderOfHold && t.holdOfOrder == s.holdOfOrder
  {
    hide HoldScript, ReleaseScript, Read, Limit;
    var h := HoldScript(s, user, hold, keys, expiresAt, max).0;
    var t := ReleaseScript(h, hold, user, keys).0;
    HoldEffect(s, user, hold, keys, expiresAt, max);
    ReleaseEffect(h, hold, user, keys);
    assert t.seats == s.seats by {
      forall k | k in s.seats
        ensures t.seats[k] == s.seats[k]
      {
        if k in keys { assert Clean(s.seats[k]); }
      }
    }
    assert t.holds == s.holds;
    forall c
      ensures Read(t.inv, c) == Read(s.inv, c)
    {
      match c
      case Available =>
      case Held =>
      case Sold =>
      case Quota =>
    }
  }

  // ---- COMMIT, as the booking service runs it

  /** The ledger answers first, then the first seat that is not the hold's; only a sale changes anything. */
  lemma CommitAnswers(s: Store, hold: HoldId, user: UserId, keys: seq<SeatKey>, order: OrderId, soldAt: int)
    ensures var (t, reply) := CommitScript(s, hold, user, keys, order, soldAt);
            var isNew := hold !in s.orderOfHold;
            && (forall o :: reply == AlreadyCommitted(o) <==> !isNew && s.orderOfHold[hold] == o)
            && (reply == Committed(order) <==>
                  isNew && forall i :: 0 <= i < |keys| ==>
                    keys[i] in s.seats &&
                    var a := s.seats[keys[i]];
                    (a.status == HELD || a.status == SOLD) && a.holdId == Some(hold) && a.heldBy == Some(user))
            && (forall j: nat :: isNew && IsFirstInvalid(s.seats, keys, hold, user, 0, j) ==>
                  reply == Rejected(HoldInvalid(keys[j], StatusOf(s.seats, keys[j]))))
            && (reply != Committed(order) ==> t == s && (isNew ==> reply.Rejected?))
  {
    if exists m :: 0 <= m < |keys| && !Claimable(s.seats, keys[m], hold, user) {
      assert !AllClaimable(s.seats, keys, hold, user);
      forall j: nat | IsFirstInvalid(s.seats, keys, hold, user, 0, j)
        ensures FirstInvalid(s.seats, keys, hold, user, 0) == keys[j]
      {
        FirstInvalidIsFirst(s.seats, keys, hold, user, 0, j);
      }
    } else {
      assert AllClaimable(s.seats, keys, hold, user);
    }
    hide FirstInvalid, SellSeats;
  }

  /** A sale stamps the HELD ones of its seats and writes the ledger both ways; hold record and TTLs go. */
  lemma CommitEffect(s: Store, hold: HoldId, user: UserId, keys: seq<SeatKey>, order: OrderId, soldAt: int)
    requires CommitScript(s, hold, user, keys, order, soldAt).1 == Committed(order)
    ensures var t := CommitScript(s, hold, user, keys, order, soldAt).0;
            && t.seats.Keys == s.seats.Keys
            && (forall k :: k in s.seats && (k !in keys || s.seats[k].status != HELD) ==> t.seats[k] == s.seats[k])
            && (forall k :: k in s.seats && k in keys && s.seats[k].status == HELD ==>
                  var a, b := s.seats[k], t.seats[k];
                  && b.status == SOLD && b.soldAt == Some(soldAt) && !b.volatile
                  && b.heldBy == a.heldBy && b.holdId == a.holdId && b.expiresAt == a.expiresAt
                  && b.soldBy == a.soldBy && b.version == a.version)
            && Read(t.inv, Held) == Read(s.inv, Held) - |keys| && Read(t.inv, Sold) == Read(s.inv, Sold) + |keys|
            && Read(t.inv, Available) == Read(s.inv, Available) && Read(t.inv, Quota) == Read(s.inv, Quota)
            && t.orderOfHold == s.orderOfHold[hold := order] && t.holdOfOrder == s.holdOfOrder[order := hold]
            && t.holds == s.holds - {hold} && t.limits == s.limits
  {
    hide FirstInvalid, AllClaimable;
  }

  // ---- COMMIT, the standalone script

  /** The clamped move never takes held below 0, and sold counts every seat. */
  lemma ClampedMoveIs(inv: map<Counter, int>, need: nat)
    ensures var r := ClampedMove(inv, need);
            var held := Read(inv, Held);
            && Read(r, Held) == (if held <= 0 then held else if held <= need then 0 else held - need)
            && Read(r, Sold) == Read(inv, Sold) + need
            && Read(r, Available) == Read(inv, Available) && Read(r, Quota) == Read(inv, Quota)
  {
  }

  /** Which error the validation reports for its first offending seat. */
  function ErrorAt(seats: map<SeatKey, Seat>, keys: seq<SeatKey>, hold: HoldId, holdExists: bool, j: nat): Error
    requires j < |keys|
  {
    var k := keys[j];
    if StatusOf(seats, k) == Some(SOLD) then SeatAlreadySold(k)
    else if StatusOf(seats, k) == Some(HELD) then
      (if seats[k].holdId != Some(hold) then HoldMismatch(k) else UserMismatch(k))
    else if !holdExists && forall m :: 0 <= m < j ==> StatusOf(seats, keys[m]) != Some(SOLD) then HoldNotFound
    else SeatNotHeld(k, StatusOf(seats, k))
  }

  lemma {:induction false} ScanErrorIs(seats: map<SeatKey, Seat>, keys: seq<SeatKey>, hold: HoldId, user: UserId,
                                       holdExists: bool, i: nat, sold: nat, j: nat)
    requires IsFirstInvalid(seats, keys, hold, user, i, j)
    requires sold == 0 <==> forall m :: 0 <= m < i ==> StatusOf(seats, keys[m]) != Some(SOLD)
    ensures ScanError(seats, keys, hold, user, holdExists, i, sold) == ErrorAt(seats, keys, hold, holdExists, j)
    decreases j - i
  {
    if i < j {
      assert Claimable(seats, keys[i], hold, user);
      var more := if seats[keys[i]].status == SOLD then sold + 1 else sold;
      ScanErrorIs(seats, keys, hold, user, holdExists, i + 1, more, j);
    }
  }

  /** None of the answers that are given before any seat is looked at. */
  predicate Looks(s: Store, hold: HoldId, user: UserId, keys: seq<SeatKey>, order: OrderId) {
    && hold.id != "" && user.id != "" && keys != [] && s.inv != map[]
    && (order.id != "" ==> hold !in s.orderOfHold && !(order in s.holdOfOrder && s.holdOfOrder[order] == hold))
  }

  predicate SeatComplaint(reply: Reply) {
    && reply.Rejected?
    && (reply.error.HoldNotFound? || reply.error.SeatNotHeld? || reply.error.SeatAlreadySold?
        || reply.error.HoldMismatch? || reply.error.UserMismatch?)
  }

  lemma SlowAnswers(s: Store, hold: HoldId, user: UserId, keys: seq<SeatKey>, order: OrderId, soldAt: int)
    ensures var (t, reply) := SlowPath(s, hold, user, keys, order, soldAt);
            && (forall j: nat :: IsFirstInvalid(s.seats, keys, hold, user, 0, j) ==>
                  reply == Rejected(ErrorAt(s.seats, keys, hold, hold in s.holds, j)))
            && (AllClaimable(s.seats, keys, hold, user) ==>
                  reply == if forall i :: 0 <= i < |keys| ==> StatusOf(s.seats, keys[i]) == Some(SOLD)
                           then AlreadyCommitted(order) else Committed(order))
            && (!AllClaimable(s.seats, keys, hold, user) ==> t == s && SeatComplaint(reply))
  {
    hide Claimable, ScanError, SellSeatsStandalone, ClampedMove, Record, StatusOf;
    if !AllClaimable(s.seats, keys, hold, user) {
      var first := SomeFirstInvalid(s.seats, keys, hold, user, 0);
      forall j: nat | IsFirstInvalid(s.seats, keys, hold, user, 0, j)
        ensures ScanError(s.seats, keys, hold, user, hold in s.holds, 0, 0)
             == ErrorAt(s.seats, keys, hold, hold in s.holds, j)
      {
        ScanErrorIs(s.seats, keys, hold, user, hold in s.holds, 0, 0, j);
      }
    }
  }

  /** The standalone script's answers, in the order of its tests; only a sale or a replay changes anything. */
  lemma StandaloneAnswers(s: Store, hold: HoldId, user: UserId, keys: seq<SeatKey>, order: OrderId, soldAt: int)
    ensures var (t, reply) := CommitStandalone(s, hold, user, keys, order, soldAt);
            var looks := Looks(s, hold, user, keys, order);
            var named := hold.id != "" && user.id != "" && keys != [];
            && (reply == Rejected(HoldIdRequired) <==> hold.id == "")
            && (reply == Rejected(UserIdRequired) <==> hold.id != "" && user.id == "")
            && (reply == Rejected(NoSeats) <==> hold.id != "" && user.id != "" && keys == [])
            && (reply == Rejected(InvNotFound) <==> named && s.inv == map[])
            && (forall j: nat :: looks && IsFirstInvalid(s.seats, keys, hold, user, 0, j) ==>
                  reply == Rejected(ErrorAt(s.seats, keys, hold, hold in s.holds, j)))
            && (named && s.inv != map[] && order.id != "" && hold in s.orderOfHold ==>
                  reply == AlreadyCommitted(s.orderOfHold[hold]))
            && (named && s.inv != map[] && !looks && hold !in s.orderOfHold ==> reply == AlreadyCommitted(order))
            && (looks && AllClaimable(s.seats, keys, hold, user) ==>
                  reply == if forall i :: 0 <= i < |keys| ==> StatusOf(s.seats, keys[i]) == Some(SOLD)
                           then AlreadyCommitted(order) else Committed(order))
            && (!looks || !AllClaimable(s.seats, keys, hold, user) ==> t == s && !reply.Committed?)
  {
    hide SlowPath, IsFirstInvalid;
    if Looks(s, hold, user, keys, order) {
      SlowAnswers(s, hold, user, keys, order, soldAt);
    }
    hide AllClaimable, ErrorAt;
  }

  /** A standalone sale stamps buyer, time and version on the HELD ones of its seats and drops their expiry. */
  lemma StandaloneEffect(s: Store, hold: HoldId, user: UserId, keys: seq<SeatKey>, order: OrderId, soldAt: int)
    requires CommitStandalone(s, hold, user, keys, order, soldAt).1 == Committed(order)
    ensures var t := CommitStandalone(s, hold, user, keys, order, soldAt).0;
            && t.seats.Keys == s.seats.Keys
            && (forall k :: k in s.seats && (k !in keys || s.seats[k].status != HELD) ==> t.seats[k] == s.seats[k])
            && (forall k :: k in s.seats && k in keys && s.seats[k].status == HELD ==>
                  var a, b := s.seats[k], t.seats[k];
                  && b.status == SOLD && b.soldAt == Some(soldAt) && b.soldBy == Some(user) && b.expiresAt == None
                  && !b.volatile && b.version == a.version + 1 && b.heldBy == a.heldBy && b.holdId == a.holdId)
            && t.inv == ClampedMove(s.inv, |keys|) && t.holds == s.holds - {hold} && t.limits == s.limits
            && (order.id == "" ==> t.orderOfHold == s.orderOfHold && t.holdOfOrder == s.holdOfOrder)
            && (order.id != "" ==>
                  t.orderOfHold == s.orderOfHold[hold := order] && t.holdOfOrder == s.holdOfOrder[order := hold])
  {
    hide ScanError, AllClaimable, AllSold, ClampedMove;
  }
}
