/**
 The Lua scripts as they are written: a validation loop, a write loop over the seat keys, and
 the updates of the counters, the user limit, the hold record and the order ledger. The loops
 are methods of their own.
 */
module Scripts {
  import opened Collections
  import opened Redis

  class RedisServer {
    var inv: map<Counter, int>
    var seats: map<SeatKey, Seat>
    var limits: map<UserId, int>
    var holds: map<HoldId, HoldRecord>
    var orderOfHold: map<HoldId, OrderId>
    var holdOfOrder: map<OrderId, HoldId>

    ghost function View(): Store
      reads this
    {
      Store(inv, seats, limits, holds, orderOfHold, holdOfOrder)
    }

    // ---- HOLD

    method CheckAvailable(keys: seq<SeatKey>) returns (taken: Option<SeatKey>)
      ensures taken == if AllAvailable(seats, keys) then None else Some(FirstTaken(seats, keys, 0))
    {
      var i := 0;
      while i < |keys|
        invariant 0 <= i <= |keys|
        invariant forall j :: 0 <= j < i ==> IsAvailable(seats, keys[j])
        invariant !AllAvailable(seats, keys) ==>
          && (exists j :: i <= j < |keys| && !IsAvailable(seats, keys[j]))
          && FirstTaken(seats, keys, 0) == FirstTaken(seats, keys, i)
      {
        if StatusOf(seats, keys[i]) != Some(AVAILABLE) {
          assert keys[i] in keys && !IsAvailable(seats, keys[i]);
          return Some(keys[i]);
        }
        i := i + 1;
      }
      return None;
    }

    method WriteHeld(keys: seq<SeatKey>, user: UserId, hold: HoldId, expiresAt: int)
      requires forall k :: k in keys ==> k in seats
      modifies this`seats
      ensures seats == HoldSeats(old(seats), keys, user, hold, expiresAt)
    {
      var i := 0;
      while i < |keys|
        invariant 0 <= i <= |keys|
        invariant seats == HoldSeats(old(seats), keys[..i], user, hold, expiresAt)
      {
        var k := keys[i];
        seats := seats[k := HeldSeat(seats[k], user, hold, expiresAt)];
        i := i + 1;
        assert forall x :: x in keys[..i] <==> x in keys[..i - 1] || x == k;
      }
      assert keys[..|keys|] == keys;
    }

    method Hold(user: UserId, hold: HoldId, keys: seq<SeatKey>, expiresAt: int, max: int) returns (reply: Reply)
      modifies this
      ensures (View(), reply) == HoldScript(old(View()), user, hold, keys, expiresAt, max)
    {
      var need := |keys|;
      if Available !in inv { return Rejected(InvNotFound); }
      if inv[Available] < need { return Rejected(SoldOut); }
      var cur := Limit(limits, user);
      if cur + need > max { return Rejected(LimitExceeded); }
      var taken := CheckAvailable(keys);
      if taken != None { return Rejected(SeatTaken(taken.value)); }
      WriteHeld(keys, user, hold, expiresAt);
      inv := IncrBy(inv, Available, -need);
      inv := IncrBy(inv, Held, need);
      limits := limits[user := Limit(limits, user) + need];
      holds := holds[hold := HoldRecord(user, keys, expiresAt)];
      return Granted(hold);
    }

    // ---- RELEASE

    method WriteFreed(keys: seq<SeatKey>, hold: HoldId)
      modifies this`seats
      ensures seats == FreeSeats(old(seats), keys, hold)
    {
      var i := 0;
      while i < |keys|
        invariant 0 <= i <= |keys|
        invariant seats == FreeSeats(old(seats), keys[..i], hold)
      {
        var k := keys[i];
        if k in seats && seats[k].holdId == Some(hold) {
          seats := seats[k := FreedSeat(seats[k])];
        }
        i := i + 1;
        assert forall x :: x in keys[..i] <==> x in keys[..i - 1] || x == k;
      }
      assert keys[..|keys|] == keys;
    }

    method Release(hold: HoldId, user: UserId, keys: seq<SeatKey>) returns (reply: Reply)
      modifies this
      ensures (View(), reply) == ReleaseScript(old(View()), hold, user, keys)
    {
      var need := |keys|;
      WriteFreed(keys, hold);
      inv := IncrBy(inv, Available, need);
      inv := IncrBy(inv, Held, -need);
      limits := limits[user := Limit(limits, user) - need];
      holds := holds - {hold};
      return Released;
    }

    // ---- COMMIT, as the booking service runs it

    method CheckMine(keys: seq<SeatKey>, hold: HoldId, user: UserId) returns (bad: Option<SeatKey>)
      ensures bad == if AllClaimable(seats, keys, hold, user) then None
          else Some(FirstInvalid(seats, keys, hold, user, 0))
    {
      var i := 0;
      while i < |keys|
        invariant 0 <= i <= |keys|
        invariant forall j :: 0 <= j < i ==> Claimable(seats, keys[j], hold, user)
        invariant !AllClaimable(seats, keys, hold, user) ==>
          && (exists j :: i <= j < |keys| && !Claimable(seats, keys[j], hold, user))
          && FirstInvalid(seats, keys, hold, user, 0) == FirstInvalid(seats, keys, hold, user, i)
      {
        var k := keys[i];
        var st := StatusOf(seats, k);
        var mine := k in seats && seats[k].holdId == Some(hold) && seats[k].heldBy == Some(user);
        if st == Some(SOLD) && mine {
        } else if st != Some(HELD) || !mine {
          assert k in keys && !Claimable(seats, k, hold, user);
          return Some(k);
        }
        i := i + 1;
      }
      return None;
    }

    method WriteSold(keys: seq<SeatKey>, soldAt: int)
      modifies this`seats
      ensures seats == SellSeats(old(seats), keys, soldAt)
    {
      var i := 0;
      while i < |keys|
        invariant 0 <= i <= |keys|
        invariant seats == SellSeats(old(seats), keys[..i], soldAt)
      {
        var k := keys[i];
        if StatusOf(seats, k) == Some(HELD) {
          seats := seats[k := SoldSeat(seats[k], soldAt)];
        }
        i := i + 1;
        assert forall x :: x in keys[..i] <==> x in keys[..i - 1] || x == k;
      }
      assert keys[..|keys|] == keys;
    }

    method Commit(hold: HoldId, user: UserId, keys: seq<SeatKey>, order: OrderId, soldAt: int) returns (reply: Reply)
      modifies this
      ensures (View(), reply) == CommitScript(old(View()), hold, user, keys, order, soldAt)
    {
      var need := |keys|;
      if hold in orderOfHold { return AlreadyCommitted(orderOfHold[hold]); }
      var bad := CheckMine(keys, hold, user);
      if bad != None { return Rejected(HoldInvalid(bad.value, StatusOf(seats, bad.value))); }
      WriteSold(keys, soldAt);
      inv := IncrBy(inv, Held, -need);
      inv := IncrBy(inv, Sold, need);
      orderOfHold := orderOfHold[hold := order];
      holdOfOrder := holdOfOrder[order := hold];
      holds := holds - {hold};
      return Committed(order);
    }

    // ---- COMMIT, the standalone script

    /** Either the error to report, or no error and how many of the seats are SOLD already. */
    method ScanSeats(keys: seq<SeatKey>, hold: HoldId, user: UserId, holdExists: bool)
      returns (e: Option<Error>, alreadySold: nat)
      ensures e == if AllClaimable(seats, keys, hold, user) then None
                   else Some(ScanError(seats, keys, hold, user, holdExists, 0, 0))
      ensures e == None ==> (alreadySold == |keys| <==> AllSold(seats, keys))
    {
      e, alreadySold := None, 0;
      var i := 0;
      while i < |keys|
        invariant 0 <= i <= |keys| && e == None && alreadySold <= i
        invariant alreadySold == i <==> forall j :: 0 <= j < i ==> StatusOf(seats, keys[j]) == Some(SOLD)
        invariant forall j :: 0 <= j < i ==> Claimable(seats, keys[j], hold, user)
        invariant !AllClaimable(seats, keys, hold, user) ==>
          && (exists j :: i <= j < |keys| && !Claimable(seats, keys[j], hold, user))
          && ScanError(seats, keys, hold, user, holdExists, 0, 0)
              == ScanError(seats, keys, hold, user, holdExists, i, alreadySold)
      {
        e := SeatError(seats, keys[i], hold, user, holdExists, alreadySold);
        if e != None {
          return;
        }
        if seats[keys[i]].status == SOLD {
          alreadySold := alreadySold + 1;
        }
        i := i + 1;
      }
    }

    method WriteSoldStandalone(keys: seq<SeatKey>, user: UserId, soldAt: int)
      modifies this`seats
      ensures seats == SellSeatsStandalone(old(seats), keys, user, soldAt)
    {
      var i := 0;
      while i < |keys|
        invariant 0 <= i <= |keys|
        invariant seats == SellSeatsStandalone(old(seats), keys[..i], user, soldAt)
      {
        var k := keys[i];
        if StatusOf(seats, k) == Some(HELD) {
          seats := seats[k := SoldSeatStandalone(seats[k], user, soldAt)];
        }
        i := i + 1;
        assert forall x :: x in keys[..i] <==> x in keys[..i - 1] || x == k;
      }
      assert keys[..|keys|] == keys;
    }

    method MoveHeldToSold(need: nat)
      modifies this`inv
      ensures inv == ClampedMove(old(inv), need)
    {
      var held := Read(inv, Held);
      var decr := need;
      if held < need { decr := held; }
      if decr > 0 {
        inv := IncrBy(inv, Held, -decr);
      }
      inv := IncrBy(inv, Sold, need);
    }

    method WriteLedger(hold: HoldId, order: OrderId)
      modifies this`orderOfHold, this`holdOfOrder
      ensures View() == if order.id != "" then Record(old(View()), hold, order) else old(View())
    {
      if order.id != "" {
        orderOfHold := orderOfHold[hold := order];
        holdOfOrder := holdOfOrder[order := hold];
      }
    }

    method CommitIdempotent(hold: HoldId, user: UserId, keys: seq<SeatKey>, order: OrderId, soldAt: int)
      returns (reply: Reply)
      modifies this
      ensures (View(), reply) == CommitStandalone(old(View()), hold, user, keys, order, soldAt)
    {
      if hold.id == "" { return Rejected(HoldIdRequired); }
      if user.id == "" { return Rejected(UserIdRequired); }
      var need := |keys|;
      if need <= 0 { return Rejected(NoSeats); }
      if inv == map[] { return Rejected(InvNotFound); }
      if order.id != "" {
        if hold in orderOfHold { return AlreadyCommitted(orderOfHold[hold]); }
        if order in holdOfOrder && holdOfOrder[order] == hold { return AlreadyCommitted(order); }
      }
      var e, alreadySold := ScanSeats(keys, hold, user, hold in holds);
      if e != None { return Rejected(e.value); }
      if alreadySold == need {
        WriteLedger(hold, order);
        return AlreadyCommitted(order);
      }
      WriteSoldStandalone(keys, user, soldAt);
      MoveHeldToSold(need);
      holds := holds - {hold};
      WriteLedger(hold, order);
      return Committed(order);
    }
  }
}
