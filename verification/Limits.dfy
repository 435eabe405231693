/**
 The per-user limit. While the limit key does not expire, the counter of a user is the total size
 of the user's holds that were not released, so no user ever holds or owns more seats than the maximum.
 */
module Limits {
  import opened Collections
  import opened Redis
  import opened Protocol
  import opened Worlds
  import opened Accounting
  import opened Inventory

  /** One pair for every seat of every hold of the user that was not released. */
  function Claims(w: World, user: UserId): set<(HoldId, SeatKey)> {
    set h, k | h in w.holdings && w.holdings[h].user == user && w.holdings[h].phase != Returned
        && k in w.holdings[h].seats
      :: (h, k)
  }

  ghost predicate LimitsAgree(w: World) {
    forall user :: Limit(w.store.limits, user) == |Claims(w, user)|
  }

  ghost predicate LimitsWithin(w: World, max: int) {
    forall user :: Limit(w.store.limits, user) <= max
  }

  /**
   The discipline of the limit: releases name the user of the hold, all holds use one maximum, no limit key
   expires.
   */
  predicate LimitDisciplined(w: World, e: Event, max: int) {
    && Addressed(w, e) && Disciplined(w, e)
    && (e.Hold? ==> e.max == max)
    && (e.Release? && InPhase(w, e.hold, Live) ==> e.user == w.holdings[e.hold].user)
    && !e.LimitExpires?
  }

  ghost predicate LimitDisciplinedRun(w: World, es: seq<Event>, max: int) {
    forall i :: 0 <= i < |es| ==> LimitDisciplined(WorldAt(w, es, i), es[i], max)
  }

  /** The seats HELD by or SOLD to a user. */
  function SeatsOf(w: World, user: UserId): set<SeatKey> {
    set k | k in w.store.seats && w.store.seats[k].status != AVAILABLE && w.store.seats[k].heldBy == Some(user)
  }

  lemma GrantClaims(w: World, e: Event, user: UserId)
    requires e.Hold? && e.hold !in w.holdings && Apply(w.store, e).1.Granted?
    ensures Claims(Step(w, e), user) == Claims(w, user) + (if user == e.user then Tagged(e.hold, ToSet(e.keys)) else {})
    ensures Claims(w, user) !! Tagged(e.hold, ToSet(e.keys))
  {
    hide Apply;
  }

  lemma HoldKeepsLimits(w: World, e: Event, max: int)
    requires LimitsAgree(w) && LimitsWithin(w, max) && e.Hold? && LimitDisciplined(w, e, max)
    ensures LimitsAgree(Step(w, e)) && LimitsWithin(Step(w, e), max)
  {
    hide Step, Takes;
    HoldIsGrant(w, e);
    TakesIff(w.store, e);
    if Apply(w.store, e).1.Granted? {
      var t := Step(w, e);
      TaggedCardinality(e.hold, ToSet(e.keys));
      DistinctCardinality(e.keys);
      assert Limit(w.store.limits, e.user) + |e.keys| <= max;
      forall user
        ensures Limit(t.store.limits, user) == |Claims(t, user)| <= max
      {
        GrantClaims(w, e, user);
        assert Limit(w.store.limits, user) == |Claims(w, user)|;
      }
    }
  }

  lemma GiveBackClaims(w: World, hold: HoldId, caller: UserId, keys: seq<SeatKey>, user: UserId)
    requires hold in w.holdings && w.holdings[hold].phase == Live
    ensures var n := Tagged(hold, w.holdings[hold].seats);
            && Claims(GiveBack(w, hold, caller, keys), user)
                == (if user == w.holdings[hold].user then Claims(w, user) - n else Claims(w, user))
            && (user == w.holdings[hold].user ==> n <= Claims(w, user))
  {
  }

  lemma GiveBackLimits(w: World, hold: HoldId, caller: UserId, keys: seq<SeatKey>, user: UserId)
    requires InPhase(w, hold, Live)
    ensures var t := GiveBack(w, hold, caller, keys);
            && Limit(t.store.limits, user) == Limit(w.store.limits, user) - (if user == caller then |keys| else 0)
            && |Claims(t, user)|
               == |Claims(w, user)| - (if user == w.holdings[hold].user then |w.holdings[hold].seats| else 0)
  {
    GiveBackClaims(w, hold, caller, keys, user);
    TaggedCardinality(hold, w.holdings[hold].seats);
    hide Claims, FreeSeats;
  }

  /**
   Releasing an open hold keeps the limits right if and only if it names the user of the hold and as many seats
   as it has.
   */
  lemma ReleaseLimitIsExact(w: World, e: Event)
    requires HoldsAgree(w) && LimitsAgree(w) && e.Release? && InPhase(w, e.hold, Live)
    ensures LimitsAgree(Step(w, e)) <==> e.user == w.holdings[e.hold].user && |e.keys| == |w.holdings[e.hold].seats|
  {
    assert w.holdings[e.hold].seats != {};
    hide HoldsAgree, Step, GiveBack, Claims;
    ReleaseIsGiveBack(w, e);
    var t := Step(w, e);
    var owner, seats := w.holdings[e.hold].user, w.holdings[e.hold].seats;
    forall user
      ensures Limit(t.store.limits, user) == Limit(w.store.limits, user) - (if user == e.user then |e.keys| else 0)
      ensures |Claims(t, user)| == |Claims(w, user)| - (if user == owner then |seats| else 0)
    {
      GiveBackLimits(w, e.hold, e.user, e.keys, user);
    }
    if !(e.user == owner && |e.keys| == |seats|) {
      assert Limit(t.store.limits, owner) != |Claims(t, owner)|;
    }
  }

  /** A release that moves nothing leaves limits and claims alone. */
  lemma EmptyReleaseKeepsLimits(w: World, e: Event, user: UserId)
    requires e.Release? && e.keys == [] && !InPhase(w, e.hold, Live) && !InPhase(w, e.hold, Bought)
    ensures Limit(Step(w, e).store.limits, user) == Limit(w.store.limits, user)
    ensures Claims(Step(w, e), user) == Claims(w, user)
  {
  }

  lemma ReleaseKeepsWithin(w: World, e: Event, max: int)
    requires LimitsWithin(w, max) && e.Release?
    ensures LimitsWithin(Step(w, e), max)
  {
    var t := Step(w, e);
    forall user
      ensures Limit(t.store.limits, user) <= max
    {
      assert Limit(w.store.limits, user) <= max;
    }
  }

  lemma ReleaseKeepsLimits(w: World, e: Event)
    requires Consistent(w) && LimitsAgree(w) && e.Release? && Disciplined(w, e)
    requires InPhase(w, e.hold, Live) ==> e.user == w.holdings[e.hold].user
    ensures LimitsAgree(Step(w, e))
  {
    hide Step, Counters, Claims;
    if InPhase(w, e.hold, Live) {
      ReleaseLimitIsExact(w, e);
    } else {
      forall user
        ensures Limit(Step(w, e).store.limits, user) == |Claims(Step(w, e), user)|
      {
        EmptyReleaseKeepsLimits(w, e, user);
      }
    }
  }

  /** No other step touches a limit or a claim. */
  lemma OthersKeepClaims(w: World, e: Event, user: UserId)
    requires Structure(w) && Addressed(w, e) && Disciplined(w, e) && !e.Hold? && !e.Release? && !e.LimitExpires?
    ensures Claims(Step(w, e), user) == Claims(w, user)
    ensures Step(w, e).store.limits == w.store.limits
  {
    OthersKeepLimits(w.store, e);
    StepFollowsStore(w, e);
    TakesIff(w.store, e);
    hide Apply, Structure, With, LostIn, Takes, OwnSeats;
  }

  lemma OthersKeepLimits(s: Store, e: Event)
    requires !e.Hold? && !e.Release? && !e.LimitExpires?
    ensures Apply(s, e).0.limits == s.limits
  {
  }

  lemma StepKeepsLimits(w: World, e: Event, max: int)
    requires Consistent(w) && LimitsAgree(w) && LimitsWithin(w, max) && LimitDisciplined(w, e, max)
    ensures LimitsAgree(Step(w, e)) && LimitsWithin(Step(w, e), max)
  {
    hide Step, Structure, Counters, Claims, Apply;
    if e.Hold? {
      HoldKeepsLimits(w, e, max);
    } else if e.Release? {
      ReleaseKeepsLimits(w, e);
      ReleaseKeepsWithin(w, e, max);
    } else {
      forall user
        ensures Limit(Step(w, e).store.limits, user) == |Claims(Step(w, e), user)| <= max
      {
        OthersKeepClaims(w, e, user);
        assert Limit(w.store.limits, user) <= max;
      }
    }
  }

  lemma {:induction false} LimitsAlways(w: World, es: seq<Event>, max: int, i: nat)
    requires Consistent(w) && LimitsAgree(w) && LimitsWithin(w, max) && LimitDisciplinedRun(w, es, max) && i <= |es|
    ensures var t := WorldAt(w, es, i);
            Consistent(t) && LimitsAgree(t) && LimitsWithin(t, max)
  {
    hide Step, Consistent, LimitsAgree, LimitsWithin, Disciplined, Addressed;
    if i > 0 {
      LimitsAlways(w, es, max, i - 1);
      var v := WorldAt(w, es, i - 1);
      assert LimitDisciplined(v, es[i - 1], max);
      StepKeepsLimits(v, es[i - 1], max);
      DisciplineIsExact(v, es[i - 1]);
    }
  }

  lemma {:induction false} PairedCardinality(keys: set<SeatKey>, pairs: set<(HoldId, SeatKey)>)
    requires forall k :: k in keys ==> exists h :: (h, k) in pairs
    ensures |keys| <= |pairs|
  {
    if keys != {} {
      var k :| k in keys;
      var h :| (h, k) in pairs;
      forall x | x in keys - {k}
        ensures exists g :: (g, x) in pairs - {(h, k)}
      {
        var g :| (g, x) in pairs;
        assert (g, x) in pairs - {(h, k)};
      }
      PairedCardinality(keys - {k}, pairs - {(h, k)});
    }
  }

  lemma SeatsAreClaimed(w: World, user: UserId)
    requires SeatsAgree(w)
    ensures |SeatsOf(w, user)| <= |Claims(w, user)|
  {
    forall k | k in SeatsOf(w, user)
      ensures exists h :: (h, k) in Claims(w, user)
    {
      assert SeatAgrees(w, k);
      assert (w.store.seats[k].holdId.value, k) in Claims(w, user);
    }
    PairedCardinality(SeatsOf(w, user), Claims(w, user));
  }

  /**
   In every state of a disciplined run over a freshly stocked category, a user's limit counter is the
   total size of the user's holds not released, and the seats HELD by or SOLD to the user never
   exceed the maximum.
   */
  lemma UserNeverExceedsMaximum(names: seq<SeatKey>, quota: nat, es: seq<Event>, max: nat, i: nat, user: UserId)
    requires |ToSet(names)| == quota && LimitDisciplinedRun(Stocked(names, quota), es, max) && i <= |es|
    ensures var w := WorldAt(Stocked(names, quota), es, i);
            |SeatsOf(w, user)| <= |Claims(w, user)| == Limit(w.store.limits, user) <= max
  {
    var w := WorldAt(Stocked(names, quota), es, i);
    StockedIsConsistent(names, quota);
    assert forall u :: Claims(Stocked(names, quota), u) == {};
    assert Stocked(names, quota).store.limits == map[];
    hide Stocked, ToSet, Structure, Step;
    LimitsAlways(Stocked(names, quota), es, max, i);
    assert SeatsAgree(w) by { assert Consistent(w); StructureParts(w); }
    SeatsAreClaimed(w, user);
  }
}
