/**
 What each handler of the waiting room answers and leaves behind, and the draw at T-0: every order of
 the pool is the order of the sale for exactly one outcome of the random draws.
 */
module Lottery {
  import opened Collections
  import opened Shuffle
  import opened TokenBucket
  import opened WaitingRoom
  import opened Queue

  // ---- The draw at T-0

  /** A pool becomes the queue when there is none: everyone moves, with consecutive scores from the clock on. */
  lemma SaleOpens(room: Room, now: int, draws: seq<nat>)
    requires Draws(draws, |room.pool|)
    ensures var r := MaybeShuffle(room, now, draws);
            if room.pool == [] || room.active != [] then r == room
            else
              && r.pool == [] && r.watermark == 0 && r.bucket == room.bucket
              && multiset(Members(r.active)) == multiset(Members(room.pool))
              && Members(r.active) == Shuffled(Members(room.pool), draws)
              && forall i :: 0 <= i < |r.active| ==> r.active[i].s == now + i
  {
    hide Shuffled;
    if room.pool != [] && room.active == [] {
      ShuffledPermutes(Members(room.pool), draws);
      NumberedQueue(Shuffled(Members(room.pool), draws), now, 0);
    }
  }

  /** Every order of a pool becomes the queue by exactly one vector of draws. */
  lemma EveryOrderOnce(room: Room, now: int, p: seq<Member>)
    requires room.pool != [] && room.active == [] && Distinct(Members(room.pool))
    requires multiset(p) == multiset(Members(room.pool))
    ensures exists d :: Draws(d, |room.pool|) && Members(MaybeShuffle(room, now, d).active) == p &&
              forall e :: Draws(e, |room.pool|) && Members(MaybeShuffle(room, now, e).active) == p ==> e == d
  {
    hide Shuffled, MaybeShuffle, Members;
    var ms := Members(room.pool);
    ShuffleIsBijective(ms, p);
    var d :| Draws(d, |ms|) && Shuffled(ms, d) == p && forall e :: Draws(e, |ms|) && Shuffled(ms, e) == p ==> e == d;
    forall e | Draws(e, |ms|)
      ensures Members(MaybeShuffle(room, now, e).active) == Shuffled(ms, e)
    {
      SaleOpens(room, now, e);
    }
  }

  /** The line after the move that opens a sale, be it the start itself or the first admission. */
  lemma OpeningLine(h: Hall, rate: int, mv: Move)
    requires rate > 0 && HallInv(h, rate) && h.room.pool != [] && h.room.active == [] && Enabled(h, mv)
    requires mv.StartSale? || mv.Admission?
    ensures Line(Go(h, rate, mv)) == h.log + Shuffled(Members(h.room.pool), mv.draws)
  {
    hide HallInv, Shuffled, MaybeShuffle, Members, AdmitFrom;
    SaleOpens(h.room, h.clock, mv.draws);
    if mv.Admission? {
      var g := h.(room := MaybeShuffle(h.room, h.clock, mv.draws));
      StartSaleKeeps(h, rate, mv.draws);
      AdmissionLine(g, rate, mv.batch);
    }
  }

  /** With these draws the move has the pool served in the order `p`, behind those admitted before. */
  ghost predicate ServesInOrder(h: Hall, rate: int, mv: Move, p: seq<Member>, draws: seq<nat>)
    requires rate > 0 && (mv.StartSale? || mv.Admission?)
  {
    Draws(draws, |h.room.pool|) && Line(Go(h, rate, mv.(draws := draws))) == h.log + p
  }

  /**
   The draw is fair in every reachable state: whatever order of the pool one wishes for, exactly one
   outcome of the draws has it served in this order.
   */
  lemma DrawIsFair(h: Hall, rate: int, mv: Move, p: seq<Member>)
    requires rate > 0 && HallInv(h, rate) && h.room.pool != [] && h.room.active == []
    requires (mv.StartSale? || mv.Admission?) && multiset(p) == multiset(Members(h.room.pool))
    ensures exists d :: ServesInOrder(h, rate, mv, p, d) && forall e :: ServesInOrder(h, rate, mv, p, e) ==> e == d
  {
    hide Shuffled, ServesInOrder;
    var ms := Members(h.room.pool);
    ShuffleIsBijective(ms, p);
    var d :| Draws(d, |ms|) && Shuffled(ms, d) == p && forall e :: Draws(e, |ms|) && Shuffled(ms, e) == p ==> e == d;
    forall e
      ensures ServesInOrder(h, rate, mv, p, e) <==> Draws(e, |ms|) && Shuffled(ms, e) == p
    {
      OrderIsShuffled(h, rate, mv, p, e);
    }
  }

  lemma OrderIsShuffled(h: Hall, rate: int, mv: Move, p: seq<Member>, draws: seq<nat>)
    requires rate > 0 && HallInv(h, rate) && h.room.pool != [] && h.room.active == []
    requires mv.StartSale? || mv.Admission?
    ensures var ms := Members(h.room.pool);
            ServesInOrder(h, rate, mv, p, draws) <==> Draws(draws, |ms|) && Shuffled(ms, draws) == p
  {
    hide HallInv, Shuffled, Go, Line;
    if Draws(draws, |h.room.pool|) {
      OpeningLine(h, rate, mv.(draws := draws));
      SameTail(h.log, Shuffled(Members(h.room.pool), draws), p);
    }
  }

  lemma SameTail<T>(log: seq<T>, a: seq<T>, b: seq<T>)
    ensures log + a == log + b <==> a == b
  {
    if log + a == log + b {
      assert a == (log + a)[|log|..] && b == (log + b)[|log|..];
    }
  }

  // ---- Joins

  lemma {:induction false} WithoutCounts(entries: seq<Entry>, m: Member, e: Entry)
    ensures multiset(Without(entries, m))[e] == if e.m == m then 0 else multiset(entries)[e]
  {
    if entries != [] {
      WithoutCounts(entries[..|entries| - 1], m, e);
      FrontAndLast(entries);
    }
  }

  lemma EnterCounts(entries: seq<Entry>, m: Member, score: int)
    ensures Sorted(Enter(entries, m, score))
    ensures multiset(Enter(entries, m, score))
         == multiset(entries) + if exists e :: e in entries && e.m == m then multiset{} else multiset{Entry(m, score)}
  {
    SortIsStableSort(if Has(entries, m) then entries else entries + [Entry(m, score)], score);
    hide SortByScore, Sorted;
    if Has(entries, m) {
      var i :| 0 <= i < |entries| && entries[i].m == m;
      assert entries[i] in entries;
    }
  }

  /**
   A join reaches the queue if there is one or the sale has started, behind as many as wait, and leaves the pool;
   before that it reaches the pool under its score. Nobody enters twice, and the queue joined is sorted.
   */
  lemma JoinEffect(room: Room, m: Member, now: int, preSale: bool, score: int)
    ensures var r := Join(room, m, now, preSale, score);
            && r.watermark == room.watermark && r.bucket == room.bucket
            && if room.active != [] || !preSale then
                 && Sorted(r.active)
                 && multiset(r.active) == multiset(room.active)
                      + (if exists e :: e in room.active && e.m == m then multiset{}
                         else multiset{Entry(m, now + |room.active|)})
                 && forall e :: multiset(r.pool)[e] == if e.m == m then 0 else multiset(room.pool)[e]
               else
                 && r.active == [] && Sorted(r.pool)
                 && multiset(r.pool) == multiset(room.pool)
                      + if exists e :: e in room.pool && e.m == m then multiset{} else multiset{Entry(m, score)}
  {
    hide Enter, Without, Sorted;
    EnterCounts(room.active, m, now + |room.active|);
    EnterCounts(room.pool, m, score);
    forall e
      ensures multiset(Without(room.pool, m))[e] == if e.m == m then 0 else multiset(room.pool)[e]
    {
      WithoutCounts(room.pool, m, e);
    }
  }

  /** A join reports the place of its member, counted from 1, in the sorted queue or pool it reached. */
  lemma PositionIsPlace(room: Room, m: Member, now: int, preSale: bool, score: int)
    ensures var r := Join(room, m, now, preSale, score);
            var q := if room.active != [] || !preSale then r.active else r.pool;
            var p := JoinPosition(room, m, now, preSale, score);
            && Sorted(q) && 1 <= p <= |q| && q[p - 1].m == m && forall i :: 0 <= i < p - 1 ==> q[i].m != m
  {
    JoinEffect(room, m, now, preSale, score);
    var r := Join(room, m, now, preSale, score);
    var q, before, e := r.pool, room.pool, Entry(m, score);
    if room.active != [] || !preSale {
      q, before, e := r.active, room.active, Entry(m, now + |room.active|);
    }
    hide Join, Sorted;
    PresentAfter(before, q, m, e);
    IndexInFinds(q, m, 0);
  }

  lemma PresentAfter(before: seq<Entry>, q: seq<Entry>, m: Member, e: Entry)
    requires e.m == m
    requires multiset(q)
          == multiset(before) + if exists x :: x in before && x.m == m then multiset{} else multiset{e}
    ensures exists i :: 0 <= i < |q| && q[i].m == m
  {
    if x :| x in before && x.m == m {
      assert x in multiset(q);
    } else {
      assert e in multiset(q);
    }
  }

  // ---- Admission

  /** How many are asked for of `n`: a given batch, at least 1 and at most 2000, or else 2000; never more than wait. */
  predicate Asked(batch: int, n: nat, k: int) {
    && 1 <= k <= n && k <= 2000
    && (batch == 0 ==> k == n || k == 2000)
    && (batch >= 1 ==> k <= batch && (k == batch || k == n || k == 2000))
    && (batch < 0 ==> k == 1)
  }

  /** An admission takes as many as it asks for from the front of a sorted queue, or nobody at all. */
  lemma AdmissionTakes(room: Room, now: int, batch: int, rate: int, draws: seq<nat>, k: int)
    requires rate > 0 && Sorted(room.active) && Draws(draws, |room.pool|) && Asked(batch, |room.active|, k)
    ensures var (r, reply) := Admit(room, now, batch, rate, draws);
            var (bucket, verdict) := Consume(room.bucket, rate, k, now);
            && r.pool == room.pool && r.bucket == Some(bucket)
            && if verdict.allowed then
                 && reply == Admitted(Members(room.active[..k]), room.watermark + k, verdict.remaining)
                 && r.active == room.active[k..] && r.watermark == room.watermark + k
               else
                 && reply == RateLimited(verdict.retryAfterMs, verdict.remaining, |room.active|)
                 && r.active == room.active && r.watermark == room.watermark
  {
    AdmitTakesFront(room, now, batch, rate);
    SortOfSorted(room.active);
    hide Consume, SortByScore, Sorted;
  }

  /** Nobody is found waiting exactly when pool and queue are empty, and such a call changes nothing. */
  lemma QueueIsEmptyIff(room: Room, now: int, batch: int, rate: int, draws: seq<nat>)
    requires rate > 0 && Draws(draws, |room.pool|)
    ensures var (r, reply) := Admit(room, now, batch, rate, draws);
            (reply == QueueEmpty <==> room.pool == [] && room.active == []) && (reply == QueueEmpty ==> r == room)
  {
    hide Shuffled, Consume, SortByScore;
  }
}
