/**
 Runs of the waiting room: conservation of visitors, the order in which they are served, and the
 admission rate. The clock never runs backwards.
 */
module Queue {
  import opened Collections
  import opened Shuffle
  import opened TokenBucket
  import opened WaitingRoom

  // ---- The sort is a stable sort

  /** Where a new entry lands: behind everything that does not score higher. */
  lemma {:induction false} InsertSplices(entries: seq<Entry>, e: Entry) returns (k: nat)
    ensures k <= |entries| && Insert(entries, e) == Splice(entries, k, e)
    ensures forall i :: k <= i < |entries| ==> entries[i].s > e.s
    ensures k > 0 ==> entries[k - 1].s <= e.s
  {
    var n := |entries|;
    if n == 0 || entries[n - 1].s <= e.s {
      k := n;
    } else {
      k := InsertSplices(entries[..n - 1], e);
      assert entries[..n - 1][..k] == entries[..k];
      assert entries[..n - 1][k..] + [entries[n - 1]] == entries[k..];
    }
  }

  lemma InsertSorts(entries: seq<Entry>, e: Entry)
    requires Sorted(entries)
    ensures Sorted(Insert(entries, e))
    ensures multiset(Insert(entries, e)) == multiset(entries) + multiset{e}
  {
    var k := InsertSplices(entries, e);
    SpliceMultiset(entries, k, e);
    hide Insert, Splice;
  }

  /** The entries of one score, in order. */
  function OfScore(entries: seq<Entry>, v: int): seq<Entry> {
    if entries == [] then []
    else
      var n := |entries| - 1;
      OfScore(entries[..n], v) + (if entries[n].s == v then [entries[n]] else [])
  }

  lemma OfScoreStep(entries: seq<Entry>, v: int)
    requires entries != []
    ensures var n := |entries| - 1;
            OfScore(entries, v) == OfScore(entries[..n], v) + (if entries[n].s == v then [entries[n]] else [])
  {
  }

  lemma {:induction false} OfScoreAppend(a: seq<Entry>, b: seq<Entry>, v: int)
    ensures OfScore(a + b, v) == OfScore(a, v) + OfScore(b, v)
  {
    if b == [] {
      assert a + b == a && OfScore(b, v) == [];
    } else {
      hide OfScore;
      var n := |b| - 1;
      OfScoreAppend(a, b[..n], v);
      assert (a + b)[..|a + b| - 1] == a + b[..n] && (a + b)[|a + b| - 1] == b[n];
      OfScoreStep(a + b, v);
      OfScoreStep(b, v);
    }
  }

  lemma {:induction false} OfScoreNone(a: seq<Entry>, v: int)
    requires forall i :: 0 <= i < |a| ==> a[i].s != v
    ensures OfScore(a, v) == []
  {
    if a != [] {
      OfScoreNone(a[..|a| - 1], v);
    }
  }

  lemma InsertIsStable(entries: seq<Entry>, e: Entry, v: int)
    ensures OfScore(Insert(entries, e), v) == OfScore(entries, v) + (if e.s == v then [e] else [])
  {
    var k := InsertSplices(entries, e);
    OfScoreAppend(entries[..k] + [e], entries[k..], v);
    OfScoreAppend(entries[..k], [e], v);
    OfScoreAppend(entries[..k], entries[k..], v);
    assert entries == entries[..k] + entries[k..];
    assert [e][..0] == [] && OfScore([], v) == [];
    if e.s == v {
      OfScoreNone(entries[k..], v);
    }
  }

  lemma SortStep(entries: seq<Entry>)
    requires entries != []
    ensures SortByScore(entries) == Insert(SortByScore(entries[..|entries| - 1]), entries[|entries| - 1])
  {
    hide Insert;
  }

  lemma InsertLast(entries: seq<Entry>, e: Entry)
    requires entries != [] ==> entries[|entries| - 1].s <= e.s
    ensures Insert(entries, e) == entries + [e]
  {
  }

  /** Sorted, a permutation, and entries of one score keep their order. */
  lemma {:induction false} SortIsStableSort(entries: seq<Entry>, v: int)
    ensures Sorted(SortByScore(entries))
    ensures multiset(SortByScore(entries)) == multiset(entries)
    ensures OfScore(SortByScore(entries), v) == OfScore(entries, v)
  {
    if entries != [] {
      hide Insert, OfScore, Sorted, SortByScore;
      var n := |entries| - 1;
      SortStep(entries);
      OfScoreStep(entries, v);
      FrontAndLast(entries);
      SortIsStableSort(entries[..n], v);
      InsertSorts(SortByScore(entries[..n]), entries[n]);
      InsertIsStable(SortByScore(entries[..n]), entries[n], v);
    }
  }

  lemma {:induction false} SortOfSorted(entries: seq<Entry>)
    requires Sorted(entries)
    ensures SortByScore(entries) == entries
  {
    if entries != [] {
      var n := |entries| - 1;
      assert Sorted(entries[..n]) && (n > 0 ==> entries[..n][n - 1].s <= entries[n].s);
      hide Insert, Sorted, SortByScore;
      SortStep(entries);
      FrontAndLast(entries);
      SortOfSorted(entries[..n]);
      InsertLast(entries[..n], entries[n]);
    }
  }

  /** Entering a sorted queue: no change for a member who is in it, one insertion otherwise. */
  lemma EnterSorted(entries: seq<Entry>, m: Member, score: int)
    requires Sorted(entries)
    ensures Enter(entries, m, score) == if Has(entries, m) then entries else Insert(entries, Entry(m, score))
  {
    SortOfSorted(entries);
    assert (entries + [Entry(m, score)])[..|entries|] == entries;
  }

  // ---- Members of a queue

  lemma HasMembers(entries: seq<Entry>, m: Member)
    ensures Has(entries, m) <==> m in Members(entries)
  {
    if m in Members(entries) {
      var i :| 0 <= i < |entries| && Members(entries)[i] == m;
      assert entries[i].m == m;
    }
    if Has(entries, m) {
      var i :| 0 <= i < |entries| && entries[i].m == m;
      assert Members(entries)[i] == m;
    }
  }

  lemma MembersConcat(a: seq<Entry>, b: seq<Entry>)
    ensures Members(a + b) == Members(a) + Members(b)
  {
  }

  lemma SpliceMembers(entries: seq<Entry>, k: nat, e: Entry)
    requires k <= |entries|
    ensures Members(Splice(entries, k, e)) == Splice(Members(entries), k, e.m)
  {
    hide Splice;
  }

  /** Inserting a newcomer splices the member in, at the end exactly when nobody scores higher. */
  lemma InsertMembers(entries: seq<Entry>, e: Entry) returns (k: nat)
    requires !Has(entries, e.m) && Sorted(entries)
    ensures k <= |entries| && Insert(entries, e) == Splice(entries, k, e)
    ensures Members(Insert(entries, e)) == Splice(Members(entries), k, e.m)
    ensures multiset(Members(Insert(entries, e))) == multiset(Members(entries)) + multiset{e.m}
    ensures Distinct(Members(entries)) ==> Distinct(Members(Insert(entries, e)))
    ensures k == |entries| <==> forall i :: 0 <= i < |entries| ==> entries[i].s <= e.s
  {
    k := InsertSplices(entries, e);
    hide Insert, Splice;
    assert k < |entries| ==> entries[k].s > e.s;
    assert forall i :: 0 <= i < k ==> entries[i].s <= entries[k - 1].s;
    HasMembers(entries, e.m);
    SpliceMembers(entries, k, e);
    SpliceMultiset(Members(entries), k, e.m);
    if Distinct(Members(entries)) {
      SpliceDistinct(Members(entries), k, e.m);
    }
  }

  lemma {:induction false} WithoutAbsent(entries: seq<Entry>, m: Member)
    requires !Has(entries, m)
    ensures Without(entries, m) == entries
  {
    if entries != [] {
      var n := |entries| - 1;
      assert forall i :: 0 <= i < n ==> entries[..n][i] == entries[i];
      WithoutAbsent(entries[..n], m);
      FrontAndLast(entries);
    }
  }

  lemma WithoutStep(entries: seq<Entry>, m: Member)
    requires entries != []
    ensures var n := |entries| - 1;
            Without(entries, m) == Without(entries[..n], m) + (if entries[n].m == m then [] else [entries[n]])
  {
  }

  lemma DistinctFront(entries: seq<Entry>)
    requires entries != [] && Distinct(Members(entries))
    ensures var n := |entries| - 1;
            Distinct(Members(entries[..n])) && forall i :: 0 <= i < n ==> entries[i].m != entries[n].m
  {
    var ms := Members(entries);
    assert forall i, j :: 0 <= i < j < |entries| ==> ms[i] != ms[j];
  }

  lemma {:induction false} WithoutPresent(entries: seq<Entry>, m: Member, k: nat)
    requires k < |entries| && entries[k].m == m && Distinct(Members(entries))
    ensures Without(entries, m) == Cut(entries, k)
  {
    var n := |entries| - 1;
    DistinctFront(entries);
    WithoutStep(entries, m);
    hide Without, Distinct, Members;
    if k == n {
      WithoutAbsent(entries[..n], m);
    } else {
      WithoutPresent(entries[..n], m, k);
      assert Cut(entries, k) == Cut(entries[..n], k) + [entries[n]];
    }
  }

  lemma CutMembers(entries: seq<Entry>, k: nat)
    requires k < |entries|
    ensures Members(Cut(entries, k)) == Cut(Members(entries), k)
  {
    hide Cut;
  }

  /** Filtering a member out of a duplicate-free queue removes exactly that member. */
  lemma WithoutMember(entries: seq<Entry>, m: Member)
    requires Distinct(Members(entries))
    ensures m !in Members(Without(entries, m))
    ensures forall x :: x in Members(Without(entries, m)) ==> x in Members(entries)
    ensures Distinct(Members(Without(entries, m)))
    ensures Sorted(entries) ==> Sorted(Without(entries, m))
    ensures multiset(Members(Without(entries, m))) == multiset(Members(entries)) - multiset{m}
  {
    HasMembers(entries, m);
    if Has(entries, m) {
      var k :| 0 <= k < |entries| && entries[k].m == m;
      WithoutPresent(entries, m, k);
      CutQueue(entries, k);
    } else {
      WithoutAbsent(entries, m);
      assert m !in multiset(Members(entries));
    }
    hide Without, Cut, Members, Sorted, Distinct;
  }

  lemma CutQueue(entries: seq<Entry>, k: nat)
    requires k < |entries| && Distinct(Members(entries))
    ensures entries[k].m !in Members(Cut(entries, k))
    ensures forall x :: x in Members(Cut(entries, k)) ==> x in Members(entries)
    ensures Distinct(Members(Cut(entries, k)))
    ensures Sorted(entries) ==> Sorted(Cut(entries, k))
    ensures multiset(Members(Cut(entries, k))) == multiset(Members(entries)) - multiset{entries[k].m}
  {
    CutMembers(entries, k);
    CutMultiset(Members(entries), k);
    CutDistinct(Members(entries), k);
    CutIncluded(Members(entries), k);
    assert Sorted(entries) ==> Sorted(Cut(entries, k)) by { hide Distinct, Members; }
    hide Cut, Sorted, Distinct;
  }

  // ---- Runs

  /**
   The waiting room with its history: everyone admitted, in order, everyone who ever joined, the
   clock, and the debt, which grows by one for every admission and shrinks with the clock.
   */
  datatype Hall = Hall(room: Room, log: seq<Member>, joined: multiset<Member>, clock: int, debt: int)

  datatype Move =
    | Arrive(m: Member, preSale: bool, score: int)
    | StartSale(draws: seq<nat>)
    | Admission(batch: int, draws: seq<nat>)
    | Tick(ms: nat)
    | BucketLost

  /** The draws of a shuffle fit the pool, and the bucket state is lost only after its lifetime. */
  predicate Enabled(h: Hall, mv: Move) {
    match mv
    case StartSale(draws) => Draws(draws, |h.room.pool|)
    case Admission(_, draws) => Draws(draws, |h.room.pool|)
    case BucketLost => h.room.bucket.Some? ==> h.clock - h.room.bucket.value.last >= STATE_TTL_MS
    case _ => true
  }

  function Go(h: Hall, rate: int, mv: Move): Hall
    requires rate > 0 && Enabled(h, mv)
  {
    match mv
    case Arrive(m, preSale, score) =>
      h.(room := Join(h.room, m, h.clock, preSale, score),
         joined := if Has(h.room.pool, m) || Has(h.room.active, m) then h.joined else h.joined + multiset{m})
    case StartSale(draws) => h.(room := MaybeShuffle(h.room, h.clock, draws))
    case Admission(batch, draws) =>
      var (room, reply) := Admit(h.room, h.clock, batch, rate, draws);
      if reply.Admitted? then h.(room := room, log := h.log + reply.users, debt := h.debt + |reply.users|)
      else h.(room := room)
    case Tick(ms) => h.(clock := h.clock + ms, debt := if h.debt > ms then h.debt - ms else 0)
    case BucketLost => h.(room := h.room.(bucket := None))
  }

  ghost predicate IsRun(hs: seq<Hall>, rate: int, mvs: seq<Move>)
    requires rate > 0
  {
    && |hs| == |mvs| + 1
    && forall i :: 0 <= i < |mvs| ==> Enabled(hs[i], mvs[i]) && hs[i + 1] == Go(hs[i], rate, mvs[i])
  }

  // ---- The invariant

  ghost predicate Orderly(room: Room) {
    && Distinct(Members(room.pool)) && Distinct(Members(room.active))
    && (forall m :: m in Members(room.pool) ==> m !in Members(room.active))
    && Sorted(room.pool) && Sorted(room.active)
  }

  /** Whoever joined is in the pool, in the active queue or admitted, once for every time joined. */
  ghost predicate Conserved(h: Hall) {
    multiset(Members(h.room.pool)) + multiset(Members(h.room.active)) + multiset(h.log) == h.joined
  }

  ghost predicate ScoresBelow(active: seq<Entry>, bound: int) {
    forall i :: 0 <= i < |active| ==> active[i].s < bound
  }

  ghost predicate HallInv(h: Hall, rate: int) {
    && Orderly(h.room) && Conserved(h)
    && h.debt >= 0 && ScoresBelow(h.room.active, h.clock + |h.room.active| + h.debt)
    && Valid(h.room.bucket, rate, h.clock)
  }

  // ---- Each move keeps it

  lemma EnterQueue(entries: seq<Entry>, m: Member, score: int)
    requires Sorted(entries) && Distinct(Members(entries))
    ensures var r := Enter(entries, m, score);
            && Sorted(r) && Distinct(Members(r))
            && multiset(Members(r))
               == multiset(Members(entries)) + (if Has(entries, m) then multiset{} else multiset{m})
            && (forall x :: x in Members(r) <==> x == m || x in Members(entries))
            && |r| == |entries| + (if Has(entries, m) then 0 else 1)
  {
    EnterSorted(entries, m, score);
    HasMembers(entries, m);
    if !Has(entries, m) {
      InsertSorts(entries, Entry(m, score));
      var k := InsertMembers(entries, Entry(m, score));
      forall x
        ensures x in Members(Insert(entries, Entry(m, score))) <==> x == m || x in Members(entries)
      {
        assert x in multiset(Members(Insert(entries, Entry(m, score))))
            <==> x in Members(Insert(entries, Entry(m, score)));
        assert x in multiset(Members(entries)) <==> x in Members(entries);
      }
    }
    hide Enter, Insert, Splice;
  }

  lemma SpliceScores(entries: seq<Entry>, k: nat, e: Entry, bound: int)
    requires k <= |entries| && ScoresBelow(entries, bound) && e.s < bound
    ensures ScoresBelow(Splice(entries, k, e), bound)
  {
    hide Splice;
  }

  lemma JoinActiveScores(active: seq<Entry>, m: Member, now: int, debt: int)
    requires Sorted(active) && debt >= 0 && ScoresBelow(active, now + |active| + debt)
    ensures var r := Enter(active, m, now + |active|);
            ScoresBelow(r, now + |r| + debt)
  {
    EnterSorted(active, m, now + |active|);
    if !Has(active, m) {
      var e := Entry(m, now + |active|);
      var k := InsertSplices(active, e);
      SpliceScores(active, k, e, now + |active| + 1 + debt);
    }
    hide Enter, Insert, Splice, Sorted, Has;
  }

  lemma ArriveOrderly(room: Room, m: Member, now: int, preSale: bool, score: int)
    requires Orderly(room)
    ensures Orderly(Join(room, m, now, preSale, score))
  {
    hide Enter, Without, Sorted, Distinct, Has;
    if |room.active| > 0 || !preSale {
      EnterQueue(room.active, m, now + |room.active|);
      WithoutMember(room.pool, m);
    } else {
      EnterQueue(room.pool, m, score);
    }
  }

  /** The member moves from the pool to the active queue, is there already, or is new. */
  lemma ArriveActiveConserves(room: Room, m: Member, score: int)
    requires Orderly(room)
    ensures multiset(Members(Without(room.pool, m))) + multiset(Members(Enter(room.active, m, score)))
         == multiset(Members(room.pool)) + multiset(Members(room.active))
            + (if Has(room.pool, m) || Has(room.active, m) then multiset{} else multiset{m})
  {
    HasMembers(room.pool, m);
    HasMembers(room.active, m);
    EnterQueue(room.active, m, score);
    WithoutMember(room.pool, m);
    if m in Members(room.pool) {
      OnceWhenDistinct(Members(room.pool), m);
    }
    assert m in Members(room.pool) <==> m in multiset(Members(room.pool));
    hide Enter, Without, Members, Sorted, Distinct, Has;
  }

  lemma ArriveConserves(h: Hall, rate: int, mv: Move)
    requires rate > 0 && Orderly(h.room) && Conserved(h) && mv.Arrive?
    ensures Conserved(Go(h, rate, mv))
  {
    hide Enter, Without, Sorted, Distinct, Members, Has;
    var room := h.room;
    if |room.active| > 0 || !mv.preSale {
      ArriveActiveConserves(room, mv.m, h.clock + |room.active|);
    } else {
      ArrivePoolConserves(room, mv.m, mv.score);
    }
  }

  lemma ArrivePoolConserves(room: Room, m: Member, score: int)
    requires Orderly(room) && room.active == []
    ensures !Has(room.active, m)
    ensures multiset(Members(Enter(room.pool, m, score)))
         == multiset(Members(room.pool)) + (if Has(room.pool, m) then multiset{} else multiset{m})
  {
    hide Enter, Members, Sorted, Distinct;
    EnterQueue(room.pool, m, score);
  }

  lemma ArriveKeeps(h: Hall, rate: int, mv: Move)
    requires rate > 0 && HallInv(h, rate) && mv.Arrive?
    ensures HallInv(Go(h, rate, mv), rate)
  {
    hide Enter, Without, Has, ScoresBelow, Conserved;
    ArriveOrderly(h.room, mv.m, h.clock, mv.preSale, mv.score);
    ArriveConserves(h, rate, mv);
    if |h.room.active| > 0 || !mv.preSale {
      JoinActiveScores(h.room.active, mv.m, h.clock, h.debt);
    }
    hide Orderly;
  }

  lemma NumberedQueue(ms: seq<Member>, now: int, debt: int)
    requires debt >= 0
    ensures Members(Numbered(ms, now)) == ms && Sorted(Numbered(ms, now))
    ensures ScoresBelow(Numbered(ms, now), now + |ms| + debt)
  {
  }

  lemma StartSaleKeeps(h: Hall, rate: int, draws: seq<nat>)
    requires rate > 0 && HallInv(h, rate) && Draws(draws, |h.room.pool|)
    ensures HallInv(h.(room := MaybeShuffle(h.room, h.clock, draws)), rate)
  {
    if h.room.pool != [] && h.room.active == [] {
      var ms := Members(h.room.pool);
      var shuffled := Shuffled(ms, draws);
      ShuffledPermutes(ms, draws);
      PermutationDistinct(ms, shuffled);
      NumberedQueue(shuffled, h.clock, h.debt);
      assert Members([]) == [];
      hide Shuffled, Numbered;
    }
  }

  /** Admission takes a prefix of the sorted queue, and charges the bucket for exactly those it takes. */
  lemma AdmitTakesFront(room: Room, now: int, batch: int, rate: int)
    requires rate > 0 && room.active != [] && Sorted(room.active)
    ensures var want := Want(batch, |room.active|);
            var (r, reply) := AdmitFrom(room, now, batch, rate);
            var (bucket, verdict) := Consume(room.bucket, rate, want, now);
            && 1 <= want <= |room.active| && want <= DEFAULT_BATCH
            && (reply.Admitted? <==> verdict.allowed)
            && r.pool == room.pool && r.bucket == Some(bucket)
            && (if verdict.allowed then reply.users == Members(room.active[..want]) && r.active == room.active[want..]
                else r.active == room.active && reply.RateLimited?)
  {
    SortOfSorted(room.active);
  }

  lemma FrontAndRest(active: seq<Entry>, k: nat, bound: int)
    requires k <= |active| && Sorted(active) && Distinct(Members(active)) && ScoresBelow(active, bound)
    ensures Members(active) == Members(active[..k]) + Members(active[k..])
    ensures multiset(Members(active)) == multiset(Members(active[..k])) + multiset(Members(active[k..]))
    ensures Sorted(active[k..]) && Distinct(Members(active[k..])) && ScoresBelow(active[k..], bound)
    ensures forall m :: m in Members(active[k..]) ==> m in Members(active)
  {
    hide Members;
    assert active == active[..k] + active[k..];
    MembersConcat(active[..k], active[k..]);
    RestIsDistinct(Members(active[..k]), Members(active[k..]));
    RestIsSorted(active, k, bound);
    hide Sorted, ScoresBelow, Distinct;
  }

  lemma RestIsSorted(active: seq<Entry>, k: nat, bound: int)
    requires k <= |active| && Sorted(active) && ScoresBelow(active, bound)
    ensures Sorted(active[k..]) && ScoresBelow(active[k..], bound)
  {
  }

  lemma RestIsDistinct<T>(front: seq<T>, rest: seq<T>)
    requires Distinct(front + rest)
    ensures Distinct(rest)
    ensures forall x :: x in rest ==> x in front + rest
  {
    forall i, j | 0 <= i < j < |rest|
      ensures rest[i] != rest[j]
    {
      assert (front + rest)[|front| + i] == rest[i] && (front + rest)[|front| + j] == rest[j];
    }
  }

  /** Taking the front out of the queue into the log. */
  lemma FrontLeaves(h: Hall, rate: int, room: Room, k: nat)
    requires rate > 0 && HallInv(h, rate) && k <= |h.room.active|
    requires room.pool == h.room.pool && room.active == h.room.active[k..] && Valid(room.bucket, rate, h.clock)
    ensures HallInv(h.(room := room, log := h.log + Members(h.room.active[..k]), debt := h.debt + k), rate)
  {
    hide Sorted, Distinct, ScoresBelow, Valid, Members;
    var front, rest := Members(h.room.active[..k]), Members(h.room.active[k..]);
    var bound := h.clock + |h.room.active| + h.debt;
    FrontAndRest(h.room.active, k, bound);
    assert h.clock + |room.active| + (h.debt + k) == bound;
    MovedMultiset(multiset(Members(h.room.pool)), front, rest, h.log);
  }

  lemma MovedMultiset(pool: multiset<Member>, front: seq<Member>, rest: seq<Member>, log: seq<Member>)
    ensures pool + multiset(rest) + multiset(log + front) == pool + (multiset(front) + multiset(rest)) + multiset(log)
  {
    assert multiset(log + front) == multiset(log) + multiset(front);
  }

  lemma SameQueue(h: Hall, rate: int, room: Room)
    requires HallInv(h, rate) && room.pool == h.room.pool && room.active == h.room.active
    requires Valid(room.bucket, rate, h.clock)
    ensures HallInv(h.(room := room), rate)
  {
    hide Sorted, Distinct, ScoresBelow, Valid, Members;
  }

  lemma AdmissionKeeps(h: Hall, rate: int, batch: int)
    requires rate > 0 && HallInv(h, rate) && h.room.active != []
    ensures var (room, reply) := AdmitFrom(h.room, h.clock, batch, rate);
            HallInv(if reply.Admitted? then h.(room := room, log := h.log + reply.users, debt := h.debt + |reply.users|)
                    else h.(room := room), rate)
  {
    hide HallInv, AdmitFrom, Consume, Sorted, Want, Valid;
    HallInvParts(h, rate);
    var want := Want(batch, |h.room.active|);
    AdmitTakesFront(h.room, h.clock, batch, rate);
    ConsumeKeepsValid(h.room.bucket, rate, want, h.clock);
    var (room, reply) := AdmitFrom(h.room, h.clock, batch, rate);
    if reply.Admitted? {
      FrontLeaves(h, rate, room, want);
    } else {
      SameQueue(h, rate, room);
    }
  }

  lemma TickKeeps(h: Hall, rate: int, mv: Move)
    requires rate > 0 && HallInv(h, rate) && (mv.Tick? || mv.BucketLost?) && Enabled(h, mv)
    ensures HallInv(Go(h, rate, mv), rate)
  {
  }

  lemma GoKeeps(h: Hall, rate: int, mv: Move)
    requires rate > 0 && HallInv(h, rate) && Enabled(h, mv)
    ensures HallInv(Go(h, rate, mv), rate)
  {
    hide HallInv, MaybeShuffle, AdmitFrom;
    match mv
    case Arrive(_, _, _) => ArriveKeeps(h, rate, mv);
    case StartSale(draws) => StartSaleKeeps(h, rate, draws);
    case Admission(batch, draws) =>
      StartSaleKeeps(h, rate, draws);
      var g := h.(room := MaybeShuffle(h.room, h.clock, draws));
      if g.room.active != [] {
        AdmissionKeeps(g, rate, batch);
      }
    case _ => TickKeeps(h, rate, mv);
  }

  /**
   In every reachable state pool and active queue are duplicate-free, disjoint and sorted by score;
   pool, active queue and admissions together hold every effective join exactly once; and every
   active score lies below clock + length + debt.
   */
  lemma {:induction false} HallInvAlways(hs: seq<Hall>, rate: int, mvs: seq<Move>, i: nat)
    requires rate > 0 && IsRun(hs, rate, mvs) && i <= |mvs| && HallInv(hs[0], rate)
    ensures HallInv(hs[i], rate)
  {
    hide HallInv, Go;
    if i > 0 {
      HallInvAlways(hs, rate, mvs, i - 1);
      GoKeeps(hs[i - 1], rate, mvs[i - 1]);
    }
  }

  /** Runs start in an empty room. */
  lemma EmptyHallIsOrderly(rate: int, now: int)
    requires rate > 0
    ensures HallInv(Hall(Room([], [], 0, None), [], multiset{}, now, 0), rate)
  {
  }

  // ---- Who is served when

  /** Everyone in the order of service: those admitted, then the active queue. */
  function Line(h: Hall): seq<Member> {
    h.log + Members(h.room.active)
  }

  /** The move brings a new member into the active queue. */
  predicate Queues(h: Hall, mv: Move) {
    mv.Arrive? && (|h.room.active| > 0 || !mv.preSale) && !Has(h.room.active, mv.m)
  }

  /** Nobody in the active queue scores higher than a newcomer would now. */
  ghost predicate TailIsFree(h: Hall) {
    forall i :: 0 <= i < |h.room.active| ==> h.room.active[i].s <= h.clock + |h.room.active|
  }

  /** Once the debt is paid off, the tail is free. */
  lemma NoDebtFreesTail(h: Hall, rate: int)
    requires rate > 0 && HallInv(h, rate) && h.debt == 0
    ensures TailIsFree(h)
  {
  }

  /** A prefix of a line stays one under an insertion only if nobody is overtaken. */
  lemma SplicePrefix(log: seq<Member>, ms: seq<Member>, k: nat, m: Member)
    requires k <= |ms| && m !in ms
    ensures log + ms <= log + Splice(ms, k, m) <==> k == |ms|
    ensures log <= log + Splice(ms, k, m)
  {
    if k < |ms| {
      assert (log + ms)[|log| + k] == ms[k] && (log + Splice(ms, k, m))[|log| + k] == m;
      assert ms[k] in ms;
    } else {
      assert Splice(ms, k, m) == ms + [m];
      assert log + Splice(ms, k, m) == (log + ms) + [m];
    }
  }

  lemma ArriveEffect(h: Hall, rate: int, mv: Move)
    requires rate > 0 && mv.Arrive? && Sorted(h.room.active)
    ensures var g := Go(h, rate, mv);
            && g.log == h.log && g.clock == h.clock
            && g.room.active
               == if Queues(h, mv) then Insert(h.room.active, Entry(mv.m, h.clock + |h.room.active|)) else h.room.active
  {
    EnterSorted(h.room.active, mv.m, h.clock + |h.room.active|);
    hide Enter, Insert, Without;
  }

  lemma ArriveLine(h: Hall, rate: int, mv: Move)
    requires rate > 0 && HallInv(h, rate) && mv.Arrive?
    ensures Line(h) <= Line(Go(h, rate, mv)) <==> (Queues(h, mv) ==> TailIsFree(h))
    ensures Go(h, rate, mv).log == h.log
  {
    hide Go, Insert, Splice, Sorted, Distinct, Has;
    var active := h.room.active;
    HasMembers(active, mv.m);
    ArriveEffect(h, rate, mv);
    if Queues(h, mv) {
      var k := InsertMembers(active, Entry(mv.m, h.clock + |active|));
      SplicePrefix(h.log, Members(active), k, mv.m);
    }
  }

  lemma AdmissionLine(h: Hall, rate: int, batch: int)
    requires rate > 0 && HallInv(h, rate) && h.room.active != []
    ensures var (room, reply) := AdmitFrom(h.room, h.clock, batch, rate);
            && (reply.Admitted? ==> h.log + reply.users + Members(room.active) == Line(h))
            && (!reply.Admitted? ==> h.log + Members(room.active) == Line(h))
  {
    hide AdmitFrom, Consume, Sorted, Distinct, ScoresBelow, Want, Valid, Members;
    var want := Want(batch, |h.room.active|);
    AdmitTakesFront(h.room, h.clock, batch, rate);
    FrontAndRest(h.room.active, want, h.clock + |h.room.active| + h.debt);
    assert h.log + Members(h.room.active[..want]) + Members(h.room.active[want..]) == h.log + Members(h.room.active);
  }

  lemma StartSaleLine(h: Hall, draws: seq<nat>)
    requires Draws(draws, |h.room.pool|)
    ensures Line(h) <= Line(h.(room := MaybeShuffle(h.room, h.clock, draws)))
  {
    hide Shuffled;
  }

  /**
   A move overtakes nobody, neither in the admissions so far nor in the active queue, if and only if
   it is not the arrival of a newcomer in front of a higher score.
   */
  lemma MoveKeepsLine(h: Hall, rate: int, mv: Move)
    requires rate > 0 && HallInv(h, rate) && Enabled(h, mv)
    ensures Line(h) <= Line(Go(h, rate, mv)) <==> (Queues(h, mv) ==> TailIsFree(h))
    ensures h.log <= Go(h, rate, mv).log
  {
    hide HallInv, MaybeShuffle, AdmitFrom, TailIsFree, Join, Line;
    match mv
    case Arrive(_, _, _) => ArriveLine(h, rate, mv);
    case StartSale(draws) => StartSaleLine(h, draws);
    case Admission(batch, draws) =>
      StartSaleLine(h, draws);
      StartSaleKeeps(h, rate, draws);
      var g := h.(room := MaybeShuffle(h.room, h.clock, draws));
      if g.room.active != [] {
        AdmissionLine(g, rate, batch);
      }
      LineIs(h.(room := Admit(h.room, h.clock, batch, rate, draws).0));
      LineIs(Go(h, rate, mv));
    case _ =>
      LineIs(h);
      LineIs(Go(h, rate, mv));
  }

  lemma LineIs(h: Hall)
    ensures Line(h) == h.log + Members(h.room.active)
  {
  }

  /** Every newcomer to the active queue finds the tail free. */
  ghost predicate TailJoins(hs: seq<Hall>, rate: int, mvs: seq<Move>)
    requires rate > 0 && IsRun(hs, rate, mvs)
  {
    forall i :: 0 <= i < |mvs| && Queues(hs[i], mvs[i]) ==> TailIsFree(hs[i])
  }

  /** First come, first served: in such a run the line only ever grows at its end. */
  lemma {:induction false} FirstComeFirstServed(hs: seq<Hall>, rate: int, mvs: seq<Move>, i: nat, j: nat)
    requires rate > 0 && IsRun(hs, rate, mvs) && HallInv(hs[0], rate) && TailJoins(hs, rate, mvs) && i <= j <= |mvs|
    ensures Line(hs[i]) <= Line(hs[j]) && hs[i].log <= hs[j].log
    decreases j
  {
    hide HallInv, Go, Line, TailIsFree, Queues;
    if i < j {
      FirstComeFirstServed(hs, rate, mvs, i, j - 1);
      HallInvAlways(hs, rate, mvs, j - 1);
      MoveKeepsLine(hs[j - 1], rate, mvs[j - 1]);
    }
  }

  /** The move puts a newcomer in front of whoever has this place in the line, which starts with the first admission. */
  predicate PutsInFront(h: Hall, mv: Move, place: nat) {
    && Queues(h, mv) && |h.log| <= place < |h.log| + |h.room.active|
    && h.room.active[place - |h.log|].s > h.clock + |h.room.active|
  }

  /** How many newcomers the run put in front of whoever had this place at `i`. */
  function Overtakers(hs: seq<Hall>, mvs: seq<Move>, i: nat, j: nat, place: nat): nat
    requires i <= j <= |mvs| && |hs| == |mvs| + 1
    decreases j
  {
    if i == j then 0
    else
      var n := Overtakers(hs, mvs, i, j - 1, place);
      n + if PutsInFront(hs[j - 1], mvs[j - 1], place + n) then 1 else 0
  }

  /** The member has this place in the line and no other from `from` on. */
  ghost predicate HasPlace(line: seq<Member>, m: Member, from: nat, place: nat) {
    place < |line| && line[place] == m && forall t :: from <= t < place ==> line[t] != m
  }

  lemma PrefixKeepsPlace(a: seq<Member>, b: seq<Member>, m: Member, from: nat, place: nat)
    requires HasPlace(a, m, from, place) && a <= b
    ensures HasPlace(b, m, from, place)
  {
  }

  lemma SpliceMovesPlace(log: seq<Member>, ms: seq<Member>, k: nat, x: Member, m: Member, from: nat, place: nat)
    requires k <= |ms| && from <= |log| && x !in ms && HasPlace(log + ms, m, from, place)
    ensures HasPlace(log + Splice(ms, k, x), m, from, if place < |log| + k then place else place + 1)
  {
    var a, b := log + ms, log + Splice(ms, k, x);
    assert forall t :: 0 <= t < |log| + k ==> b[t] == a[t];
    assert forall t :: |log| + k < t < |b| ==> b[t] == a[t - 1];
    assert b[|log| + k] == x;
    if place >= |log| + k {
      assert m == ms[place - |log|];
    }
    hide Splice;
  }

  lemma ArrivalMovesPlace(h: Hall, rate: int, mv: Move, m: Member, from: nat, place: nat)
    requires rate > 0 && HallInv(h, rate) && Queues(h, mv) && from <= |h.log| && HasPlace(Line(h), m, from, place)
    ensures HasPlace(Line(Go(h, rate, mv)), m, from, if PutsInFront(h, mv, place) then place + 1 else place)
  {
    hide Go, Insert, Splice, Distinct, HasPlace;
    var active := h.room.active;
    var e := Entry(mv.m, h.clock + |active|);
    HasMembers(active, mv.m);
    ArriveEffect(h, rate, mv);
    var k := InsertSplices(active, e);
    assert forall i :: 0 <= i < k ==> active[i].s <= e.s;
    SpliceMembers(active, k, e);
    PlaceInLine(h, m, from, place);
    SpliceMovesPlace(h.log, Members(active), k, mv.m, m, from, place);
  }

  lemma PlaceInLine(h: Hall, m: Member, from: nat, place: nat)
    requires HasPlace(Line(h), m, from, place)
    ensures place < |h.log| + |h.room.active|
  {
  }

  lemma MoveMovesPlace(h: Hall, rate: int, mv: Move, m: Member, from: nat, place: nat)
    requires rate > 0 && HallInv(h, rate) && Enabled(h, mv) && from <= |h.log| && HasPlace(Line(h), m, from, place)
    ensures HasPlace(Line(Go(h, rate, mv)), m, from, if PutsInFront(h, mv, place) then place + 1 else place)
  {
    hide HallInv, Go, Line, HasPlace, Queues, TailIsFree;
    if Queues(h, mv) {
      ArrivalMovesPlace(h, rate, mv, m, from, place);
    } else {
      MoveKeepsLine(h, rate, mv);
      PrefixKeepsPlace(Line(h), Line(Go(h, rate, mv)), m, from, place);
    }
  }

  lemma StartingPlace(h: Hall, rate: int, p: nat)
    requires rate > 0 && HallInv(h, rate) && p < |h.room.active|
    ensures HasPlace(Line(h), h.room.active[p].m, |h.log|, |h.log| + p)
  {
    var ms := Members(h.room.active);
    assert forall t :: 0 <= t < p ==> ms[t] != ms[p];
    assert forall t :: |h.log| <= t < |h.log| + |ms| ==> Line(h)[t] == ms[t - |h.log|];
  }

  /** Over any run a member keeps its place in the line but for the newcomers put in front of it while it waits. */
  lemma {:induction false} PlaceOverRuns(hs: seq<Hall>, rate: int, mvs: seq<Move>, i: nat, j: nat, p: nat)
    requires rate > 0 && IsRun(hs, rate, mvs) && HallInv(hs[0], rate) && i <= j <= |mvs| && p < |hs[i].room.active|
    ensures |hs[i].log| <= |hs[j].log|
    ensures var place := |hs[i].log| + p;
            HasPlace(Line(hs[j]), hs[i].room.active[p].m, |hs[i].log|, place + Overtakers(hs, mvs, i, j, place))
    decreases j
  {
    hide HallInv, Go, Line, HasPlace, PutsInFront, TailIsFree, Queues;
    if i == j {
      HallInvAlways(hs, rate, mvs, i);
      StartingPlace(hs[i], rate, p);
    } else {
      PlaceOverRuns(hs, rate, mvs, i, j - 1, p);
      HallInvAlways(hs, rate, mvs, j - 1);
      MoveKeepsLine(hs[j - 1], rate, mvs[j - 1]);
      var place := |hs[i].log| + p;
      MoveMovesPlace(hs[j - 1], rate, mvs[j - 1], hs[i].room.active[p].m, |hs[i].log|,
          place + Overtakers(hs, mvs, i, j - 1, place));
    }
  }

  /**
   Over any run: whoever stands behind exactly `p` others, and in front of whom `n` newcomers were put
   since, is the (p+n+1)-th to be admitted from then on, and until then stands behind those of the
   p + n that still wait. So the position told was exact if and only if nobody was put in front.
   */
  lemma PositionExactly(hs: seq<Hall>, rate: int, mvs: seq<Move>, i: nat, j: nat, p: nat)
    requires rate > 0 && IsRun(hs, rate, mvs) && HallInv(hs[0], rate) && i <= j <= |mvs| && p < |hs[i].room.active|
    ensures var m := hs[i].room.active[p].m;
            var n := Overtakers(hs, mvs, i, j, |hs[i].log| + p);
            var served := |hs[j].log| - |hs[i].log|;
            && served >= 0
            && (if served > p + n then hs[j].log[|hs[i].log| + p + n] == m
                else p + n - served < |hs[j].room.active| && hs[j].room.active[p + n - served].m == m)
            && |hs[i].log| + p < |Line(hs[j])|
            && (Line(hs[j])[|hs[i].log| + p] == m <==> n == 0)
  {
    hide IsRun, HallInv, Overtakers;
    PlaceOverRuns(hs, rate, mvs, i, j, p);
  }

  lemma {:induction false} NoOvertakers(hs: seq<Hall>, rate: int, mvs: seq<Move>, i: nat, j: nat, place: nat)
    requires rate > 0 && IsRun(hs, rate, mvs) && TailJoins(hs, rate, mvs) && i <= j <= |mvs|
    ensures Overtakers(hs, mvs, i, j, place) == 0
    decreases j
  {
    hide Go, Queues;
    if i < j {
      NoOvertakers(hs, rate, mvs, i, j - 1, place);
    }
  }

  /**
   The position is exact: in such a run, whoever stands behind exactly `p` others in the active queue
   is the (p+1)-th to be admitted from then on, and until then stands behind those of the `p` that
   are still waiting.
   */
  lemma PositionIsExact(hs: seq<Hall>, rate: int, mvs: seq<Move>, i: nat, j: nat, p: nat)
    requires rate > 0 && IsRun(hs, rate, mvs) && HallInv(hs[0], rate) && TailJoins(hs, rate, mvs) && i <= j <= |mvs|
    requires p < |hs[i].room.active|
    ensures var m := hs[i].room.active[p].m;
            var served := |hs[j].log| - |hs[i].log|;
            if served > p then hs[j].log[|hs[i].log| + p] == m
            else p - served < |hs[j].room.active| && hs[j].room.active[p - served].m == m
  {
    assert |hs| == |mvs| + 1;
    hide IsRun, HallInv, TailJoins, Line, Overtakers;
    NoOvertakers(hs, rate, mvs, i, j, |hs[i].log| + p);
    PositionExactly(hs, rate, mvs, i, j, p);
  }

  lemma {:induction false} IndexInFinds(entries: seq<Entry>, m: Member, i: nat)
    requires i <= |entries| && exists k :: i <= k < |entries| && entries[k].m == m
    ensures var k := IndexIn(entries, m, i);
            i <= k < |entries| && entries[k].m == m && forall j :: i <= j < k ==> entries[j].m != m
    decreases |entries| - i
  {
    if entries[i].m != m {
      IndexInFinds(entries, m, i + 1);
    }
  }

  /** A newcomer who finds the tail free is told the length of the queue, anybody else the place reached within it. */
  lemma ReportedPosition(h: Hall, rate: int, mv: Move)
    requires rate > 0 && HallInv(h, rate) && Queues(h, mv)
    ensures var active := Go(h, rate, mv).room.active;
            var p := JoinPosition(h.room, mv.m, h.clock, mv.preSale, mv.score);
            && 1 <= p <= |active| == |h.room.active| + 1 && active[p - 1].m == mv.m
            && (p == |h.room.active| + 1 <==> TailIsFree(h))
  {
    hide Insert, Splice, Sorted, IndexIn, Join;
    HallInvParts(h, rate);
    ArriveEffect(h, rate, mv);
    assert JoinPosition(h.room, mv.m, h.clock, mv.preSale, mv.score)
        == IndexIn(Go(h, rate, mv).room.active, mv.m, 0) + 1;
    hide Go, JoinPosition;
    var active := h.room.active;
    var e := Entry(mv.m, h.clock + |active|);
    var k := InsertMembers(active, e);
    var r := Insert(active, e);
    assert r[k].m == mv.m;
    IndexInFinds(r, mv.m, 0);
    var p := IndexIn(r, mv.m, 0);
    assert Distinct(Members(r));
    assert Members(r)[p] == Members(r)[k];
  }

  /**
   What shuffle and admission in one call leave waiting, of which `k` were admitted: the rest, with consecutive
   scores.
   */
  lemma AfterShuffle(h: Hall, rate: int, batch: int, draws: seq<nat>)
    requires rate > 0 && HallInv(h, rate) && Enabled(h, Admission(batch, draws)) && h.room.pool != []
        && h.room.active == []
    ensures var g := Go(h, rate, Admission(batch, draws));
            var k, active := |g.log| - |h.log|, g.room.active;
            && 0 <= k && |active| == |h.room.pool| - k && g.clock == h.clock
            && forall i :: 0 <= i < |active| ==> active[i].s == h.clock + k + i
  {
    StartSaleKeeps(h, rate, draws);
    var f := h.(room := MaybeShuffle(h.room, h.clock, draws));
    var ms := Shuffled(Members(h.room.pool), draws);
    assert f.room.active == Numbered(ms, h.clock);
    NumberedScores(ms, h.clock);
    hide HallInv, Consume, Shuffled, Numbered, MaybeShuffle;
    HallInvParts(f, rate);
    AdmitTakesFront(f.room, f.clock, batch, rate);
  }

  lemma NumberedScores(ms: seq<Member>, now: int)
    ensures forall i :: 0 <= i < |ms| ==> Numbered(ms, now)[i].s == now + i
  {
  }

  /**
   A newcomer right after a shuffle that admitted `k` users in the same call, within the millisecond,
   lands last if and only if at most one was admitted or nobody is left; otherwise the newcomer
   overtakes the last k - 1 of those still waiting, or all of them when they are fewer.
   */
  lemma OvertakingAfterShuffle(h: Hall, rate: int, batch: int, draws: seq<nat>, arrive: Move)
    requires rate > 0 && HallInv(h, rate) && Enabled(h, Admission(batch, draws)) && h.room.pool != []
        && h.room.active == []
    requires Queues(Go(h, rate, Admission(batch, draws)), arrive)
    ensures var g := Go(h, rate, Admission(batch, draws));
            var k, active := |g.log| - |h.log|, g.room.active;
            var overtaken := if k <= 1 then 0 else if k - 1 < |active| then k - 1 else |active|;
            && |active| == |h.room.pool| - k
            && (TailIsFree(g) <==> k <= 1 || active == [])
            && Go(g, rate, arrive).room.active
                == Splice(active, |active| - overtaken, Entry(arrive.m, g.clock + |active|))
  {
    hide Go, HallInv, Insert, Splice, TailIsFree, Sorted, Queues, Enabled;
    var g := Go(h, rate, Admission(batch, draws));
    var first, active := h.clock + |g.log| - |h.log|, g.room.active;
    AfterShuffle(h, rate, batch, draws);
    GoKeeps(h, rate, Admission(batch, draws));
    HallInvParts(g, rate);
    NotQueues(g, arrive);
    ArriveEffect(g, rate, arrive);
    LandsBehind(active, first, Entry(arrive.m, g.clock + |active|));
    if active == [] { NobodyWaits(g); } else { ConsecutiveTail(g, first); }
  }

  lemma NobodyWaits(h: Hall)
    requires h.room.active == []
    ensures TailIsFree(h)
  {
  }

  lemma ConsecutiveTail(h: Hall, first: int)
    requires h.room.active != [] && forall i :: 0 <= i < |h.room.active| ==> h.room.active[i].s == first + i
    ensures TailIsFree(h) <==> first <= h.clock + 1
  {
    assert h.room.active[|h.room.active| - 1].s == first + |h.room.active| - 1;
  }

  /** In a queue with consecutive scores an entry lands behind everything that scores at most as high. */
  lemma LandsBehind(active: seq<Entry>, first: int, e: Entry)
    requires forall i :: 0 <= i < |active| ==> active[i].s == first + i
    ensures var behind := e.s - first + 1;
            var k := if behind < 0 then 0 else if behind < |active| then behind else |active|;
            Insert(active, e) == Splice(active, k, e)
  {
    var p := InsertSplices(active, e);
    hide Insert, Splice;
    assert p < |active| ==> active[p].s > e.s;
  }

  // ---- Nobody leaves the active queue except by admission

  lemma MoveLosesNobody(h: Hall, rate: int, mv: Move, m: Member)
    requires rate > 0 && HallInv(h, rate) && Enabled(h, mv) && m in Members(h.room.active)
    ensures var g := Go(h, rate, mv);
            m in Members(g.room.active) || m in g.log[|h.log|..]
  {
    hide HallInv, Go, Insert, Members, Line, Queues;
    MoveKeepsLine(h, rate, mv);
    var g := Go(h, rate, mv);
    if mv.Arrive? {
      HallInvParts(h, rate);
      ArriveEffect(h, rate, mv);
      if Queues(h, mv) { InsertStays(h.room.active, Entry(mv.m, h.clock + |h.room.active|), m); }
    } else {
      assert Line(h) <= Line(g) by { assert !Queues(h, mv) by { NotQueues(h, mv); } }
      LineIs(h);
      LineIs(g);
      PrefixKeeps(h.log, Members(h.room.active), g.log, Members(g.room.active), m);
    }
  }

  lemma NotQueues(h: Hall, mv: Move)
    ensures Queues(h, mv) ==> mv.Arrive?
  {
  }

  lemma PrefixKeeps(log: seq<Member>, ms: seq<Member>, log': seq<Member>, ms': seq<Member>, m: Member)
    requires log + ms <= log' + ms' && log <= log' && m in ms
    ensures m in ms' || m in log'[|log|..]
  {
    var i :| 0 <= i < |ms| && ms[i] == m;
    assert (log + ms)[|log| + i] == m;
    assert (log' + ms')[|log| + i] == m;
    if |log| + i < |log'| {
      assert log'[|log|..][i] == m;
    } else {
      assert ms'[|log| + i - |log'|] == m;
    }
  }

  lemma InsertStays(entries: seq<Entry>, e: Entry, m: Member)
    requires Sorted(entries) && m in Members(entries)
    ensures m in Members(Insert(entries, e))
  {
    var k := InsertSplices(entries, e);
    SpliceMembers(entries, k, e);
    var ms := Members(entries);
    var i :| 0 <= i < |ms| && ms[i] == m;
    assert Splice(ms, k, e.m)[if i < k then i else i + 1] == m;
    hide Insert, Splice;
  }

  // ---- The watermark

  /** The move turns the pool into the active queue, which resets the watermark. */
  predicate Shuffles(h: Hall, mv: Move) {
    (mv.StartSale? || mv.Admission?) && h.room.pool != [] && h.room.active == []
  }

  lemma MoveWatermark(h: Hall, rate: int, mv: Move)
    requires rate > 0 && HallInv(h, rate) && Enabled(h, mv)
    ensures var g := Go(h, rate, mv);
            g.room.watermark == (if Shuffles(h, mv) then 0 else h.room.watermark) + |g.log| - |h.log|
  {
    hide HallInv, Consume, Enter, Without, Shuffled, Numbered;
    if mv.Admission? {
      StartSaleKeeps(h, rate, mv.draws);
      var g := h.(room := MaybeShuffle(h.room, h.clock, mv.draws));
      if g.room.active != [] {
        HallInvParts(g, rate);
        AdmitTakesFront(g.room, h.clock, mv.batch, rate);
      }
    }
  }

  /** Between two shuffles the watermark counts the users admitted. */
  lemma {:induction false} WatermarkCountsAdmissions(hs: seq<Hall>, rate: int, mvs: seq<Move>, i: nat, j: nat)
    requires rate > 0 && IsRun(hs, rate, mvs) && HallInv(hs[0], rate) && i <= j <= |mvs|
    requires forall k :: i <= k < j ==> !Shuffles(hs[k], mvs[k])
    ensures hs[j].room.watermark - hs[i].room.watermark == |hs[j].log| - |hs[i].log|
    decreases j
  {
    hide HallInv, Go, Shuffles;
    if i < j {
      WatermarkCountsAdmissions(hs, rate, mvs, i, j - 1);
      HallInvAlways(hs, rate, mvs, j - 1);
      MoveWatermark(hs[j - 1], rate, mvs[j - 1]);
    }
  }

  // ---- The admission rate

  /** One move admits at most what the bucket's level pays for, and only the clock refills it. */
  lemma MoveSpends(h: Hall, rate: int, mv: Move)
    requires rate > 0 && HallInv(h, rate) && Enabled(h, mv)
    ensures var g := Go(h, rate, mv);
            MS_PER_SEC * (|g.log| - |h.log|) + Level(g.room.bucket, rate, g.clock)
              <= Level(h.room.bucket, rate, h.clock) + rate * (g.clock - h.clock)
  {
    hide HallInv, Level, Consume, MaybeShuffle, AdmitFrom, Join;
    HallInvParts(h, rate);
    match mv
    case Admission(batch, draws) =>
      StartSaleKeeps(h, rate, draws);
      var g := h.(room := MaybeShuffle(h.room, h.clock, draws));
      ShuffleKeepsBucket(h.room, h.clock, draws);
      if g.room.active != [] {
        HallInvParts(g, rate);
        AdmitTakesFront(g.room, h.clock, batch, rate);
        var want := Want(batch, |g.room.active|);
        ChargeIsTaken(g.room.bucket, rate, want, h.clock);
        ConsumeKeepsValid(g.room.bucket, rate, want, h.clock);
        LevelNow(Consume(g.room.bucket, rate, want, h.clock).0, rate, h.clock);
      }
    case Tick(ms) => LevelLater(h.room.bucket, rate, h.clock, h.clock + ms);
    case BucketLost =>
      LossIsForgotten(h.room.bucket, rate, h.clock);
      assert Level(None, rate, h.clock) == Level(h.room.bucket, rate, h.clock);
    case StartSale(draws) => ShuffleKeepsBucket(h.room, h.clock, draws);
    case Arrive(m, preSale, score) => JoinKeepsBucket(h.room, m, h.clock, preSale, score);
  }

  lemma HallInvParts(h: Hall, rate: int)
    requires rate > 0 && HallInv(h, rate)
    ensures Valid(h.room.bucket, rate, h.clock) && Sorted(h.room.active)
  {
  }

  lemma ShuffleKeepsBucket(room: Room, now: int, draws: seq<nat>)
    requires Draws(draws, |room.pool|)
    ensures MaybeShuffle(room, now, draws).bucket == room.bucket
  {
  }

  lemma JoinKeepsBucket(room: Room, m: Member, now: int, preSale: bool, score: int)
    ensures Join(room, m, now, preSale, score).bucket == room.bucket
  {
  }

  lemma LevelNow(b: Bucket, rate: int, now: int)
    requires rate > 0 && b.last == now && b.tokens <= Capacity(rate)
    ensures Level(Some(b), rate, now) == b.tokens
  {
  }

  lemma LevelLater(b: Option<Bucket>, rate: int, now: int, later: int)
    requires rate > 0 && Valid(b, rate, now) && now <= later
    ensures Level(b, rate, later) <= Level(b, rate, now) + rate * (later - now)
  {
    if b.Some? {
      Stretch(rate, b.value.last, now, later);
    }
    assert rate * (later - now) >= 0;
  }

  lemma {:induction false} RunSpends(hs: seq<Hall>, rate: int, mvs: seq<Move>, i: nat, j: nat)
    requires rate > 0 && IsRun(hs, rate, mvs) && HallInv(hs[0], rate) && i <= j <= |mvs|
    ensures MS_PER_SEC * (|hs[j].log| - |hs[i].log|) + Level(hs[j].room.bucket, rate, hs[j].clock)
              <= Level(hs[i].room.bucket, rate, hs[i].clock) + rate * (hs[j].clock - hs[i].clock)
    decreases j
  {
    hide HallInv, Go, Level;
    if i < j {
      RunSpends(hs, rate, mvs, i, j - 1);
      HallInvAlways(hs, rate, mvs, j - 1);
      MoveSpends(hs[j - 1], rate, mvs[j - 1]);
      Stretch(rate, hs[i].clock, hs[j - 1].clock, hs[j].clock);
    }
  }

  /**
   The rate bound over any run, joins, shuffles, refusals and lost bucket states included: between any
   two states the users admitted number at most the rate plus the rate times the seconds between them.
   */
  lemma AdmissionsAreRateBounded(hs: seq<Hall>, rate: int, mvs: seq<Move>, i: nat, j: nat)
    requires rate > 0 && IsRun(hs, rate, mvs) && HallInv(hs[0], rate) && i <= j <= |mvs|
    ensures MS_PER_SEC * (|hs[j].log| - |hs[i].log|) <= MS_PER_SEC * rate + rate * (hs[j].clock - hs[i].clock)
  {
    hide HallInv, Go, Level;
    RunSpends(hs, rate, mvs, i, j);
    HallInvAlways(hs, rate, mvs, i);
    HallInvAlways(hs, rate, mvs, j);
    HallInvParts(hs[i], rate);
    HallInvParts(hs[j], rate);
    LevelIsBounded(hs[i].room.bucket, rate, hs[i].clock);
    LevelIsBounded(hs[j].room.bucket, rate, hs[j].clock);
  }

  /**
   An admission call that asks for more users than the rate is refused at every moment and in every
   state of the bucket. With a rate below the default batch this is every default call while more
   users than the rate are waiting.
   */
  lemma OversizedBatchNeverAdmits(room: Room, now: int, batch: int, rate: int)
    requires rate > 0 && room.active != []
    ensures Want(batch, |room.active|) > rate ==> AdmitFrom(room, now, batch, rate).1.RateLimited?
    ensures batch == 0 && rate < DEFAULT_BATCH && |room.active| > rate
        ==> AdmitFrom(room, now, batch, rate).1.RateLimited?
  {
    TooMuchNeverSucceeds(room.bucket, rate, Want(batch, |room.active|), now);
  }
}
