/**
 The virtual waiting room on its key-value store: the pre-sale pool, the shuffle that turns it into
 the active queue, joins, and batch admission through the token bucket. Each handler is one step at
 one reading of the clock; scores are whole numbers.
 */
module WaitingRoom {
  import opened Collections
  import opened Shuffle
  import opened TokenBucket

  const DEFAULT_BATCH := 2000

  datatype Member = Member(id: string)

  datatype Entry = Entry(m: Member, s: int)

  datatype Room = Room(pool: seq<Entry>, active: seq<Entry>, watermark: int, bucket: Option<Bucket>)

  function Members(entries: seq<Entry>): (ms: seq<Member>)
    ensures |ms| == |entries|
    ensures forall i :: 0 <= i < |ms| ==> ms[i] == entries[i].m
  {
    seq(|entries|, i requires 0 <= i < |entries| => entries[i].m)
  }

  predicate Has(entries: seq<Entry>, m: Member) {
    exists i :: 0 <= i < |entries| && entries[i].m == m
  }

  predicate Sorted(entries: seq<Entry>) {
    forall i, j :: 0 <= i < j < |entries| ==> entries[i].s <= entries[j].s
  }

  // ---- Array.prototype.sort by score, which is stable

  /** Puts an entry behind all entries of a sorted queue that do not score higher. */
  function Insert(entries: seq<Entry>, e: Entry): (r: seq<Entry>)
    ensures |r| == |entries| + 1
  {
    var n := |entries|;
    if n == 0 || entries[n - 1].s <= e.s then entries + [e]
    else Insert(entries[..n - 1], e) + [entries[n - 1]]
  }

  function SortByScore(entries: seq<Entry>): (r: seq<Entry>)
    ensures |r| == |entries|
  {
    if entries == [] then []
    else Insert(SortByScore(entries[..|entries| - 1]), entries[|entries| - 1])
  }

  // ---- Join

  function Without(entries: seq<Entry>, m: Member): seq<Entry> {
    if entries == [] then []
    else
      var front := Without(entries[..|entries| - 1], m);
      if entries[|entries| - 1].m == m then front else front + [entries[|entries| - 1]]
  }

  /** Appends the member under the given score unless present, and sorts. */
  function Enter(entries: seq<Entry>, m: Member, score: int): seq<Entry> {
    SortByScore(if Has(entries, m) then entries else entries + [Entry(m, score)])
  }

  function Join(room: Room, m: Member, now: int, preSale: bool, score: int): Room {
    if |room.active| > 0 || !preSale then
      room.(active := Enter(room.active, m, now + |room.active|), pool := Without(room.pool, m))
    else
      room.(pool := Enter(room.pool, m, score))
  }

  /** The 0-based position of a member, as findIndex reports it. */
  function IndexIn(entries: seq<Entry>, m: Member, i: nat): int
    requires i <= |entries|
    decreases |entries| - i
  {
    if i == |entries| then -1
    else if entries[i].m == m then i
    else IndexIn(entries, m, i + 1)
  }

  /** The position a join reports, counted from 1, in the queue or the pool it reached. */
  function JoinPosition(room: Room, m: Member, now: int, preSale: bool, score: int): int {
    var r := Join(room, m, now, preSale, score);
    IndexIn(if |room.active| > 0 || !preSale then r.active else r.pool, m, 0) + 1
  }

  // ---- Shuffle at T-0

  function Numbered(ms: seq<Member>, now: int): (r: seq<Entry>)
    ensures |r| == |ms|
  {
    seq(|ms|, i requires 0 <= i < |ms| => Entry(ms[i], now + i))
  }

  function MaybeShuffle(room: Room, now: int, draws: seq<nat>): Room
    requires Draws(draws, |room.pool|)
  {
    if room.pool == [] || room.active != [] then room
    else room.(active := Numbered(Shuffled(Members(room.pool), draws), now), pool := [], watermark := 0)
  }

  // ---- Admission

  datatype AdmitReply =
    | QueueEmpty
    | RateLimited(retryAfterMs: Option<int>, remaining: int, queueSize: nat)
    | Admitted(users: seq<Member>, watermark: int, remaining: int)

  function Min(a: int, b: int): int {
    if a < b then a else b
  }

  /** How many users one call asks for; a batch of 0 stands for an absent one. */
  function Want(batch: int, size: nat): int {
    var asked := if batch != 0 then (if Min(DEFAULT_BATCH, batch) < 1 then 1 else Min(DEFAULT_BATCH, batch)) else 0;
    if asked > 0 then Min(asked, size) else Min(DEFAULT_BATCH, size)
  }

  /** Admission from a queue that is not empty. */
  function AdmitFrom(room: Room, now: int, batch: int, rate: int): (Room, AdmitReply)
    requires rate > 0 && room.active != []
  {
    var want := Want(batch, |room.active|);
    var (bucket, verdict) := Consume(room.bucket, rate, want, now);
    if !verdict.allowed then
      (room.(bucket := Some(bucket)), RateLimited(verdict.retryAfterMs, verdict.remaining, |room.active|))
    else
      var queue := SortByScore(room.active);
      (room.(bucket := Some(bucket), active := queue[want..], watermark := room.watermark + want),
       Admitted(Members(queue[..want]), room.watermark + want, verdict.remaining))
  }

  function Admit(room: Room, now: int, batch: int, rate: int, draws: seq<nat>): (Room, AdmitReply)
    requires rate > 0 && Draws(draws, |room.pool|)
  {
    var shuffled := MaybeShuffle(room, now, draws);
    if shuffled.active == [] then (shuffled, QueueEmpty) else AdmitFrom(shuffled, now, batch, rate)
  }

  // ---- The handlers

  class WaitingRoomWorker {
    const rate: int
    var pool: seq<Entry>
    var active: seq<Entry>
    var watermark: int
    var bucket: Option<Bucket>

    constructor (rate: int)
      ensures this.rate == rate && View() == Room([], [], 0, None)
    {
      this.rate := rate;
      pool, active, watermark, bucket := [], [], 0, None;
    }

    function View(): Room
      reads this
    {
      Room(pool, active, watermark, bucket)
    }

    method FindMember(entries: seq<Entry>, m: Member) returns (index: int)
      ensures index == IndexIn(entries, m, 0)
      ensures index == -1 <==> !Has(entries, m)
    {
      var i := 0;
      while i < |entries|
        invariant 0 <= i <= |entries|
        invariant IndexIn(entries, m, 0) == IndexIn(entries, m, i)
        invariant forall j :: 0 <= j < i ==> entries[j].m != m
      {
        if entries[i].m == m {
          return i;
        }
        i := i + 1;
      }
      return -1;
    }

    method RemoveMember(entries: seq<Entry>, m: Member) returns (r: seq<Entry>)
      ensures r == Without(entries, m)
    {
      r := [];
      var i := 0;
      while i < |entries|
        invariant 0 <= i <= |entries|
        invariant r == Without(entries[..i], m)
      {
        assert entries[..i + 1][..i] == entries[..i];
        if entries[i].m != m {
          r := r + [entries[i]];
        }
        i := i + 1;
      }
      assert entries[..i] == entries;
    }

    method HandleJoin(m: Member, now: int, preSale: bool, score: int) returns (position: int)
      modifies this
      ensures View() == Join(old(View()), m, now, preSale, score)
      ensures position == JoinPosition(old(View()), m, now, preSale, score)
    {
      var hasActive := |active| > 0;
      if hasActive || !preSale {
        var arr := active;
        var found := FindMember(arr, m);
        if found == -1 {
          arr := arr + [Entry(m, now + |arr|)];
        }
        arr := SortByScore(arr);
        active := arr;
        position := FindMember(arr, m);
        var filtered := RemoveMember(pool, m);
        pool := filtered;
      } else {
        var arr := pool;
        var found := FindMember(arr, m);
        if found == -1 {
          arr := arr + [Entry(m, score)];
        }
        arr := SortByScore(arr);
        pool := arr;
        position := FindMember(arr, m);
      }
      position := position + 1;
    }

    method MaybeShufflePool(now: int, draws: seq<nat>) returns (done: bool)
      requires Draws(draws, |pool|)
      modifies this
      ensures View() == MaybeShuffle(old(View()), now, draws)
      ensures done <==> old(pool) != [] && old(active) == []
    {
      if |pool| == 0 {
        return false;
      }
      if |active| > 0 {
        return false;
      }
      var ms := Members(pool);
      var members := new Member[|ms|](i requires 0 <= i < |ms| => ms[i]);
      assert members[..] == ms;
      ShuffleInPlace(members, draws);
      active := Numbered(members[..], now);
      pool := [];
      watermark := 0;
      return true;
    }

    method TokenBucketConsume(need: int, now: int) returns (verdict: Verdict)
      requires rate > 0
      modifies this`bucket
      ensures bucket.Some? && (bucket.value, verdict) == Consume(old(bucket), rate, need, now)
    {
      var capacity := Capacity(rate);
      var state := if bucket.Some? then bucket.value else Bucket(capacity, now);
      var tokens := Min(capacity, state.tokens + Elapsed(state.last, now) * rate);
      var price := MS_PER_SEC * need;
      if tokens < price {
        var deficit := price - tokens;
        bucket := Some(Bucket(tokens, now));
        return Verdict(false, tokens / MS_PER_SEC, Some(CeilDiv(deficit, rate)));
      }
      tokens := tokens - price;
      bucket := Some(Bucket(tokens, now));
      return Verdict(true, tokens / MS_PER_SEC, None);
    }

    method HandleAdmit(now: int, batch: int, draws: seq<nat>) returns (reply: AdmitReply)
      requires rate > 0 && Draws(draws, |pool|)
      modifies this
      ensures (View(), reply) == Admit(old(View()), now, batch, rate, draws)
    {
      var batchReq := if batch != 0 then (if Min(DEFAULT_BATCH, batch) < 1 then 1 else Min(DEFAULT_BATCH, batch))
          else 0;
      var _ := MaybeShufflePool(now, draws);
      var activeSize := |active|;
      if activeSize == 0 {
        return QueueEmpty;
      }
      var want := if batchReq > 0 then Min(batchReq, activeSize) else Min(DEFAULT_BATCH, activeSize);
      var verdict := TokenBucketConsume(want, now);
      if !verdict.allowed {
        return RateLimited(verdict.retryAfterMs, verdict.remaining, activeSize);
      }
      var raw := SortByScore(active);
      var take := raw[..want];
      active := raw[want..];
      watermark := watermark + |take|;
      return Admitted(Members(take), watermark, verdict.remaining);
    }
  }
}
