/**
 The seeding script: it creates or grows the inventory of a category and creates the missing
 ones of its numbered seats, whose numbers are padded with zeros.
 */
module Seeding {
  import opened Collections
  import opened Redis
  import opened Scripts

  const MAX_QUOTA := 50000

  datatype SeedReply =
    | Seeded(created: nat, skipped: nat, available: int, held: int, sold: int)
    | EventIdRequired
    | CategoryIdRequired
    | QuotaNotPositive
    | QuotaTooLarge

  // ---- Seat numbers

  function Digit(d: nat): char
    requires d < 10
  {
    "0123456789"[d]
  }

  function Decimal(n: nat): (s: string)
    ensures |s| > 0
  {
    if n < 10 then [Digit(n)] else Decimal(n / 10) + [Digit(n % 10)]
  }

  function Padded(num: string, pad: nat): (s: string)
    ensures |s| == if |num| < pad then pad else |num|
    decreases pad - |num|
  {
    if |num| < pad then Padded("0" + num, pad) else num
  }

  function PadWidth(quota: nat): nat {
    var width := |Decimal(quota)|;
    if width < 4 then 4 else width
  }

  function Base(event: string, cat: string, prefix: string): string {
    "seat:{" + event + "}:" + cat + ":" + prefix + "-"
  }

  function SeatName(base: string, pad: nat, i: nat): SeatKey {
    SeatKey(base + Padded(Decimal(i), pad))
  }

  function Names(base: string, pad: nat, quota: nat): seq<SeatKey> {
    seq(quota, (i: nat) => SeatName(base, pad, i + 1))
  }

  function SeedNames(base: string, quota: nat): seq<SeatKey> {
    Names(base, PadWidth(quota), quota)
  }

  // ---- The script

  const NEW_SEAT := Seat(AVAILABLE, None, None, None, None, None, 1, false)

  function SeedInventory(inv: map<Counter, int>, quota: nat): map<Counter, int> {
    if inv == map[] then map[Quota := quota, Available := quota, Held := 0, Sold := 0]
    else if quota > Read(inv, Quota) then
      inv[Quota := quota][Available := Read(inv, Available) + quota - Read(inv, Quota)]
    else inv
  }

  function SeedSeats(seats: map<SeatKey, Seat>, names: seq<SeatKey>): map<SeatKey, Seat> {
    map k | k in ToSet(names) + seats.Keys :: if k in seats then seats[k] else NEW_SEAT
  }

  /** The names that have no seat yet, and those that have one. */
  function Missing(seats: map<SeatKey, Seat>, names: seq<SeatKey>): set<SeatKey> {
    ToSet(names) - seats.Keys
  }

  function Present(seats: map<SeatKey, Seat>, names: seq<SeatKey>): set<SeatKey> {
    ToSet(names) * seats.Keys
  }

  function SeedCategory(s: Store, names: seq<SeatKey>, quota: nat): Store {
    s.(inv := SeedInventory(s.inv, quota), seats := SeedSeats(s.seats, names))
  }

  /** The store after a valid seeding call. */
  function AfterSeed(s: Store, base: string, quota: nat): Store {
    SeedCategory(s, SeedNames(base, quota), quota)
  }

  function SeedScript(s: Store, event: string, cat: string, prefix: string, quota: int): (Store, SeedReply) {
    if event == "" then (s, EventIdRequired)
    else if cat == "" then (s, CategoryIdRequired)
    else if quota <= 0 then (s, QuotaNotPositive)
    else if quota > MAX_QUOTA then (s, QuotaTooLarge)
    else
      var names := SeedNames(Base(event, cat, prefix), quota);
      var t := AfterSeed(s, Base(event, cat, prefix), quota);
      (t, Seeded(|Missing(s.seats, names)|, |Present(s.seats, names)|, Read(t.inv, Available), Read(t.inv, Held),
          Read(t.inv, Sold)))
  }

  lemma SeedOne(seats: map<SeatKey, Seat>, base: string, pad: nat, n: nat)
    ensures var k := SeatName(base, pad, n + 1);
            var names := Names(base, pad, n);
            var done := SeedSeats(seats, names);
            && (k in done <==> k in seats)
            && SeedSeats(seats, Names(base, pad, n + 1)) == (if k in done then done else done[k := NEW_SEAT])
            && k !in Missing(seats, names) && k !in Present(seats, names)
            && Missing(seats, Names(base, pad, n + 1)) == Missing(seats, names) + (if k in seats then {} else {k})
            && Present(seats, Names(base, pad, n + 1)) == Present(seats, names) + (if k in seats then {k} else {})
  {
    NamesGrow(base, pad, n);
    NameIsNew(base, pad, n);
  }

  lemma CountOne(seats: map<SeatKey, Seat>, base: string, pad: nat, n: nat)
    ensures var have := SeatName(base, pad, n + 1) in seats;
            && |Missing(seats, Names(base, pad, n + 1))|
                == |Missing(seats, Names(base, pad, n))| + (if have then 0 else 1)
            && |Present(seats, Names(base, pad, n + 1))|
                == |Present(seats, Names(base, pad, n))| + (if have then 1 else 0)
  {
    hide Names, SeatName, Missing, Present, SeedSeats;
    SeedOne(seats, base, pad, n);
  }

  lemma SeedNone(seats: map<SeatKey, Seat>, base: string, pad: nat)
    ensures var none := Names(base, pad, 0);
            SeedSeats(seats, none) == seats && Missing(seats, none) == {} && Present(seats, none) == {}
  {
    assert ToSet(Names(base, pad, 0)) == {};
  }

  method PadNumber(i: nat, pad: nat) returns (num: string)
    ensures num == Padded(Decimal(i), pad)
  {
    num := Decimal(i);
    while |num| < pad
      invariant Padded(num, pad) == Padded(Decimal(i), pad)
      decreases pad - |num|
    {
      num := "0" + num;
    }
  }

  /** Creates the seat of one number unless there is one. */
  method SeedSeat(redis: RedisServer, base: string, pad: nat, i: nat) returns (isNew: bool)
    modifies redis`seats
    ensures var k := SeatName(base, pad, i);
            && isNew == (k !in old(redis.seats))
            && redis.seats == if isNew then old(redis.seats)[k := NEW_SEAT] else old(redis.seats)
  {
    var num := PadNumber(i, pad);
    var seatKey := SeatKey(base + num);
    isNew := seatKey !in redis.seats;
    if isNew {
      redis.seats := redis.seats[seatKey := NEW_SEAT];
    }
  }

  /** The creation loop with its two counters. */
  method SeedLoop(redis: RedisServer, base: string, pad: nat, quota: nat) returns (created: nat, skipped: nat)
    modifies redis`seats
    ensures redis.seats == SeedSeats(old(redis.seats), Names(base, pad, quota))
    ensures created == |Missing(old(redis.seats), Names(base, pad, quota))|
    ensures skipped == |Present(old(redis.seats), Names(base, pad, quota))|
  {
    created, skipped := 0, 0;
    hide SeatName, Names, SeedSeats, Missing, Present;
    ghost var before := redis.seats;
    SeedNone(before, base, pad);
    var i := 1;
    while i <= quota
      invariant 1 <= i <= quota + 1
      invariant redis.seats == SeedSeats(before, Names(base, pad, i - 1))
      invariant created == |Missing(before, Names(base, pad, i - 1))|
      invariant skipped == |Present(before, Names(base, pad, i - 1))|
    {
      SeedOne(before, base, pad, i - 1);
      CountOne(before, base, pad, i - 1);
      var isNew := SeedSeat(redis, base, pad, i);
      if isNew {
        created := created + 1;
      } else {
        skipped := skipped + 1;
      }
      i := i + 1;
    }
  }

  method SeedCounters(redis: RedisServer, quota: nat)
    modifies redis`inv
    ensures redis.inv == SeedInventory(old(redis.inv), quota)
  {
    if redis.inv == map[] {
      redis.inv := map[Quota := quota, Available := quota, Held := 0, Sold := 0];
    } else {
      var curQuota := Read(redis.inv, Quota);
      var curAvail := Read(redis.inv, Available);
      if quota > curQuota {
        var add := quota - curQuota;
        redis.inv := redis.inv[Quota := quota][Available := curAvail + add];
      }
    }
  }

  method Seed(redis: RedisServer, event: string, cat: string, prefix: string, quota: int) returns (reply: SeedReply)
    modifies redis
    ensures (redis.View(), reply) == SeedScript(old(redis.View()), event, cat, prefix, quota)
  {
    if event == "" { return EventIdRequired; }
    if cat == "" { return CategoryIdRequired; }
    if quota <= 0 { return QuotaNotPositive; }
    if quota > MAX_QUOTA { return QuotaTooLarge; }
    SeedCounters(redis, quota);
    var created, skipped := SeedLoop(redis, Base(event, cat, prefix), PadWidth(quota), quota);
    return Seeded(created, skipped, Read(redis.inv, Available), Read(redis.inv, Held), Read(redis.inv, Sold));
  }

  // ---- Numbering is injective

  function Value(s: string): nat {
    if s == [] then 0
    else 10 * Value(s[..|s| - 1]) + DigitValue(s[|s| - 1])
  }

  function DigitValue(c: char): nat {
    if '0' <= c <= '9' then c as int - '0' as int else 0
  }

  lemma ValueAppend(s: string, c: char)
    ensures Value(s + [c]) == 10 * Value(s) + DigitValue(c)
  {
    assert (s + [c])[..|s|] == s;
  }

  lemma {:induction false} DecimalValue(n: nat)
    ensures Value(Decimal(n)) == n
  {
    hide Value, Decimal;
    DecimalStep(n);
    if n < 10 {
      OneDigit(n);
    } else {
      DecimalValue(n / 10);
      ValueAppend(Decimal(n / 10), Digit(n % 10));
    }
  }

  lemma DecimalStep(n: nat)
    ensures Decimal(n) == if n < 10 then [Digit(n)] else Decimal(n / 10) + [Digit(n % 10)]
    ensures DigitValue(Digit(n % 10)) == n % 10
  {
  }

  lemma OneDigit(n: nat)
    requires n < 10
    ensures Value([Digit(n)]) == n
  {
    assert [Digit(n)][..0] == "" && Value("") == 0;
  }

  lemma {:induction false} LeadingZero(s: string)
    ensures Value("0" + s) == Value(s)
  {
    if s != [] {
      LeadingZero(s[..|s| - 1]);
      assert ("0" + s)[..|s|] == "0" + s[..|s| - 1];
    } else {
      assert "0" + s == "0";
      assert Value("0"[..0]) == 0;
    }
  }

  lemma {:induction false} PaddedValue(s: string, pad: nat)
    ensures Value(Padded(s, pad)) == Value(s)
    decreases pad - |s|
  {
    if |s| < pad {
      LeadingZero(s);
      PaddedValue("0" + s, pad);
    }
  }

  lemma {:induction false} DecimalLengthMonotone(m: nat, n: nat)
    requires m <= n
    ensures |Decimal(m)| <= |Decimal(n)|
  {
    if m >= 10 {
      DecimalLengthMonotone(m / 10, n / 10);
    }
  }

  /** Two seat names agree exactly when number and printed width agree. */
  lemma SeatNameInjective(base: string, pad1: nat, i: nat, pad2: nat, j: nat)
    ensures SeatName(base, pad1, i) == SeatName(base, pad2, j)
      <==> i == j && |Padded(Decimal(i), pad1)| == |Padded(Decimal(j), pad2)|
  {
    var a, b := Padded(Decimal(i), pad1), Padded(Decimal(j), pad2);
    DecimalValue(i);
    DecimalValue(j);
    PaddedValue(Decimal(i), pad1);
    PaddedValue(Decimal(j), pad2);
    if base + a == base + b {
      assert a == (base + a)[|base|..] == (base + b)[|base|..] == b;
    }
    if i == j && |a| == |b| {
      PaddedSameLength(Decimal(i), pad1, pad2);
    }
  }

  lemma {:induction false} PaddedSameLength(s: string, pad1: nat, pad2: nat)
    requires |Padded(s, pad1)| == |Padded(s, pad2)|
    ensures Padded(s, pad1) == Padded(s, pad2)
    decreases pad1 - |s|
  {
    if |s| < pad1 {
      PaddedSameLength("0" + s, pad1, pad2);
    }
  }

  lemma NamesGrow(base: string, pad: nat, n: nat)
    ensures Names(base, pad, n + 1) == Names(base, pad, n) + [SeatName(base, pad, n + 1)]
    ensures ToSet(Names(base, pad, n + 1)) == ToSet(Names(base, pad, n)) + {SeatName(base, pad, n + 1)}
  {
    assert Names(base, pad, n + 1) == Names(base, pad, n) + [SeatName(base, pad, n + 1)];
  }

  lemma NameIsNew(base: string, pad: nat, n: nat)
    ensures SeatName(base, pad, n + 1) !in Names(base, pad, n)
  {
    forall j | 0 <= j < n
      ensures Names(base, pad, n)[j] != SeatName(base, pad, n + 1)
    {
      SeatNameInjective(base, pad, j + 1, pad, n + 1);
    }
  }

  lemma NamesAreDistinct(base: string, pad: nat, quota: nat)
    ensures Distinct(Names(base, pad, quota))
  {
    forall i, j | 0 <= i < j < quota
      ensures Names(base, pad, quota)[i] != Names(base, pad, quota)[j]
    {
      SeatNameInjective(base, pad, i + 1, pad, j + 1);
    }
  }

  lemma NamesOverlap(base: string, q1: nat, q2: nat)
    requires q1 <= q2
    ensures PadWidth(q1) == PadWidth(q2) ==> ToSet(SeedNames(base, q1)) <= ToSet(SeedNames(base, q2))
    ensures PadWidth(q1) != PadWidth(q2) ==> ToSet(SeedNames(base, q1)) !! ToSet(SeedNames(base, q2))
  {
    var n1, n2 := SeedNames(base, q1), SeedNames(base, q2);
    if PadWidth(q1) == PadWidth(q2) {
      forall k | k in n1
        ensures k in n2
      {
        var i :| 0 <= i < q1 && n1[i] == k;
        assert n2[i] == k;
      }
    } else {
      forall i, j | 0 <= i < q1 && 0 <= j < q2
        ensures n1[i] != n2[j]
      {
        DecimalLengthMonotone(i + 1, q1);
        DecimalLengthMonotone(j + 1, q2);
        SeatNameInjective(base, PadWidth(q1), i + 1, PadWidth(q2), j + 1);
      }
    }
  }

  // ---- Seeding composes exactly for equal pad widths

  lemma SeedSeatsTwice(seats: map<SeatKey, Seat>, n1: seq<SeatKey>, n2: seq<SeatKey>)
    requires ToSet(n1) <= ToSet(n2)
    ensures SeedSeats(SeedSeats(seats, n1), n2) == SeedSeats(seats, n2)
  {
    assert SeedSeats(SeedSeats(seats, n1), n2).Keys == SeedSeats(seats, n2).Keys;
  }

  lemma SeedInventoryTwice(inv: map<Counter, int>, q1: nat, q2: nat)
    requires 0 < q1 <= q2
    ensures SeedInventory(SeedInventory(inv, q1), q2) == SeedInventory(inv, q2)
  {
    var once := SeedInventory(inv, q1);
    assert Quota in once ==> once != map[];
    if inv == map[] {
      assert SeedInventory(once, q2) == map[Quota := q2, Available := q2, Held := 0, Sold := 0];
    }
  }

  lemma SeedCategoryKeys(s: Store, n1: seq<SeatKey>, n2: seq<SeatKey>, q1: nat, q2: nat)
    requires s.seats == map[]
    ensures SeedCategory(s, n2, q2).seats.Keys == ToSet(n2)
    ensures SeedCategory(SeedCategory(s, n1, q1), n2, q2).seats.Keys == ToSet(n1) + ToSet(n2)
  {
  }

  lemma TwoSets<T>(a: set<T>, b: set<T>)
    ensures a <= b ==> a + b == b
    ensures a !! b ==> |a + b| == |a| + |b|
  {
  }

  lemma NamesCount(base: string, pad: nat, quota: nat)
    ensures |ToSet(Names(base, pad, quota))| == quota
  {
    NamesAreDistinct(base, pad, quota);
    DistinctCardinality(Names(base, pad, quota));
  }

  /** Seeding q1 and then q2 >= q1 is seeding q2, on every store, unless the pad width changes. */
  lemma SeedingComposes(s: Store, base: string, q1: nat, q2: nat)
    requires 0 < q1 <= q2
    requires PadWidth(q1) == PadWidth(q2)
    ensures AfterSeed(AfterSeed(s, base, q1), base, q2) == AfterSeed(s, base, q2)
  {
    NamesOverlap(base, q1, q2);
    SeedSeatsTwice(s.seats, SeedNames(base, q1), SeedNames(base, q2));
    SeedInventoryTwice(s.inv, q1, q2);
  }

  /** How many seats two seedings of a fresh category leave behind: q2, or q1 + q2 across a pad width. */
  lemma SeatsAfterTwoSeedings(s: Store, base: string, q1: nat, q2: nat)
    requires s.seats == map[] && 0 < q1 <= q2
    ensures |AfterSeed(AfterSeed(s, base, q1), base, q2).seats.Keys|
         == if PadWidth(q1) == PadWidth(q2) then q2 else q1 + q2
    ensures |AfterSeed(s, base, q2).seats.Keys| == q2
  {
    var n1, n2 := ToSet(SeedNames(base, q1)), ToSet(SeedNames(base, q2));
    NamesCount(base, PadWidth(q1), q1);
    NamesCount(base, PadWidth(q2), q2);
    NamesOverlap(base, q1, q2);
    var once, twice := AfterSeed(s, base, q2), AfterSeed(AfterSeed(s, base, q1), base, q2);
    assert once.seats.Keys == n2 && twice.seats.Keys == n1 + n2 by {
      SeedCategoryKeys(s, SeedNames(base, q1), SeedNames(base, q2), q1, q2);
    }
    TwoSets(n1, n2);
  }

  /** On a fresh category the two ways of seeding agree if and only if the pad widths agree. */
  lemma SeedingComposesIff(s: Store, base: string, q1: nat, q2: nat)
    requires s.seats == map[] && 0 < q1 <= q2
    ensures AfterSeed(AfterSeed(s, base, q1), base, q2) == AfterSeed(s, base, q2)
      <==> PadWidth(q1) == PadWidth(q2)
  {
    SeatsAfterTwoSeedings(s, base, q1, q2);
    if PadWidth(q1) == PadWidth(q2) {
      SeedingComposes(s, base, q1, q2);
    }
  }
}
