/**
 The seat names that the seeding script makes, and what one of its calls answers and leaves: names are
 padded numbers of one width, and those of different events, categories or prefixes never meet.
 */
module SeatNames {
  import opened Collections
  import opened Redis
  import opened Seeding

  // ---- Widths and numbers

  predicate AllDigits(s: string) {
    forall c :: c in s ==> '0' <= c <= '9'
  }

  lemma {:induction false} DecimalIsDigits(n: nat)
    ensures AllDigits(Decimal(n))
  {
    if n >= 10 {
      DecimalIsDigits(n / 10);
    }
  }

  lemma {:induction false} PaddedIsDigits(s: string, pad: nat)
    requires AllDigits(s)
    ensures AllDigits(Padded(s, pad))
    decreases pad - |s|
  {
    if |s| < pad {
      PaddedIsDigits("0" + s, pad);
    }
  }

  /** Numbers are printed four digits wide up to 9999 seats, and five from then on. */
  lemma PadWidthIff(quota: nat)
    requires 0 < quota <= MAX_QUOTA
    ensures PadWidth(quota) == if quota < 10000 then 4 else 5
  {
    assert quota >= 10 ==> |Decimal(quota)| == |Decimal(quota / 10)| + 1;
    assert quota >= 100 ==> |Decimal(quota / 10)| == |Decimal(quota / 100)| + 1;
    assert quota >= 1000 ==> |Decimal(quota / 100)| == |Decimal(quota / 1000)| + 1;
    assert quota >= 10000 ==> |Decimal(quota / 1000)| == 2;
  }

  /** The number in the name of the i-th seat: all digits, of the one width of the call, and worth `i`. */
  lemma NumberOfSeat(quota: nat, i: nat)
    requires 0 < i <= quota <= MAX_QUOTA
    ensures var num := Padded(Decimal(i), PadWidth(quota));
            AllDigits(num) && |num| == (if quota < 10000 then 4 else 5) && Value(num) == i
  {
    hide Padded, Decimal, PadWidth, Value;
    PadWidthIff(quota);
    DecimalIsDigits(i);
    PaddedIsDigits(Decimal(i), PadWidth(quota));
    DecimalValue(i);
    PaddedValue(Decimal(i), PadWidth(quota));
    DecimalLengthMonotone(i, quota);
    WidthCovers(quota);
  }

  lemma WidthCovers(quota: nat)
    ensures |Decimal(quota)| <= PadWidth(quota)
  {
  }

  /** Two quotas number their seats in the same way exactly if both or neither have five digits. */
  lemma SeedingComposesBelow(s: Store, base: string, q1: nat, q2: nat)
    requires s.seats == map[] && 0 < q1 <= q2 <= MAX_QUOTA
    ensures AfterSeed(AfterSeed(s, base, q1), base, q2) == AfterSeed(s, base, q2) <==> q1 >= 10000 || q2 < 10000
  {
    SeedingComposesIff(s, base, q1, q2);
    PadWidthIff(q1);
    PadWidthIff(q2);
    hide AfterSeed, PadWidth;
  }

  // ---- Names of different categories

  lemma CutFirst(a: string, s: string, b: string, t: string, x: char)
    requires x !in a && x !in b && a + [x] + s == b + [x] + t
    ensures a == b && s == t
  {
    var l, r := a + [x] + s, b + [x] + t;
    assert l[|a|] == x && r[|b|] == x;
    assert a == l[..|a|] && b == r[..|b|] && s == l[|a| + 1..] && t == r[|b| + 1..];
  }

  lemma CutLast(s: string, a: string, t: string, b: string, x: char)
    requires x !in a && x !in b && s + [x] + a == t + [x] + b
    ensures a == b && s == t
  {
    var l, r := s + [x] + a, t + [x] + b;
    assert l[|s|] == x && r[|t|] == x;
    assert s == l[..|s|] && t == r[..|t|] && a == l[|s| + 1..] && b == r[|t| + 1..];
  }

  /** A name in the parts that its stops separate. */
  lemma NameParts(event: string, cat: string, prefix: string, num: string)
    ensures Base(event, cat, prefix) + num
         == "seat:{" + (event + ['}'] + (":" + (cat + [':'] + (prefix + ['-'] + num))))
  {
    var rest := prefix + ['-'] + num;
    assert ":" + (cat + [':'] + rest) == ":" + cat + ":" + rest;
    assert Base(event, cat, prefix) + num == "seat:{" + event + "}:" + cat + ":" + rest;
    assert "seat:{" + (event + ['}'] + (":" + cat + ":" + rest)) == "seat:{" + event + "}" + ":" + cat + ":" + rest;
  }

  /**
   Seats of two seeding calls share a name exactly if event, category, prefix, number and printed width agree, as long
   as event ids contain no closing brace and category ids no colon; prefixes may be anything.
   */
  lemma NamesMeetIff(e1: string, c1: string, p1: string, pad1: nat, i: nat, e2: string, c2: string, p2: string,
      pad2: nat, j: nat)
    requires '}' !in e1 && '}' !in e2 && ':' !in c1 && ':' !in c2
    ensures SeatName(Base(e1, c1, p1), pad1, i) == SeatName(Base(e2, c2, p2), pad2, j)
      <==> && e1 == e2 && c1 == c2 && p1 == p2 && i == j
           && |Padded(Decimal(i), pad1)| == |Padded(Decimal(j), pad2)|
  {
    var n1, n2 := Padded(Decimal(i), pad1), Padded(Decimal(j), pad2);
    hide Base, Padded, Decimal;
    if Base(e1, c1, p1) + n1 == Base(e2, c2, p2) + n2 {
      DecimalIsDigits(i);
      DecimalIsDigits(j);
      PaddedIsDigits(Decimal(i), pad1);
      PaddedIsDigits(Decimal(j), pad2);
      SameParts(e1, c1, p1, n1, e2, c2, p2, n2);
    }
    if e1 == e2 && c1 == c2 && p1 == p2 {
      SeatNameInjective(Base(e1, c1, p1), pad1, i, pad2, j);
    }
  }

  lemma SameParts(e1: string, c1: string, p1: string, n1: string, e2: string, c2: string, p2: string, n2: string)
    requires '}' !in e1 && '}' !in e2 && ':' !in c1 && ':' !in c2 && AllDigits(n1) && AllDigits(n2)
    requires Base(e1, c1, p1) + n1 == Base(e2, c2, p2) + n2
    ensures e1 == e2 && c1 == c2 && p1 == p2 && n1 == n2
  {
    NameParts(e1, c1, p1, n1);
    NameParts(e2, c2, p2, n2);
    hide Base;
    var t1, t2 := p1 + ['-'] + n1, p2 + ['-'] + n2;
    var r1, r2 := c1 + [':'] + t1, c2 + [':'] + t2;
    SameRest("seat:{", e1 + ['}'] + (":" + r1), e2 + ['}'] + (":" + r2));
    CutFirst(e1, ":" + r1, e2, ":" + r2, '}');
    SameRest(":", r1, r2);
    CutFirst(c1, t1, c2, t2, ':');
    CutLast(p1, n1, p2, n2, '-');
  }

  lemma SameRest(front: string, a: string, b: string)
    requires front + a == front + b
    ensures a == b
  {
    assert a == (front + a)[|front|..] && b == (front + b)[|front|..];
  }

  /** With a colon in a category id two categories can have the same seat. */
  lemma ColonsLetNamesMeet(event: string, a: string, b: string, prefix: string, pad: nat, i: nat)
    ensures SeatName(Base(event, a + ":" + b, prefix), pad, i) == SeatName(Base(event, a, b + ":" + prefix), pad, i)
  {
    assert Base(event, a + ":" + b, prefix) == "seat:{" + event + "}:" + a + ":" + b + ":" + prefix + "-";
    assert Base(event, a, b + ":" + prefix) == "seat:{" + event + "}:" + a + ":" + b + ":" + prefix + "-";
  }

  /** With a closing brace in an event id two events can. */
  lemma BracesLetNamesMeet(a: string, b: string, cat: string, prefix: string, pad: nat, i: nat)
    ensures SeatName(Base(a + "}:" + b, cat, prefix), pad, i) == SeatName(Base(a, b + "}", cat + ":" + prefix), pad, i)
  {
    assert Base(a + "}:" + b, cat, prefix) == "seat:{" + a + "}:" + b + "}:" + cat + ":" + prefix + "-";
    assert Base(a, b + "}", cat + ":" + prefix) == "seat:{" + a + "}:" + b + "}:" + cat + ":" + prefix + "-";
  }

  // ---- What a call answers and leaves

  /** The first argument found wrong decides the answer; only a call without one changes anything. */
  lemma SeedAnswers(s: Store, event: string, cat: string, prefix: string, quota: int)
    ensures var (t, reply) := SeedScript(s, event, cat, prefix, quota);
            && (reply == EventIdRequired <==> event == "")
            && (reply == CategoryIdRequired <==> event != "" && cat == "")
            && (reply == QuotaNotPositive <==> event != "" && cat != "" && quota <= 0)
            && (reply == QuotaTooLarge <==> event != "" && cat != "" && quota > 50000)
            && (reply.Seeded? <==> event != "" && cat != "" && 0 < quota <= 50000)
            && (!reply.Seeded? ==> t == s)
  {
    hide AfterSeed, SeedNames;
  }

  lemma NewSeats(seats: map<SeatKey, Seat>, names: seq<SeatKey>)
    ensures var t := SeedSeats(seats, names);
            && t.Keys == seats.Keys + ToSet(names) && |t.Keys| == |seats.Keys| + |Missing(seats, names)|
            && |Missing(seats, names)| + |Present(seats, names)| == |ToSet(names)|
            && (forall k :: k in seats ==> t[k] == seats[k])
            && (forall k :: k in t && k !in seats ==> t[k] == NEW_SEAT)
  {
    SplitSet(ToSet(names), seats.Keys);
    hide ToSet;
  }

  lemma GrownInventory(inv: map<Counter, int>, quota: nat)
    ensures var t, was := SeedInventory(inv, quota), Read(inv, Quota);
            && Read(t, Held) == Read(inv, Held) && Read(t, Sold) == Read(inv, Sold)
            && Read(t, Quota) == (if inv == map[] || quota > was then quota else was)
            && Read(t, Available) - Read(inv, Available) == Read(t, Quota) - was
  {
  }

  /**
   A call creates a free seat of version 1 under each of its names that has none, and counts these and the others;
   no other seat changes. It lifts the quota to its own if that is higher, and the available seats by as many.
   */
  lemma SeedEffect(s: Store, event: string, cat: string, prefix: string, quota: int)
    requires SeedScript(s, event, cat, prefix, quota).1.Seeded?
    ensures var (t, reply) := SeedScript(s, event, cat, prefix, quota);
            var was := Read(s.inv, Quota);
            && quota > 0 && t.seats.Keys == s.seats.Keys + ToSet(SeedNames(Base(event, cat, prefix), quota))
            && (forall k :: k in s.seats ==> t.seats[k] == s.seats[k])
            && (forall k :: k in t.seats && k !in s.seats ==>
                  t.seats[k] == Seat(AVAILABLE, None, None, None, None, None, 1, false))
            && reply.created + reply.skipped == quota && |t.seats.Keys| == |s.seats.Keys| + reply.created
            && Read(t.inv, Held) == Read(s.inv, Held) && Read(t.inv, Sold) == Read(s.inv, Sold)
            && Read(t.inv, Quota) == (if s.inv == map[] || quota > was then quota else was)
            && Read(t.inv, Available) - Read(s.inv, Available) == Read(t.inv, Quota) - was
            && reply.available == Read(t.inv, Available) && reply.held == Read(t.inv, Held)
            && reply.sold == Read(t.inv, Sold)
            && t == s.(seats := t.seats, inv := t.inv)
  {
    var base := Base(event, cat, prefix);
    hide Names, PadWidth, Base, SeedSeats, SeedInventory, Missing, Present, ToSet, Read;
    NamesCount(base, PadWidth(quota), quota);
    NewSeats(s.seats, SeedNames(base, quota));
    GrownInventory(s.inv, quota);
  }

  lemma SplitSet<T>(a: set<T>, b: set<T>)
    ensures |a - b| + |a * b| == |a| && |b + a| == |b| + |a - b|
  {
    assert a == (a - b) + (a * b);
    assert b + a == b + (a - b);
  }
}
