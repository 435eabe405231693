/**
 The admission token bucket. Its level is kept in thousandths of a token, so that the refill of a
 whole number of milliseconds is exact. The capacity is one second's worth of the rate.
 */
module TokenBucket {
  import opened Collections

  const MS_PER_SEC := 1000

  /** The stored state lives this long after it was last written. */
  const STATE_TTL_MS := 120000

  datatype Bucket = Bucket(tokens: int, last: int)

  datatype Verdict = Verdict(allowed: bool, remaining: int, retryAfterMs: Option<int>)

  function Capacity(rate: int): int {
    MS_PER_SEC * rate
  }

  function Elapsed(last: int, now: int): int {
    if now > last then now - last else 0
  }

  /** The refilled level at `now`; a bucket without stored state is full. */
  function Level(b: Option<Bucket>, rate: int, now: int): int {
    match b
    case None => Capacity(rate)
    case Some(s) =>
      var refilled := s.tokens + Elapsed(s.last, now) * rate;
      if refilled < Capacity(rate) then refilled else Capacity(rate)
  }

  function CeilDiv(a: int, b: int): int
    requires b > 0
  {
    (a + b - 1) / b
  }

  function Consume(b: Option<Bucket>, rate: int, need: int, now: int): (Bucket, Verdict)
    requires rate > 0
  {
    var level := Level(b, rate, now);
    var price := MS_PER_SEC * need;
    if level < price then
      (Bucket(level, now), Verdict(false, level / MS_PER_SEC, Some(CeilDiv(price - level, rate))))
    else
      (Bucket(level - price, now), Verdict(true, (level - price) / MS_PER_SEC, None))
  }

  /** The level lies between empty and full, and the state was written by `now`. */
  predicate Valid(b: Option<Bucket>, rate: int, now: int) {
    b.Some? ==> 0 <= b.value.tokens <= Capacity(rate) && b.value.last <= now
  }

  lemma ConsumeKeepsValid(b: Option<Bucket>, rate: int, need: int, now: int)
    requires rate > 0 && need >= 0 && Valid(b, rate, now)
    ensures Valid(Some(Consume(b, rate, need, now).0), rate, now)
    ensures 0 <= Level(b, rate, now) <= Capacity(rate)
  {
    if b.Some? {
      assert Elapsed(b.value.last, now) * rate >= 0;
    }
  }

  // ---- Refusals and lost state are forgotten

  /** Two stored states that no later call can tell apart. */
  ghost predicate Indistinguishable(b: Option<Bucket>, c: Option<Bucket>, rate: int, now: int) {
    forall t :: t >= now ==> Level(b, rate, t) == Level(c, rate, t)
  }

  lemma RefillAdds(tokens: int, rate: int, d1: int, d2: int)
    requires rate > 0 && d1 >= 0 && d2 >= 0
    ensures tokens + (d1 + d2) * rate == (tokens + d1 * rate) + d2 * rate
    ensures d2 * rate >= 0
  {
  }

  lemma RefillTwice(s: Bucket, rate: int, now: int, t: int)
    requires rate > 0 && Valid(Some(s), rate, now) && now <= t
    ensures Level(Some(Bucket(Level(Some(s), rate, now), now)), rate, t) == Level(Some(s), rate, t)
  {
    var d1, d2 := now - s.last, t - now;
    RefillAdds(s.tokens, rate, d1, d2);
    assert Elapsed(s.last, now) * rate == d1 * rate && Elapsed(now, t) * rate == d2 * rate;
    assert Elapsed(s.last, t) * rate == (d1 + d2) * rate;
  }

  /** Writing the refilled state back, as a refused call does, changes no later level. */
  lemma RefillIsForgotten(b: Option<Bucket>, rate: int, now: int)
    requires rate > 0 && Valid(b, rate, now)
    ensures Indistinguishable(Some(Bucket(Level(b, rate, now), now)), b, rate, now)
  {
    forall t | t >= now
      ensures Level(Some(Bucket(Level(b, rate, now), now)), rate, t) == Level(b, rate, t)
    {
      match b
      case Some(s) => RefillTwice(s, rate, now, t);
      case None => assert (t - now) * rate >= 0;
    }
  }

  /** Losing the state after its lifetime changes no later level, because it has refilled by then. */
  lemma LossIsForgotten(b: Option<Bucket>, rate: int, now: int)
    requires rate > 0 && Valid(b, rate, now)
    requires b.Some? ==> now - b.value.last >= STATE_TTL_MS
    ensures Indistinguishable(None, b, rate, now)
  {
    if b.Some? {
      forall t | t >= now
        ensures Level(b, rate, t) == Capacity(rate)
      {
        Monotone(MS_PER_SEC, t - b.value.last, rate);
      }
    }
  }

  lemma Monotone(a: int, b: int, rate: int)
    requires a <= b && rate > 0
    ensures a * rate <= b * rate
  {
  }

  // ---- The retry hint

  lemma CeilDivIsLeast(a: int, rate: int, d: int)
    requires rate > 0
    ensures d * rate >= a <==> d >= CeilDiv(a, rate)
  {
    var q := CeilDiv(a, rate);
    assert q * rate <= a + rate - 1 < (q + 1) * rate;
    if d >= q {
      Monotone(q, d, rate);
    } else {
      Monotone(d, q - 1, rate);
      assert (q - 1) * rate == q * rate - rate;
    }
  }

  /**
   A refused request for at most the capacity succeeds after `d` more milliseconds, with no other
   caller, if and only if `d` is at least the retry hint.
   */
  lemma RetryHintIsLeast(b: Option<Bucket>, rate: int, need: int, now: int, d: int)
    requires rate > 0 && Valid(b, rate, now) && d >= 0 && need <= rate
    requires !Consume(b, rate, need, now).1.allowed
    ensures var (next, verdict) := Consume(b, rate, need, now);
            && verdict.retryAfterMs.Some?
            && (Consume(Some(next), rate, need, now + d).1.allowed <==> d >= verdict.retryAfterMs.value)
  {
    var level := Level(b, rate, now);
    CeilDivIsLeast(MS_PER_SEC * need - level, rate, d);
  }

  /** A request for more than the capacity never succeeds. */
  lemma TooMuchNeverSucceeds(b: Option<Bucket>, rate: int, need: int, now: int)
    requires rate > 0
    ensures need > rate ==> !Consume(b, rate, need, now).1.allowed
  {
  }

  /**
   The level is what was stored plus `rate` for every millisecond since, but no more than a second's worth, which an
   absent state stands for; a call is allowed if it covers the need, and only then takes anything.
   */
  lemma ConsumeIs(b: Option<Bucket>, rate: int, need: int, now: int)
    requires rate > 0
    ensures var (next, verdict) := Consume(b, rate, need, now);
            var level := next.tokens + if verdict.allowed then 1000 * need else 0;
            && (verdict.allowed <==> level >= 1000 * need)
            && (b == None ==> level == 1000 * rate)
            && (b.Some? ==>
                  var since := if now > b.value.last then now - b.value.last else 0;
                  && level <= b.value.tokens + rate * since && level <= 1000 * rate
                  && (level == b.value.tokens + rate * since || level == 1000 * rate))
            && next.last == now && (verdict.retryAfterMs.Some? <==> !verdict.allowed)
            && 1000 * verdict.remaining <= next.tokens < 1000 * (verdict.remaining + 1)
  {
    if b.Some? {
      assert Elapsed(b.value.last, now) * rate == rate * Elapsed(b.value.last, now);
    }
  }

  // ---- Runs

  /** A call; `lost` says that the stored state disappeared before it. */
  datatype Call = Call(need: int, now: int, lost: bool)

  function Before(b: Option<Bucket>, c: Call): Option<Bucket> {
    if c.lost then None else b
  }

  /** The stored state before the i-th call. */
  function StateAt(b: Option<Bucket>, rate: int, cs: seq<Call>, i: nat): Option<Bucket>
    requires rate > 0 && i <= |cs|
  {
    if i == 0 then b
    else Some(Consume(Before(StateAt(b, rate, cs, i - 1), cs[i - 1]), rate, cs[i - 1].need, cs[i - 1].now).0)
  }

  function VerdictAt(b: Option<Bucket>, rate: int, cs: seq<Call>, i: nat): Verdict
    requires rate > 0 && i < |cs|
  {
    Consume(Before(StateAt(b, rate, cs, i), cs[i]), rate, cs[i].need, cs[i].now).1
  }

  /** The clock does not run backwards, and state is lost only after its lifetime. */
  ghost predicate Timely(b: Option<Bucket>, rate: int, cs: seq<Call>)
    requires rate > 0
  {
    && (forall i :: 0 <= i < |cs| ==> cs[i].need >= 0)
    && (forall i, j :: 0 <= i < j < |cs| ==> cs[i].now <= cs[j].now)
    && (|cs| > 0 ==> Valid(b, rate, cs[0].now))
    && (forall i :: 0 <= i < |cs| && cs[i].lost ==>
          var s := StateAt(b, rate, cs, i);
          s.Some? ==> cs[i].now - s.value.last >= STATE_TTL_MS)
  }

  lemma {:induction false} StateAtIsValid(b: Option<Bucket>, rate: int, cs: seq<Call>, i: nat)
    requires rate > 0 && Timely(b, rate, cs) && i < |cs|
    ensures Valid(StateAt(b, rate, cs, i), rate, cs[i].now)
    ensures i > 0 ==> StateAt(b, rate, cs, i).Some? && StateAt(b, rate, cs, i).value.last == cs[i - 1].now
  {
    if i > 0 {
      StateAtIsValid(b, rate, cs, i - 1);
      ConsumeKeepsValid(Before(StateAt(b, rate, cs, i - 1), cs[i - 1]), rate, cs[i - 1].need, cs[i - 1].now);
    }
  }

  /** The tokens charged by the calls from i to j. */
  function Charged(b: Option<Bucket>, rate: int, cs: seq<Call>, i: nat, j: nat): int
    requires rate > 0 && i <= j <= |cs|
    decreases j
  {
    if i == j then 0
    else Charged(b, rate, cs, i, j - 1) + if VerdictAt(b, rate, cs, j - 1).allowed then cs[j - 1].need else 0
  }

  /** What a call charges and what it leaves make up the level it found. */
  lemma ChargeIsTaken(b: Option<Bucket>, rate: int, need: int, now: int)
    requires rate > 0
    ensures var (next, verdict) := Consume(b, rate, need, now);
            next.last == now && MS_PER_SEC * (if verdict.allowed then need else 0) + next.tokens == Level(b, rate, now)
  {
  }

  /** The level a call finds, also when the state was lost before it. */
  lemma LevelFound(b: Option<Bucket>, rate: int, cs: seq<Call>, i: nat)
    requires rate > 0 && Timely(b, rate, cs) && i < |cs|
    ensures var s, c := StateAt(b, rate, cs, i), cs[i];
            && 0 <= Level(Before(s, c), rate, c.now) <= Capacity(rate)
            && Level(Before(s, c), rate, c.now) == Level(s, rate, c.now)
            && (i > 0 ==> s.Some? && Level(s, rate, c.now) <= s.value.tokens + rate * (c.now - cs[i - 1].now))
  {
    hide StateAt, Level, Consume;
    var s, c := StateAt(b, rate, cs, i), cs[i];
    StateAtIsValid(b, rate, cs, i);
    LevelIsBounded(s, rate, c.now);
    if c.lost {
      LossIsForgotten(s, rate, c.now);
      assert Level(None, rate, c.now) == Level(s, rate, c.now);
    }
  }

  lemma LevelIsBounded(b: Option<Bucket>, rate: int, now: int)
    requires rate > 0 && Valid(b, rate, now)
    ensures 0 <= Level(b, rate, now) <= Capacity(rate)
    ensures b.Some? ==> Level(b, rate, now) <= b.value.tokens + rate * (now - b.value.last)
  {
    if b.Some? {
      assert Elapsed(b.value.last, now) * rate == rate * (now - b.value.last) >= 0;
    }
  }

  lemma Stretch(rate: int, a: int, b: int, c: int)
    ensures rate * (c - a) == rate * (b - a) + rate * (c - b)
  {
  }

  lemma {:induction false} ChargedBound(b: Option<Bucket>, rate: int, cs: seq<Call>, i: nat, j: nat)
    requires rate > 0 && Timely(b, rate, cs) && i < j <= |cs|
    ensures var s := StateAt(b, rate, cs, j);
            && s.Some? && 0 <= s.value.tokens
            && MS_PER_SEC * Charged(b, rate, cs, i, j) + s.value.tokens
               <= Capacity(rate) + rate * (cs[j - 1].now - cs[i].now)
    decreases j
  {
    hide Level, Consume, Timely, Capacity;
    var c := cs[j - 1];
    var s := StateAt(b, rate, cs, j - 1);
    LevelFound(b, rate, cs, j - 1);
    ChargeIsTaken(Before(s, c), rate, c.need, c.now);
    LeftIsNonNegative(Before(s, c), rate, c.need, c.now);
    if i < j - 1 {
      ChargedBound(b, rate, cs, i, j - 1);
      Stretch(rate, cs[i].now, cs[j - 2].now, c.now);
    } else {
      assert Charged(b, rate, cs, i, j - 1) == 0;
    }
  }

  lemma LeftIsNonNegative(b: Option<Bucket>, rate: int, need: int, now: int)
    requires rate > 0 && Level(b, rate, now) >= 0
    ensures Consume(b, rate, need, now).0.tokens >= 0
  {
  }

  /**
   The rate bound: over any stretch of calls the tokens charged number at most the rate plus the rate
   times the seconds the stretch lasts.
   */
  lemma RateBound(b: Option<Bucket>, rate: int, cs: seq<Call>, i: nat, j: nat)
    requires rate > 0 && Timely(b, rate, cs) && i < j <= |cs|
    ensures MS_PER_SEC * Charged(b, rate, cs, i, j) <= MS_PER_SEC * rate + rate * (cs[j - 1].now - cs[i].now)
  {
    ChargedBound(b, rate, cs, i, j);
  }

  // ---- The ideal bucket, which never loses its state and ignores refused calls

  function IdealAt(b: Option<Bucket>, rate: int, cs: seq<Call>, i: nat): Option<Bucket>
    requires rate > 0 && i <= |cs|
  {
    if i == 0 then b
    else
      var s := IdealAt(b, rate, cs, i - 1);
      var (next, verdict) := Consume(s, rate, cs[i - 1].need, cs[i - 1].now);
      if verdict.allowed then Some(next) else s
  }

  lemma {:induction false} IdealIsIndistinguishable(b: Option<Bucket>, rate: int, cs: seq<Call>, i: nat)
    requires rate > 0 && Timely(b, rate, cs) && i < |cs|
    ensures Indistinguishable(StateAt(b, rate, cs, i), IdealAt(b, rate, cs, i), rate, cs[i].now)
    ensures Indistinguishable(Before(StateAt(b, rate, cs, i), cs[i]), IdealAt(b, rate, cs, i), rate, cs[i].now)
  {
    StateAtIsValid(b, rate, cs, i);
    if i > 0 {
      var c := cs[i - 1];
      IdealIsIndistinguishable(b, rate, cs, i - 1);
      StateAtIsValid(b, rate, cs, i - 1);
      var s := Before(StateAt(b, rate, cs, i - 1), c);
      assert Level(s, rate, c.now) == Level(IdealAt(b, rate, cs, i - 1), rate, c.now);
      RefillIsForgotten(s, rate, c.now);
    }
    if cs[i].lost {
      LossIsForgotten(StateAt(b, rate, cs, i), rate, cs[i].now);
    }
  }

  /**
   Refused calls, and losing the stored state after its lifetime, never change any later verdict: all
   of them are those of the ideal bucket.
   */
  lemma ForgettingChangesNoVerdict(b: Option<Bucket>, rate: int, cs: seq<Call>, i: nat)
    requires rate > 0 && Timely(b, rate, cs) && i < |cs|
    ensures VerdictAt(b, rate, cs, i) == Consume(IdealAt(b, rate, cs, i), rate, cs[i].need, cs[i].now).1
  {
    IdealIsIndistinguishable(b, rate, cs, i);
    assert Level(Before(StateAt(b, rate, cs, i), cs[i]), rate, cs[i].now)
        == Level(IdealAt(b, rate, cs, i), rate, cs[i].now);
  }
}
