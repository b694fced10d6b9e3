/** The per-client token bucket of the HTTP server, over real numbers. */
module RateLimiter {
  import opened Basics

  const MINUTE := 60000.0

  datatype Bucket = Bucket(tokens: real, lastRefill: real)

  function MinReal(a: real, b: real): real {
    if a < b then a else b
  }

  /** The bucket size, and the tokens it regains in a stretch of time. */
  datatype Limits = Limits(max: real, refill: real -> real)

  function ByRate(max: real, rate: real): Limits {
    Limits(max, (elapsed: real) => elapsed * rate)
  }

  function PerMinute(max: real): Limits {
    ByRate(max, max / MINUTE)
  }

  /** Tokens on hand at `now`, after the refill; a new client starts with a full bucket. */
  function Available(b: Option<Bucket>, now: real, lim: Limits): real {
    match b
    case None => lim.max
    case Some(b) => MinReal(lim.max, b.tokens + lim.refill(now - b.lastRefill))
  }

  /** A client's first request is always let through. */
  predicate Allowed(b: Option<Bucket>, now: real, lim: Limits) {
    b.None? || Available(b, now, lim) >= 1.0
  }

  function Charged(b: Option<Bucket>, now: real, lim: Limits): Bucket {
    Bucket(Available(b, now, lim) - (if Allowed(b, now, lim) then 1.0 else 0.0), now)
  }

  class Limiter {
    const maxTokens: real
    const refillRate: real
    var buckets: map<string, Bucket>

    function Rules(): Limits {
      ByRate(maxTokens, refillRate)
    }

    constructor (maxPerMinute: real)
      ensures Rules() == PerMinute(maxPerMinute) && buckets == map[]
    {
      maxTokens, refillRate, buckets := maxPerMinute, maxPerMinute / MINUTE, map[];
    }

    /** Decides by this client's bucket alone, and changes no other client's. */
    method IsAllowed(ip: string, now: real) returns (allowed: bool)
      modifies this
      ensures allowed == Allowed(Lookup(old(buckets), ip), now, Rules())
      ensures buckets == old(buckets)[ip := Charged(Lookup(old(buckets), ip), now, Rules())]
    {
      if ip !in buckets {
        buckets := buckets[ip := Bucket(maxTokens - 1.0, now)];
        return true;
      }
      var bucket := buckets[ip];
      var elapsed := now - bucket.lastRefill;
      var tokens := MinReal(maxTokens, bucket.tokens + elapsed * refillRate);
      if tokens < 1.0 {
        buckets := buckets[ip := Bucket(tokens, now)];
        return false;
      }
      buckets := buckets[ip := Bucket(tokens - 1.0, now)];
      allowed := true;
    }
  }

  function Lookup(buckets: map<string, Bucket>, ip: string): Option<Bucket> {
    if ip in buckets then Some(buckets[ip]) else None
  }

  // ---------- One client ----------

  /** The verdicts on one client's requests at the given times. */
  function Verdicts(b: Option<Bucket>, times: seq<real>, lim: Limits): (v: seq<bool>)
    ensures |v| == |times|
    decreases |times|
  {
    if times == [] then []
    else [Allowed(b, times[0], lim)] + Verdicts(Some(Charged(b, times[0], lim)), times[1..], lim)
  }

  function BucketAfter(b: Option<Bucket>, times: seq<real>, lim: Limits): Option<Bucket>
    decreases |times|
  {
    if times == [] then b else BucketAfter(Some(Charged(b, times[0], lim)), times[1..], lim)
  }

  function Count(verdicts: seq<bool>): nat {
    if verdicts == [] then 0 else (if verdicts[0] then 1 else 0) + Count(verdicts[1..])
  }

  predicate Monotone(times: seq<real>) {
    forall i, j | 0 <= i <= j < |times| :: times[i] <= times[j]
  }

  predicate Within(x: real, y: real) {
    x <= y
  }

  predicate Consecutive(x: real, y: real, both: real) {
    x + y == both
  }

  /** The bucket holds at least one token and refills evenly. */
  ghost predicate Usable(lim: Limits) {
    lim.max >= 1.0 && lim.refill(0.0) == 0.0
    && (forall x, y {:trigger Within(x, y)} :: Within(x, y) ==> lim.refill(x) <= lim.refill(y))
    && (forall x, y, both {:trigger Consecutive(x, y, both)} ::
          Consecutive(x, y, both) ==> lim.refill(x) + lim.refill(y) == lim.refill(both))
  }

  lemma RateIsUsable(max: real, rate: real)
    requires max >= 1.0 && rate >= 0.0
    ensures Usable(ByRate(max, rate))
  {
    var refill := ByRate(max, rate).refill;
    forall x, y {:trigger Within(x, y)} | Within(x, y)
      ensures refill(x) <= refill(y)
    {
      Scale(x, y, rate);
    }
    forall x, y, both {:trigger Consecutive(x, y, both)} | Consecutive(x, y, both)
      ensures refill(x) + refill(y) == refill(both)
    {
      assert x * rate + y * rate == (x + y) * rate;
    }
  }

  lemma Scale(x: real, y: real, rate: real)
    requires x <= y && rate >= 0.0
    ensures x * rate <= y * rate
  {
  }

  /** A bucket as it can be before a request at `now`: never overdrawn, never from the future. */
  predicate Sane(b: Option<Bucket>, now: real) {
    b.Some? ==> b.value.tokens >= 0.0 && b.value.lastRefill <= now
  }

  lemma AvailableIsSane(b: Option<Bucket>, now: real, lim: Limits)
    requires Sane(b, now) && Usable(lim)
    ensures 0.0 <= Available(b, now, lim) <= lim.max
    ensures Charged(b, now, lim).tokens >= 0.0
  {
    if b.Some? {
      assert Within(0.0, now - b.value.lastRefill);
    }
  }

  /** What is on hand later is at most what this request left plus the refill in between. */
  lemma LaterAvailable(b: Option<Bucket>, now: real, later: real, lim: Limits)
    ensures Available(Some(Charged(b, now, lim)), later, lim)
      <= Available(b, now, lim) - (if Allowed(b, now, lim) then 1.0 else 0.0) + lim.refill(later - now)
  {
  }

  lemma CountTail(b: Option<Bucket>, times: seq<real>, lim: Limits)
    requires times != []
    ensures Count(Verdicts(b, times, lim))
      == (if Allowed(b, times[0], lim) then 1 else 0) + Count(Verdicts(Some(Charged(b, times[0], lim)), times[1..], lim))
  {
    assert Verdicts(b, times, lim)[1..] == Verdicts(Some(Charged(b, times[0], lim)), times[1..], lim);
  }

  /** The requests of a run are paid for by what is on hand at its start and by the refill until its end. */
  predicate Supplied(b: Option<Bucket>, times: seq<real>, lim: Limits)
    requires times != []
  {
    Count(Verdicts(b, times, lim)) as real
      <= Available(b, times[0], lim) + lim.refill(times[|times| - 1] - times[0])
  }

  lemma SingleRequestSupplied(b: Option<Bucket>, now: real, lim: Limits)
    requires Sane(b, now) && Usable(lim)
    ensures Supplied(b, [now], lim)
  {
    AvailableIsSane(b, now, lim);
    CountTail(b, [now], lim);
    assert Within(0.0, now - now);
  }

  lemma LongerRunSupplied(b: Option<Bucket>, times: seq<real>, lim: Limits)
    requires |times| > 1 && Usable(lim) && Supplied(Some(Charged(b, times[0], lim)), times[1..], lim)
    ensures Supplied(b, times, lim)
  {
    var now, next, last := times[0], times[1], times[|times| - 1];
    CountTail(b, times, lim);
    LaterAvailable(b, now, next, lim);
    assert Consecutive(next - now, last - next, last - now);
  }

  lemma {:induction false} AllowedWithinSupply(b: Option<Bucket>, times: seq<real>, lim: Limits)
    requires times != [] && Monotone(times) && Sane(b, times[0]) && Usable(lim)
    ensures Supplied(b, times, lim)
    decreases |times|
  {
    if |times| == 1 {
      assert times == [times[0]];
      SingleRequestSupplied(b, times[0], lim);
    } else {
      AvailableIsSane(b, times[0], lim);
      assert times[1..][0] == times[1] >= times[0];
      AllowedWithinSupply(Some(Charged(b, times[0], lim)), times[1..], lim);
      LongerRunSupplied(b, times, lim);
    }
  }

  lemma {:induction false} LaterVerdicts(b: Option<Bucket>, times: seq<real>, i: nat, lim: Limits)
    requires i <= |times| && Monotone(times) && Usable(lim) && (times != [] ==> Sane(b, times[0]))
    ensures Verdicts(b, times, lim)[i..] == Verdicts(BucketAfter(b, times[..i], lim), times[i..], lim)
    ensures i < |times| ==> Sane(BucketAfter(b, times[..i], lim), times[i])
    decreases i
  {
    if i > 0 {
      var charged, rest := Some(Charged(b, times[0], lim)), times[1..];
      AvailableIsSane(b, times[0], lim);
      LaterVerdicts(charged, rest, i - 1, lim);
      assert times[..i][1..] == rest[..i - 1] && rest[i - 1..] == times[i..];
      assert Verdicts(b, times, lim)[i..] == Verdicts(charged, rest, lim)[i - 1..];
    } else {
      assert times[..0] == [] && times[0..] == times;
    }
  }

  lemma {:induction false} EarlierVerdicts(b: Option<Bucket>, times: seq<real>, j: nat, lim: Limits)
    requires j <= |times|
    ensures Verdicts(b, times[..j], lim) == Verdicts(b, times, lim)[..j]
    decreases j
  {
    if j > 0 {
      assert times[..j][1..] == times[1..][..j - 1];
      EarlierVerdicts(Some(Charged(b, times[0], lim)), times[1..], j - 1, lim);
    }
  }

  /** A stretch of verdicts is a run of its own, from the bucket the earlier requests left. */
  lemma StretchOfVerdicts(times: seq<real>, i: nat, j: nat, lim: Limits)
    requires i < j <= |times| && Monotone(times) && Usable(lim)
    ensures var b := BucketAfter(None, times[..i], lim);
      Sane(b, times[i]) && Verdicts(None, times, lim)[i..j] == Verdicts(b, times[i..j], lim)
  {
    var b := BucketAfter(None, times[..i], lim);
    LaterVerdicts(None, times, i, lim);
    EarlierVerdicts(b, times[i..], j - i, lim);
    assert times[i..][..j - i] == times[i..j];
    assert Verdicts(None, times, lim)[i..j] == Verdicts(None, times, lim)[i..][..j - i];
  }

  /** Of the requests `i` to `j - 1`, at most a full bucket plus the refill of that time got through. */
  predicate Bounded(times: seq<real>, i: nat, j: nat, lim: Limits)
    requires i < j <= |times|
  {
    Count(Verdicts(None, times, lim)[i..j]) as real <= lim.max + lim.refill(times[j - 1] - times[i])
  }

  lemma WindowIsBounded(times: seq<real>, i: nat, j: nat, lim: Limits)
    requires i < j <= |times| && Monotone(times) && Usable(lim)
    ensures Bounded(times, i, j, lim)
  {
    StretchOfVerdicts(times, i, j, lim);
    var b := BucketAfter(None, times[..i], lim);
    AllowedWithinSupply(b, times[i..j], lim);
    AvailableIsSane(b, times[i], lim);
  }

  /** Every window of every client is bounded, exactly for allowances of at least one request a minute. */
  lemma EveryWindowIsBounded(max: real)
    requires max >= 0.0
    ensures (forall times: seq<real>, i: nat, j: nat | i < j <= |times| && Monotone(times) ::
               Bounded(times, i, j, PerMinute(max)))
      <==> max >= 1.0
  {
    if max >= 1.0 {
      RateIsUsable(max, max / MINUTE);
      forall times: seq<real>, i: nat, j: nat | i < j <= |times| && Monotone(times)
        ensures Bounded(times, i, j, PerMinute(max))
      {
        WindowIsBounded(times, i, j, PerMinute(max));
      }
    } else {
      FirstRequestAlone(max);
      assert Monotone([0.0]);
    }
  }

  lemma FirstRequestAlone(max: real)
    requires 0.0 <= max < 1.0
    ensures !Bounded([0.0], 0, 1, PerMinute(max))
  {
    var v := Verdicts(None, [0.0], PerMinute(max));
    assert v[0..1] == [true] && Count([true][1..]) == 0;
    assert (0.0 - 0.0) * (max / MINUTE) == 0.0;
  }

  // ---------- Exactly which requests are refused ----------

  /** Room for one more request at `j` in the window that starts with request `i`. */
  predicate Room(times: seq<real>, i: nat, j: nat, lim: Limits)
    requires i <= j < |times|
  {
    Count(Verdicts(None, times, lim)[i..j]) as real + 1.0 <= lim.max + lim.refill(times[j] - times[i])
  }

  /** What request `j` would find if the bucket had been full at request `i`. */
  function Left(times: seq<real>, i: nat, j: nat, lim: Limits): real
    requires i <= j < |times|
  {
    lim.max + lim.refill(times[j] - times[i]) - Count(Verdicts(None, times, lim)[i..j]) as real
  }

  function Found(times: seq<real>, j: nat, lim: Limits): real
    requires j < |times|
  {
    Available(BucketAfter(None, times[..j], lim), times[j], lim)
  }

  lemma {:induction false} BucketExtends(b: Option<Bucket>, times: seq<real>, now: real, lim: Limits)
    ensures BucketAfter(b, times + [now], lim) == Some(Charged(BucketAfter(b, times, lim), now, lim))
    decreases |times|
  {
    if times == [] {
      assert times + [now] == [now] && [now][1..] == [];
    } else {
      assert (times + [now])[1..] == times[1..] + [now];
      BucketExtends(Some(Charged(b, times[0], lim)), times[1..], now, lim);
    }
  }

  lemma {:induction false} CountExtends(v: seq<bool>, last: bool)
    ensures Count(v + [last]) == Count(v) + if last then 1 else 0
  {
    if v == [] {
      assert v + [last] == [last] && [last][1..] == [];
    } else {
      assert (v + [last])[1..] == v[1..] + [last];
      CountExtends(v[1..], last);
    }
  }

  /** The verdict on request `j` is decided by what it finds. */
  lemma VerdictAt(times: seq<real>, j: nat, lim: Limits)
    requires j < |times| && Monotone(times) && Usable(lim)
    ensures Verdicts(None, times, lim)[j] <==> Found(times, j, lim) >= 1.0
  {
    StretchOfVerdicts(times, j, j + 1, lim);
    assert times[j..j + 1] == [times[j]];
    assert Verdicts(None, times, lim)[j] == Verdicts(None, times, lim)[j..j + 1][0];
  }

  lemma FoundNext(times: seq<real>, j: nat, lim: Limits)
    requires j + 1 < |times| && Monotone(times) && Usable(lim)
    ensures Found(times, j + 1, lim)
      == MinReal(lim.max, Found(times, j, lim) - (if Verdicts(None, times, lim)[j] then 1.0 else 0.0)
                          + lim.refill(times[j + 1] - times[j]))
  {
    assert times[..j + 1] == times[..j] + [times[j]];
    BucketExtends(None, times[..j], times[j], lim);
    VerdictAt(times, j, lim);
  }

  lemma LeftNext(times: seq<real>, i: nat, j: nat, lim: Limits)
    requires i <= j && j + 1 < |times| && Usable(lim)
    ensures Left(times, i, j + 1, lim)
      == Left(times, i, j, lim) - (if Verdicts(None, times, lim)[j] then 1.0 else 0.0) + lim.refill(times[j + 1] - times[j])
  {
    var v := Verdicts(None, times, lim);
    assert v[i..j + 1] == v[i..j] + [v[j]];
    CountExtends(v[i..j], v[j]);
    assert Consecutive(times[j] - times[i], times[j + 1] - times[j], times[j + 1] - times[i]);
  }

  lemma LeftAtOnce(times: seq<real>, j: nat, lim: Limits)
    requires j < |times| && Usable(lim)
    ensures Left(times, j, j, lim) == lim.max
  {
    assert Verdicts(None, times, lim)[j..j] == [];
    assert times[j] - times[j] == 0.0;
  }

  /** A request finds the least that any window up to it leaves. */
  lemma {:induction false} FoundIsTightest(times: seq<real>, j: nat, lim: Limits) returns (tightest: nat)
    requires j < |times| && Monotone(times) && Usable(lim)
    ensures tightest <= j && Found(times, j, lim) == Left(times, tightest, j, lim)
    ensures forall i: nat | i <= j :: Found(times, j, lim) <= Left(times, i, j, lim)
    decreases j
  {
    LeftAtOnce(times, j, lim);
    if j == 0 {
      assert times[..0] == [];
      tightest := 0;
    } else {
      var before := FoundIsTightest(times, j - 1, lim);
      FoundNext(times, j - 1, lim);
      LeftNext(times, before, j - 1, lim);
      tightest := if Found(times, j, lim) == lim.max then j else before;
      forall i: nat | i <= j ensures Found(times, j, lim) <= Left(times, i, j, lim) {
        if i < j {
          LeftNext(times, i, j - 1, lim);
        }
      }
    }
  }

  /** A request is let through exactly when every window up to it has room for one more. */
  lemma RefusedOnlyWithoutRoom(times: seq<real>, j: nat, lim: Limits)
    requires j < |times| && Monotone(times) && Usable(lim)
    ensures Verdicts(None, times, lim)[j] <==> forall i: nat | i <= j :: Room(times, i, j, lim)
  {
    var tightest := FoundIsTightest(times, j, lim);
    VerdictAt(times, j, lim);
    if forall i: nat | i <= j :: Room(times, i, j, lim) {
      assert Room(times, tightest, j, lim);
    }
    forall i: nat | i <= j ensures Room(times, i, j, lim) <==> Left(times, i, j, lim) >= 1.0 {
    }
  }

  /**
    A request that comes a token's refill after the last one let through is let through, whatever
    was refused in between.
   */
  lemma RefusalsCostNothing(times: seq<real>, a: nat, j: nat, lim: Limits)
    requires a < j < |times| && Monotone(times) && Usable(lim)
    requires Verdicts(None, times, lim)[a] && lim.refill(times[j] - times[a]) >= 1.0
    requires forall i | a < i < j :: !Verdicts(None, times, lim)[i]
    ensures Verdicts(None, times, lim)[j]
  {
    RefusedOnlyWithoutRoom(times, a, lim);
    RefusedOnlyWithoutRoom(times, j, lim);
    forall i: nat | i <= j ensures Room(times, i, j, lim) {
      if i <= a {
        assert Room(times, i, a, lim);
        RoomAgain(times, i, a, j, lim);
      } else {
        RoomUnused(times, i, j, lim);
      }
    }
  }

  lemma RoomAgain(times: seq<real>, i: nat, a: nat, j: nat, lim: Limits)
    requires i <= a < j < |times| && Usable(lim) && Room(times, i, a, lim) && Verdicts(None, times, lim)[a]
    requires lim.refill(times[j] - times[a]) >= 1.0 && forall k | a < k < j :: !Verdicts(None, times, lim)[k]
    ensures Room(times, i, j, lim)
  {
    var v := Verdicts(None, times, lim);
    assert v[i..j] == v[i..a] + [v[a]] + v[a + 1..j];
    CountExtends(v[i..a], v[a]);
    NoneAllowed(v[i..a] + [v[a]], v[a + 1..j]);
    assert Consecutive(times[a] - times[i], times[j] - times[a], times[j] - times[i]);
  }

  lemma RoomUnused(times: seq<real>, i: nat, j: nat, lim: Limits)
    requires i <= j < |times| && Usable(lim) && times[i] <= times[j]
    requires forall k | i <= k < j :: !Verdicts(None, times, lim)[k]
    ensures Room(times, i, j, lim)
  {
    var v := Verdicts(None, times, lim);
    NoneAllowed([], v[i..j]);
    assert [] + v[i..j] == v[i..j];
    assert Within(0.0, times[j] - times[i]);
  }

  lemma {:induction false} NoneAllowed(before: seq<bool>, v: seq<bool>)
    requires forall i | 0 <= i < |v| :: !v[i]
    ensures Count(before + v) == Count(before)
    decreases |v|
  {
    if v == [] {
      assert before + v == before;
    } else {
      var n := |v| - 1;
      assert before + v == before + v[..n] + [v[n]];
      CountExtends(before + v[..n], v[n]);
      NoneAllowed(before, v[..n]);
    }
  }

  /** The same in milliseconds: a minute over the allowance is enough. */
  lemma PollingClientIsServed(times: seq<real>, a: nat, j: nat, max: real, lim: Limits)
    requires a < j < |times| && Monotone(times) && max >= 1.0 && lim == PerMinute(max)
    requires times[j] - times[a] >= MINUTE / max
    requires Verdicts(None, times, lim)[a] && forall i | a < i < j :: !Verdicts(None, times, lim)[i]
    ensures Verdicts(None, times, lim)[j]
  {
    PerMinuteIsUsable(max);
    EnoughRefill(times[j] - times[a], max);
    RefusalsCostNothing(times, a, j, lim);
  }

  lemma PerMinuteIsUsable(max: real)
    requires max >= 1.0
    ensures Usable(PerMinute(max))
  {
    RateIsUsable(max, max / MINUTE);
  }

  lemma EnoughRefill(elapsed: real, max: real)
    requires max >= 1.0 && elapsed >= MINUTE / max
    ensures PerMinute(max).refill(elapsed) >= 1.0
  {
    Reciprocal(max);
    Scale(MINUTE / max, elapsed, max / MINUTE);
  }

  predicate Spaced(times: seq<real>, gap: real) {
    forall i | 0 <= i < |times| - 1 :: times[i + 1] - times[i] >= gap
  }

  lemma {:induction false} RefilledClientIsServed(b: Option<Bucket>, times: seq<real>, gap: real, lim: Limits)
    requires Usable(lim) && gap >= 0.0 && lim.refill(gap) >= 1.0 && Spaced(times, gap)
    requires times != [] ==> Sane(b, times[0]) && Allowed(b, times[0], lim)
    ensures forall v <- Verdicts(b, times, lim) :: v
    decreases |times|
  {
    if times != [] {
      var charged, rest := Some(Charged(b, times[0], lim)), times[1..];
      AvailableIsSane(b, times[0], lim);
      if rest != [] {
        assert rest[0] - times[0] >= gap;
        assert Within(gap, rest[0] - times[0]);
      }
      assert forall i | 0 <= i < |rest| - 1 :: rest[i + 1] - rest[i] == times[i + 1 + 1] - times[i + 1];
      RefilledClientIsServed(charged, rest, gap, lim);
    }
  }

  lemma Reciprocal(max: real)
    requires max >= 1.0
    ensures MINUTE / max >= 0.0 && (MINUTE / max) * (max / MINUTE) == 1.0
  {
    var x := MINUTE / max;
    assert x * max == MINUTE;
    assert x * (max / MINUTE) == (x * max) / MINUTE;
  }

  /** A client that spaces its requests by a minute over the allowance is never refused. */
  lemma PacedClientIsServed(times: seq<real>, max: real)
    requires max >= 1.0 && Spaced(times, MINUTE / max)
    ensures forall v <- Verdicts(None, times, PerMinute(max)) :: v
  {
    RateIsUsable(max, max / MINUTE);
    Reciprocal(max);
    RefilledClientIsServed(None, times, MINUTE / max, PerMinute(max));
  }

  // ---------- Many clients ----------

  datatype Request = Request(ip: string, now: real)

  function AllVerdicts(buckets: map<string, Bucket>, rs: seq<Request>, lim: Limits): (v: seq<bool>)
    ensures |v| == |rs|
    decreases |rs|
  {
    if rs == [] then []
    else
      var b := Lookup(buckets, rs[0].ip);
      [Allowed(b, rs[0].now, lim)] + AllVerdicts(buckets[rs[0].ip := Charged(b, rs[0].now, lim)], rs[1..], lim)
  }

  function TimesOf(ip: string, rs: seq<Request>): (times: seq<real>)
    decreases |rs|
  {
    if rs == [] then [] else (if rs[0].ip == ip then [rs[0].now] else []) + TimesOf(ip, rs[1..])
  }

  function VerdictsOf(ip: string, rs: seq<Request>, v: seq<bool>): seq<bool>
    requires |v| == |rs|
    decreases |rs|
  {
    if rs == [] then [] else (if rs[0].ip == ip then [v[0]] else []) + VerdictsOf(ip, rs[1..], v[1..])
  }

  /** What other clients do never changes a verdict on this one. */
  lemma {:induction false} ClientsAreIndependent(buckets: map<string, Bucket>, rs: seq<Request>, ip: string, lim: Limits)
    ensures VerdictsOf(ip, rs, AllVerdicts(buckets, rs, lim)) == Verdicts(Lookup(buckets, ip), TimesOf(ip, rs), lim)
    decreases |rs|
  {
    if rs != [] {
      var r := rs[0];
      var b := Lookup(buckets, r.ip);
      var next := buckets[r.ip := Charged(b, r.now, lim)];
      ClientsAreIndependent(next, rs[1..], ip, lim);
      assert AllVerdicts(buckets, rs, lim)[1..] == AllVerdicts(next, rs[1..], lim);
      if r.ip == ip {
        assert TimesOf(ip, rs)[1..] == TimesOf(ip, rs[1..]);
      } else {
        assert TimesOf(ip, rs) == TimesOf(ip, rs[1..]);
      }
    }
  }

  lemma {:induction false} TimesOfMonotone(ip: string, rs: seq<Request>)
    requires forall i, j | 0 <= i <= j < |rs| :: rs[i].now <= rs[j].now
    ensures Monotone(TimesOf(ip, rs)) && forall t <- TimesOf(ip, rs) :: rs != [] && rs[0].now <= t
    decreases |rs|
  {
    if rs != [] {
      var rest := TimesOf(ip, rs[1..]);
      TimesOfMonotone(ip, rs[1..]);
      if rs[0].ip == ip {
        var times := TimesOf(ip, rs);
        assert times == [rs[0].now] + rest;
        forall i, j | 0 <= i <= j < |times|
          ensures times[i] <= times[j]
        {
          if i == 0 && j > 0 {
            assert rest[j - 1] in rest;
          } else if i > 0 {
            assert rest[i - 1] <= rest[j - 1];
          }
        }
      } else {
        assert TimesOf(ip, rs) == rest;
      }
    }
  }

  lemma ClientWindow(rs: seq<Request>, ip: string, i: nat, j: nat, lim: Limits)
    requires forall i, j | 0 <= i <= j < |rs| :: rs[i].now <= rs[j].now
    requires i < j <= |TimesOf(ip, rs)| && Usable(lim)
    ensures VerdictsOf(ip, rs, AllVerdicts(map[], rs, lim)) == Verdicts(None, TimesOf(ip, rs), lim)
    ensures Bounded(TimesOf(ip, rs), i, j, lim)
  {
    ClientsAreIndependent(map[], rs, ip, lim);
    TimesOfMonotone(ip, rs);
    WindowIsBounded(TimesOf(ip, rs), i, j, lim);
  }

  /** The tokens a client regains in a stretch of time. */
  function Regained(elapsed: real, max: real): real {
    elapsed * (max / MINUTE)
  }

  lemma RefillIsRegained(elapsed: real, max: real)
    ensures PerMinute(max).refill(elapsed) == Regained(elapsed, max) && PerMinute(max).max == max
  {
  }

  /** In any run of the server, every window of every client stays within that client's own allowance. */
  lemma EveryClientIsLimited(rs: seq<Request>, ip: string, i: nat, j: nat, max: real)
    requires forall i, j | 0 <= i <= j < |rs| :: rs[i].now <= rs[j].now
    requires i < j <= |TimesOf(ip, rs)| && max >= 1.0
    ensures var verdicts := VerdictsOf(ip, rs, AllVerdicts(map[], rs, PerMinute(max)));
      var times := TimesOf(ip, rs);
      |verdicts| == |times|
      && Count(verdicts[i..j]) as real <= max + Regained(times[j - 1] - times[i], max)
  {
    var times, lim := TimesOf(ip, rs), PerMinute(max);
    RateIsUsable(max, max / MINUTE);
    ClientWindow(rs, ip, i, j, lim);
    RefillIsRegained(times[j - 1] - times[i], max);
  }
}
