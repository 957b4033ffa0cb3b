/** src/peer_udp.py, _allow_rate: the token bucket of each source address. */
module RateLimit {
  import opened Params

  datatype Bucket = Bucket(tokens: real, last: real)

  type Buckets = map<string, Bucket>

  function Refilled(b: Bucket, now: real): real {
    var tokens := b.tokens + (now - b.last) * RATE_LIMIT_PER_SEC;
    if tokens > RATE_LIMIT_BURST then RATE_LIMIT_BURST else tokens
  }

  predicate Allowed(buckets: Buckets, ip: string, now: real) {
    ip !in buckets || Refilled(buckets[ip], now) >= 1.0
  }

  /** The bucket of the address after a call. A refusal resets the clock but keeps no refill. */
  function Charged(buckets: Buckets, ip: string, now: real): Bucket {
    if ip !in buckets then Bucket(RATE_LIMIT_BURST - 1.0, now)
    else
      var tokens := Refilled(buckets[ip], now);
      if tokens < 1.0 then Bucket(buckets[ip].tokens, now) else Bucket(tokens - 1.0, now)
  }

  /** The buckets that were in use less than RATE_BUCKET_IDLE_SECONDS ago. */
  function Pruned(buckets: Buckets, now: real): Buckets {
    map ip | ip in buckets && buckets[ip].last > now - RATE_BUCKET_IDLE_SECONDS :: buckets[ip]
  }

  function Stepped(buckets: Buckets, ip: string, now: real): Buckets {
    var next := buckets[ip := Charged(buckets, ip, now)];
    if ip !in buckets && |next| > RATE_BUCKETS_MAX then Pruned(next, now) else next
  }

  class RateLimiter {
    var buckets: Buckets

    constructor ()
      ensures buckets == map[]
    {
      buckets := map[];
    }

    /** _allow_rate */
    method AllowRate(ip: string, now: real) returns (ok: bool)
      modifies this
      ensures ok == Allowed(old(buckets), ip, now)
      ensures buckets == Stepped(old(buckets), ip, now)
    {
      if ip !in buckets {
        buckets := buckets[ip := Bucket(RATE_LIMIT_BURST - 1.0, now)];
        if |buckets| > RATE_BUCKETS_MAX {
          var cutoff := now - RATE_BUCKET_IDLE_SECONDS;
          buckets := map k | k in buckets && buckets[k].last > cutoff :: buckets[k];
        }
        return true;
      }
      var bucket := buckets[ip];
      var tokens := bucket.tokens + (now - bucket.last) * RATE_LIMIT_PER_SEC;
      if tokens > RATE_LIMIT_BURST {
        tokens := RATE_LIMIT_BURST;
      }
      if tokens < 1.0 {
        buckets := buckets[ip := bucket.(last := now)];
        return false;
      }
      buckets := buckets[ip := Bucket(tokens - 1.0, now)];
      return true;
    }
  }

  // ------------------------------------------------------------------------------------------ runs

  datatype Call = Call(ip: string, at: real)

  /** The clock does not run backwards, from a first reading on. */
  ghost predicate Monotone(calls: seq<Call>, from: real)
    decreases |calls|
  {
    calls == [] || (calls[0].at >= from && Monotone(calls[1..], calls[0].at))
  }

  function AfterCalls(buckets: Buckets, calls: seq<Call>): Buckets
    decreases |calls|
  {
    if calls == [] then buckets else AfterCalls(Stepped(buckets, calls[0].ip, calls[0].at), calls[1..])
  }

  function Answers(buckets: Buckets, calls: seq<Call>): (r: seq<bool>)
    ensures |r| == |calls|
    decreases |calls|
  {
    if calls == [] then []
    else [Allowed(buckets, calls[0].ip, calls[0].at)] + Answers(Stepped(buckets, calls[0].ip, calls[0].at), calls[1..])
  }

  /** The same limiter without pruning. */
  function AnswersUnpruned(buckets: Buckets, calls: seq<Call>): (r: seq<bool>)
    ensures |r| == |calls|
    decreases |calls|
  {
    if calls == [] then []
    else
      var ip, at := calls[0].ip, calls[0].at;
      [Allowed(buckets, ip, at)] + AnswersUnpruned(buckets[ip := Charged(buckets, ip, at)], calls[1..])
  }

  /** How many datagrams of one address a run lets through. */
  function Admitted(buckets: Buckets, calls: seq<Call>, ip: string): nat
    decreases |calls|
  {
    if calls == [] then 0
    else
      (if calls[0].ip == ip && Allowed(buckets, calls[0].ip, calls[0].at) then 1 else 0)
      + Admitted(Stepped(buckets, calls[0].ip, calls[0].at), calls[1..], ip)
  }

  /** All buckets hold at most the burst less one, and none was used after now. */
  ghost predicate Sound(buckets: Buckets, now: real) {
    forall ip :: ip in buckets ==>
      0.0 <= buckets[ip].tokens <= RATE_LIMIT_BURST - 1.0 && buckets[ip].last <= now
  }

  lemma StepKeepsSound(buckets: Buckets, ip: string, now: real, at: real)
    requires Sound(buckets, now) && now <= at
    ensures Sound(Stepped(buckets, ip, at), at)
  {
  }

  lemma {:induction false} RunKeepsSound(buckets: Buckets, calls: seq<Call>, from: real)
    requires Sound(buckets, from) && Monotone(calls, from)
    ensures Sound(AfterCalls(buckets, calls), if calls == [] then from else calls[|calls| - 1].at)
    decreases |calls|
  {
    if calls != [] {
      StepKeepsSound(buckets, calls[0].ip, from, calls[0].at);
      RunKeepsSound(Stepped(buckets, calls[0].ip, calls[0].at), calls[1..], calls[0].at);
    }
  }

  // --------------------------------------------------------------------------------- the window bound

  /** The tokens an address has left at a time, an absent bucket counting as full. */
  function Level(buckets: Buckets, ip: string, now: real): real {
    if ip in buckets then Refilled(buckets[ip], now) else RATE_LIMIT_BURST
  }

  /** One call: what it admits is paid from the level, which time refills at RATE_LIMIT_PER_SEC. */
  lemma StepPays(buckets: Buckets, call: Call, ip: string, from: real)
    requires Sound(buckets, from) && from <= call.at
    ensures
      (if call.ip == ip && Allowed(buckets, call.ip, call.at) then 1.0 else 0.0)
      + Level(Stepped(buckets, call.ip, call.at), ip, call.at)
      <= Level(buckets, ip, from) + (call.at - from) * RATE_LIMIT_PER_SEC
  {
    if call.ip != ip && ip in buckets && buckets[ip].last <= call.at - RATE_BUCKET_IDLE_SECONDS {
      assert (call.at - buckets[ip].last) * RATE_LIMIT_PER_SEC >= RATE_LIMIT_BURST;
    }
  }

  lemma {:induction false} RunPays(buckets: Buckets, calls: seq<Call>, ip: string, from: real)
    requires Sound(buckets, from) && Monotone(calls, from)
    ensures
      var to := if calls == [] then from else calls[|calls| - 1].at;
      Admitted(buckets, calls, ip) as real <= Level(buckets, ip, from) + (to - from) * RATE_LIMIT_PER_SEC
    decreases |calls|
  {
    if calls == [] {
    } else {
      StepPays(buckets, calls[0], ip, from);
      StepKeepsSound(buckets, calls[0].ip, from, calls[0].at);
      RunPays(Stepped(buckets, calls[0].ip, calls[0].at), calls[1..], ip, calls[0].at);
    }
  }

  /** From any reachable state, a window of length T lets at most
      RATE_LIMIT_BURST + RATE_LIMIT_PER_SEC * T datagrams of one address through. */
  lemma WindowBound(before: seq<Call>, window: seq<Call>, ip: string, from: real)
    requires window != [] && Monotone(before, from)
    requires Monotone(window, if before == [] then from else before[|before| - 1].at)
    ensures Admitted(AfterCalls(map[], before), window, ip) as real
         <= RATE_LIMIT_BURST + RATE_LIMIT_PER_SEC * (window[|window| - 1].at - window[0].at)
  {
    RunKeepsSound(map[], before, from);
    var buckets := AfterCalls(map[], before);
    assert Monotone(window, window[0].at);
    RunPays(buckets, window, ip, window[0].at);
  }

  // ------------------------------------------------------------------------------------- pruning

  /** What pruning took away are buckets idle long enough to be full again. */
  ghost predicate OnlyIdleGone(pruned: Buckets, full: Buckets, now: real) {
    && (forall ip :: ip in pruned ==> ip in full && full[ip] == pruned[ip])
    && (forall ip :: ip in full && ip !in pruned ==> full[ip].last <= now - RATE_BUCKET_IDLE_SECONDS)
  }

  lemma PruningStep(pruned: Buckets, full: Buckets, ip: string, now: real, at: real)
    requires OnlyIdleGone(pruned, full, now) && Sound(full, now) && now <= at
    ensures Allowed(pruned, ip, at) == Allowed(full, ip, at)
    ensures Charged(pruned, ip, at) == Charged(full, ip, at)
    ensures OnlyIdleGone(Stepped(pruned, ip, at), full[ip := Charged(full, ip, at)], at)
    ensures Sound(full[ip := Charged(full, ip, at)], at)
  {
    if ip in full && ip !in pruned {
      assert (at - full[ip].last) * RATE_LIMIT_PER_SEC >= RATE_LIMIT_BURST;
    }
  }

  lemma {:induction false} PruningInvisibleFrom(pruned: Buckets, full: Buckets, calls: seq<Call>, from: real)
    requires OnlyIdleGone(pruned, full, from) && Sound(full, from) && Monotone(calls, from)
    ensures Answers(pruned, calls) == AnswersUnpruned(full, calls)
    decreases |calls|
  {
    if calls != [] {
      var ip, at := calls[0].ip, calls[0].at;
      PruningStep(pruned, full, ip, from, at);
      PruningInvisibleFrom(Stepped(pruned, ip, at), full[ip := Charged(full, ip, at)], calls[1..], at);
    }
  }

  /** Pruning never changes an answer. */
  lemma {:induction false} PruningInvisible(calls: seq<Call>, from: real)
    requires Monotone(calls, from)
    ensures Answers(map[], calls) == AnswersUnpruned(map[], calls)
  {
    PruningInvisibleFrom(map[], map[], calls, from);
  }

  // ------------------------------------------------------------------------------ what pace gets through

  /** Calls of one address only, each this long after the one before. */
  ghost predicate Paced(calls: seq<Call>, ip: string, last: real, atLeast: real)
    decreases |calls|
  {
    calls == [] || (calls[0].ip == ip && calls[0].at - last >= atLeast && Paced(calls[1..], ip, calls[0].at, atLeast))
  }

  ghost predicate Hurried(calls: seq<Call>, ip: string, last: real, lessThan: real)
    decreases |calls|
  {
    calls == []
    || (calls[0].ip == ip && 0.0 <= calls[0].at - last < lessThan && Hurried(calls[1..], ip, calls[0].at, lessThan))
  }

  /** A sender that keeps to RATE_LIMIT_PER_SEC is never refused. */
  lemma {:induction false} PacedNeverRefused(buckets: Buckets, calls: seq<Call>, ip: string, last: real)
    requires Sound(buckets, last) && Paced(calls, ip, last, 1.0 / RATE_LIMIT_PER_SEC)
    ensures forall a :: a in Answers(buckets, calls) ==> a
    decreases |calls|
  {
    if calls != [] {
      StepKeepsSound(buckets, ip, last, calls[0].at);
      PacedNeverRefused(Stepped(buckets, ip, calls[0].at), calls[1..], ip, calls[0].at);
    }
  }

  /** A refusal drops the refill: a sender that goes on faster than the missing part of a token refills is
      refused for as long as it goes on. */
  lemma {:induction false} HurriedAlwaysRefused(buckets: Buckets, calls: seq<Call>, ip: string)
    requires ip in buckets && buckets[ip].tokens < 1.0
    requires Hurried(calls, ip, buckets[ip].last, (1.0 - buckets[ip].tokens) / RATE_LIMIT_PER_SEC)
    ensures forall a :: a in Answers(buckets, calls) ==> !a
    decreases |calls|
  {
    if calls != [] {
      HurriedAlwaysRefused(Stepped(buckets, ip, calls[0].at), calls[1..], ip);
    }
  }

  /** What k datagrams cost of the tokens, net of the refill in a gap before each. */
  function Spent(k: nat, gap: real): real {
    k as real * (1.0 - RATE_LIMIT_PER_SEC * gap)
  }

  lemma SpentNext(k: nat, gap: real)
    ensures Spent(0, gap) == 0.0
    ensures Spent(k + 1, gap) == Spent(k, gap) + (1.0 - RATE_LIMIT_PER_SEC * gap)
  {
    var cost := 1.0 - RATE_LIMIT_PER_SEC * gap;
    assert (k + 1) as real == k as real + 1.0;
    OneMore(k as real, cost);
  }

  lemma OneMore(k: real, cost: real)
    ensures (k + 1.0) * cost == k * cost + cost
  {
  }

  /** Each datagram let through costs at least what a gap shorter than 1 / RATE_LIMIT_PER_SEC does not refill,
      so the tokens at hand bound them all, however long the stream goes on. */
  lemma {:induction false} HurriedBounded(buckets: Buckets, calls: seq<Call>, ip: string, gap: real)
    requires ip in buckets && Sound(buckets, buckets[ip].last)
    requires HurriedBy(calls, ip, buckets[ip].last, gap)
    ensures Spent(Admitted(buckets, calls, ip), gap) <= buckets[ip].tokens
    decreases |calls|
  {
    if calls != [] {
      HurriedStep(buckets, calls, ip, gap);
      hide Stepped, Allowed, Sound, HurriedBy, Admitted, Spent;
      var next := Stepped(buckets, ip, calls[0].at);
      HurriedBounded(next, calls[1..], ip, gap);
      SpentNext(Admitted(next, calls[1..], ip), gap);
    } else {
      SpentNext(0, gap);
      hide Spent;
    }
  }

  lemma {:induction false} HurriedStep(buckets: Buckets, calls: seq<Call>, ip: string, gap: real)
    requires ip in buckets && Sound(buckets, buckets[ip].last) && calls != []
    requires HurriedBy(calls, ip, buckets[ip].last, gap)
    ensures
      var next := Stepped(buckets, ip, calls[0].at);
      var cost := if Allowed(buckets, ip, calls[0].at) then 1.0 - RATE_LIMIT_PER_SEC * gap else 0.0;
      && ip in next && Sound(next, next[ip].last) && HurriedBy(calls[1..], ip, next[ip].last, gap)
      && next[ip].tokens + cost <= buckets[ip].tokens
      && Admitted(buckets, calls, ip)
           == Admitted(next, calls[1..], ip) + (if Allowed(buckets, ip, calls[0].at) then 1 else 0)
  {
    StepKeepsSound(buckets, ip, buckets[ip].last, calls[0].at);
    CallCosts(buckets, ip, calls[0].at, gap);
    hide Charged, Allowed, Refilled, Sound, Stepped;
  }

  lemma CallCosts(buckets: Buckets, ip: string, at: real, gap: real)
    requires ip in buckets && 0.0 <= at - buckets[ip].last <= gap
    ensures ip in Stepped(buckets, ip, at) && Stepped(buckets, ip, at)[ip].last == at
    ensures
      var cost := if Allowed(buckets, ip, at) then 1.0 - RATE_LIMIT_PER_SEC * gap else 0.0;
      Stepped(buckets, ip, at)[ip].tokens + cost <= buckets[ip].tokens
  {
    assert (at - buckets[ip].last) * RATE_LIMIT_PER_SEC <= gap * RATE_LIMIT_PER_SEC;
  }

  /** Calls of one address only, each at most this long after the one before. */
  ghost predicate HurriedBy(calls: seq<Call>, ip: string, last: real, gap: real)
    decreases |calls|
  {
    calls == []
    || (calls[0].ip == ip && 0.0 <= calls[0].at - last <= gap && HurriedBy(calls[1..], ip, calls[0].at, gap))
  }

  // ---------------------------------------------------------------------------------- steady streams

  /** n datagrams of one address from a time on, evenly spaced. */
  function Steady(ip: string, from: real, gap: real, n: nat): (r: seq<Call>)
    ensures |r| == n
    decreases n
  {
    if n == 0 then [] else [Call(ip, from)] + Steady(ip, from + gap, gap, n - 1)
  }

  lemma {:induction false} SteadyPaces(ip: string, from: real, gap: real, n: nat)
    requires gap >= 0.0
    ensures Paced(Steady(ip, from, gap, n), ip, from - gap, gap)
    ensures HurriedBy(Steady(ip, from, gap, n), ip, from - gap, gap)
    decreases n
  {
    if n > 0 {
      SteadyPaces(ip, from + gap, gap, n - 1);
      assert from + gap - gap == from;
    }
  }

  /** The first datagram of an address is let through and leaves a bucket of RATE_LIMIT_BURST - 1 tokens. */
  lemma {:induction false} FirstCall(ip: string, from: real, calls: seq<Call>)
    ensures Stepped(map[], ip, from) == map[ip := Bucket(RATE_LIMIT_BURST - 1.0, from)]
    ensures Admitted(map[], [Call(ip, from)] + calls, ip)
         == 1 + Admitted(map[ip := Bucket(RATE_LIMIT_BURST - 1.0, from)], calls, ip)
    ensures Answers(map[], [Call(ip, from)] + calls)
         == [true] + Answers(map[ip := Bucket(RATE_LIMIT_BURST - 1.0, from)], calls)
  {
    var m: Buckets := map[ip := Bucket(RATE_LIMIT_BURST - 1.0, from)];
    assert m.Keys == {ip} && |m| == |m.Keys|;
    assert ([Call(ip, from)] + calls)[1..] == calls;
  }

  lemma {:induction false} AllTrueAdmitted(buckets: Buckets, calls: seq<Call>, ip: string)
    requires forall a :: a in Answers(buckets, calls) ==> a
    requires forall c :: c in calls ==> c.ip == ip
    ensures Admitted(buckets, calls, ip) == |calls|
    decreases |calls|
  {
    if calls != [] {
      var next := Stepped(buckets, calls[0].ip, calls[0].at);
      assert Answers(buckets, calls)[0] in Answers(buckets, calls);
      forall a | a in Answers(next, calls[1..]) ensures a {
        assert a in Answers(buckets, calls);
      }
      AllTrueAdmitted(next, calls[1..], ip);
    }
  }

  lemma {:induction false} SteadyIsOne(ip: string, from: real, gap: real, n: nat)
    ensures forall c :: c in Steady(ip, from, gap, n) ==> c.ip == ip
    decreases n
  {
    if n > 0 {
      SteadyIsOne(ip, from + gap, gap, n - 1);
    }
  }

  /** A stream at RATE_LIMIT_PER_SEC or slower is let through in full. */
  lemma {:induction false} SteadySlow(ip: string, from: real, gap: real, n: nat)
    requires gap * RATE_LIMIT_PER_SEC >= 1.0
    ensures Admitted(map[], Steady(ip, from, gap, n), ip) == n
  {
    if n > 0 {
      var rest := Steady(ip, from + gap, gap, n - 1);
      var m: Buckets := map[ip := Bucket(RATE_LIMIT_BURST - 1.0, from)];
      FirstCall(ip, from, rest);
      SlowGap(gap);
      assert Sound(m, from) && from + gap - gap == from;
      hide Sound, Paced, HurriedBy, Answers, Admitted, Stepped;
      SteadyPaces(ip, from + gap, gap, n - 1);
      SteadyIsOne(ip, from + gap, gap, n - 1);
      AllAdmitted(m, rest, ip, from, gap);
    }
  }

  lemma {:induction false} AllAdmitted(buckets: Buckets, calls: seq<Call>, ip: string, last: real, gap: real)
    requires Sound(buckets, last) && Paced(calls, ip, last, gap) && gap >= 1.0 / RATE_LIMIT_PER_SEC
    requires forall c :: c in calls ==> c.ip == ip
    ensures Admitted(buckets, calls, ip) == |calls|
  {
    PacedFaster(calls, ip, last, gap, 1.0 / RATE_LIMIT_PER_SEC);
    PacedNeverRefused(buckets, calls, ip, last);
    AllTrueAdmitted(buckets, calls, ip);
  }

  lemma SlowGap(gap: real)
    requires gap * RATE_LIMIT_PER_SEC >= 1.0
    ensures gap >= 1.0 / RATE_LIMIT_PER_SEC
  {
  }

  lemma {:induction false} PacedFaster(calls: seq<Call>, ip: string, last: real, a: real, b: real)
    requires Paced(calls, ip, last, a) && a >= b
    ensures Paced(calls, ip, last, b)
    decreases |calls|
  {
    if calls != [] {
      PacedFaster(calls[1..], ip, calls[0].at, a, b);
    }
  }

  /** Of a faster stream no more than this is ever let through. */
  lemma {:induction false} SteadyFast(ip: string, from: real, gap: real, n: nat)
    requires 0.0 <= gap && gap * RATE_LIMIT_PER_SEC < 1.0
    ensures Spent(Admitted(map[], Steady(ip, from, gap, n), ip), gap) <= RATE_LIMIT_BURST
  {
    if n > 0 {
      var rest := Steady(ip, from + gap, gap, n - 1);
      var m: Buckets := map[ip := Bucket(RATE_LIMIT_BURST - 1.0, from)];
      FirstCall(ip, from, rest);
      SteadyPaces(ip, from + gap, gap, n - 1);
      assert from + gap - gap == from;
      HurriedBounded(m, rest, ip, gap);
      SpentNext(Admitted(m, rest, ip), gap);
    } else {
      SpentNext(0, gap);
    }
    hide Spent;
  }

  /** So many datagrams of a steady stream get through, however long it is. */
  ghost predicate Bounded(ip: string, from: real, gap: real, most: nat) {
    forall n: nat :: Admitted(map[], Steady(ip, from, gap, n), ip) <= most
  }

  /** A steady stream is let through without end exactly when it keeps to RATE_LIMIT_PER_SEC, and then in full:
      one that is faster by however little is cut off for good. */
  lemma SteadyIff(ip: string, from: real, gap: real)
    requires gap >= 0.0
    ensures gap * RATE_LIMIT_PER_SEC >= 1.0
       <==> forall n: nat :: Admitted(map[], Steady(ip, from, gap, n), ip) == n
    ensures gap * RATE_LIMIT_PER_SEC >= 1.0 <==> !exists most: nat :: Bounded(ip, from, gap, most)
  {
    if gap * RATE_LIMIT_PER_SEC >= 1.0 {
      forall n: nat ensures Admitted(map[], Steady(ip, from, gap, n), ip) == n {
        SteadySlow(ip, from, gap, n);
      }
      forall most: nat ensures !Bounded(ip, from, gap, most) {
        assert Admitted(map[], Steady(ip, from, gap, most + 1), ip) == most + 1;
      }
    } else {
      var loss := 1.0 - RATE_LIMIT_PER_SEC * gap;
      var most := (RATE_LIMIT_BURST / loss).Floor;
      QuotientFloor(RATE_LIMIT_BURST, loss);
      forall n: nat ensures Admitted(map[], Steady(ip, from, gap, n), ip) <= most {
        SteadyFast(ip, from, gap, n);
        BelowFloor(Admitted(map[], Steady(ip, from, gap, n), ip), RATE_LIMIT_BURST, loss);
      }
      assert Bounded(ip, from, gap, most);
      assert Admitted(map[], Steady(ip, from, gap, most + 1), ip) != most + 1;
    }
  }

  lemma QuotientFloor(a: real, b: real)
    requires a >= 0.0 && b > 0.0
    ensures a / b >= 0.0 && (a / b).Floor >= 0
  {
  }

  lemma BelowFloor(k: nat, a: real, b: real)
    requires b > 0.0 && k as real * b <= a
    ensures k <= (a / b).Floor
  {
    assert (k as real * b) / b == k as real;
    assert (k as real * b) / b <= a / b;
  }

  /** With tokens for j more, a stream of two a RATE_LIMIT_PER_SEC-th gets min(j, n) of n datagrams through. */
  lemma {:induction false} DoubleRateFrom(buckets: Buckets, ip: string, n: nat, j: nat)
    requires ip in buckets && buckets[ip].tokens == j as real * 0.5 && j <= 198
    ensures Admitted(buckets, Steady(ip, buckets[ip].last + 0.01, 0.01, n), ip) == if n < j then n else j
    decreases n
  {
    if n > 0 {
      var at := buckets[ip].last + 0.01;
      var next := Stepped(buckets, ip, at);
      assert Refilled(buckets[ip], at) == j as real * 0.5 + 0.5;
      assert next[ip] == if j >= 1 then Bucket((j - 1) as real * 0.5, at) else Bucket(0.0, at);
      DoubleRateFrom(next, ip, n - 1, if j >= 1 then j - 1 else 0);
    }
  }

  /** At twice the rate, 100 datagrams a second, the first 199 get through and none after them. */
  lemma {:induction false} DoubleRate(ip: string, from: real, n: nat)
    ensures Admitted(map[], Steady(ip, from, 0.01, n), ip) == if n < 199 then n else 199
  {
    if n > 0 {
      FirstCall(ip, from, Steady(ip, from + 0.01, 0.01, n - 1));
      DoubleRateFrom(map[ip := Bucket(RATE_LIMIT_BURST - 1.0, from)], ip, n - 1, 198);
    }
  }

  /** The table is over its size only with addresses heard of within the last minute. */
  lemma TableIsRecent(buckets: Buckets, ip: string, now: real)
    requires ip !in buckets && |Stepped(buckets, ip, now)| > RATE_BUCKETS_MAX
    ensures forall other :: other in Stepped(buckets, ip, now) ==> Stepped(buckets, ip, now)[other].last > now - 60.0
  {
  }
}
