/**
 The leaky-bucket rate limiter of handler/limiter.go.  Times are nanoseconds; every
 clock reading of a call is a separate input.
 */
module Limiter {
  import opened Records

  const MILLISECOND: int := 1_000_000
  const MINUTE: int := 60_000 * MILLISECOND

  datatype Bucket = Bucket(size: int, last: int)

  datatype Entry = Entry(bucket: Bucket, expiry: int)

  /** The readings of one call: cache lookup, time.Since, time.Now, cache store. */
  datatype Clock = Clock(get: int, since: int, now: int, put: int)

  datatype Params = Params(step: int, max: int)

  function NewParams(rate: int, burst: int): (p: Params)
    requires rate >= 1
    ensures 0 <= p.step <= MINUTE && p.step % MILLISECOND == 0
  {
    StepRange(rate);
    var step := (60_000 / rate) * MILLISECOND;
    Params(step, step * burst)
  }

  lemma {:induction false} StepRange(rate: int)
    requires rate >= 1
    ensures 0 <= 60_000 / rate <= 60_000
  {
  }

  /** One call on a live bucket. */
  function Take(p: Params, b: Bucket, c: Clock): (Bucket, bool) {
    var drained := b.size - (c.since - b.last);
    var size := if drained < 0 then 0 else drained;
    if size > p.max then (Bucket(size, c.now), false) else (Bucket(size + p.step, c.now), true)
  }

  function Fresh(p: Params, c: Clock): (Bucket, bool) {
    (Bucket(p.step, c.now), true)
  }

  predicate Live(e: Option<Entry>, at: int) {
    e.Some? && at <= e.value.expiry
  }

  /** One call against the expiring cache. */
  function Serve(p: Params, e: Option<Entry>, c: Clock): (Entry, bool) {
    var (b, ok) := if Live(e, c.get) then Take(p, e.value.bucket, c) else Fresh(p, c);
    (Entry(b, c.put + MINUTE), ok)
  }

  /** One call against a limiter that never forgets a key. */
  function ServeForever(p: Params, b: Option<Bucket>, c: Clock): (Bucket, bool) {
    if b.Some? then Take(p, b.value, c) else Fresh(p, c)
  }

  // ---- The object ------------------------------------------------------------

  class RateLimiter {
    const enable: bool
    const params: Params
    const whiteList: set<string>
    const blackList: set<string>
    var limiters: map<string, Entry>

    constructor (enable: bool, rate: int, burst: int, white: seq<string>, black: seq<string>)
      requires rate >= 1
      ensures this.enable == enable && params == NewParams(rate, burst) && limiters == map[]
      ensures whiteList == (set x | x in white) && blackList == (set x | x in black)
    {
      var w: set<string>, b: set<string> := {}, {};
      for i := 0 to |white|
        invariant w == set x | x in white[..i]
      {
        w := w + {white[i]};
        assert white[..i + 1] == white[..i] + [white[i]];
      }
      for i := 0 to |black|
        invariant b == set x | x in black[..i]
      {
        b := b + {black[i]};
        assert black[..i + 1] == black[..i] + [black[i]];
      }
      assert white[..|white|] == white && black[..|black|] == black;
      this.enable, params, limiters := enable, NewParams(rate, burst), map[];
      whiteList, blackList := w, b;
    }

    function At(key: string): Option<Entry> reads this {
      if key in limiters then Some(limiters[key]) else None
    }

    method CanHandle(key: string, c: Clock) returns (res: bool)
      modifies this
      ensures !enable || key in blackList || key in whiteList ==>
        limiters == old(limiters) && res == (!enable || key !in blackList)
      ensures enable && key !in blackList && key !in whiteList ==>
        && res == Serve(params, old(At(key)), c).1
        && limiters == old(limiters)[key := Serve(params, old(At(key)), c).0]
    {
      if !enable { return true; }
      if key in blackList { return false; }
      if key in whiteList { return true; }
      var l: Bucket;
      if key in limiters && c.get <= limiters[key].expiry {
        l := limiters[key].bucket;
        l := l.(size := l.size - (c.since - l.last));
        l := l.(last := c.now);
        if l.size < 0 { l := l.(size := 0); }
        if l.size > params.max {
          res := false;
        } else {
          l := l.(size := l.size + params.step);
          res := true;
        }
      } else {
        l := Bucket(params.step, c.now);
        res := true;
      }
      limiters := limiters[key := Entry(l, c.put + MINUTE)];
    }

    /** The cache's cleanup: no later call can tell that it ran. */
    method DeleteExpired(now: int)
      modifies this
      ensures forall key, c: Clock :: now <= c.get ==> Serve(params, At(key), c) == Serve(params, old(At(key)), c)
    {
      limiters := map k | k in limiters && now <= limiters[k].expiry :: limiters[k];
    }
  }

  // ---- Runs for one key --------------------------------------------------------

  predicate Ordered(c: Clock) {
    c.get <= c.since <= c.now <= c.put
  }

  predicate Sequential(calls: seq<Clock>) {
    && (forall i :: 0 <= i < |calls| ==> Ordered(calls[i]))
    && (forall i :: 0 < i < |calls| ==> calls[i - 1].put <= calls[i].get)
  }

  /** The bucket and the decisions after the calls so far, last call first. */
  ghost function Kept(p: Params, calls: seq<Clock>): (r: (Option<Bucket>, seq<bool>))
    ensures |r.1| == |calls|
  {
    if calls == [] then (None, [])
    else
      var (b, oks) := Kept(p, calls[..|calls| - 1]);
      var (b', ok) := ServeForever(p, b, calls[|calls| - 1]);
      (Some(b'), oks + [ok])
  }

  ghost function Cached(p: Params, calls: seq<Clock>): (r: (Option<Entry>, seq<bool>))
    ensures |r.1| == |calls|
  {
    if calls == [] then (None, [])
    else
      var (e, oks) := Cached(p, calls[..|calls| - 1]);
      var (e', ok) := Serve(p, e, calls[|calls| - 1]);
      (Some(e'), oks + [ok])
  }

  ghost predicate ForgettingIsInvisible(p: Params) {
    forall calls :: Sequential(calls) ==> Cached(p, calls).1 == Kept(p, calls).1
  }

  lemma {:induction false} SequentialPrefix(calls: seq<Clock>)
    requires calls != [] && Sequential(calls)
    ensures Sequential(calls[..|calls| - 1])
  {
  }

  /** The level never leaves [0, MaxTime + TimeStep], and a call stamps its own clock reading. */
  lemma {:induction false} SizeInvariant(p: Params, calls: seq<Clock>)
    requires p.step >= 0 && p.max >= 0 && calls != [] && Sequential(calls)
    ensures var b := Kept(p, calls).0.value;
      0 <= b.size <= p.max + p.step && b.last == calls[|calls| - 1].now
  {
    var n := |calls| - 1;
    SequentialPrefix(calls);
    if n == 0 {
    } else {
      SizeInvariant(p, calls[..n]);
      assert calls[..n][n - 1] == calls[n - 1];
    }
  }

  /** With a bucket that drains within a minute, a dropped entry had nothing left in it. */
  lemma {:induction false} CachedIsKept(p: Params, calls: seq<Clock>)
    requires p.step >= 0 && p.max >= 0 && p.max + p.step <= MINUTE && Sequential(calls)
    ensures Cached(p, calls).1 == Kept(p, calls).1
    ensures calls != [] ==>
      Cached(p, calls).0 == Some(Entry(Kept(p, calls).0.value, calls[|calls| - 1].put + MINUTE))
  {
    var n := |calls| - 1;
    if n < 0 {
    } else {
      SequentialPrefix(calls);
      CachedIsKept(p, calls[..n]);
      if n > 0 {
        SizeInvariant(p, calls[..n]);
        assert calls[..n][n - 1] == calls[n - 1];
      }
    }
  }

  // ---- The bound is exact -------------------------------------------------------

  function Instant(t: int): Clock {
    Clock(t, t, t, t)
  }

  ghost function Burst(t: int, k: nat): seq<Clock> {
    seq(k, i => Instant(t))
  }

  ghost predicate AllAccepted(oks: seq<bool>, from: nat) {
    forall i :: from <= i < |oks| ==> oks[i]
  }

  /** `k` further calls at one instant fill the bucket step by step and all pass, up to MaxTime. */
  lemma {:induction false} CachedBurst(p: Params, before: seq<Clock>, t: int, k: nat)
    requires p.step >= 0 && p.max >= 0
    requires Cached(p, before).0.Some?
    requires var e := Cached(p, before).0.value;
      e.bucket.last == t && e.expiry == t + MINUTE && 0 <= e.bucket.size && e.bucket.size + k * p.step <= p.max + p.step
    ensures var e := Cached(p, before).0.value;
      Cached(p, before + Burst(t, k)).0 == Some(Entry(Bucket(e.bucket.size + k * p.step, t), t + MINUTE))
    ensures AllAccepted(Cached(p, before + Burst(t, k)).1, |before|)
  {
    if k == 0 {
      assert before + Burst(t, k) == before;
    } else {
      StepUp(p.step, k);
      CachedBurst(p, before, t, k - 1);
      AppendInstant(before, t, k);
    }
  }

  lemma {:induction false} KeptBurst(p: Params, before: seq<Clock>, t: int, k: nat)
    requires p.step >= 0 && p.max >= 0
    requires Kept(p, before).0.Some?
    requires var b := Kept(p, before).0.value; b.last == t && 0 <= b.size && b.size + k * p.step <= p.max + p.step
    ensures var b := Kept(p, before).0.value;
      Kept(p, before + Burst(t, k)).0 == Some(Bucket(b.size + k * p.step, t))
  {
    if k == 0 {
      assert before + Burst(t, k) == before;
    } else {
      StepUp(p.step, k);
      KeptBurst(p, before, t, k - 1);
      AppendInstant(before, t, k);
    }
  }

  /** Calls at one instant that were all accepted each added a step to what was left. */
  lemma {:induction false} KeptAccumulates(p: Params, before: seq<Clock>, t: int, k: nat)
    requires k > 0 && p.step >= 0 && Kept(p, before).0.Some?
    requires AllAccepted(Kept(p, before + Burst(t, k)).1, |before|)
    ensures var b := Kept(p, before).0.value;
      var left := if b.size - (t - b.last) < 0 then 0 else b.size - (t - b.last);
      Kept(p, before + Burst(t, k)).0 == Some(Bucket(left + k * p.step, t))
  {
    StepUp(p.step, k);
    AppendInstant(before, t, k);
    var shorter := before + Burst(t, k - 1);
    var (b, oks) := Kept(p, shorter);
    var (_, ok) := ServeForever(p, b, Instant(t));
    assert Kept(p, before + Burst(t, k)).1 == oks + [ok];
    assert (oks + [ok])[|oks|] == ok;
    if k == 1 {
      assert shorter == before;
    } else {
      assert forall i :: 0 <= i < |oks| ==> (oks + [ok])[i] == oks[i];
      KeptAccumulates(p, before, t, k - 1);
    }
  }

  lemma {:induction false} AppendInstant(before: seq<Clock>, t: int, k: nat)
    requires k > 0
    ensures var calls := before + Burst(t, k);
      |calls| == |before| + k && calls[|calls| - 1] == Instant(t)
      && calls[..|calls| - 1] == before + Burst(t, k - 1)
  {
  }

  lemma {:induction false} StepUp(step: int, k: nat)
    requires k > 0 && step >= 0
    ensures k * step == (k - 1) * step + step && (k - 1) * step >= 0
  {
  }

  lemma {:induction false} OpeningBurst(p: Params, t: int, burst: nat)
    requires p.step >= 0 && p.max == p.step * burst && p.max >= 0
    ensures var calls := [Instant(t)] + Burst(t, burst);
      && Cached(p, calls).0 == Some(Entry(Bucket(p.max + p.step, t), t + MINUTE))
      && Kept(p, calls).0 == Some(Bucket(p.max + p.step, t))
      && AllAccepted(Cached(p, calls).1, 0)
  {
    FirstCall(p, t);
    assert burst * p.step == p.max;
    CachedBurst(p, [Instant(t)], t, burst);
    KeptBurst(p, [Instant(t)], t, burst);
    BurstKeepsFirst(p, [Instant(t)], t, burst);
  }

  lemma {:induction false} FirstCall(p: Params, t: int)
    ensures Cached(p, [Instant(t)]) == (Some(Entry(Bucket(p.step, t), t + MINUTE)), [true])
    ensures Kept(p, [Instant(t)]) == (Some(Bucket(p.step, t)), [true])
  {
    assert [Instant(t)][..0] == [];
    assert Serve(p, None, Instant(t)) == (Entry(Bucket(p.step, t), t + MINUTE), true);
    assert [] + [true] == [true];
  }

  lemma {:induction false} BurstKeepsFirst(p: Params, before: seq<Clock>, t: int, k: nat)
    ensures Cached(p, before).1 <= Cached(p, before + Burst(t, k)).1
  {
    if k == 0 {
      assert before + Burst(t, k) == before;
    } else {
      AppendInstant(before, t, k);
      BurstKeepsFirst(p, before, t, k - 1);
    }
  }

  /** On a new key, simultaneous requests pass up to Burst + 1, and the next one does not. */
  lemma {:induction false} BurstIsExact(rate: int, burst: nat, t: int)
    requires 1 <= rate <= 60_000
    ensures var p := NewParams(rate, burst);
      var calls := [Instant(t)] + Burst(t, burst);
      && |calls| == burst + 1
      && AllAccepted(Cached(p, calls).1, 0)
      && !Cached(p, calls + [Instant(t)]).1[burst + 1]
  {
    var p, calls := NewParams(rate, burst), [Instant(t)] + Burst(t, burst);
    StepPositive(rate);
    MaxNonNegative(p.step, burst);
    OpeningBurst(p, t, burst);
    assert (calls + [Instant(t)])[..burst + 1] == calls;
  }

  lemma {:induction false} StepPositive(rate: int)
    requires 1 <= rate <= 60_000
    ensures 60_000 / rate >= 1
  {
  }

  lemma {:induction false} MaxNonNegative(step: int, burst: nat)
    requires step >= 0
    ensures step * burst >= 0 && burst * step == step * burst && (burst + 1) * step == step * burst + step
  {
  }

  /** Two full bursts just over a minute apart tell the two limiters apart. */
  lemma {:induction false} TwoBurstsDiffer(p: Params, burst: nat)
    requires 0 <= p.step <= MINUTE && p.max == p.step * burst && p.max >= 0 && p.max + p.step > MINUTE + 1
    ensures !ForgettingIsInvisible(p)
  {
    var t := MINUTE + 1;
    var first := [Instant(0)] + Burst(0, burst);
    OpeningBurst(p, 0, burst);
    var calls := first + Burst(t, burst + 1);
    SecondBurstCached(p, first, t, burst);
    assert Sequential(calls);
    if Cached(p, calls).1 == Kept(p, calls).1 {
      MaxNonNegative(p.step, burst);
      KeptAccumulates(p, first, t, burst + 1);
      SizeInvariant(p, calls);
      assert false;
    }
  }

  lemma {:induction false} SecondBurstCached(p: Params, first: seq<Clock>, t: int, burst: nat)
    requires p.step >= 0 && p.max == p.step * burst && p.max >= 0
    requires Cached(p, first).0.Some? && Cached(p, first).0.value.expiry < t
    ensures AllAccepted(Cached(p, first + Burst(t, burst + 1)).1, |first|)
  {
    var one := first + [Instant(t)];
    assert one[..|first|] == first;
    assert Cached(p, one).0 == Some(Entry(Bucket(p.step, t), t + MINUTE));
    assert Cached(p, one).1[|first|];
    assert burst * p.step == p.max;
    CachedBurst(p, one, t, burst);
    BurstKeepsFirst(p, one, t, burst);
    assert one + Burst(t, burst) == first + Burst(t, burst + 1);
  }

  lemma {:induction false} NegativeBurstDiffers(p: Params)
    requires p.max < 0
    ensures !ForgettingIsInvisible(p)
  {
    var t := MINUTE + 1;
    var calls := [Instant(0), Instant(t)];
    FirstCall(p, 0);
    assert calls[..1] == [Instant(0)];
    assert Sequential(calls);
    assert Cached(p, calls).1[1] && !Kept(p, calls).1[1];
  }

  /**
   Expiring idle entries changes no decision in any run exactly when a full bucket
   (Burst + 1 steps) drains within the one-minute lifetime of an entry.
   */
  lemma {:induction false} ForgettingIff(rate: int, burst: int)
    requires rate >= 1
    ensures var p := NewParams(rate, burst);
      ForgettingIsInvisible(p) <==> (p.step == 0 || (burst >= 0 && (burst + 1) * p.step <= MINUTE))
  {
    var p := NewParams(rate, burst);
    if p.step == 0 || (burst >= 0 && (burst + 1) * p.step <= MINUTE) {
      if burst >= 0 { MaxNonNegative(p.step, burst); }
      forall calls | Sequential(calls) ensures Cached(p, calls).1 == Kept(p, calls).1 {
        CachedIsKept(p, calls);
      }
    } else if burst < 0 {
      NegativeProduct(p.step, burst);
      NegativeBurstDiffers(p);
    } else {
      MaxNonNegative(p.step, burst);
      WholeMilliseconds(60_000 / rate, burst);
      TwoBurstsDiffer(p, burst);
    }
  }

  lemma {:induction false} NegativeProduct(step: int, burst: int)
    requires step > 0 && burst < 0
    ensures step * burst < 0
  {
  }

  /** Bucket sizes are whole milliseconds, so exceeding a minute exceeds it by more than one tick. */
  lemma {:induction false} WholeMilliseconds(ms: nat, burst: nat)
    requires (burst + 1) * (ms * MILLISECOND) > MINUTE
    ensures (burst + 1) * (ms * MILLISECOND) > MINUTE + 1
  {
    Regroup(burst + 1, ms);
  }

  /** The documented regime, Burst below Rate, is inside the bound. */
  lemma {:induction false} BurstBelowRate(rate: int, burst: int)
    requires rate >= 1 && 0 <= burst < rate
    ensures ForgettingIsInvisible(NewParams(rate, burst))
  {
    StepsFit(rate, 60_000 / rate, burst);
    ForgettingIff(rate, burst);
  }

  lemma {:induction false} StepsFit(rate: int, ms: int, burst: int)
    requires rate >= 1 && 0 <= burst < rate && ms == 60_000 / rate
    ensures (burst + 1) * (ms * MILLISECOND) <= MINUTE
  {
    Monotone(burst + 1, rate, ms);
    Regroup(burst + 1, ms);
  }

  lemma {:induction false} Monotone(a: int, b: int, c: int)
    requires 0 <= a <= b && 0 <= c
    ensures a * c <= b * c
  {
  }

  lemma {:induction false} Regroup(a: int, b: int)
    ensures a * (b * MILLISECOND) == (a * b) * MILLISECOND
  {
  }

  // ---- Conservation ---------------------------------------------------------------

  /** Accepted calls from position `from` on. */
  ghost function Accepted(oks: seq<bool>, from: nat): nat
  {
    if |oks| <= from then 0
    else Accepted(oks[..|oks| - 1], from) + (if oks[|oks| - 1] then 1 else 0)
  }

  /** Their total cost, one step each. */
  ghost function Admitted(oks: seq<bool>, from: nat, step: int): int {
    if |oks| <= from then 0
    else Admitted(oks[..|oks| - 1], from, step) + (if oks[|oks| - 1] then step else 0)
  }

  lemma {:induction false} AdmittedIsProduct(oks: seq<bool>, from: nat, step: int)
    ensures Admitted(oks, from, step) == Accepted(oks, from) * step
  {
    if |oks| <= from {
    } else {
      AdmittedIsProduct(oks[..|oks| - 1], from, step);
      assert (Accepted(oks[..|oks| - 1], from) + 1) * step == Accepted(oks[..|oks| - 1], from) * step + step;
    }
  }

  /** What has been let in since `from` is still in the bucket or has drained since then. */
  lemma {:induction false} NothingLost(p: Params, calls: seq<Clock>, from: nat)
    requires p.step >= 0 && p.max >= 0 && Sequential(calls) && from < |calls|
    ensures Admitted(Kept(p, calls).1, from, p.step)
            <= Kept(p, calls).0.value.size + (Kept(p, calls).0.value.last - calls[from].now)
  {
    var n, oks := |calls| - 1, Kept(p, calls).1;
    LevelDecides(p, calls);
    LevelAtLeast(p, calls, from);
    assert oks == oks[..n] + [oks[n]];
    AdmittedStep(oks[..n], oks[n], from, p.step);
    ElapsedWithin(calls, from);
  }

  lemma {:induction false} ElapsedWithin(calls: seq<Clock>, from: nat)
    requires Sequential(calls) && from < |calls|
    ensures Elapsed(calls, from) <= calls[|calls| - 1].now - calls[from].now
  {
    var n := |calls| - 1;
    if n == from {
    } else {
      SequentialPrefix(calls);
      ElapsedWithin(calls[..n], from);
    }
  }

  lemma {:induction false} AdmittedStep(oks: seq<bool>, ok: bool, from: nat, step: int)
    requires from <= |oks|
    ensures Admitted(oks + [ok], from, step) == Admitted(oks, from, step) + if ok then step else 0
  {
    assert (oks + [ok])[..|oks|] == oks;
  }

  /**
   In every window of every run the accepted requests, at one step each, cost at most the
   length of the window plus one full bucket.
   */
  lemma {:induction false} WindowBound(p: Params, calls: seq<Clock>, from: nat)
    requires p.step >= 0 && p.max >= 0 && p.max + p.step <= MINUTE && Sequential(calls) && from < |calls|
    ensures Accepted(Cached(p, calls).1, from) * p.step
            <= (calls[|calls| - 1].now - calls[from].now) + p.max + p.step
  {
    CachedIsKept(p, calls);
    NothingLost(p, calls, from);
    AdmittedIsProduct(Kept(p, calls).1, from, p.step);
    SizeInvariant(p, calls);
  }

  lemma {:induction false} CachedSize(p: Params, calls: seq<Clock>)
    requires p.step >= 0 && p.max >= 0 && calls != [] && Sequential(calls)
    ensures var e := Cached(p, calls).0.value;
      0 <= e.bucket.size <= p.max + p.step && e.bucket.last == calls[|calls| - 1].now
  {
    var n := |calls| - 1;
    SequentialPrefix(calls);
    if n == 0 {
      assert calls[..0] == [];
    } else {
      CachedSize(p, calls[..n]);
      assert calls[..n][n - 1] == calls[n - 1];
    }
  }

  /** A request that comes a full step after the previous one is always let in. */
  lemma {:induction false} PacedIsAccepted(p: Params, calls: seq<Clock>)
    requires p.step >= 0 && p.max >= 0 && Sequential(calls) && |calls| >= 2
    requires calls[|calls| - 1].since - calls[|calls| - 2].now >= p.step
    ensures Cached(p, calls).1[|calls| - 1]
  {
    var n := |calls| - 1;
    SequentialPrefix(calls);
    CachedSize(p, calls[..n]);
    assert calls[..n][n - 1] == calls[n - 1];
  }

  // ---- The decision in closed form ----------------------------------------------------------

  /** The time between the calls since `from`, up to the last one. */
  ghost function Elapsed(calls: seq<Clock>, from: nat): int {
    var n := |calls| - 1;
    if n <= from then 0 else Elapsed(calls[..n], from) + (calls[n].since - calls[n - 1].now)
  }

  /** What the last call finds in the bucket. */
  ghost function Level(p: Params, calls: seq<Clock>): int
    requires calls != []
  {
    var n := |calls| - 1;
    if n == 0 then 0
    else
      var b := Kept(p, calls[..n]).0.value;
      if b.size - (calls[n].since - b.last) < 0 then 0 else b.size - (calls[n].since - b.last)
  }

  lemma {:induction false} LevelDecides(p: Params, calls: seq<Clock>)
    requires calls != [] && p.max >= 0
    ensures var n := |calls| - 1; var (b, oks) := Kept(p, calls);
      && oks[..n] == Kept(p, calls[..n]).1 && (oks[n] <==> Level(p, calls) <= p.max)
      && b.value == Bucket(Level(p, calls) + (if oks[n] then p.step else 0), calls[n].now)
  {
    var n := |calls| - 1;
    if n == 0 { assert calls[..0] == []; }
  }

  /** What was let in since `from`, less the time since then. */
  ghost function Pressure(p: Params, calls: seq<Clock>, from: nat): int
    requires calls != []
  {
    Admitted(Kept(p, calls[..|calls| - 1]).1, from, p.step) - Elapsed(calls, from)
  }

  lemma {:induction false} LevelStep(p: Params, calls: seq<Clock>)
    requires |calls| > 1 && p.max >= 0
    ensures var n := |calls| - 1; var init := calls[..n];
      var full := Level(p, init) + (if Kept(p, init).1[n - 1] then p.step else 0) - (calls[n].since - calls[n - 1].now);
      Level(p, calls) == if full < 0 then 0 else full
  {
    LevelDecides(p, calls[..|calls| - 1]);
  }

  lemma {:induction false} PressureStep(p: Params, calls: seq<Clock>, from: nat)
    requires |calls| > 1 && p.max >= 0 && from < |calls| - 1
    ensures var n := |calls| - 1; var init := calls[..n];
      Pressure(p, calls, from) ==
        Pressure(p, init, from) + (if Kept(p, init).1[n - 1] then p.step else 0) - (calls[n].since - calls[n - 1].now)
  {
    var n := |calls| - 1;
    var init := calls[..n];
    var oks := Kept(p, init).1;
    LevelDecides(p, init);
    assert oks == oks[..n - 1] + [oks[n - 1]];
    AdmittedStep(oks[..n - 1], oks[n - 1], from, p.step);
  }

  lemma {:induction false} NoPressure(p: Params, calls: seq<Clock>)
    requires calls != []
    ensures Pressure(p, calls, |calls| - 1) == 0
  {
  }

  /** The level is at least the pressure of every window. */
  lemma {:induction false} LevelAtLeast(p: Params, calls: seq<Clock>, from: nat)
    requires calls != [] && p.max >= 0 && from < |calls|
    ensures Pressure(p, calls, from) <= Level(p, calls)
  {
    var n := |calls| - 1;
    NoPressure(p, calls);
    if from < n {
      LevelAtLeast(p, calls[..n], from);
      LevelStep(p, calls);
      PressureStep(p, calls, from);
    }
  }

  /** And it is the pressure of some window. */
  lemma {:induction false} LevelAttained(p: Params, calls: seq<Clock>) returns (from: nat)
    requires calls != [] && p.max >= 0
    ensures from < |calls| && Pressure(p, calls, from) == Level(p, calls)
  {
    var n := |calls| - 1;
    NoPressure(p, calls);
    from := n;
    if n > 0 {
      LevelStep(p, calls);
      if Level(p, calls) > 0 {
        from := LevelAttained(p, calls[..n]);
        PressureStep(p, calls, from);
      }
    }
  }

  /**
   A request is accepted exactly when, for every earlier request, what was let in from that one on
   exceeds the time since then by at most MaxTime.
   */
  lemma {:induction false} AcceptedIff(p: Params, calls: seq<Clock>)
    requires calls != [] && p.max >= 0
    ensures var n := |calls| - 1; var oks := Kept(p, calls).1;
      oks[n] <==> forall from: nat :: from < n ==> Admitted(oks[..n], from, p.step) <= p.max + Elapsed(calls, from)
  {
    var n := |calls| - 1;
    var oks := Kept(p, calls).1;
    LevelDecides(p, calls);
    forall from: nat | from < n ensures Admitted(oks[..n], from, p.step) <= Level(p, calls) + Elapsed(calls, from) {
      LevelAtLeast(p, calls, from);
    }
    var from := LevelAttained(p, calls);
    NoPressure(p, calls);
    assert from < n ==> Admitted(oks[..n], from, p.step) == Level(p, calls) + Elapsed(calls, from);
  }

  /** The same for the limiter that forgets, as long as its bucket drains within a minute. */
  lemma {:induction false} AcceptedIffWithinMinute(p: Params, calls: seq<Clock>)
    requires calls != [] && p.step >= 0 && p.max >= 0 && p.max + p.step <= MINUTE && Sequential(calls)
    ensures var n := |calls| - 1; var oks := Cached(p, calls).1;
      oks[n] <==> forall from: nat :: from < n ==> Admitted(oks[..n], from, p.step) <= p.max + Elapsed(calls, from)
  {
    CachedIsKept(p, calls);
    AcceptedIff(p, calls);
  }

  /** The step is a minute divided by the rate, in whole milliseconds. */
  lemma {:induction false} StepIsShare(rate: int, burst: int)
    requires rate >= 1
    ensures var p := NewParams(rate, burst);
      p.step * rate <= MINUTE < (p.step + MILLISECOND) * rate && p.max == p.step * burst
  {
    var ms := 60_000 / rate;
    assert 60_000 == ms * rate + 60_000 % rate;
    Scaled(ms, rate);
    Scaled(ms + 1, rate);
    Distribute(ms, rate);
  }

  lemma {:induction false} Scaled(ms: int, rate: int)
    ensures (ms * MILLISECOND) * rate == (ms * rate) * MILLISECOND
  {
  }

  lemma {:induction false} Distribute(ms: int, rate: int)
    ensures (ms + 1) * rate == ms * rate + rate
  {
  }
}
