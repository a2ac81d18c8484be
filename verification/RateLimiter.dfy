/** The token bucket of src/api/middleware.rs in seconds, over the reals (f64 rounding is
    left out), and its refinement to the bucket whose clock counts earned tokens. */
module RateLimiter {
  import C = CreditBucket

  type Time = real

  datatype Limits = Limits(maxTokens: real, refillRate: real, unlimited: bool)

  datatype Bucket = Bucket(tokens: real, lastRefill: Time)

  function LimitsFor(perMinute: nat): Limits {
    Limits(perMinute as real, perMinute as real / 60.0, perMinute == 0)
  }

  function Acquire(l: Limits, b: Bucket, now: Time): (Bucket, bool) {
    if l.unlimited then (b, true)
    else
      var tokens := C.Min(b.tokens + C.Since(b.lastRefill, now) * l.refillRate, l.maxTokens);
      if tokens >= 1.0 then (Bucket(tokens - 1.0, now), true) else (Bucket(tokens, now), false)
  }

  function After(l: Limits, b: Bucket, ts: seq<Time>): Bucket {
    if ts == [] then b
    else Acquire(l, After(l, b, ts[..|ts| - 1]), ts[|ts| - 1]).0
  }

  /** The answers to the requests made at `ts`. */
  function Verdicts(l: Limits, b: Bucket, ts: seq<Time>): (vs: seq<bool>)
    ensures |vs| == |ts|
  {
    if ts == [] then []
    else Verdicts(l, b, ts[..|ts| - 1]) + [Acquire(l, After(l, b, ts[..|ts| - 1]), ts[|ts| - 1]).1]
  }

  /** Requests arrive in order, none before the limiter was built; the clock is monotone. */
  ghost predicate Ordered(t0: Time, ts: seq<Time>) {
    && (forall i :: 0 <= i < |ts| ==> t0 <= ts[i])
    && (forall i, j :: 0 <= i <= j < |ts| ==> ts[i] <= ts[j])
  }

  /** The bucket of a limiter for `n` requests a minute, built at `t0`. */
  function NewBucket(n: nat, t0: Time): Bucket {
    Bucket(n as real, t0)
  }

  function Answers(n: nat, t0: Time, ts: seq<Time>): (vs: seq<bool>)
    ensures |vs| == |ts|
  {
    Verdicts(LimitsFor(n), NewBucket(n, t0), ts)
  }

  // ---- refinement: seconds to tokens earned ----

  function Credit(n: nat, t: Time): real {
    t * (n as real / 60.0)
  }

  function Credits(n: nat, ts: seq<Time>): (cs: seq<real>)
    ensures |cs| == |ts|
  {
    if ts == [] then [] else Credits(n, ts[..|ts| - 1]) + [Credit(n, ts[|ts| - 1])]
  }

  lemma {:induction false} CreditsAt(n: nat, ts: seq<Time>, i: nat)
    requires i < |ts|
    ensures Credits(n, ts)[i] == Credit(n, ts[i])
  {
    if i < |ts| - 1 {
      CreditsAt(n, ts[..|ts| - 1], i);
    }
  }

  lemma CreditSpan(n: nat, a: Time, b: Time)
    ensures Credit(n, b) - Credit(n, a) == (b - a) * (n as real / 60.0)
  {}

  lemma CreditMonotone(n: nat, a: Time, b: Time)
    requires a <= b
    ensures Credit(n, a) <= Credit(n, b)
  {
    CreditSpan(n, a, b);
    ProductSign(b - a, n as real / 60.0);
  }

  lemma ProductSign(a: real, b: real)
    requires a >= 0.0 && b >= 0.0
    ensures a * b >= 0.0
  {}

  lemma CreditsOrdered(n: nat, t0: Time, ts: seq<Time>)
    requires Ordered(t0, ts)
    ensures C.Ordered(Earning(n, NewBucket(n, t0)), Credits(n, ts))
  {
    var cs := Credits(n, ts);
    forall i | 0 <= i < |cs|
      ensures Credit(n, t0) <= cs[i]
    {
      CreditsAt(n, ts, i);
      CreditMonotone(n, t0, ts[i]);
    }
    forall i, j | 0 <= i <= j < |cs|
      ensures cs[i] <= cs[j]
    {
      CreditsAt(n, ts, i);
      CreditsAt(n, ts, j);
      CreditMonotone(n, ts[i], ts[j]);
    }
  }

  /** The same bucket, its clock counting tokens earned. */
  function Earning(n: nat, b: Bucket): C.Bucket {
    C.Bucket(b.tokens, Credit(n, b.lastRefill))
  }

  lemma AcquireRefines(n: nat, b: Bucket, now: Time)
    requires n > 0 && b.lastRefill <= now
    ensures var (b', v) := Acquire(LimitsFor(n), b, now);
            (Earning(n, b'), v) == C.Acquire(n as real, Earning(n, b), Credit(n, now))
  {
    TokensAgree(n, b, now);
  }

  /** Tokens earned per second times seconds are credits earned. */
  lemma TokensAgree(n: nat, b: Bucket, now: Time)
    requires b.lastRefill <= now
    ensures b.tokens + C.Since(b.lastRefill, now) * LimitsFor(n).refillRate
            == b.tokens + C.Since(Credit(n, b.lastRefill), Credit(n, now))
  {
    CreditMonotone(n, b.lastRefill, now);
    CreditSpan(n, b.lastRefill, now);
    assert C.Since(b.lastRefill, now) == now - b.lastRefill;
    assert LimitsFor(n).refillRate == n as real / 60.0;
  }

  lemma {:induction false} RunRefines(n: nat, t0: Time, ts: seq<Time>)
    requires n > 0 && Ordered(t0, ts)
    ensures var b := NewBucket(n, t0);
            && Earning(n, After(LimitsFor(n), b, ts)) == C.After(n as real, Earning(n, b), Credits(n, ts))
            && Verdicts(LimitsFor(n), b, ts) == C.Verdicts(n as real, Earning(n, b), Credits(n, ts))
            && After(LimitsFor(n), b, ts).lastRefill == if ts == [] then t0 else ts[|ts| - 1]
  {
    if ts != [] {
      var init, now := ts[..|ts| - 1], ts[|ts| - 1];
      RunRefines(n, t0, init);
      AcquireRefines(n, After(LimitsFor(n), NewBucket(n, t0), init), now);
      LastRefillIsNow(LimitsFor(n), After(LimitsFor(n), NewBucket(n, t0), init), now);
      var cs := Credits(n, ts);
      assert cs[..|cs| - 1] == Credits(n, init);
    }
  }

  lemma LastRefillIsNow(l: Limits, b: Bucket, now: Time)
    requires !l.unlimited
    ensures Acquire(l, b, now).0.lastRefill == now
  {}

  // ---- the theorems, in seconds ----

  /** The bucket never leaves `0..=N`. */
  lemma TokensStayInRange(n: nat, t0: Time, ts: seq<Time>)
    requires n > 0 && Ordered(t0, ts)
    ensures 0.0 <= After(LimitsFor(n), NewBucket(n, t0), ts).tokens <= n as real
  {
    RunRefines(n, t0, ts);
    CreditsOrdered(n, t0, ts);
    C.AfterStaysInRange(n as real, Earning(n, NewBucket(n, t0)), Credits(n, ts));
  }

  /** Over any run and any window of it, the requests `i..=j` hold at most `N + d*N/60`
      admissions, `d` being the time from the first to the last. */
  lemma WindowBound(n: nat, t0: Time, ts: seq<Time>, i: nat, j: nat)
    requires n > 0 && Ordered(t0, ts) && i <= j < |ts|
    ensures C.Admitted(Answers(n, t0, ts), i, j + 1) as real <= n as real + (ts[j] - ts[i]) * (n as real / 60.0)
  {
    RunRefines(n, t0, ts);
    CreditsOrdered(n, t0, ts);
    C.WindowBound(n as real, Earning(n, NewBucket(n, t0)), Credits(n, ts), i, j);
    CreditsAt(n, ts, i);
    CreditsAt(n, ts, j);
    CreditSpan(n, ts[i], ts[j]);
  }

  /** Admitting request `k` leaves every window that ends at it within the bound. */
  ghost predicate NoWindowOverflows(n: nat, vs: seq<bool>, ts: seq<Time>, k: nat)
    requires k < |ts| == |vs|
  {
    forall i: nat :: i <= k ==>
      C.Admitted(vs, i, k) as real + 1.0 <= n as real + (ts[k] - ts[i]) * (n as real / 60.0)
  }

  /** The limiter refuses nothing it could admit: a request is admitted if and only if
      admitting it breaks the bound in no window that ends at it. */
  lemma AdmittedIffNoWindowOverflows(n: nat, t0: Time, ts: seq<Time>, k: nat)
    requires n > 0 && Ordered(t0, ts) && k < |ts|
    ensures Answers(n, t0, ts)[k] <==> NoWindowOverflows(n, Answers(n, t0, ts), ts, k)
  {
    RunRefines(n, t0, ts);
    CreditsOrdered(n, t0, ts);
    var cs, vs := Credits(n, ts), Answers(n, t0, ts);
    C.AdmittedIffNoWindowOverflows(n as real, Earning(n, NewBucket(n, t0)), cs, k);
    forall i: nat | i <= k
      ensures cs[k] - cs[i] == (ts[k] - ts[i]) * (n as real / 60.0)
    {
      CreditsAt(n, ts, i);
      CreditsAt(n, ts, k);
      CreditSpan(n, ts[i], ts[k]);
    }
    assert C.NoWindowOverflows(n as real, vs, cs, k) <==> NoWindowOverflows(n, vs, ts, k);
  }

  lemma SpacedCredits(n: nat, ts: seq<Time>, k: nat)
    requires n > 0 && 0 < k < |ts| && Spaced(n, ts[k - 1], ts[k])
    ensures Credits(n, ts)[k] - Credits(n, ts)[k - 1] >= 1.0
  {
    CreditsAt(n, ts, k - 1);
    CreditsAt(n, ts, k);
    CreditSpan(n, ts[k - 1], ts[k]);
    OneTokenPerGap(n as real, ts[k] - ts[k - 1]);
  }

  predicate Spaced(n: nat, earlier: Time, now: Time)
    requires n > 0
  {
    now - earlier >= 60.0 / n as real
  }

  /** Requests at least `60/N` seconds apart are never refused. */
  lemma SpacedRequestsPass(n: nat, t0: Time, ts: seq<Time>, k: nat)
    requires n > 0 && Ordered(t0, ts) && k < |ts|
    requires k > 0 ==> Spaced(n, ts[k - 1], ts[k])
    ensures Answers(n, t0, ts)[k]
  {
    RunRefines(n, t0, ts);
    CreditsOrdered(n, t0, ts);
    if k > 0 {
      SpacedCredits(n, ts, k);
    }
    C.SpacedRequestsPass(n as real, Earning(n, NewBucket(n, t0)), Credits(n, ts), k);
  }

  lemma OneTokenPerGap(n: real, gap: real)
    requires n >= 1.0 && gap >= 60.0 / n
    ensures gap * (n / 60.0) >= 1.0
  {
    assert (60.0 / n) * n == 60.0;
    ProductSign(gap - 60.0 / n, n);
    assert gap * n >= 60.0;
  }

  /** The bound is met: of requests made the moment the limiter is built exactly the
      first `N` are admitted. */
  lemma BurstIsExactlyN(n: nat, t0: Time, ts: seq<Time>, k: nat)
    requires n > 0 && k < |ts| && forall i :: 0 <= i < |ts| ==> ts[i] == t0
    ensures Answers(n, t0, ts)[k] <==> k < n
  {
    RunRefines(n, t0, ts);
    var cs := Credits(n, ts);
    forall i | 0 <= i < |cs|
      ensures cs[i] == Credit(n, t0)
    {
      CreditsAt(n, ts, i);
    }
    C.BurstIsExactlyCap(n, Earning(n, NewBucket(n, t0)), cs, k);
  }

  lemma {:induction false} CreditsOfKept(n: nat, ts: seq<Time>, keep: seq<bool>)
    requires |keep| == |ts|
    ensures Credits(n, C.Kept(ts, keep)) == C.Kept(Credits(n, ts), keep)
  {
    if ts != [] {
      var k := |ts| - 1;
      CreditsOfKept(n, ts[..k], keep[..k]);
      assert Credits(n, ts)[..k] == Credits(n, ts[..k]);
      if keep[k] {
        var kept := C.Kept(ts[..k], keep[..k]);
        assert (kept + [ts[k]])[..|kept|] == kept;
      } else {
        assert C.Kept(ts, keep) == C.Kept(ts[..k], keep[..k]);
      }
    }
  }

  lemma KeptStaysOrdered(t0: Time, ts: seq<Time>, keep: seq<bool>)
    requires |keep| == |ts| && Ordered(t0, ts)
    ensures Ordered(t0, C.Kept(ts, keep))
  {
    C.KeptStaysOrdered(C.Bucket(0.0, t0), ts, keep);
  }

  /** Deleting any refused requests from a run changes no other answer. */
  lemma RefusedRequestsAreInvisible(n: nat, t0: Time, ts: seq<Time>, keep: seq<bool>)
    requires n > 0 && Ordered(t0, ts) && |keep| == |ts|
    requires forall k :: 0 <= k < |ts| && Answers(n, t0, ts)[k] ==> keep[k]
    ensures Answers(n, t0, C.Kept(ts, keep)) == C.Kept(Answers(n, t0, ts), keep)
  {
    RunRefines(n, t0, ts);
    CreditsOrdered(n, t0, ts);
    C.RefusedRequestsAreInvisible(n as real, Earning(n, NewBucket(n, t0)), Credits(n, ts), keep);
    CreditsOfKept(n, ts, keep);
    KeptStaysOrdered(t0, ts, keep);
    RunRefines(n, t0, C.Kept(ts, keep));
  }

  /** A limit of zero means no limit. */
  lemma {:induction false} ZeroAdmitsAll(t0: Time, ts: seq<Time>, k: nat)
    requires k < |ts|
    ensures Answers(0, t0, ts)[k] && After(LimitsFor(0), NewBucket(0, t0), ts) == NewBucket(0, t0)
  {
    var init := ts[..|ts| - 1];
    if |init| > 0 {
      ZeroAdmitsAll(t0, init, if k < |init| then k else 0);
    }
  }

  // ---- the object ----

  class RateLimiter {
    var tokens: real
    var lastRefill: Time
    const maxTokens: real
    const refillRate: real
    const unlimited: bool

    ghost function View(): Bucket
      reads this
    {
      Bucket(tokens, lastRefill)
    }

    ghost function Limiting(): Limits {
      Limits(maxTokens, refillRate, unlimited)
    }

    constructor (perMinute: nat, now: Time)
      ensures Limiting() == LimitsFor(perMinute)
      ensures View() == NewBucket(perMinute, now)
    {
      unlimited := perMinute == 0;
      maxTokens := perMinute as real;
      refillRate := perMinute as real / 60.0;
      tokens := perMinute as real;
      lastRefill := now;
    }

    method TryAcquire(now: Time) returns (allowed: bool)
      modifies this
      ensures (View(), allowed) == Acquire(Limiting(), old(View()), now)
    {
      if unlimited {
        return true;
      }
      ghost var answer := Acquire(Limiting(), View(), now);
      var elapsed := C.Since(lastRefill, now);
      tokens := C.Min(tokens + elapsed * refillRate, maxTokens);
      lastRefill := now;
      assert answer == if tokens >= 1.0 then (Bucket(tokens - 1.0, now), true) else (Bucket(tokens, now), false);
      if tokens >= 1.0 {
        tokens := tokens - 1.0;
        return true;
      }
      return false;
    }
  }
}
