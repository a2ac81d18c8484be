/** A token bucket that earns one token per unit of time, the clock being measured in
    tokens earned: where the theorems about the limiter of src/api/middleware.rs live. */
module CreditBucket {
  /** `tokens` were there when the clock stood at `at`. */
  datatype Bucket = Bucket(tokens: real, at: real)

  function Min(a: real, b: real): real { if a <= b then a else b }

  function Since(earlier: real, now: real): real {
    if now >= earlier then now - earlier else 0.0
  }

  /** The level a continuously filled bucket has reached at `now`. */
  function Level(cap: real, b: Bucket, now: real): real {
    Min(b.tokens + Since(b.at, now), cap)
  }

  function Acquire(cap: real, b: Bucket, now: real): (Bucket, bool) {
    var level := Level(cap, b, now);
    if level >= 1.0 then (Bucket(level - 1.0, now), true) else (Bucket(level, now), false)
  }

  /** The bucket after the requests made at `cs`. */
  function After(cap: real, b: Bucket, cs: seq<real>): Bucket {
    if cs == [] then b
    else Acquire(cap, After(cap, b, cs[..|cs| - 1]), cs[|cs| - 1]).0
  }

  function Verdicts(cap: real, b: Bucket, cs: seq<real>): (vs: seq<bool>)
    ensures |vs| == |cs|
  {
    if cs == [] then []
    else Verdicts(cap, b, cs[..|cs| - 1]) + [Acquire(cap, After(cap, b, cs[..|cs| - 1]), cs[|cs| - 1]).1]
  }

  /** How many of the requests `i..j` were admitted. */
  function Admitted(vs: seq<bool>, i: nat, j: nat): nat
    requires i <= j <= |vs|
  {
    if i == j then 0 else Admitted(vs, i, j - 1) + if vs[j - 1] then 1 else 0
  }

  /** Requests arrive in order, none before the bucket was built. */
  ghost predicate Ordered(b: Bucket, cs: seq<real>) {
    && (forall i :: 0 <= i < |cs| ==> b.at <= cs[i])
    && (forall i, j :: 0 <= i <= j < |cs| ==> cs[i] <= cs[j])
  }

  predicate Full(cap: real, b: Bucket) {
    cap >= 1.0 && b.tokens == cap
  }

  lemma {:induction false} AfterStaysInRange(cap: real, b: Bucket, cs: seq<real>)
    requires Full(cap, b) && Ordered(b, cs)
    ensures 0.0 <= After(cap, b, cs).tokens <= cap
    ensures After(cap, b, cs).at == if cs == [] then b.at else cs[|cs| - 1]
  {
    if cs != [] {
      AfterStaysInRange(cap, b, cs[..|cs| - 1]);
    }
  }

  // ---- exactly what is admitted ----

  /** The level the `k`-th request finds. */
  function Found(cap: real, b: Bucket, cs: seq<real>, k: nat): real
    requires k < |cs|
  {
    Level(cap, After(cap, b, cs[..k]), cs[k])
  }

  lemma {:induction false} VerdictIsFound(cap: real, b: Bucket, cs: seq<real>, k: nat)
    requires k < |cs|
    ensures Verdicts(cap, b, cs)[k] <==> Found(cap, b, cs, k) >= 1.0
  {
    var n := |cs| - 1;
    if k < n {
      VerdictIsFound(cap, b, cs[..n], k);
      assert cs[..n][..k] == cs[..k];
    }
  }

  function Spent(vs: seq<bool>, k: nat): real
    requires k < |vs|
  {
    if vs[k] then 1.0 else 0.0
  }

  /** From one request to the next, what is found grows by what was earned, less a token
      if the earlier request was admitted, and stops at the brim. */
  lemma FoundStep(cap: real, b: Bucket, cs: seq<real>, k: nat)
    requires Full(cap, b) && Ordered(b, cs) && k + 1 < |cs|
    ensures Found(cap, b, cs, k + 1)
            == Min(Found(cap, b, cs, k) - Spent(Verdicts(cap, b, cs), k) + cs[k + 1] - cs[k], cap)
  {
    VerdictIsFound(cap, b, cs, k);
    assert cs[..k + 1][..k] == cs[..k];
  }

  lemma FirstFindsBrim(cap: real, b: Bucket, cs: seq<real>)
    requires Full(cap, b) && Ordered(b, cs) && cs != []
    ensures Found(cap, b, cs, 0) == cap
  {}

  /** The room a window that opens at request `i` still leaves for request `k`. */
  function Room(cap: real, vs: seq<bool>, cs: seq<real>, i: nat, k: nat): real
    requires i <= k < |cs| == |vs|
  {
    cap + cs[k] - cs[i] - Admitted(vs, i, k) as real
  }

  /** What the `k`-th request finds is the tightest room over all windows ending at it. */
  lemma {:induction false} FoundIsTightestRoom(cap: real, b: Bucket, cs: seq<real>, k: nat) returns (tight: nat)
    requires Full(cap, b) && Ordered(b, cs) && k < |cs|
    ensures forall i: nat :: i <= k ==> Found(cap, b, cs, k) <= Room(cap, Verdicts(cap, b, cs), cs, i, k)
    ensures tight <= k && Found(cap, b, cs, k) == Room(cap, Verdicts(cap, b, cs), cs, tight, k)
  {
    var vs := Verdicts(cap, b, cs);
    if k == 0 {
      FirstFindsBrim(cap, b, cs);
      tight := 0;
    } else {
      var earlier := FoundIsTightestRoom(cap, b, cs, k - 1);
      FoundStep(cap, b, cs, k - 1);
      assert forall i: nat :: i < k ==>
        Room(cap, vs, cs, i, k) == Room(cap, vs, cs, i, k - 1) - Spent(vs, k - 1) + cs[k] - cs[k - 1];
      assert Room(cap, vs, cs, k, k) == cap;
      tight := if Found(cap, b, cs, k) == cap then k else earlier;
    }
  }

  /** Admitting request `k` keeps every window that ends at it within `cap` plus what was
      earned during the window. */
  ghost predicate NoWindowOverflows(cap: real, vs: seq<bool>, cs: seq<real>, k: nat)
    requires k < |cs| == |vs|
  {
    forall i: nat :: i <= k ==> Admitted(vs, i, k) as real + 1.0 <= cap + (cs[k] - cs[i])
  }

  lemma AdmittedIffNoWindowOverflows(cap: real, b: Bucket, cs: seq<real>, k: nat)
    requires Full(cap, b) && Ordered(b, cs) && k < |cs|
    ensures Verdicts(cap, b, cs)[k] <==> NoWindowOverflows(cap, Verdicts(cap, b, cs), cs, k)
  {
    var vs := Verdicts(cap, b, cs);
    var tight := FoundIsTightestRoom(cap, b, cs, k);
    VerdictIsFound(cap, b, cs, k);
    if !vs[k] {
      assert Room(cap, vs, cs, tight, k) < 1.0;
    } else {
      forall i: nat | i <= k
        ensures Admitted(vs, i, k) as real + 1.0 <= cap + (cs[k] - cs[i])
      {
        assert Room(cap, vs, cs, i, k) >= 1.0;
      }
    }
  }

  lemma {:induction false} WindowBound(cap: real, b: Bucket, cs: seq<real>, i: nat, j: nat)
    requires Full(cap, b) && Ordered(b, cs) && i <= j < |cs|
    ensures Admitted(Verdicts(cap, b, cs), i, j + 1) as real <= cap + (cs[j] - cs[i])
  {
    if Verdicts(cap, b, cs)[j] {
      AdmittedIffNoWindowOverflows(cap, b, cs, j);
    } else if i < j {
      WindowBound(cap, b, cs, i, j - 1);
    }
  }

  /** Requests that leave time to earn a token are never refused. */
  lemma SpacedRequestsPass(cap: real, b: Bucket, cs: seq<real>, k: nat)
    requires Full(cap, b) && Ordered(b, cs) && k < |cs|
    requires k > 0 ==> cs[k] - cs[k - 1] >= 1.0
    ensures Verdicts(cap, b, cs)[k]
  {
    VerdictIsFound(cap, b, cs, k);
    AfterStaysInRange(cap, b, cs[..k]);
  }

  /** Of requests made together on a full bucket exactly the first `n` are admitted. */
  lemma {:induction false} BurstIsExactlyCap(n: nat, b: Bucket, cs: seq<real>, k: nat)
    requires n > 0 && Full(n as real, b) && k < |cs| && forall i :: 0 <= i < |cs| ==> cs[i] == b.at
    ensures Found(n as real, b, cs, k) == if k <= n then (n - k) as real else 0.0
    ensures Verdicts(n as real, b, cs)[k] <==> k < n
  {
    VerdictIsFound(n as real, b, cs, k);
    if k == 0 {
      FirstFindsBrim(n as real, b, cs);
    } else {
      BurstIsExactlyCap(n, b, cs, k - 1);
      FoundStep(n as real, b, cs, k - 1);
    }
  }

  // ---- lazy refill is a continuous bucket ----

  /** Two buckets no later request can tell apart. */
  ghost predicate SameFrom(cap: real, a: Bucket, b: Bucket, c: real) {
    forall u: real :: c <= u ==> Level(cap, a, u) == Level(cap, b, u)
  }

  /** A refused request only moves the refill forward: the level at every later moment is
      the one the bucket would have had anyway. */
  lemma RefusalLeavesNoTrace(cap: real, b: Bucket, now: real)
    requires b.at <= now && !Acquire(cap, b, now).1
    ensures SameFrom(cap, Acquire(cap, b, now).0, b, now)
  {}

  /** What a mask keeps. */
  function Kept<T>(xs: seq<T>, keep: seq<bool>): seq<T>
    requires |keep| == |xs|
  {
    if xs == [] then []
    else Kept(xs[..|xs| - 1], keep[..|xs| - 1]) + if keep[|xs| - 1] then [xs[|xs| - 1]] else []
  }

  lemma {:induction false} KeptStaysOrdered(b: Bucket, cs: seq<real>, keep: seq<bool>)
    requires |keep| == |cs| && Ordered(b, cs)
    ensures Ordered(b, Kept(cs, keep))
    ensures Kept(cs, keep) != [] ==> cs != [] && Kept(cs, keep)[|Kept(cs, keep)| - 1] <= cs[|cs| - 1]
  {
    if cs != [] {
      KeptStaysOrdered(b, cs[..|cs| - 1], keep[..|cs| - 1]);
    }
  }

  lemma {:induction false} RequestAppends(cap: real, b: Bucket, cs: seq<real>, now: real)
    ensures var (after, v) := Acquire(cap, After(cap, b, cs), now);
            After(cap, b, cs + [now]) == after && Verdicts(cap, b, cs + [now]) == Verdicts(cap, b, cs) + [v]
  {
    assert (cs + [now])[..|cs|] == cs;
  }

  lemma {:induction false} RefusedRequestsAreInvisible(cap: real, b: Bucket, cs: seq<real>, keep: seq<bool>)
    requires Full(cap, b) && Ordered(b, cs) && |keep| == |cs|
    requires forall k :: 0 <= k < |cs| && Verdicts(cap, b, cs)[k] ==> keep[k]
    ensures Verdicts(cap, b, Kept(cs, keep)) == Kept(Verdicts(cap, b, cs), keep)
    ensures if cs == [] then Kept(cs, keep) == []
            else SameFrom(cap, After(cap, b, Kept(cs, keep)), After(cap, b, cs), cs[|cs| - 1])
  {
    if cs != [] {
      var n := |cs| - 1;
      var init, now := cs[..n], cs[n];
      var kept := Kept(init, keep[..n]);
      var vs := Verdicts(cap, b, cs);
      assert vs == Verdicts(cap, b, init) + [vs[n]] && vs[..n] == Verdicts(cap, b, init);
      RefusedRequestsAreInvisible(cap, b, init, keep[..n]);
      assert Kept(vs, keep) == Verdicts(cap, b, kept) + if keep[n] then [vs[n]] else [];
      OneMoreRequest(cap, After(cap, b, init), After(cap, b, kept), now);
      AfterStaysInRange(cap, b, init);
      if keep[n] {
        RequestAppends(cap, b, kept, now);
      } else {
        assert Kept(cs, keep) == kept;
      }
    }
  }

  /** Two buckets that look alike treat a request alike, and a refused one may be skipped. */
  lemma OneMoreRequest(cap: real, full: Bucket, thin: Bucket, now: real)
    requires Level(cap, full, now) == Level(cap, thin, now)
    requires full.at <= now
    ensures Acquire(cap, full, now) == Acquire(cap, thin, now)
    ensures SameFrom(cap, thin, full, now) && !Acquire(cap, full, now).1
            ==> SameFrom(cap, thin, Acquire(cap, full, now).0, now)
  {}
}
