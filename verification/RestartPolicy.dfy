/** Restart policy of the web surface: the bounded exponential backoff of
    src/supervisor.rs, with the saturating arithmetic written out.
    A Duration is a number of nanoseconds, as wide as Rust's. */
module RestartPolicy {
  const U32_MAX: nat := 0xFFFF_FFFF
  const SEC: nat := 1_000_000_000
  const DURATION_MAX: nat := 0xFFFF_FFFF_FFFF_FFFF * SEC + 999_999_999

  type u32 = n: nat | n <= U32_MAX
  type Duration = n: nat | n <= DURATION_MAX

  datatype RestartConfig = RestartConfig(
    maxRetries: u32,
    resetAfter: Duration,
    initialBackoff: Duration,
    maxBackoff: Duration)

  const DEFAULT_CONFIG := RestartConfig(5, 300 * SEC, 500_000_000, 30 * SEC)

  function Min(a: nat, b: nat): nat {
    if a <= b then a else b
  }

  function Pow2(e: nat): (p: nat)
    ensures p >= 1
  {
    if e == 0 then 1 else 2 * Pow2(e - 1)
  }

  function SaturatingPow2(e: nat): u32 {
    Min(Pow2(e), U32_MAX)
  }

  function SaturatingMul(d: Duration, k: u32): Duration {
    Min(d * k, DURATION_MAX)
  }

  /** Rust's wrapping `+ 1` on a u32 in a release build. */
  function WrappingIncr(n: u32): u32 {
    if n == U32_MAX then 0 else n + 1
  }

  function ComputeBackoff(cfg: RestartConfig, attempt: u32): Duration {
    var exponent := if attempt == 0 then 0 else attempt - 1;
    Min(SaturatingMul(cfg.initialBackoff, SaturatingPow2(exponent)), cfg.maxBackoff)
  }

  /** The documented meaning: `initial * 2^(attempt-1)`, capped, over unbounded integers. */
  function DocumentedBackoff(cfg: RestartConfig, attempt: nat): nat
    requires attempt >= 1
  {
    Min(cfg.initialBackoff * Pow2(attempt - 1), cfg.maxBackoff)
  }

  /** The saturating power never distorts the documented value. */
  predicate SaturationHarmless(cfg: RestartConfig) {
    cfg.initialBackoff == 0 || cfg.maxBackoff <= cfg.initialBackoff * U32_MAX
  }

  lemma {:induction false} Pow2Monotone(a: nat, b: nat)
    requires a <= b
    ensures Pow2(a) <= Pow2(b)
    decreases b
  {
    if a < b {
      Pow2Monotone(a, b - 1);
    }
  }

  lemma Pow2Of32()
    ensures Pow2(32) == U32_MAX + 1
  {
    assert Pow2(8) == 256;
    assert Pow2(16) == 65536 by { assert Pow2(12) == 4096; }
    assert Pow2(24) == 16777216 by { assert Pow2(20) == 1048576; }
    assert Pow2(28) == 268435456;
  }

  lemma MulMonotone(d: nat, a: nat, b: nat)
    requires a <= b
    ensures d * a <= d * b
  {}

  /** The code computes the documented backoff for every u32 attempt exactly when
      the cap lies within what the saturated power can reach. */
  lemma BackoffClosedForm(cfg: RestartConfig)
    ensures (forall a: u32 :: 1 <= a ==> ComputeBackoff(cfg, a) == DocumentedBackoff(cfg, a))
            <==> SaturationHarmless(cfg)
  {
    if SaturationHarmless(cfg) {
      forall a: u32 | 1 <= a
        ensures ComputeBackoff(cfg, a) == DocumentedBackoff(cfg, a)
      {
        BackoffAgrees(cfg, a);
      }
    } else {
      Pow2Of32();
      var d, cap := cfg.initialBackoff, cfg.maxBackoff;
      assert d * (U32_MAX + 1) == d * U32_MAX + d;
      assert ComputeBackoff(cfg, 33) == d * U32_MAX;
      assert DocumentedBackoff(cfg, 33) > d * U32_MAX;
    }
  }

  lemma BackoffAgrees(cfg: RestartConfig, a: u32)
    requires 1 <= a && SaturationHarmless(cfg)
    ensures ComputeBackoff(cfg, a) == DocumentedBackoff(cfg, a)
  {
    var d := cfg.initialBackoff;
    if Pow2(a - 1) > U32_MAX {
      MulMonotone(d, U32_MAX, Pow2(a - 1));
    }
  }

  /** Waiting longer never comes with fewer failures, and every wait respects the cap. */
  lemma BackoffMonotone(cfg: RestartConfig, a: u32, b: u32)
    requires a <= b
    ensures ComputeBackoff(cfg, a) <= ComputeBackoff(cfg, b) <= cfg.maxBackoff
  {
    var ea, eb := if a == 0 then 0 else a - 1, if b == 0 then 0 else b - 1;
    Pow2Monotone(ea, eb);
    MulMonotone(cfg.initialBackoff, SaturatingPow2(ea), SaturatingPow2(eb));
  }
}
