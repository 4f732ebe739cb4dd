/** Bounded, jittered delays between the attempts of a retried read. */
module Backoff {
  import opened Common

  datatype RetryPolicy = RetryPolicy(maxAttempts: int, baseDelay: real, maxDelay: real, jitterRatio: real)

  /** The dataclass rejects every other policy. */
  predicate ValidPolicy(p: RetryPolicy) {
    p.maxAttempts >= 1 && p.baseDelay >= 0.0 && p.maxDelay >= 0.0 && 0.0 <= p.jitterRatio <= 1.0
  }

  function Pow2(n: nat): (r: real)
    ensures r >= 1.0
  {
    if n == 0 then 1.0 else 2.0 * Pow2(n - 1)
  }

  function Min(a: real, b: real): real {
    if a < b then a else b
  }

  /** The backoff before jitter. */
  function Capped(p: RetryPolicy, attempt: nat): real {
    Min(p.baseDelay * Pow2(if attempt > 1 then attempt - 1 else 0), p.maxDelay)
  }

  function Jittered(capped: real, ratio: real, draw: real): real {
    var jitterSpan := capped * ratio;
    (capped - jitterSpan) + draw * jitterSpan
  }

  /** `draw` is the uniform sample from [0, 1]; `retryAfter` is a finite value supplied by the server. */
  function DelayFor(p: RetryPolicy, attempt: nat, retryAfter: Option<real>, draw: real): real {
    if retryAfter.Some? && retryAfter.value > 0.0 then Min(retryAfter.value, p.maxDelay)
    else
      var capped := Capped(p, attempt);
      if capped <= 0.0 then 0.0 else Jittered(capped, p.jitterRatio, draw)
  }

  /**
   With a positive server value the delay is that value or the maximum, whichever is less. Otherwise it lies between
   (1 - jitter ratio) times and once the exponential backoff, or the maximum if that is less.
   */
  lemma DelayBounds(p: RetryPolicy, attempt: nat, retryAfter: Option<real>, draw: real)
    requires ValidPolicy(p) && 0.0 <= draw <= 1.0
    ensures var d := DelayFor(p, attempt, retryAfter, draw);
      var raw := p.baseDelay * Pow2(if attempt > 1 then attempt - 1 else 0);
      var capped := if raw < p.maxDelay then raw else p.maxDelay;
      && (retryAfter.Some? && retryAfter.value > 0.0 ==>
            d == if retryAfter.value < p.maxDelay then retryAfter.value else p.maxDelay)
      && (!(retryAfter.Some? && retryAfter.value > 0.0) ==>
            (1.0 - p.jitterRatio) * capped <= d <= capped)
      && 0.0 <= d <= p.maxDelay && capped <= raw
  {
    hide Jittered;
    JitterBounds(Capped(p, attempt), p.jitterRatio, draw);
    CappedBounds(p, attempt);
    NonNegative(1.0 - p.jitterRatio, Capped(p, attempt));
  }

  /** The whole interval is used: the least draw gives its lower end and the greatest its upper end. */
  lemma DelayReachesBothEnds(p: RetryPolicy, attempt: nat)
    requires ValidPolicy(p)
    ensures var raw := p.baseDelay * Pow2(if attempt > 1 then attempt - 1 else 0);
      var capped := if raw < p.maxDelay then raw else p.maxDelay;
      && DelayFor(p, attempt, None, 0.0) == (1.0 - p.jitterRatio) * capped
      && DelayFor(p, attempt, None, 1.0) == capped
  {
    hide Pow2;
    CappedBounds(p, attempt);
    Complement(Capped(p, attempt), p.jitterRatio);
  }

  /** The backoff doubles with every attempt after the first. */
  lemma BackoffDoubles(p: RetryPolicy, attempt: nat)
    requires attempt >= 1
    ensures Pow2(0) == 1.0 && Pow2(attempt) == 2.0 * Pow2(attempt - 1)
  {
  }

  lemma CappedBounds(p: RetryPolicy, attempt: nat)
    requires ValidPolicy(p)
    ensures 0.0 <= Capped(p, attempt) <= p.maxDelay
    ensures Capped(p, attempt) <= p.baseDelay * Pow2(if attempt > 1 then attempt - 1 else 0)
  {
    NonNegative(p.baseDelay, Pow2(if attempt > 1 then attempt - 1 else 0));
  }

  lemma JitterBounds(capped: real, ratio: real, draw: real)
    requires 0.0 <= ratio <= 1.0 && 0.0 <= draw <= 1.0
    ensures capped >= 0.0 ==> (1.0 - ratio) * capped <= Jittered(capped, ratio, draw) <= capped
  {
    if capped >= 0.0 {
      var jitterSpan, jitter := capped * ratio, draw * (capped * ratio);
      assert 0.0 <= jitterSpan <= capped by { Scaled(capped, ratio); }
      assert 0.0 <= jitter <= jitterSpan by { Scaled(jitterSpan, draw); }
      assert (1.0 - ratio) * capped == capped - jitterSpan by { Complement(capped, ratio); }
      assert Jittered(capped, ratio, draw) == (capped - jitterSpan) + jitter;
    }
  }

  lemma Complement(a: real, f: real)
    ensures (1.0 - f) * a == a - a * f
  {
  }

  lemma NonNegative(a: real, b: real)
    requires a >= 0.0 && b >= 0.0
    ensures a * b >= 0.0
  {
  }

  lemma Scaled(a: real, f: real)
    requires a >= 0.0 && 0.0 <= f <= 1.0
    ensures 0.0 <= a * f <= a && f * a == a * f
  {
    NonNegative(a, f);
    NonNegative(a, 1.0 - f);
    assert a * (1.0 - f) == a - a * f;
  }
}
