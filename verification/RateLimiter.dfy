/** The in-process sliding-window limiter with a bounded number of buckets and LRU eviction. */
module RateLimiter {
  import opened Common

  type Key = string

  datatype Config = Config(maxRequests: int, window: real, maxBuckets: int)

  datatype Limiter = Limiter(hits: map<Key, seq<real>>, lastAccess: map<Key, real>)

  /** `Crashed` is the exception that `min` of an empty list raises. */
  datatype Decision = Allowed | Denied(retryAfter: int) | Crashed

  function Prune(times: seq<real>, cutoff: real): seq<real> {
    if times == [] then []
    else (if times[0] > cutoff then [times[0]] else []) + Prune(times[1..], cutoff)
  }

  function Recent(c: Config, s: Limiter, key: Key, now: real): seq<real> {
    Prune(if key in s.hits then s.hits[key] else [], now - c.window)
  }

  function MinOf(times: seq<real>): (m: real)
    requires times != []
    ensures m in times && forall t :: t in times ==> m <= t
  {
    assert times == [times[0]] + times[1..];
    if |times| == 1 then times[0] else
      var m := MinOf(times[1..]);
      if times[0] < m then times[0] else m
  }

  function Decide(c: Config, s: Limiter, key: Key, now: real): Decision {
    var times := Recent(c, s, key, now);
    if |times| < c.maxRequests then Allowed
    else if times == [] then Crashed
    else
      var retryAfter := (MinOf(times) + c.window - now).Floor + 1;
      Denied(if retryAfter > 1 then retryAfter else 1)
  }

  predicate MustEvict(c: Config, s: Limiter, key: Key) {
    |s.hits| >= c.maxBuckets && key !in s.hits && s.hits != map[]
  }

  /** `victim` is the least recently used key if a bucket has to be evicted. */
  function Admit(c: Config, s: Limiter, key: Key, now: real, victim: Key): Limiter {
    var kept := if MustEvict(c, s, key) then Limiter(s.hits - {victim}, s.lastAccess[key := now] - {victim})
                else Limiter(s.hits, s.lastAccess[key := now]);
    kept.(hits := kept.hits[key := Recent(c, s, key, now) + [now]])
  }

  ghost predicate SameKeys(s: Limiter) {
    s.hits.Keys == s.lastAccess.Keys
  }

  ghost predicate LeastRecentlyUsed(s: Limiter, k: Key)
    requires SameKeys(s)
  {
    k in s.hits && forall other :: other in s.hits ==> s.lastAccess[k] <= s.lastAccess[other]
  }

  class SimpleRateLimiter {
    const config: Config
    var hits: map<Key, seq<real>>
    var lastAccess: map<Key, real>

    ghost function Value(): Limiter
      reads this
    {
      Limiter(hits, lastAccess)
    }

    constructor (config: Config)
      ensures this.config == config && Value() == Limiter(map[], map[])
    {
      this.config := config;
      hits, lastAccess := map[], map[];
    }

    method OldestKey() returns (oldest: Key)
      requires SameKeys(Value()) && hits != map[]
      ensures LeastRecentlyUsed(Value(), oldest)
    {
      oldest :| oldest in hits;
      var remaining := hits.Keys - {oldest};
      while remaining != {}
        invariant oldest in hits && remaining <= hits.Keys
        invariant forall k :: k in hits && k !in remaining ==> lastAccess[oldest] <= lastAccess[k]
        decreases remaining
      {
        var k :| k in remaining;
        remaining := remaining - {k};
        if lastAccess[k] < lastAccess[oldest] {
          oldest := k;
        }
      }
    }

    method IsAllowed(key: Key, now: real) returns (decision: Decision, victim: Key)
      requires SameKeys(Value())
      modifies this
      ensures decision == Decide(config, old(Value()), key, now)
      ensures MustEvict(config, old(Value()), key) && decision.Allowed? ==> LeastRecentlyUsed(old(Value()), victim)
      ensures Value() == if decision.Allowed? then Admit(config, old(Value()), key, now, victim) else old(Value())
    {
      victim := key;
      var times := Prune(if key in hits then hits[key] else [], now - config.window);
      if |times| >= config.maxRequests {
        if times == [] {
          return Crashed, victim;
        }
        var retryAfter := (MinOf(times) + config.window - now).Floor + 1;
        return Denied(if retryAfter > 1 then retryAfter else 1), victim;
      }
      var evict := |hits| >= config.maxBuckets && key !in hits && hits != map[];
      if evict {
        victim := OldestKey();
      }
      lastAccess := lastAccess[key := now];
      if evict {
        hits := hits - {victim};
        lastAccess := lastAccess - {victim};
      }
      hits := hits[key := times + [now]];
      decision := Allowed;
    }
  }

  // ---- Runs ----

  /** The limiter, the clock, and for each stored key every admission since the key was (re)entered. */
  datatype System = System(limiter: Limiter, ledger: map<Key, seq<real>>, clock: real)

  datatype Call = Call(key: Key, now: real, victim: Key)

  const BOOT := System(Limiter(map[], map[]), map[], 0.0)

  /** The clock does not go back, and an eviction takes a least recently used key. */
  ghost predicate Enabled(c: Config, s: System, call: Call) {
    && SameKeys(s.limiter) && call.now >= s.clock
    && (MustEvict(c, s.limiter, call.key) ==> LeastRecentlyUsed(s.limiter, call.victim))
  }

  ghost function Step(c: Config, s: System, call: Call): System
    requires Enabled(c, s, call)
  {
    if !Decide(c, s.limiter, call.key, call.now).Allowed? then s.(clock := call.now)
    else
      var kept := if MustEvict(c, s.limiter, call.key) then s.ledger - {call.victim} else s.ledger;
      var before := if call.key in s.ledger then s.ledger[call.key] else [];
      System(Admit(c, s.limiter, call.key, call.now, call.victim), kept[call.key := before + [call.now]], call.now)
  }

  ghost predicate Schedule(c: Config, s: System, run: seq<Call>)
    decreases |run|
  {
    run == [] || (Enabled(c, s, run[0]) && Schedule(c, Step(c, s, run[0]), run[1..]))
  }

  ghost function After(c: Config, s: System, run: seq<Call>): System
    requires Schedule(c, s, run)
    decreases |run|
  {
    if run == [] then s else After(c, Step(c, s, run[0]), run[1..])
  }

  ghost predicate Sorted(times: seq<real>) {
    forall i, j :: 0 <= i < j < |times| ==> times[i] <= times[j]
  }

  /** Any `maxRequests` + 1 consecutive admissions span at least one window. */
  ghost predicate Spaced(c: Config, times: seq<real>) {
    forall i, j :: 0 <= i < j < |times| && j == i + c.maxRequests ==> times[j] - times[i] >= c.window
  }

  /** `hits` is the end of the admissions; what was dropped is at least a window older than the last one. */
  ghost predicate Suffix(c: Config, hits: seq<real>, admitted: seq<real>) {
    && 1 <= |hits| <= |admitted| && |hits| <= c.maxRequests
    && hits == admitted[|admitted|-|hits|..]
    && forall i :: 0 <= i < |admitted| - |hits| ==> admitted[i] <= admitted[|admitted|-1] - c.window
  }

  ghost predicate Tracks(c: Config, hits: seq<real>, admitted: seq<real>, clock: real) {
    && Sorted(admitted) && Spaced(c, admitted) && Suffix(c, hits, admitted)
    && admitted[|admitted|-1] <= clock
  }

  ghost predicate Inv(c: Config, s: System) {
    && SameKeys(s.limiter) && s.ledger.Keys == s.limiter.hits.Keys
    && (|s.limiter.hits| <= if c.maxBuckets > 1 then c.maxBuckets else 1)
    && forall k :: k in s.ledger ==> Tracks(c, s.limiter.hits[k], s.ledger[k], s.clock)
  }

  lemma {:induction false} PruneAll(times: seq<real>, cutoff: real)
    requires forall i :: 0 <= i < |times| ==> times[i] > cutoff
    ensures Prune(times, cutoff) == times
  {
    if times != [] {
      PruneAll(times[1..], cutoff);
    }
  }

  /** Pruning a sorted list drops a prefix. */
  lemma {:induction false} PruneSorted(times: seq<real>, cutoff: real) returns (n: nat)
    requires Sorted(times)
    ensures n <= |times| && Prune(times, cutoff) == times[n..]
    ensures forall i :: 0 <= i < n ==> times[i] <= cutoff
    ensures n < |times| ==> times[n] > cutoff
  {
    if times == [] {
      n := 0;
    } else if times[0] > cutoff {
      PruneAll(times, cutoff);
      n := 0;
    } else {
      var rest := PruneSorted(times[1..], cutoff);
      n := rest + 1;
      forall i | 0 <= i < n ensures times[i] <= cutoff {
        if i > 0 {
          assert times[1..][i-1] == times[i];
        }
      }
    }
  }

  lemma SuffixSorted(times: seq<real>, n: nat)
    requires Sorted(times) && n <= |times|
    ensures Sorted(times[n..])
  {
  }

  lemma SortedAppend(times: seq<real>, now: real)
    requires Sorted(times) && (times != [] ==> times[|times|-1] <= now)
    ensures Sorted(times + [now])
  {
  }

  lemma SpacedAppend(c: Config, times: seq<real>, now: real)
    requires Spaced(c, times)
    requires 1 <= c.maxRequests <= |times| ==> now - times[|times| - c.maxRequests] >= c.window
    ensures Spaced(c, times + [now])
  {
  }

  /** One admission keeps the bookkeeping of its key. */
  lemma AdmissionTracks(c: Config, hits: seq<real>, admitted: seq<real>, clock: real, now: real)
    requires (hits == [] && admitted == []) || Tracks(c, hits, admitted, clock)
    requires now >= clock && |Prune(hits, now - c.window)| < c.maxRequests
    ensures Tracks(c, Prune(hits, now - c.window) + [now], admitted + [now], now)
  {
    hide Sorted, Spaced, Prune;
    EmptyLedger(c);
    var m := |admitted| - |hits|;
    SuffixSorted(admitted, m);
    var n := PruneSorted(hits, now - c.window);
    DroppedIsOld(admitted, m, n, now - c.window);
    assert Prune(hits, now - c.window) == admitted[m+n..];
    SortedAppend(admitted, now);
    SpacedAppend(c, admitted, now);
    SuffixAppend(c, admitted, m + n, now);
  }

  lemma DroppedIsOld(admitted: seq<real>, m: nat, n: nat, cutoff: real)
    requires m + n <= |admitted|
    requires forall i :: 0 <= i < m ==> admitted[i] <= cutoff
    requires forall i :: 0 <= i < n ==> admitted[m..][i] <= cutoff
    ensures forall i :: 0 <= i < m + n ==> admitted[i] <= cutoff
  {
    forall i | m <= i < m + n ensures admitted[i] <= cutoff {
      assert admitted[i] == admitted[m..][i-m];
    }
  }

  lemma SuffixAppend(c: Config, admitted: seq<real>, n: nat, now: real)
    requires n <= |admitted| && |admitted| - n < c.maxRequests
    requires forall i :: 0 <= i < n ==> admitted[i] <= now - c.window
    ensures Suffix(c, admitted[n..] + [now], admitted + [now])
  {
    assert (admitted + [now])[n..] == admitted[n..] + [now];
  }

  lemma EmptyLedger(c: Config)
    ensures Sorted([]) && Spaced(c, [])
  {
  }

  lemma StepKeepsInv(c: Config, s: System, call: Call)
    requires Inv(c, s) && Enabled(c, s, call)
    ensures Inv(c, Step(c, s, call))
  {
    hide Tracks, Prune, MinOf;
    var s' := Step(c, s, call);
    if Decide(c, s.limiter, call.key, call.now).Allowed? {
      var hits := if call.key in s.limiter.hits then s.limiter.hits[call.key] else [];
      var admitted := if call.key in s.ledger then s.ledger[call.key] else [];
      AdmissionTracks(c, hits, admitted, s.clock, call.now);
      assert s'.ledger.Keys == s'.limiter.hits.Keys == s'.limiter.lastAccess.Keys;
      KeyCount(c, s.limiter, call.key, call.now, call.victim);
    }
    forall k | k in s'.ledger ensures Tracks(c, s'.limiter.hits[k], s'.ledger[k], s'.clock) {
      if !(Decide(c, s.limiter, call.key, call.now).Allowed? && k == call.key) {
        LaterClock(c, s.limiter.hits[k], s.ledger[k], s.clock, call.now);
      }
    }
  }

  lemma LaterClock(c: Config, hits: seq<real>, admitted: seq<real>, clock: real, now: real)
    requires Tracks(c, hits, admitted, clock) && now >= clock
    ensures Tracks(c, hits, admitted, now)
  {
  }

  /** Storing a new key at the cap replaces exactly one other key. */
  lemma KeyCount(c: Config, s: Limiter, key: Key, now: real, victim: Key)
    requires |s.hits| <= (if c.maxBuckets > 1 then c.maxBuckets else 1)
    requires MustEvict(c, s, key) ==> victim in s.hits
    ensures |Admit(c, s, key, now, victim).hits| <= if c.maxBuckets > 1 then c.maxBuckets else 1
  {
    var s' := Admit(c, s, key, now, victim);
    if MustEvict(c, s, key) {
      assert s'.hits.Keys == s.hits.Keys - {victim} + {key};
      assert |s'.hits| == |s'.hits.Keys| && |s.hits| == |s.hits.Keys|;
    } else {
      assert s'.hits.Keys == s.hits.Keys + {key};
      assert |s'.hits| == |s'.hits.Keys| && |s.hits| == |s.hits.Keys|;
    }
  }

  lemma {:induction false} InvAlways(c: Config, s: System, run: seq<Call>)
    requires Inv(c, s) && Schedule(c, s, run)
    ensures Inv(c, After(c, s, run))
    decreases |run|
  {
    if run != [] {
      StepKeepsInv(c, s, run[0]);
      InvAlways(c, Step(c, s, run[0]), run[1..]);
    }
  }

  /**
   Over every run: between two evictions of a key, no half-open interval of one window holds more than
   `maxRequests` admissions of that key; at most max(1, maxBuckets) keys are stored.
   */
  lemma WindowNeverExceeded(c: Config, run: seq<Call>, key: Key, start: real, lo: nat, hi: nat)
    requires Schedule(c, BOOT, run) && key in After(c, BOOT, run).ledger
    requires lo <= hi <= |After(c, BOOT, run).ledger[key]|
    requires forall i :: lo <= i < hi ==> start <= After(c, BOOT, run).ledger[key][i] < start + c.window
    ensures hi - lo <= c.maxRequests
    ensures |After(c, BOOT, run).limiter.hits| <= if c.maxBuckets > 1 then c.maxBuckets else 1
  {
    InvAlways(c, BOOT, run);
    var s := After(c, BOOT, run);
    var admitted := s.ledger[key];
    assert Tracks(c, s.limiter.hits[key], admitted, s.clock) && c.maxRequests >= 1;
    SpacedInterval(c, admitted, start, lo, hi);
  }

  function Gap(times: seq<real>, i: int, j: int): real {
    if 0 <= i < j < |times| then times[j] - times[i] else 0.0
  }

  lemma SpacedInterval(c: Config, times: seq<real>, start: real, lo: nat, hi: nat)
    requires Spaced(c, times) && c.maxRequests >= 1 && lo <= hi <= |times|
    requires forall i :: lo <= i < hi ==> start <= times[i] < start + c.window
    ensures hi - lo <= c.maxRequests
  {
    var gap := Gap(times, lo, lo + c.maxRequests);
    if hi - lo > c.maxRequests {
      assert false;
    }
  }

  /**
   The advertised retry time works and is not padded by more than a second: after a denial the key is
   still denied at any time more than one second before it, and admitted exactly at it.
   */
  lemma RetryAfterIsExact(c: Config, s: System, key: Key, now: real, wait: real)
    requires Inv(c, s) && now >= s.clock && c.maxRequests >= 1 && Decide(c, s.limiter, key, now).Denied?
    ensures var retryAfter := Decide(c, s.limiter, key, now).retryAfter;
      && Decide(c, s.limiter, key, now + retryAfter as real) == Allowed
      && (0.0 <= wait < retryAfter as real - 1.0 ==> Decide(c, s.limiter, key, now + wait).Denied?)
  {
    hide Decide, Inv, Sorted, MinOf, Recent;
    DeniedHits(c, s, key, now);
    var retryAfter := Decide(c, s.limiter, key, now).retryAfter;
    FloorBounds(s.limiter.hits[key][0] + c.window - now);
    FirstHitExpires(c, s.limiter, key, now + retryAfter as real);
    if 0.0 <= wait < retryAfter as real - 1.0 {
      StillDenied(c, s.limiter, key, now + wait);
    }
  }

  lemma FloorBounds(x: real)
    ensures x.Floor as real <= x < x.Floor as real + 1.0
  {
  }

  lemma FirstHitExpires(c: Config, s: Limiter, key: Key, later: real)
    requires key in s.hits && |s.hits[key]| == c.maxRequests >= 1 && Sorted(s.hits[key])
    requires s.hits[key][0] <= later - c.window
    ensures Decide(c, s, key, later) == Allowed
  {
    hide MinOf;
    var n := PruneSorted(s.hits[key], later - c.window);
  }

  lemma StillDenied(c: Config, s: Limiter, key: Key, later: real)
    requires key in s.hits && |s.hits[key]| == c.maxRequests >= 1 && Sorted(s.hits[key])
    requires s.hits[key][0] > later - c.window
    ensures Decide(c, s, key, later).Denied?
  {
    hide MinOf;
    PruneAll(s.hits[key], later - c.window);
  }

  /** At a denial nothing has expired: the stored admissions are exactly the ones that count. */
  lemma DeniedHits(c: Config, s: System, key: Key, now: real)
    requires Inv(c, s) && now >= s.clock && c.maxRequests >= 1 && Decide(c, s.limiter, key, now).Denied?
    ensures key in s.limiter.hits && var hits := s.limiter.hits[key];
      && |hits| == c.maxRequests && Sorted(hits) && hits[0] > now - c.window
      && Recent(c, s.limiter, key, now) == hits && MinOf(hits) == hits[0]
      && Decide(c, s.limiter, key, now).retryAfter == (hits[0] + c.window - now).Floor + 1
  {
    hide Spaced, MinOf;
    var hits := s.limiter.hits[key];
    assert Tracks(c, hits, s.ledger[key], s.clock);
    SuffixSorted(s.ledger[key], |s.ledger[key]| - |hits|);
    var n := PruneSorted(hits, now - c.window);
    assert n == 0;
    MinOfSorted(hits);
  }

  lemma MinOfSorted(times: seq<real>)
    requires Sorted(times) && times != []
    ensures MinOf(times) == times[0]
  {
    assert times[0] in times;
  }

  /**
   An admission touches its own key and, when the key is new and the buckets are at the cap, a least recently used
   one; nothing else.
   */
  lemma OnlyLruDisturbed(c: Config, s: Limiter, key: Key, now: real, victim: Key, other: Key)
    requires SameKeys(s) && other in s.hits && other != key
    requires MustEvict(c, s, key) ==> LeastRecentlyUsed(s, victim)
    ensures var s' := Admit(c, s, key, now, victim);
      && SameKeys(s') && key in s'.hits && s'.lastAccess[key] == now
      && (other !in s'.hits <==> key !in s.hits && |s.hits| >= c.maxBuckets && other == victim)
      && (other in s'.hits ==> s'.hits[other] == s.hits[other] && s'.lastAccess[other] == s.lastAccess[other])
      && (other !in s'.hits ==> forall k :: k in s.hits ==> s.lastAccess[other] <= s.lastAccess[k])
  {
  }

  /** The access time of a key is the time of its last admission. */
  ghost predicate Stamped(s: System) {
    && s.ledger.Keys == s.limiter.lastAccess.Keys
    && forall k :: k in s.ledger ==> s.ledger[k] != [] && s.limiter.lastAccess[k] == s.ledger[k][|s.ledger[k]|-1]
  }

  lemma StampedStep(c: Config, s: System, call: Call)
    requires Stamped(s) && Enabled(c, s, call)
    ensures Stamped(Step(c, s, call))
  {
    hide Decide, Recent;
  }

  lemma {:induction false} StampedAlways(c: Config, s: System, run: seq<Call>)
    requires Stamped(s) && Schedule(c, s, run)
    ensures Stamped(After(c, s, run))
    decreases |run|
  {
    hide Stamped, Enabled, Step;
    if run != [] {
      StampedStep(c, s, run[0]);
      StampedAlways(c, Step(c, s, run[0]), run[1..]);
    }
  }

  /**
   Over every schedule: a key is dropped only when another, new key is admitted with the buckets at the cap, and then
   no stored key has an earlier last admission.
   */
  lemma EvictedIsOldest(c: Config, run: seq<Call>, call: Call, key: Key)
    requires Schedule(c, BOOT, run) && Enabled(c, After(c, BOOT, run), call) && key in After(c, BOOT, run).ledger
    ensures var s, s' := After(c, BOOT, run), Step(c, After(c, BOOT, run), call);
      && Stamped(s) && Stamped(s')
      && (key !in s'.ledger ==>
            && call.key !in s.ledger && |s.ledger| >= c.maxBuckets
            && forall k :: k in s.ledger ==> s.ledger[key][|s.ledger[key]|-1] <= s.ledger[k][|s.ledger[k]|-1])
  {
    hide Schedule, After, Step, Decide, Tracks, LeastRecentlyUsed, MustEvict;
    var s := After(c, BOOT, run);
    BootIsStamped();
    StampedAlways(c, BOOT, run);
    StampedStep(c, s, call);
    InvAlways(c, BOOT, run);
    if key !in Step(c, s, call).ledger {
      DroppedIsOldest(c, s, call, key);
    }
  }

  lemma BootIsStamped()
    ensures Stamped(BOOT)
  {
  }

  lemma DroppedIsOldest(c: Config, s: System, call: Call, key: Key)
    requires Enabled(c, s, call) && key in s.ledger && s.ledger.Keys == s.limiter.hits.Keys && Stamped(s)
    requires key !in Step(c, s, call).ledger
    ensures call.key !in s.ledger && |s.ledger| >= c.maxBuckets
    ensures forall k :: k in s.ledger ==> s.ledger[key][|s.ledger[key]|-1] <= s.ledger[k][|s.ledger[k]|-1]
  {
    hide Decide, Recent;
    assert |s.ledger| == |s.ledger.Keys| && |s.limiter.hits| == |s.limiter.hits.Keys|;
    assert key == call.victim;
  }

  /** How many of the times lie after the cutoff. */
  function CountAfter(times: seq<real>, cutoff: real): nat {
    if times == [] then 0 else CountAfter(times[..|times|-1], cutoff) + if times[|times|-1] > cutoff then 1 else 0
  }

  lemma {:induction false} CountOfPrune(times: seq<real>, cutoff: real)
    ensures |Prune(times, cutoff)| == CountAfter(times, cutoff)
  {
    if times != [] {
      var init, last := times[..|times|-1], times[|times|-1];
      CountOfPrune(init, cutoff);
      assert times == init + [last] && [last][1..] == [];
      PruneConcat(init, [last], cutoff);
    }
  }

  lemma {:induction false} PruneConcat(a: seq<real>, b: seq<real>, cutoff: real)
    ensures Prune(a + b, cutoff) == Prune(a, cutoff) + Prune(b, cutoff)
  {
    if a == [] {
      assert a + b == b;
    } else {
      assert (a + b)[1..] == a[1..] + b;
      PruneConcat(a[1..], b, cutoff);
    }
  }

  lemma {:induction false} CountSplits(a: seq<real>, b: seq<real>, cutoff: real)
    ensures CountAfter(a + b, cutoff) == CountAfter(a, cutoff) + CountAfter(b, cutoff)
  {
    if b == [] {
      assert a + b == a;
    } else {
      assert (a + b)[..|a + b|-1] == a + b[..|b|-1];
      CountSplits(a, b[..|b|-1], cutoff);
    }
  }

  lemma {:induction false} CountNone(times: seq<real>, cutoff: real)
    requires forall i :: 0 <= i < |times| ==> times[i] <= cutoff
    ensures CountAfter(times, cutoff) == 0
  {
    if times != [] {
      CountNone(times[..|times|-1], cutoff);
    }
  }

  /**
   Exactly when a call is admitted, over every schedule: of all admissions of its key since the key was stored, fewer
   than `maxRequests` lie in the window that ends now.
   */
  lemma AdmittedIff(c: Config, run: seq<Call>, key: Key, now: real)
    requires Schedule(c, BOOT, run) && now >= After(c, BOOT, run).clock
    ensures var s := After(c, BOOT, run);
      Decide(c, s.limiter, key, now) == Allowed <==>
      (if key in s.ledger then CountAfter(s.ledger[key], now - c.window) else 0) < c.maxRequests
  {
    hide Tracks, Prune, CountAfter, MinOf;
    InvAlways(c, BOOT, run);
    var s := After(c, BOOT, run);
    if key in s.ledger {
      AllAdmissionsCount(c, s.limiter.hits[key], s.ledger[key], s.clock, now);
    } else {
      PruneAll([], now - c.window);
    }
  }

  /** What has been dropped from the stored times is outside every later window. */
  lemma AllAdmissionsCount(c: Config, hits: seq<real>, admitted: seq<real>, clock: real, now: real)
    requires Tracks(c, hits, admitted, clock) && now >= clock
    ensures |Prune(hits, now - c.window)| == CountAfter(admitted, now - c.window)
  {
    hide Sorted, Spaced, Prune, CountAfter;
    var n := |admitted| - |hits|;
    CountOfPrune(hits, now - c.window);
    assert admitted == admitted[..n] + hits;
    CountSplits(admitted[..n], hits, now - c.window);
    CountNone(admitted[..n], now - c.window);
  }

  /** With a limit of zero requests the limiter neither admits nor denies: it fails on every call. */
  lemma CrashesIffNoRequests(c: Config, s: System, key: Key, now: real)
    requires Inv(c, s) && now >= s.clock
    ensures c.maxRequests <= 0 ==> Decide(c, s.limiter, key, now) == Crashed
    ensures Decide(c, s.limiter, key, now) == Crashed ==> c.maxRequests <= 0
  {
    if c.maxRequests <= 0 && key in s.ledger {
      assert false;
    }
  }
}
