/** Single use of derived bearer tokens: a timestamp window on the MAC and a store of the MACs already seen. */
module AntiReplay {
  import opened Common

  const TOKEN_TTL: int := 300
  const SKEW: int := 60
  const RETENTION: real := (TOKEN_TTL + SKEW) as real

  type Mac = string

  /** The MAC of (method, path, timestamp) under the runtime secret. */
  type MacFunction = (string, string, int) -> Mac

  ghost predicate CollisionFree(h: MacFunction) {
    forall m, p, t, m', p', t' :: h(m, p, t) == h(m', p', t') ==> m == m' && p == p' && t == t'
  }

  /** The part of a token after its first '='. */
  function AfterEquals(token: string): Option<Mac> {
    if token == "" then None else if token[0] == '=' then Some(token[1..]) else AfterEquals(token[1..])
  }

  /** What follows the first '='. */
  ghost predicate CarriesMac(token: string, mac: Mac) {
    exists i :: 0 <= i < |token| && token[i] == '=' && '=' !in token[..i] && mac == token[i+1..]
  }

  lemma {:induction false} MacIsCarried(token: string)
    ensures AfterEquals(token).Some? <==> '=' in token
    ensures forall mac :: CarriesMac(token, mac) <==> AfterEquals(token) == Some(mac)
  {
    if token != "" && token[0] != '=' {
      MacIsCarried(token[1..]);
      assert token == [token[0]] + token[1..];
      forall mac ensures CarriesMac(token, mac) <==> CarriesMac(token[1..], mac) {
        LaterEquals(token, mac);
      }
    } else if token != "" {
      assert token[..0] == "" && '=' !in token[..0];
      assert CarriesMac(token, token[1..]);
      forall i | 0 < i <= |token| ensures token[0] in token[..i] {
        assert token[..i][0] == token[0];
      }
    }
  }

  lemma LaterEquals(token: string, mac: Mac)
    requires token != "" && token[0] != '='
    ensures CarriesMac(token, mac) <==> CarriesMac(token[1..], mac)
  {
    if CarriesMac(token, mac) {
      var i :| 0 <= i < |token| && token[i] == '=' && '=' !in token[..i] && mac == token[i+1..];
      assert token[1..][i-1] == '=' && token[1..][..i-1] == token[..i][1..] && token[1..][i..] == token[i+1..];
    }
    if CarriesMac(token[1..], mac) {
      var i :| 0 <= i < |token[1..]| && token[1..][i] == '=' && '=' !in token[1..][..i] && mac == token[1..][i+1..];
      assert token[i+1] == '=' && token[..i+1] == [token[0]] + token[1..][..i] && token[i+2..] == token[1..][i+1..];
    }
  }

  function Evict(used: map<Mac, real>, now: real): map<Mac, real> {
    map k | k in used && !(used[k] < now - RETENTION) :: used[k]
  }

  /** Answer and new store of the replay check; a token without '=' is not recorded. */
  function CheckStep(used: map<Mac, real>, token: string, now: real): (bool, map<Mac, real>) {
    var mac := AfterEquals(token);
    if mac.None? then (false, used)
    else
      var kept := Evict(used, now);
      if mac.value in kept then (true, kept) else (false, kept[mac.value := now])
  }

  class AntiReplayStore {
    var used: map<Mac, real>

    constructor ()
      ensures used == map[]
    {
      used := map[];
    }

    method IsReplay(token: string, now: real) returns (replay: bool)
      modifies this
      ensures (replay, used) == CheckStep(old(used), token, now)
      ensures '=' !in token ==> !replay && used == old(used)
      ensures forall mac :: CarriesMac(token, mac) ==>
        && (replay <==> mac in old(used) && old(used)[mac] >= now - 360.0)
        && (forall k :: k in used <==> k == mac || (k in old(used) && old(used)[k] >= now - 360.0))
        && (forall k :: k in used ==> used[k] == if k == mac && !replay then now else old(used)[k])
    {
      MacIsCarried(token);
      var mac := AfterEquals(token);
      if mac.None? {
        return false;
      }
      var expired := set k | k in used && used[k] < now - RETENTION;
      used := used - expired;
      assert used == Evict(old(used), now);
      if mac.value in used {
        return true;
      }
      used := used[mac.value := now];
      return false;
    }
  }

  // ---- One bearer check ----

  /** Reading number n of the process clock. */
  type Clock = nat -> real

  /** Later readings are not smaller. */
  ghost predicate NonDecreasing(clock: Clock) {
    forall i, j :: 0 <= i <= j ==> clock(i) <= clock(j)
  }

  /** Two further clock readings decide whether the timestamp is inside the tolerance. */
  method VerifyBearerHmac(h: MacFunction, clock: Clock, tick: nat, method_: string, path: string, mac: Mac,
                          timestamp: int)
    returns (ok: bool, next: nat)
    ensures next == if timestamp < clock(tick).Floor - SKEW then tick + 1 else tick + 2
    ensures ok <==>
            && clock(tick).Floor - SKEW <= timestamp <= clock(tick + 1).Floor + SKEW
            && h(method_, path, timestamp) == mac
  {
    if timestamp < clock(tick).Floor - SKEW {
      return false, tick + 1;
    }
    if timestamp > clock(tick + 1).Floor + SKEW {
      return false, tick + 2;
    }
    return h(method_, path, timestamp) == mac, tick + 2;
  }

  /** How a bearer got through: not at all, as a pre-shared key, or as a derived token. */
  datatype Access = Denied | Preshared | Derived

  /** The token of a request, after `idle` clock readings made by others. */
  datatype Request = Request(idle: nat, token: string, method_: string, path: string, preshared: bool)

  /** The search for the timestamp from candidate `n` and reading `r` on: its success and the next reading. */
  function SearchFrom(h: MacFunction, clock: Clock, now: int, q: Request, mac: Mac, n: nat, r: nat): (bool, nat)
    decreases 2 * SKEW + 1 - n
  {
    if n > 2 * SKEW then (false, r)
    else
      var t := now - SKEW + n;
      if t < clock(r).Floor - SKEW then SearchFrom(h, clock, now, q, mac, n + 1, r + 1)
      else if t <= clock(r + 1).Floor + SKEW && h(q.method_, q.path, t) == mac then (true, r + 2)
      else SearchFrom(h, clock, now, q, mac, n + 1, r + 2)
  }

  lemma SearchStep(h: MacFunction, clock: Clock, now: int, q: Request, mac: Mac, n: nat, r: nat)
    requires n <= 2 * SKEW
    ensures var t := now - SKEW + n;
      SearchFrom(h, clock, now, q, mac, n, r) ==
        if t < clock(r).Floor - SKEW then SearchFrom(h, clock, now, q, mac, n + 1, r + 1)
        else if t <= clock(r + 1).Floor + SKEW && h(q.method_, q.path, t) == mac then (true, r + 2)
        else SearchFrom(h, clock, now, q, mac, n + 1, r + 2)
  {
  }

  lemma SearchEnds(h: MacFunction, clock: Clock, now: int, q: Request, mac: Mac, n: nat, r: nat)
    requires n > 2 * SKEW
    ensures SearchFrom(h, clock, now, q, mac, n, r) == (false, r)
  {
  }

  datatype Outcome = Outcome(access: Access, used: map<Mac, real>, next: nat)

  /** The whole check from reading `tick` on: a replay test, one reading for the present, and the search. */
  function Check(h: MacFunction, clock: Clock, used: map<Mac, real>, tick: nat, q: Request): Outcome {
    var mac := AfterEquals(q.token);
    if mac.None? then Outcome(if q.preshared then Preshared else Denied, used, tick)
    else
      var (replay, used') := CheckStep(used, q.token, clock(tick));
      if q.preshared then Outcome(Preshared, used', tick + 1)
      else if replay then Outcome(Denied, used', tick + 1)
      else
        var (found, next) := SearchFrom(h, clock, clock(tick + 1).Floor, q, mac.value, 0, tick + 2);
        Outcome(if found then Derived else Denied, used', next)
  }

  method VerifyScopedBearer(store: AntiReplayStore, h: MacFunction, clock: Clock, tick: nat, q: Request)
    returns (access: Access, next: nat)
    modifies store
    ensures Outcome(access, store.used, next) == Check(h, clock, old(store.used), tick, q)
  {
    hide SearchFrom, Evict;
    var mac := AfterEquals(q.token);
    var replay := store.IsReplay(q.token, clock(tick));
    next := if mac.None? then tick else tick + 1;
    if q.preshared {
      return Preshared, next;
    }
    if mac.None? || replay {
      return Denied, next;
    }
    var now := clock(tick + 1).Floor;
    next := tick + 2;
    for n := 0 to 2 * SKEW + 1
      invariant store.used == CheckStep(old(store.used), q.token, clock(tick)).1
      invariant SearchFrom(h, clock, now, q, mac.value, n, next) == SearchFrom(h, clock, now, q, mac.value, 0, tick + 2)
    {
      SearchStep(h, clock, now, q, mac.value, n, next);
      var ok, after := VerifyBearerHmac(h, clock, next, q.method_, q.path, mac.value, now - SKEW + n);
      next := after;
      if ok {
        return Derived, next;
      }
    }
    SearchEnds(h, clock, now, q, mac.value, 2 * SKEW + 1, next);
    return Denied, next;
  }

  // ---- Exactly when the check accepts ----

  /** The reading at which candidate `n` is looked at; a candidate that is too old costs one reading, others two. */
  function CandidateTick(clock: Clock, now: int, first: nat, n: nat): (r: nat)
    ensures first <= r
  {
    if n == 0 then first
    else
      var r := CandidateTick(clock, now, first, n - 1);
      if now - SKEW + (n - 1) < clock(r).Floor - SKEW then r + 1 else r + 2
  }

  /** Candidate `n` carries the MAC and is not too old when its turn comes. */
  ghost predicate Hit(h: MacFunction, clock: Clock, now: int, first: nat, q: Request, mac: Mac, n: nat) {
    && n <= 2 * SKEW && h(q.method_, q.path, now - SKEW + n) == mac
    && clock(CandidateTick(clock, now, first, n)).Floor <= now + n
  }

  ghost predicate Matches(h: MacFunction, clock: Clock, now: int, first: nat, q: Request, mac: Mac) {
    exists n: nat :: Hit(h, clock, now, first, q, mac, n)
  }

  lemma {:induction false} SearchFindsHit(h: MacFunction, clock: Clock, present: nat, first: nat, q: Request, mac: Mac,
                                          n: nat)
    requires NonDecreasing(clock) && present <= first && n <= 2 * SKEW + 1
    ensures var now := clock(present).Floor;
      SearchFrom(h, clock, now, q, mac, n, CandidateTick(clock, now, first, n)).0 <==>
      exists k: nat :: k >= n && Hit(h, clock, now, first, q, mac, k)
    decreases 2 * SKEW + 1 - n
  {
    hide SearchFrom;
    var now := clock(present).Floor;
    if n <= 2 * SKEW {
      var r := CandidateTick(clock, now, first, n);
      assert clock(present) <= clock(r) <= clock(r + 1);
      SearchStep(h, clock, now, q, mac, n, r);
      assert CandidateTick(clock, now, first, n + 1) == if now - SKEW + n < clock(r).Floor - SKEW then r + 1 else r + 2;
      SearchFindsHit(h, clock, present, first, q, mac, n + 1);
      assert Hit(h, clock, now, first, q, mac, n) <==>
             h(q.method_, q.path, now - SKEW + n) == mac && clock(r).Floor <= now + n;
    } else {
      SearchEnds(h, clock, now, q, mac, n, CandidateTick(clock, now, first, n));
    }
  }

  /**
   A derived token is accepted exactly when it is no replay and some timestamp within the tolerance of the reading
   after the replay test carries its MAC and is not too old at the reading at which its turn comes.
   */
  lemma AcceptsIff(h: MacFunction, clock: Clock, used: map<Mac, real>, tick: nat, q: Request)
    requires NonDecreasing(clock)
    ensures Check(h, clock, used, tick, q).access.Derived? <==>
            && !q.preshared && AfterEquals(q.token).Some? && !CheckStep(used, q.token, clock(tick)).0
            && Matches(h, clock, clock(tick + 1).Floor, tick + 2, q, AfterEquals(q.token).value)
  {
    hide CheckStep, SearchFrom, Hit;
    if AfterEquals(q.token).Some? {
      SearchFindsHit(h, clock, tick + 1, tick + 2, q, AfterEquals(q.token).value, 0);
    }
  }

  /** The MAC was registered at most 360 seconds ago. */
  predicate Retained(used: map<Mac, real>, mac: Mac, now: real) {
    mac in used && used[mac] >= now - 360.0
  }

  /** The timestamp `n` seconds above the lower end of the tolerance carries the MAC and is not too old in its turn. */
  ghost predicate TimelyAt(h: MacFunction, clock: Clock, tick: nat, q: Request, mac: Mac, n: nat) {
    var now := clock(tick + 1).Floor;
    n <= 120 && h(q.method_, q.path, now - 60 + n) == mac
    && clock(CandidateTick(clock, now, tick + 2, n)).Floor - 60 <= now - 60 + n
  }

  ghost predicate Timely(h: MacFunction, clock: Clock, tick: nat, q: Request, mac: Mac) {
    exists n: nat :: TimelyAt(h, clock, tick, q, mac, n)
  }

  lemma HitOf(h: MacFunction, clock: Clock, now: int, first: nat, q: Request, mac: Mac) returns (n: nat)
    requires Matches(h, clock, now, first, q, mac)
    ensures Hit(h, clock, now, first, q, mac, n)
  {
    n :| Hit(h, clock, now, first, q, mac, n);
  }

  lemma TimelyIff(h: MacFunction, clock: Clock, tick: nat, q: Request, mac: Mac)
    ensures Timely(h, clock, tick, q, mac) <==> Matches(h, clock, clock(tick + 1).Floor, tick + 2, q, mac)
  {
    hide CandidateTick;
    var now := clock(tick + 1).Floor;
    if n: nat :| TimelyAt(h, clock, tick, q, mac, n) {
      assert Hit(h, clock, now, tick + 2, q, mac, n);
    }
    if Matches(h, clock, now, tick + 2, q, mac) {
      var n := HitOf(h, clock, now, tick + 2, q, mac);
      assert TimelyAt(h, clock, tick, q, mac, n);
    }
  }

  /**
   Every outcome of the check. A pre-shared key always gets through. Anything else is denied when it carries no MAC,
   when the MAC is retained, or when no timely timestamp matches, and is accepted as a derived token otherwise. A
   token without a MAC leaves the store alone; one with a MAC is registered, a pre-shared key as well, unless the MAC
   is retained, and everything older than 360 seconds is dropped.
   */
  lemma EveryOutcome(h: MacFunction, clock: Clock, used: map<Mac, real>, tick: nat, q: Request)
    requires NonDecreasing(clock)
    ensures var o := Check(h, clock, used, tick, q);
      && (o.access == Preshared <==> q.preshared)
      && ('=' !in q.token ==> o.used == used && o.next == tick && o.access != Derived)
      && forall mac :: CarriesMac(q.token, mac) ==>
           && (o.access == Derived <==>
                 !q.preshared && !Retained(used, mac, clock(tick)) && Timely(h, clock, tick, q, mac))
           && (q.preshared || Retained(used, mac, clock(tick)) ==> o.next == tick + 1)
           && (forall k :: k in o.used <==> k == mac || Retained(used, k, clock(tick)))
           && (forall k :: k in o.used ==>
                 o.used[k] == if k == mac && !Retained(used, mac, clock(tick)) then clock(tick) else used[k])
  {
    hide SearchFrom, CarriesMac, Timely, Matches;
    MacIsCarried(q.token);
    AcceptsIff(h, clock, used, tick, q);
    CheckAdvances(h, clock, used, tick, q);
    if AfterEquals(q.token).Some? {
      TimelyIff(h, clock, tick, q, AfterEquals(q.token).value);
    }
  }

  // ---- How often a MAC can be accepted ----

  /** Some request of the run is accepted on this MAC. */
  ghost predicate AcceptedIn(h: MacFunction, clock: Clock, used: map<Mac, real>, tick: nat, run: seq<Request>, mac: Mac)
    decreases |run|
  {
    run != [] &&
    var o := Check(h, clock, used, tick + run[0].idle, run[0]);
    (o.access.Derived? && AfterEquals(run[0].token) == Some(mac)) || AcceptedIn(h, clock, o.used, o.next, run[1..], mac)
  }

  /** `t` is the timestamp of the MAC. */
  ghost predicate Stamped(h: MacFunction, mac: Mac, t: int) {
    exists m, p :: h(m, p, t) == mac
  }

  /** Under a collision-free MAC: an accepted token was no replay, and its timestamp fits the readings of the check. */
  lemma AcceptanceFits(h: MacFunction, clock: Clock, used: map<Mac, real>, tick: nat, q: Request, mac: Mac, t: int)
    requires CollisionFree(h) && NonDecreasing(clock) && Stamped(h, mac, t)
    requires Check(h, clock, used, tick, q).access.Derived? && AfterEquals(q.token) == Some(mac)
    ensures mac !in Evict(used, clock(tick))
    ensures Check(h, clock, used, tick, q).used == Evict(used, clock(tick))[mac := clock(tick)]
    ensures h(q.method_, q.path, t) == mac
    ensures clock(tick).Floor - SKEW <= t <= clock(tick + 1).Floor + SKEW
    ensures Check(h, clock, used, tick, q).next >= tick + 2
  {
    hide SearchFrom, Evict;
    AcceptsIff(h, clock, used, tick, q);
    var now := clock(tick + 1).Floor;
    var n: nat :| Hit(h, clock, now, tick + 2, q, mac, n);
    assert t == now - SKEW + n;
    assert clock(tick) <= clock(CandidateTick(clock, now, tick + 2, n));
    SearchAdvances(h, clock, now, q, mac, 0, tick + 2);
  }

  lemma {:induction false} SearchAdvances(h: MacFunction, clock: Clock, now: int, q: Request, mac: Mac, n: nat, r: nat)
    ensures SearchFrom(h, clock, now, q, mac, n, r).1 >= r
    decreases 2 * SKEW + 1 - n
  {
    hide SearchFrom;
    if n <= 2 * SKEW {
      SearchStep(h, clock, now, q, mac, n, r);
      SearchAdvances(h, clock, now, q, mac, n + 1, r + 1);
      SearchAdvances(h, clock, now, q, mac, n + 1, r + 2);
    } else {
      SearchEnds(h, clock, now, q, mac, n, r);
    }
  }

  lemma CheckAdvances(h: MacFunction, clock: Clock, used: map<Mac, real>, tick: nat, q: Request)
    ensures Check(h, clock, used, tick, q).next >= tick
    ensures Check(h, clock, used, tick, q).used == CheckStep(used, q.token, clock(tick)).1
  {
    hide SearchFrom, Evict;
    if AfterEquals(q.token).Some? {
      SearchAdvances(h, clock, clock(tick + 1).Floor, q, AfterEquals(q.token).value, 0, tick + 2);
    }
  }

  lemma LateRequestIsRejected(h: MacFunction, clock: Clock, used: map<Mac, real>, tick: nat, q: Request, mac: Mac,
                              t: int)
    requires CollisionFree(h) && NonDecreasing(clock) && Stamped(h, mac, t)
    requires clock(tick) >= (t + SKEW + 1) as real
    ensures !(Check(h, clock, used, tick, q).access.Derived? && AfterEquals(q.token) == Some(mac))
  {
    hide CollisionFree, Stamped, Check, CheckStep;
    if Check(h, clock, used, tick, q).access.Derived? && AfterEquals(q.token) == Some(mac) {
      AcceptanceFits(h, clock, used, tick, q, mac, t);
      assert false;
    }
  }

  /** Once the clock has passed the tolerance of its timestamp, a MAC is never accepted again. */
  lemma {:induction false} LateMacIsRejected(h: MacFunction, clock: Clock, used: map<Mac, real>, tick: nat,
                                             run: seq<Request>, mac: Mac, t: int)
    requires CollisionFree(h) && NonDecreasing(clock) && Stamped(h, mac, t)
    requires clock(tick) >= (t + SKEW + 1) as real
    ensures !AcceptedIn(h, clock, used, tick, run, mac)
    decreases |run|
  {
    hide CollisionFree, Stamped, Check, CheckStep;
    if run != [] {
      var q := run[0];
      var s := tick + q.idle;
      assert clock(tick) <= clock(s);
      LateRequestIsRejected(h, clock, used, s, q, mac, t);
      CheckAdvances(h, clock, used, s, q);
      var o := Check(h, clock, used, s, q);
      assert clock(s) <= clock(o.next);
      LateMacIsRejected(h, clock, o.used, o.next, run[1..], mac, t);
    }
  }

  /** A MAC whose entry outlasts its timestamp is never accepted again, across all evictions. */
  lemma {:induction false} RetainedMacIsRejected(h: MacFunction, clock: Clock, used: map<Mac, real>, tick: nat,
                                                 run: seq<Request>, mac: Mac, t: int)
    requires CollisionFree(h) && NonDecreasing(clock) && Stamped(h, mac, t)
    requires mac in used && used[mac] + RETENTION >= (t + SKEW + 1) as real
    ensures !AcceptedIn(h, clock, used, tick, run, mac)
    decreases |run|
  {
    hide CollisionFree, Stamped, Check;
    if run != [] {
      var q := run[0];
      var s := tick + q.idle;
      var o := Check(h, clock, used, s, q);
      CheckAdvances(h, clock, used, s, q);
      if used[mac] < clock(s) - RETENTION {
        LateRequestIsRejected(h, clock, used, s, q, mac, t);
        assert clock(s) <= clock(o.next);
        LateMacIsRejected(h, clock, o.used, o.next, run[1..], mac, t);
      } else {
        if o.access.Derived? && AfterEquals(q.token) == Some(mac) {
          AcceptanceFits(h, clock, used, s, q, mac, t);
          assert false;
        }
        assert o.used[mac] == used[mac];
        RetainedMacIsRejected(h, clock, o.used, o.next, run[1..], mac, t);
      }
    }
  }

  // ---- Exactly when a second acceptance is possible ----

  /** The two clocks agree on the first `n` readings. */
  ghost predicate Agree(a: Clock, b: Clock, n: nat) {
    forall i :: 0 <= i < n ==> a(i) == b(i)
  }

  lemma {:induction false} SearchIsLocal(h: MacFunction, a: Clock, b: Clock, now: int, q: Request, mac: Mac, n: nat,
                                         r: nat)
    requires Agree(a, b, SearchFrom(h, a, now, q, mac, n, r).1)
    ensures SearchFrom(h, b, now, q, mac, n, r) == SearchFrom(h, a, now, q, mac, n, r)
    decreases 2 * SKEW + 1 - n
  {
    hide SearchFrom;
    if n <= 2 * SKEW {
      SearchStep(h, a, now, q, mac, n, r);
      SearchStep(h, b, now, q, mac, n, r);
      SearchAdvances(h, a, now, q, mac, n + 1, r + 1);
      SearchAdvances(h, a, now, q, mac, n + 1, r + 2);
      var t := now - SKEW + n;
      if t < a(r).Floor - SKEW {
        SearchIsLocal(h, a, b, now, q, mac, n + 1, r + 1);
      } else if !(t <= a(r + 1).Floor + SKEW && h(q.method_, q.path, t) == mac) {
        SearchIsLocal(h, a, b, now, q, mac, n + 1, r + 2);
      }
    } else {
      SearchEnds(h, a, now, q, mac, n, r);
      SearchEnds(h, b, now, q, mac, n, r);
    }
  }

  /** A check depends on its own clock readings only. */
  lemma CheckIsLocal(h: MacFunction, a: Clock, b: Clock, used: map<Mac, real>, tick: nat, q: Request)
    requires Agree(a, b, Check(h, a, used, tick, q).next)
    ensures Check(h, b, used, tick, q) == Check(h, a, used, tick, q)
  {
    hide SearchFrom, Evict;
    if AfterEquals(q.token).Some? && !q.preshared && !CheckStep(used, q.token, a(tick)).0 {
      var mac := AfterEquals(q.token).value;
      SearchAdvances(h, a, a(tick + 1).Floor, q, mac, 0, tick + 2);
      SearchIsLocal(h, a, b, a(tick + 1).Floor, q, mac, 0, tick + 2);
    }
  }

  /** Under some clock with the same readings so far, the request gets the same and its MAC is accepted again later. */
  ghost predicate CanBeAcceptedAgain(h: MacFunction, clock: Clock, used: map<Mac, real>, tick: nat, q: Request,
                                     mac: Mac) {
    var o := Check(h, clock, used, tick, q);
    exists clock', run ::
      && Agree(clock, clock', o.next) && NonDecreasing(clock') && Check(h, clock', used, tick, q) == o
      && AcceptedIn(h, clock', o.used, o.next, run, mac)
  }

  /** The last clock reading of a check. */
  function LastReading(clock: Clock, o: Outcome): real {
    if o.next > 0 then clock(o.next - 1) else 0.0
  }

  lemma LaterThanLast(a: Clock, b: Clock, o: Outcome)
    requires o.next > 0 && Agree(a, b, o.next) && NonDecreasing(b)
    ensures LastReading(a, o) <= b(o.next)
  {
    assert a(o.next - 1) == b(o.next - 1);
  }

  function Midpoint(a: real, b: real): real {
    (a + b) / 2.0
  }

  /** The clock follows `clock` up to reading `n` and stands still at `x` from there on. */
  function Stopped(clock: Clock, n: nat, x: real): Clock {
    (i: nat) => if i < n then clock(i) else x
  }

  /** A token that is no replay, at a clock that stands still within the tolerance of its timestamp. */
  lemma AcceptedAtStandstill(h: MacFunction, clock: Clock, used: map<Mac, real>, tick: nat, q: Request, mac: Mac,
                             t: int)
    requires NonDecreasing(clock) && (forall n :: n >= tick ==> clock(n) == clock(tick))
    requires !q.preshared && AfterEquals(q.token) == Some(mac) && h(q.method_, q.path, t) == mac
    requires mac !in Evict(used, clock(tick)) && clock(tick).Floor - SKEW <= t <= clock(tick).Floor + SKEW
    ensures Check(h, clock, used, tick, q).access.Derived?
  {
    hide Check, Evict;
    AcceptsIff(h, clock, used, tick, q);
    var now := clock(tick + 1).Floor;
    var n: nat := t - now + SKEW;
    assert Hit(h, clock, now, tick + 2, q, mac, n);
  }

  /**
   Exactly when an accepted token can be accepted a second time, whatever comes in between: its timestamp lies more
   than 299 seconds after the reading of the replay test, so that its entry is evicted before it is too old, and the
   check has not already run past its tolerance.
   */
  lemma AcceptedAgainIff(h: MacFunction, clock: Clock, used: map<Mac, real>, tick: nat, q: Request, t: int)
    requires CollisionFree(h) && NonDecreasing(clock)
    requires Check(h, clock, used, tick, q).access.Derived?
    requires Some(h(q.method_, q.path, t)) == AfterEquals(q.token)
    ensures var o := Check(h, clock, used, tick, q);
      CanBeAcceptedAgain(h, clock, used, tick, q, AfterEquals(q.token).value) <==>
      t as real > clock(tick) + 299.0 && LastReading(clock, o) < (t + 61) as real
  {
    hide Check, CheckStep, CollisionFree, AcceptedIn;
    var o, mac := Check(h, clock, used, tick, q), h(q.method_, q.path, t);
    AcceptanceFits(h, clock, used, tick, q, mac, t);
    if t as real > clock(tick) + 299.0 && LastReading(clock, o) < (t + 61) as real {
      SecondAcceptance(h, clock, used, tick, q, mac, t);
    } else {
      forall clock', run | Agree(clock, clock', o.next) && NonDecreasing(clock')
        ensures !AcceptedIn(h, clock', o.used, o.next, run, mac)
      {
        if t as real <= clock(tick) + 299.0 {
          RetainedMacIsRejected(h, clock', o.used, o.next, run, mac, t);
        } else {
          LaterThanLast(clock, clock', o);
          LateMacIsRejected(h, clock', o.used, o.next, run, mac, t);
        }
      }
    }
  }

  /** The second acceptance: the same request again, just after the entry is evicted. */
  lemma SecondAcceptance(h: MacFunction, clock: Clock, used: map<Mac, real>, tick: nat, q: Request, mac: Mac, t: int)
    requires CollisionFree(h) && NonDecreasing(clock)
    requires Check(h, clock, used, tick, q).access.Derived?
    requires h(q.method_, q.path, t) == mac && AfterEquals(q.token) == Some(mac)
    requires t as real > clock(tick) + 299.0 && LastReading(clock, Check(h, clock, used, tick, q)) < (t + 61) as real
    ensures CanBeAcceptedAgain(h, clock, used, tick, q, mac)
  {
    hide Check, CheckStep, CollisionFree;
    var o := Check(h, clock, used, tick, q);
    AcceptanceFits(h, clock, used, tick, q, mac, t);
    var middle, last := Midpoint(clock(tick) + RETENTION, (t + 61) as real), LastReading(clock, o);
    var x := if middle < last then last else middle;
    var clock' := Stopped(clock, o.next, x);
    assert clock(tick + 1) <= last <= x;
    var again := q.(idle := 0, preshared := false);
    AcceptedAtStandstill(h, clock', o.used, o.next, again, mac, t);
    assert AcceptedIn(h, clock', o.used, o.next, [again], mac);
    assert Agree(clock, clock', o.next);
    CheckIsLocal(h, clock, clock', used, tick, q);
  }

  /**
   For the latest timestamp that a check looks at, the condition is about the time between the replay test and the
   next reading: a MAC can come back exactly when that takes more than 239 seconds, counted to the whole second.
   */
  lemma LatestAcceptedAgainIff(h: MacFunction, clock: Clock, used: map<Mac, real>, tick: nat, q: Request)
    requires CollisionFree(h) && NonDecreasing(clock)
    requires Check(h, clock, used, tick, q).access.Derived?
    requires Some(h(q.method_, q.path, clock(tick + 1).Floor + SKEW)) == AfterEquals(q.token)
    ensures var o := Check(h, clock, used, tick, q);
      CanBeAcceptedAgain(h, clock, used, tick, q, AfterEquals(q.token).value) <==>
      && clock(tick + 1).Floor as real - clock(tick) > 239.0
      && LastReading(clock, o) < clock(tick + 1).Floor as real + 121.0
  {
    hide Check, CollisionFree, CanBeAcceptedAgain;
    AcceptedAgainIff(h, clock, used, tick, q, clock(tick + 1).Floor + SKEW);
  }

  // ---- Whole runs of prompt requests ----

  /** Every request takes its second reading within 239 seconds of its first, counted to the whole second. */
  ghost predicate Prompt(h: MacFunction, clock: Clock, used: map<Mac, real>, tick: nat, run: seq<Request>)
    decreases |run|
  {
    run == [] ||
    (var s := tick + run[0].idle;
     var o := Check(h, clock, used, s, run[0]);
     clock(s + 1).Floor as real - clock(s) <= 239.0 && Prompt(h, clock, o.used, o.next, run[1..]))
  }

  ghost function Acceptances(h: MacFunction, clock: Clock, used: map<Mac, real>, tick: nat, run: seq<Request>,
                             mac: Mac): nat
    decreases |run|
  {
    if run == [] then 0
    else
      var o := Check(h, clock, used, tick + run[0].idle, run[0]);
      (if o.access.Derived? && AfterEquals(run[0].token) == Some(mac) then 1 else 0)
      + Acceptances(h, clock, o.used, o.next, run[1..], mac)
  }

  lemma {:induction false} NoAcceptances(h: MacFunction, clock: Clock, used: map<Mac, real>, tick: nat,
                                         run: seq<Request>, mac: Mac)
    requires !AcceptedIn(h, clock, used, tick, run, mac)
    ensures Acceptances(h, clock, used, tick, run, mac) == 0
    decreases |run|
  {
    if run != [] {
      var o := Check(h, clock, used, tick + run[0].idle, run[0]);
      NoAcceptances(h, clock, o.used, o.next, run[1..], mac);
    }
  }

  /** Every run of prompt requests, from any store, accepts a MAC at most once, across all evictions. */
  lemma {:induction false} AcceptedAtMostOnce(h: MacFunction, clock: Clock, used: map<Mac, real>, tick: nat,
                                              run: seq<Request>, mac: Mac)
    requires CollisionFree(h) && NonDecreasing(clock) && Prompt(h, clock, used, tick, run)
    ensures Acceptances(h, clock, used, tick, run, mac) <= 1
    decreases |run|
  {
    hide Check, CheckStep, CollisionFree;
    if run != [] {
      var q := run[0];
      var s := tick + q.idle;
      var o := Check(h, clock, used, s, q);
      if o.access.Derived? && AfterEquals(q.token) == Some(mac) {
        AcceptsIff(h, clock, used, s, q);
        var n: nat :| Hit(h, clock, clock(s + 1).Floor, s + 2, q, mac, n);
        var t := clock(s + 1).Floor - SKEW + n;
        AcceptanceFits(h, clock, used, s, q, mac, t);
        RetainedMacIsRejected(h, clock, o.used, o.next, run[1..], mac, t);
        NoAcceptances(h, clock, o.used, o.next, run[1..], mac);
      } else {
        AcceptedAtMostOnce(h, clock, o.used, o.next, run[1..], mac);
      }
    }
  }

  // ---- A slow first request ----

  /** The first reading at 0, the rest of the first check at 240, everything later at 360.5 seconds. */
  const SLOW: Clock := (n: nat) => if n == 0 then 0.0 else if n < 244 then 240.0 else 360.5

  lemma {:induction false} SlowSearch(h: MacFunction, q: Request, mac: Mac, n: nat)
    requires CollisionFree(h) && h(q.method_, q.path, 300) == mac && n <= 2 * SKEW
    ensures SearchFrom(h, SLOW, 240, q, mac, n, 2 + 2 * n) == (true, 244)
    decreases 2 * SKEW - n
  {
    hide SearchFrom;
    SearchStep(h, SLOW, 240, q, mac, n, 2 + 2 * n);
    if n < 2 * SKEW {
      SlowSearch(h, q, mac, n + 1);
    }
  }

  /** Between the replay test and the next reading 240 seconds pass: the bearer check accepts the same token twice. */
  method SlowRequestAcceptsTwice(h: MacFunction, q: Request) returns (first: Access, second: Access)
    requires CollisionFree(h) && !q.preshared && AfterEquals(q.token) == Some(h(q.method_, q.path, 300))
    ensures first == Derived && second == Derived
  {
    hide SearchFrom, CollisionFree;
    var store := new AntiReplayStore();
    var next;
    SlowSearch(h, q, AfterEquals(q.token).value, 0);
    first, next := VerifyScopedBearer(store, h, SLOW, 0, q);
    AcceptedAtStandstill(h, SLOW, store.used, 244, q, AfterEquals(q.token).value, 300);
    second, next := VerifyScopedBearer(store, h, SLOW, next, q);
  }
}
