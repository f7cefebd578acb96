/** The per-address token bucket (cmd/graphd/ratelimit.go:13-71).

    Time is a real number of seconds handed in by the caller: the source reads a monotonic clock
    under its lock, so the calls of one run carry non-decreasing times.  Floating-point rounding and
    the 60-second sleep between sweeps are left out; a sweep may come at any time. */
module RateLimiter {

  type Ip = string

  datatype Bucket = Bucket(tokens: real, lastSeen: real)

  type Buckets = map<Ip, Bucket>

  /** Evict what was last seen more than three minutes ago. */
  const STALE: real := 180.0

  datatype Limits = Limits(rate: real, burst: int)
  {
    function Full(): real { burst as real }
  }

  /** Tokens earned over a stretch of time. */
  function Earned(rate: real, from: real, to: real): real { (to - from) * rate }

  /** What a bucket holds once refilled up to `now`. */
  function Refilled(b: Bucket, now: real, l: Limits): real {
    var t := b.tokens + Earned(l.rate, b.lastSeen, now);
    if t < l.Full() then t else l.Full()
  }

  function AfterAsk(m: Buckets, l: Limits, ip: Ip, now: real): Buckets {
    if ip !in m then m[ip := Bucket(l.Full() - 1.0, now)]
    else
      var t := Refilled(m[ip], now, l);
      m[ip := Bucket(if t < 1.0 then t else t - 1.0, now)]
  }

  predicate Admits(m: Buckets, l: Limits, ip: Ip, now: real) {
    ip !in m || Refilled(m[ip], now, l) >= 1.0
  }

  function AfterSweep(m: Buckets, now: real): Buckets {
    map ip | ip in m && !(m[ip].lastSeen < now - STALE) :: m[ip]
  }

  class Limiter {
    const limits: Limits
    var buckets: Buckets

    constructor (rate: real, burst: int)
      ensures limits == Limits(rate, burst) && buckets == map[]
    {
      limits, buckets := Limits(rate, burst), map[];
    }

    method Allow(ip: Ip, now: real) returns (ok: bool)
      modifies this
      ensures buckets == AfterAsk(old(buckets), limits, ip, now)
      ensures ok == Admits(old(buckets), limits, ip, now)
    {
      if ip !in buckets {
        buckets := buckets[ip := Bucket(limits.burst as real - 1.0, now)];
        return true;
      }
      var tokens := buckets[ip].tokens + Earned(limits.rate, buckets[ip].lastSeen, now);
      if tokens >= limits.burst as real {
        tokens := limits.burst as real;
      }
      if tokens < 1.0 {
        buckets := buckets[ip := Bucket(tokens, now)];
        return false;
      }
      buckets := buckets[ip := Bucket(tokens - 1.0, now)];
      return true;
    }

    /** One sweep of the cleanup loop. */
    method Sweep(now: real)
      modifies this
      ensures buckets == AfterSweep(old(buckets), now)
    {
      var cutoff := now - STALE;
      var todo := buckets.Keys;
      ghost var was := buckets;
      while todo != {}
        invariant todo <= was.Keys
        invariant buckets == map ip | ip in was && (ip in todo || !(was[ip].lastSeen < cutoff)) :: was[ip]
      {
        var ip :| ip in todo;
        if buckets[ip].lastSeen < cutoff {
          buckets := buckets - {ip};
        }
        todo := todo - {ip};
      }
    }
  }

  // ----- runs -----

  datatype Event = Ask(ip: Ip, at: real) | Clean(at: real)

  predicate Ordered(es: seq<Event>, from: real) {
    es == [] || (from <= es[0].at && Ordered(es[1..], es[0].at))
  }

  function Step(m: Buckets, l: Limits, e: Event, evict: bool): Buckets {
    match e
    case Ask(ip, now) => AfterAsk(m, l, ip, now)
    case Clean(now) => if evict then AfterSweep(m, now) else m
  }

  /** The answers of a run, in order. */
  function Answers(m: Buckets, l: Limits, es: seq<Event>, evict: bool): seq<bool>
    decreases |es|
  {
    if es == [] then []
    else (if es[0].Ask? then [Admits(m, l, es[0].ip, es[0].at)] else [])
         + Answers(Step(m, l, es[0], evict), l, es[1..], evict)
  }

  /** How many requests of one address a run admits. */
  function Admitted(m: Buckets, l: Limits, es: seq<Event>, evict: bool, ip: Ip): nat
    decreases |es|
  {
    if es == [] then 0
    else (if es[0].Ask? && es[0].ip == ip && Admits(m, l, ip, es[0].at) then 1 else 0)
         + Admitted(Step(m, l, es[0], evict), l, es[1..], evict, ip)
  }

  predicate Sound(m: Buckets, l: Limits, now: real) {
    forall ip | ip in m :: 0.0 <= m[ip].tokens <= l.Full() && m[ip].lastSeen <= now
  }

  lemma EarnedMonotone(rate: real, from: real, mid: real, to: real)
    requires rate >= 0.0 && from <= mid <= to
    ensures 0.0 <= Earned(rate, from, mid) <= Earned(rate, from, to)
    ensures Earned(rate, from, to) == Earned(rate, from, mid) + Earned(rate, mid, to)
  {
    assert (mid - from) * rate >= 0.0 && (to - mid) * rate >= 0.0;
  }

  lemma StepSound(m: Buckets, l: Limits, e: Event, evict: bool, from: real)
    requires l.rate >= 0.0 && l.burst >= 1 && Sound(m, l, from) && from <= e.at
    ensures Sound(Step(m, l, e, evict), l, e.at)
  {
    hide Earned;
    if e.Ask? && e.ip in m {
      EarnedMonotone(l.rate, m[e.ip].lastSeen, e.at, e.at);
    }
  }

  // ----- the admission bound -----

  /** What an address could still spend at `now`; a stranger has a full bucket. */
  function Credit(m: Buckets, l: Limits, ip: Ip, now: real): real {
    if ip in m then Refilled(m[ip], now, l) else l.Full()
  }

  lemma CreditGrows(m: Buckets, l: Limits, ip: Ip, now: real, later: real)
    requires l.rate >= 0.0 && l.burst >= 1 && Sound(m, l, now) && now <= later
    ensures 0.0 <= Credit(m, l, ip, now) <= l.Full()
    ensures Credit(m, l, ip, later) <= Credit(m, l, ip, now) + Earned(l.rate, now, later)
    ensures 0.0 <= Earned(l.rate, now, later)
  {
    hide Earned;
    EarnedMonotone(l.rate, now, later, later);
    if ip in m {
      EarnedMonotone(l.rate, m[ip].lastSeen, now, later);
    }
  }

  lemma AskSpends(m: Buckets, l: Limits, e: Event, ip: Ip)
    requires l.rate >= 0.0 && l.burst >= 1
    ensures Credit(Step(m, l, e, false), l, ip, e.at)
         == Credit(m, l, ip, e.at) - if e.Ask? && e.ip == ip && Admits(m, l, ip, e.at) then 1.0 else 0.0
  {
    assert Earned(l.rate, e.at, e.at) == 0.0;
  }

  /** From any sound state, one address gets no more than its credit and what it earns meanwhile. */
  lemma {:induction false} AdmittedWithinCredit(m: Buckets, l: Limits, es: seq<Event>, ip: Ip, from: real, to: real)
    requires l.rate >= 0.0 && l.burst >= 1 && Sound(m, l, from) && Ordered(es, from)
    requires from <= to && forall i | 0 <= i < |es| :: es[i].at <= to
    ensures Admitted(m, l, es, false, ip) as real <= Credit(m, l, ip, from) + Earned(l.rate, from, to)
    decreases |es|
  {
    hide Earned, Credit, Refilled, Admits;
    CreditGrows(m, l, ip, from, to);
    if es != [] {
      var e, next := es[0], Step(m, l, es[0], false);
      StepSound(m, l, e, false, from);
      AdmittedWithinCredit(next, l, es[1..], ip, e.at, to);
      CreditGrows(m, l, ip, from, e.at);
      AskSpends(m, l, e, ip);
      EarnedMonotone(l.rate, from, e.at, to);
    }
  }

  lemma {:induction false} RunSound(m: Buckets, l: Limits, es: seq<Event>, from: real) returns (m': Buckets)
    requires l.rate >= 0.0 && l.burst >= 1 && Sound(m, l, from) && Ordered(es, from)
    ensures Sound(m', l, if es == [] then from else es[|es| - 1].at)
    ensures m' == Final(m, l, es, false)
    decreases |es|
  {
    m' := m;
    if es != [] {
      StepSound(m, l, es[0], false, from);
      m' := RunSound(Step(m, l, es[0], false), l, es[1..], es[0].at);
    }
  }

  function Final(m: Buckets, l: Limits, es: seq<Event>, evict: bool): Buckets
    decreases |es|
  {
    if es == [] then m else Final(Step(m, l, es[0], evict), l, es[1..], evict)
  }

  lemma {:induction false} OrderedSplit(es: seq<Event>, k: nat, from: real)
    requires Ordered(es, from) && k <= |es|
    ensures Ordered(es[..k], from)
    ensures forall i | 0 <= i < |es| :: from <= es[i].at
    ensures Ordered(es[k..], if k == 0 then from else es[k - 1].at)
  {
    if es != [] {
      OrderedSplit(es[1..], if k == 0 then 0 else k - 1, es[0].at);
      if k > 0 {
        assert es[..k][1..] == es[1..][..k - 1];
        assert es[k..] == es[1..][k - 1..];
      }
      forall i | 0 <= i < |es| ensures from <= es[i].at {
        if i > 0 {
          assert es[i] == es[1..][i - 1];
        }
      }
    }
  }

  predicate Within(es: seq<Event>, from: real, to: real) {
    forall i | 0 <= i < |es| :: from <= es[i].at <= to
  }

  /** In every window of every run that never evicts, one address is admitted at most
      burst + rate * length times. */
  lemma AdmissionBound(l: Limits, es: seq<Event>, i: nat, j: nat, from: real, to: real, ip: Ip, start: real)
    requires l.rate >= 0.0 && l.burst >= 1 && Ordered(es, start)
    requires i <= j <= |es| && from <= to && Within(es[i..j], from, to)
    ensures Admitted(Final(map[], l, es[..i], false), l, es[i..j], false, ip) as real
         <= l.burst as real + l.rate * (to - from)
  {
    EarnedIs(l, from, to);
    hide Earned, Credit, Limits.Full;
    OrderedSplit(es, i, start);
    OrderedSplit(es[i..], j - i, if i == 0 then start else es[i - 1].at);
    assert es[i..][..j - i] == es[i..j];
    var m := RunSound(map[], l, es[..i], start);
    if i == j {
      EarnedMonotone(l.rate, from, to, to);
    } else {
      var first := es[i].at;
      assert es[i..j][0] == es[i];
      assert forall k | 0 <= k < |es[i..j]| :: es[i..j][k].at <= to;
      if i > 0 {
        assert es[..i][i - 1] == es[i - 1];
      }
      StartAt(es[i..j], if i == 0 then start else es[i - 1].at);
      AdmittedWithinCredit(m, l, es[i..j], ip, first, to);
      CreditGrows(m, l, ip, first, first);
      EarnedMonotone(l.rate, from, first, to);
    }
  }

  lemma EarnedIs(l: Limits, from: real, to: real)
    ensures Earned(l.rate, from, to) == l.rate * (to - from) && l.Full() == l.burst as real
  {}

  lemma StartAt(es: seq<Event>, from: real)
    requires es != [] && Ordered(es, from)
    ensures Ordered(es, es[0].at) && from <= es[0].at
  {}

  /** The bound needs room for one request: with a burst below one, the very first request is
      admitted regardless, in a window of no length. */
  lemma BoundNeedsBurst(l: Limits, ip: Ip)
    requires l.burst < 1
    ensures Ordered([Ask(ip, 0.0)], 0.0)
    ensures Admitted(map[], l, [Ask(ip, 0.0)], false, ip) as real > l.burst as real + l.rate * 0.0
  {
    assert Ordered([Ask(ip, 0.0)][1..], 0.0);
    assert Admitted(map[], l, [Ask(ip, 0.0)], false, ip) == 1;
  }

  // ----- no needless refusal -----

  lemma {:induction false} FinalSplit(m: Buckets, l: Limits, es: seq<Event>, k: nat)
    requires k <= |es|
    ensures Final(m, l, es, false) == Final(Final(m, l, es[..k], false), l, es[k..], false)
    decreases |es|
  {
    hide Step;
    if k == 0 {
      assert es[..0] == [] && es[0..] == es;
    } else {
      assert es[..k][0] == es[0] && es[..k][1..] == es[1..][..k - 1] && es[k..] == es[1..][k - 1..];
      FinalSplit(Step(m, l, es[0], false), l, es[1..], k - 1);
    }
  }

  lemma {:induction false} AdmittedOneMore(m: Buckets, l: Limits, es: seq<Event>, ip: Ip)
    requires es != []
    ensures var n := |es| - 1;
            Admitted(m, l, es, false, ip) == Admitted(m, l, es[..n], false, ip)
              + if es[n].Ask? && es[n].ip == ip && Admits(Final(m, l, es[..n], false), l, ip, es[n].at) then 1 else 0
    decreases |es|
  {
    hide Step, Admits;
    var n := |es| - 1;
    if n == 0 {
      assert es[..0] == [] && es[1..] == [];
    } else {
      assert es[..n][0] == es[0] && es[..n][1..] == es[1..][..n - 1] && es[1..][n - 1] == es[n];
      AdmittedOneMore(Step(m, l, es[0], false), l, es[1..], ip);
    }
  }

  /** How many requests of an address a stretch of a run admits. */
  function AdmittedIn(l: Limits, es: seq<Event>, i: nat, j: nat, ip: Ip): nat
    requires i <= j <= |es|
  {
    Admitted(Final(map[], l, es[..i], false), l, es[i..j], false, ip)
  }

  /** The table after n events. */
  function Held(l: Limits, es: seq<Event>, n: nat): Buckets
    requires n <= |es|
  {
    Final(map[], l, es[..n], false)
  }

  lemma HeldNext(l: Limits, es: seq<Event>, n: nat)
    requires n < |es|
    ensures Held(l, es, n + 1) == Step(Held(l, es, n), l, es[n], false)
  {
    hide Step;
    FinalSplit(map[], l, es[..n + 1], n);
    assert es[..n + 1][..n] == es[..n] && es[..n + 1][n..] == [es[n]] && [es[n]][1..] == [];
  }

  lemma AdmittedNext(l: Limits, es: seq<Event>, i: nat, n: nat, ip: Ip)
    requires i <= n < |es|
    ensures AdmittedIn(l, es, i, n + 1, ip)
         == AdmittedIn(l, es, i, n, ip) + if es[n].Ask? && es[n].ip == ip && Admits(Held(l, es, n), l, ip, es[n].at) then 1 else 0
    ensures AdmittedIn(l, es, n, n, ip) == 0
  {
    hide Step, Admits;
    var s := es[i..n + 1];
    AdmittedOneMore(Held(l, es, i), l, s, ip);
    assert s[..|s| - 1] == es[i..n] && s[|s| - 1] == es[n];
    FinalSplit(map[], l, es[..n], i);
    assert es[..n][..i] == es[..i] && es[..n][i..] == es[i..n];
  }

  /** A bucket's tokens, counted from the request i that last found it full. */
  ghost predicate SpentSince(l: Limits, es: seq<Event>, i: nat, n: nat, ip: Ip)
    requires n <= |es|
  {
    && i < n && es[i].Ask? && es[i].ip == ip && ip in Held(l, es, n)
    && var b := Held(l, es, n)[ip];
       b.tokens == l.burst as real + l.rate * (b.lastSeen - es[i].at) - AdmittedIn(l, es, i, n, ip) as real
  }

  lemma {:induction false} AccountsFor(l: Limits, es: seq<Event>, n: nat, ip: Ip) returns (i: nat)
    requires l.rate >= 0.0 && l.burst >= 1 && n <= |es| && ip in Held(l, es, n)
    ensures SpentSince(l, es, i, n, ip)
  {
    hide Admitted, Final, Step, Admits;
    assert es[..0] == [];
    NothingHeldAtFirst(l, es);
    var k := n - 1;
    HeldNext(l, es, k);
    var e := es[k];
    if e.Ask? && e.ip == ip && (ip !in Held(l, es, k) || FillsUp(Held(l, es, k)[ip], e.at, l)) {
      i := k;
      AdmittedNext(l, es, k, k, ip);
      AskWhenFull(Held(l, es, k), l, ip, e.at);
    } else {
      OthersStay(Held(l, es, k), l, e, ip);
      i := AccountsFor(l, es, k, ip);
      AdmittedNext(l, es, i, k, ip);
      if e.Ask? && e.ip == ip {
        AskWhenShort(Held(l, es, k), l, ip, e.at);
        Later(l.rate, es[i].at, Held(l, es, k)[ip].lastSeen, e.at);
      }
    }
  }

  lemma NothingHeldAtFirst(l: Limits, es: seq<Event>)
    ensures Held(l, es, 0) == map[]
  {}

  predicate FillsUp(b: Bucket, now: real, l: Limits) { b.tokens + l.rate * (now - b.lastSeen) >= l.burst as real }

  lemma AskWhenFull(m: Buckets, l: Limits, ip: Ip, now: real)
    requires l.burst >= 1 && (ip !in m || FillsUp(m[ip], now, l))
    ensures Admits(m, l, ip, now) && Step(m, l, Ask(ip, now), false) == m[ip := Bucket(l.burst as real - 1.0, now)]
  {
    if ip in m {
      assert Earned(l.rate, m[ip].lastSeen, now) == l.rate * (now - m[ip].lastSeen);
      assert Refilled(m[ip], now, l) == l.burst as real;
    }
  }

  lemma AskWhenShort(m: Buckets, l: Limits, ip: Ip, now: real)
    requires ip in m && !FillsUp(m[ip], now, l)
    ensures var t := m[ip].tokens + l.rate * (now - m[ip].lastSeen);
            && (Admits(m, l, ip, now) <==> t >= 1.0)
            && Step(m, l, Ask(ip, now), false) == m[ip := Bucket(if t >= 1.0 then t - 1.0 else t, now)]
  {
    assert Earned(l.rate, m[ip].lastSeen, now) == l.rate * (now - m[ip].lastSeen);
    assert Refilled(m[ip], now, l) == m[ip].tokens + l.rate * (now - m[ip].lastSeen);
  }

  lemma OthersStay(m: Buckets, l: Limits, e: Event, ip: Ip)
    requires !(e.Ask? && e.ip == ip && ip !in m)
    ensures ip in Step(m, l, e, false) ==> ip in m
    ensures ip in m && !(e.Ask? && e.ip == ip) ==> ip in Step(m, l, e, false) && Step(m, l, e, false)[ip] == m[ip]
  {}

  lemma Later(rate: real, from: real, mid: real, to: real)
    ensures rate * (mid - from) + rate * (to - mid) == rate * (to - from)
  {}

  /** Admitting request j as well would put more than the bound into the stretch from request i. */
  ghost predicate WouldExceed(l: Limits, es: seq<Event>, i: nat, j: nat, ip: Ip)
    requires i <= j < |es|
  {
    && es[i].Ask? && es[i].ip == ip
    && AdmittedIn(l, es, i, j, ip) as real + 1.0 > l.burst as real + l.rate * (es[j].at - es[i].at)
  }

  /** The limiter refuses exactly what it must: a request is refused if and only if admitting it would
      break the bound over the stretch from some earlier request of its address. */
  lemma RefusedIff(l: Limits, es: seq<Event>, j: nat, ip: Ip, start: real)
    requires l.rate >= 0.0 && l.burst >= 1 && Ordered(es, start) && j < |es| && es[j].Ask? && es[j].ip == ip
    ensures !Admits(Held(l, es, j), l, ip, es[j].at) <==> exists i: nat | i < j :: WouldExceed(l, es, i, j, ip)
  {
    hide Admitted, Final, Admits, Ordered;
    if !Admits(Held(l, es, j), l, ip, es[j].at) {
      if ip !in Held(l, es, j) || FillsUp(Held(l, es, j)[ip], es[j].at, l) {
        AskWhenFull(Held(l, es, j), l, ip, es[j].at);
        assert false;
      }
      var i := AccountsFor(l, es, j, ip);
      AskWhenShort(Held(l, es, j), l, ip, es[j].at);
      Later(l.rate, es[i].at, Held(l, es, j)[ip].lastSeen, es[j].at);
      assert WouldExceed(l, es, i, j, ip);
    } else {
      forall i: nat | i < j ensures !WouldExceed(l, es, i, j, ip) {
        if es[i].Ask? && es[i].ip == ip {
          AdmittedNext(l, es, i, j, ip);
          StretchWithin(es, i, j, start);
          AdmissionBound(l, es, i, j + 1, es[i].at, es[j].at, ip, start);
        }
      }
    }
  }

  lemma {:induction false} StretchWithin(es: seq<Event>, i: nat, j: nat, from: real)
    requires Ordered(es, from) && i <= j < |es|
    ensures es[i].at <= es[j].at && Within(es[i..j + 1], es[i].at, es[j].at)
    ensures from <= es[i].at
  {
    if i > 0 {
      StretchWithin(es[1..], i - 1, j - 1, es[0].at);
      assert es[1..][i - 1..j] == es[i..j + 1];
    } else if j > 0 {
      StretchWithin(es[1..], 0, j - 1, es[0].at);
      var all, rest := es[i..j + 1], es[1..][0..j];
      forall k | 0 <= k < |all| ensures es[0].at <= all[k].at <= es[j].at {
        assert k > 0 ==> all[k] == rest[k - 1];
      }
    }
  }

  // ----- eviction -----

  /** The evicting table agrees with the other wherever it has an entry, and what it dropped is full. */
  predicate Simulates(small: Buckets, full: Buckets, l: Limits, now: real) {
    && Sound(full, l, now)
    && (forall ip | ip in small :: ip in full && small[ip] == full[ip])
    && (forall ip | ip in full && ip !in small ::
          full[ip].tokens + Earned(l.rate, full[ip].lastSeen, now) >= l.Full())
  }

  lemma EvictionStep(small: Buckets, full: Buckets, l: Limits, e: Event, from: real)
    requires l.rate >= 0.0 && l.burst >= 1 && l.rate * STALE >= l.Full()
    requires Simulates(small, full, l, from) && from <= e.at
    ensures Simulates(Step(small, l, e, true), Step(full, l, e, false), l, e.at)
    ensures e.Ask? ==> Admits(small, l, e.ip, e.at) == Admits(full, l, e.ip, e.at)
  {
    hide Earned;
    StepSound(full, l, e, false, from);
    forall ip | ip in full && ip !in small
      ensures full[ip].tokens + Earned(l.rate, full[ip].lastSeen, e.at) >= l.Full()
    {
      EarnedMonotone(l.rate, full[ip].lastSeen, from, e.at);
    }
    if e.Clean? {
      forall ip | ip in small && small[ip].lastSeen < e.at - STALE
        ensures full[ip].tokens + Earned(l.rate, full[ip].lastSeen, e.at) >= l.Full()
      {
        ThreeMinutesFill(l.rate, full[ip].lastSeen, e.at);
      }
    }
  }

  lemma ThreeMinutesFill(rate: real, from: real, to: real)
    requires rate >= 0.0 && from < to - STALE
    ensures Earned(rate, from, to) >= rate * STALE
  {
    EarnedMonotone(rate, from, from + STALE, to);
    assert Earned(rate, from, from + STALE) == STALE * rate;
  }

  lemma {:induction false} EvictionInvisible(small: Buckets, full: Buckets, l: Limits, es: seq<Event>, from: real)
    requires l.rate >= 0.0 && l.burst >= 1 && l.rate * STALE >= l.Full()
    requires Simulates(small, full, l, from) && Ordered(es, from)
    ensures Answers(small, l, es, true) == Answers(full, l, es, false)
    ensures forall ip :: Admitted(small, l, es, true, ip) == Admitted(full, l, es, false, ip)
    decreases |es|
  {
    if es != [] {
      hide Admits, Step;
      EvictionStep(small, full, l, es[0], from);
      EvictionInvisible(Step(small, l, es[0], true), Step(full, l, es[0], false), l, es[1..], es[0].at);
    }
  }

  lemma {:induction false} EvictionKeepsUp(small: Buckets, full: Buckets, l: Limits, es: seq<Event>, from: real)
    requires l.rate >= 0.0 && l.burst >= 1 && l.rate * STALE >= l.Full()
    requires Simulates(small, full, l, from) && Ordered(es, from)
    ensures Simulates(Final(small, l, es, true), Final(full, l, es, false), l, if es == [] then from else es[|es| - 1].at)
    decreases |es|
  {
    hide Admits, Step, Simulates;
    if es != [] {
      EvictionStep(small, full, l, es[0], from);
      EvictionKeepsUp(Step(small, l, es[0], true), Step(full, l, es[0], false), l, es[1..], es[0].at);
    }
  }

  /** So when three minutes refill a bucket, the same bound holds of every run that does evict. */
  lemma EvictingBound(l: Limits, es: seq<Event>, i: nat, j: nat, from: real, to: real, ip: Ip, start: real)
    requires l.rate >= 0.0 && l.burst >= 1 && l.rate * 180.0 >= l.burst as real && Ordered(es, start)
    requires i <= j <= |es| && from <= to && Within(es[i..j], from, to)
    ensures Admitted(Final(map[], l, es[..i], true), l, es[i..j], true, ip) as real
         <= l.burst as real + l.rate * (to - from)
  {
    AdmissionBound(l, es, i, j, from, to, ip, start);
    hide Earned, Final, Admitted;
    OrderedSplit(es, i, start);
    OrderedSplit(es[i..], j - i, if i == 0 then start else es[i - 1].at);
    assert es[i..][..j - i] == es[i..j];
    assert i > 0 ==> es[..i][i - 1] == es[i - 1];
    EvictionKeepsUp(map[], map[], l, es[..i], start);
    EvictionInvisible(Final(map[], l, es[..i], true), Final(map[], l, es[..i], false), l, es[i..j],
                      if i == 0 then start else es[i - 1].at);
  }

  /** n requests of one address at one instant. */
  function Volley(ip: Ip, at: real, n: nat): seq<Event> {
    if n == 0 then [] else [Ask(ip, at)] + Volley(ip, at, n - 1)
  }

  function AllYes(n: nat): seq<bool> { seq(n, _ => true) }

  lemma {:induction false} VolleyOrdered(ip: Ip, at: real, n: nat, rest: seq<Event>, from: real)
    requires from <= at && Ordered(rest, at)
    ensures Ordered(Volley(ip, at, n) + rest, from)
  {
    if n == 0 {
      assert Volley(ip, at, n) + rest == rest;
    } else {
      VolleyOrdered(ip, at, n - 1, rest, at);
      assert (Volley(ip, at, n) + rest)[1..] == Volley(ip, at, n - 1) + rest;
    }
  }

  /** A bucket that can afford the volley admits all of it and keeps the change. */
  lemma {:induction false} VolleyAdmitted(m: Buckets, l: Limits, ip: Ip, at: real, n: nat, rest: seq<Event>, evict: bool)
    requires l.burst >= 1 && ip in m && m[ip].lastSeen == at && n as real <= m[ip].tokens <= l.Full()
    ensures Answers(m, l, Volley(ip, at, n) + rest, evict)
         == AllYes(n) + Answers(m[ip := Bucket(m[ip].tokens - n as real, at)], l, rest, evict)
  {
    if n == 0 {
      assert Volley(ip, at, n) + rest == rest;
      assert m[ip := Bucket(m[ip].tokens - 0.0, at)] == m;
    } else {
      var es := Volley(ip, at, n) + rest;
      assert es[1..] == Volley(ip, at, n - 1) + rest;
      assert Earned(l.rate, at, at) == 0.0;
      var next := Step(m, l, es[0], evict);
      assert next == m[ip := Bucket(m[ip].tokens - 1.0, at)];
      VolleyAdmitted(next, l, ip, at, n - 1, rest, evict);
      assert next[ip := Bucket(next[ip].tokens - (n - 1) as real, at)] == m[ip := Bucket(m[ip].tokens - n as real, at)];
      assert AllYes(n) == [true] + AllYes(n - 1);
    }
  }

  /** A bucket that cannot afford the volley refuses part of it. */
  lemma {:induction false} VolleyRefused(m: Buckets, l: Limits, ip: Ip, at: real, n: nat)
    requires l.burst >= 1 && ip in m && 0.0 <= Refilled(m[ip], at, l) < n as real
    ensures Answers(m, l, Volley(ip, at, n), false) != AllYes(n)
    decreases n
  {
    var es := Volley(ip, at, n);
    assert es[1..] == Volley(ip, at, n - 1);
    var next := Step(m, l, es[0], false);
    if Admits(m, l, ip, at) {
      assert Earned(l.rate, at, at) == 0.0;
      VolleyRefused(next, l, ip, at, n - 1);
      assert AllYes(n)[1..] == AllYes(n - 1);
      assert Answers(m, l, es, false)[1..] == Answers(next, l, es[1..], false);
    } else {
      assert !Answers(m, l, es, false)[0] && AllYes(n)[0];
    }
  }

  /** A stranger can spend exactly a full bucket at once. */
  lemma FreshVolley(l: Limits, ip: Ip, at: real, rest: seq<Event>, evict: bool)
    requires l.burst >= 1
    ensures Answers(map[], l, Volley(ip, at, l.burst) + rest, evict)
         == AllYes(l.burst) + Answers(map[ip := Bucket(0.0, at)], l, rest, evict)
  {
    hide Earned, Refilled;
    var es := Volley(ip, at, l.burst) + rest;
    assert es[1..] == Volley(ip, at, l.burst - 1) + rest;
    var m: Buckets := map[ip := Bucket(l.Full() - 1.0, at)];
    assert Step(map[], l, es[0], evict) == m;
    VolleyAdmitted(m, l, ip, at, l.burst - 1, rest, evict);
    assert m[ip := Bucket(0.0, at)] == map[ip := Bucket(0.0, at)];
    assert AllYes(l.burst) == [true] + AllYes(l.burst - 1);
  }

  /** Drain the bucket, sweep once it is stale but not yet full, and drain it again. */
  function Telltale(l: Limits, ip: Ip, at: real): seq<Event>
    requires l.burst >= 1
  {
    Volley(ip, 0.0, l.burst) + ([Clean(at)] + Volley(ip, at, l.burst))
  }

  lemma TelltaleShows(l: Limits, ip: Ip, at: real)
    requires l.burst >= 1 && at > STALE && 0.0 <= Earned(l.rate, 0.0, at) < l.Full()
    ensures Ordered(Telltale(l, ip, at), 0.0)
    ensures Answers(map[], l, Telltale(l, ip, at), true) != Answers(map[], l, Telltale(l, ip, at), false)
  {
    var second := Volley(ip, at, l.burst);
    var rest := [Clean(at)] + second;
    assert rest[1..] == second && second + [] == second;
    VolleyOrdered(ip, at, l.burst, [], at);
    VolleyOrdered(ip, 0.0, l.burst, rest, 0.0);
    FreshVolley(l, ip, 0.0, rest, true);
    FreshVolley(l, ip, 0.0, rest, false);
    var drained: Buckets := map[ip := Bucket(0.0, 0.0)];
    assert Step(drained, l, Clean(at), true) == map[];
    FreshVolley(l, ip, at, [], true);
    assert AllYes(l.burst) + [] == AllYes(l.burst);
    VolleyRefused(drained, l, ip, at, l.burst);
    var yes, a, b := AllYes(l.burst), Answers(drained, l, rest, true), Answers(drained, l, rest, false);
    assert a == yes && b == Answers(drained, l, second, false);
    assert (yes + a)[l.burst..] == a && (yes + b)[l.burst..] == b;
  }

  /** Just past three minutes, a slow bucket is still not full. */
  lemma SlowRefill(l: Limits) returns (at: real)
    requires l.rate >= 0.0 && l.burst >= 1 && l.rate * STALE < l.Full()
    ensures at > STALE && 0.0 <= Earned(l.rate, 0.0, at) < l.Full()
  {
    if l.rate == 0.0 {
      at := STALE + 1.0;
    } else {
      var extra := (l.Full() - l.rate * STALE) / (2.0 * l.rate);
      assert extra * l.rate == (l.Full() - l.rate * STALE) / 2.0;
      at := STALE + extra;
      assert (at - 0.0) * l.rate == STALE * l.rate + extra * l.rate;
      assert extra > 0.0;
    }
  }

  /** A run whose calls come in time order. */
  predicate Chronological(es: seq<Event>) {
    es == [] || Ordered(es, es[0].at)
  }

  /** Sweeping while serving this run, or never sweeping, gives the same answers from the start. */
  predicate Unseen(l: Limits, es: seq<Event>) {
    Answers(map[], l, es, true) == Answers(map[], l, es, false)
  }

  /** Eviction is unobservable in every run exactly when three minutes refill a bucket. */
  lemma EvictionInvisibleIff(l: Limits, ip: Ip)
    requires l.rate >= 0.0 && l.burst >= 1
    ensures l.rate * 180.0 >= l.burst as real <==> forall es | Chronological(es) :: Unseen(l, es)
  {
    if l.rate * STALE >= l.Full() {
      forall es: seq<Event> | Chronological(es) ensures Unseen(l, es) {
        EvictionInvisible(map[], map[], l, es, if es == [] then 0.0 else es[0].at);
      }
    } else {
      var at := SlowRefill(l);
      TelltaleShows(l, ip, at);
      assert Chronological(Telltale(l, ip, at)) && !Unseen(l, Telltale(l, ip, at));
    }
  }
}
