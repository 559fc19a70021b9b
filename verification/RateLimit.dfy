/** The per-source token bucket (ratelimit/ratelimit.go). Token counts and times are reals. */
module RateLimit {

  const DEFAULT_MAX_BUCKETS := 0x10_0000

  datatype Settings = Settings(rate: real, burst: real, ttl: real, maxBuckets: int)
  datatype Bucket = Bucket(tokens: real, last: real)
  type Buckets = map<string, Bucket>

  predicate Full(p: Settings, m: Buckets) {
    p.maxBuckets > 0 && |m| >= p.maxBuckets
  }

  function Capped(x: real, limit: real): real {
    if x > limit then limit else x
  }

  /** What a bucket last touched at `last` regains by `now`. */
  function Refill(p: Settings, last: real, now: real): real {
    (now - last) * p.rate
  }

  /** Tokens on hand for a key when an event arrives, before any is spent. */
  function Ready(p: Settings, m: Buckets, key: string, now: real): real {
    if key in m then Capped(m[key].tokens + Refill(p, m[key].last, now), p.burst) else p.burst
  }

  function Allowed(p: Settings, m: Buckets, key: string, now: real): bool {
    (key !in m && Full(p, m)) || Ready(p, m, key, now) >= 1.0
  }

  function AfterAllow(p: Settings, m: Buckets, key: string, now: real): Buckets {
    if key !in m && Full(p, m) then
      m
    else
      m[key := Bucket(Ready(p, m, key, now) - (if Allowed(p, m, key, now) then 1.0 else 0.0), now)]
  }

  function Swept(p: Settings, m: Buckets, now: real): Buckets {
    map k | k in m && m[k].last >= now - p.ttl :: m[k]
  }

  class Limiter {
    const settings: Settings
    var buckets: Buckets

    constructor (rate: real, burst: real, ttl: real)
      ensures settings == Settings(rate, burst, ttl, 1_048_576) && buckets == map[]
    {
      settings := Settings(rate, burst, ttl, DEFAULT_MAX_BUCKETS);
      buckets := map[];
    }

    method Allow(key: string, now: real) returns (ok: bool)
      modifies this
      ensures ok == Allowed(settings, old(buckets), key, now)
      ensures buckets == AfterAllow(settings, old(buckets), key, now)
    {
      var b;
      if key !in buckets {
        if settings.maxBuckets > 0 && |buckets| >= settings.maxBuckets {
          return true;
        }
        b := Bucket(settings.burst, now);
        buckets := buckets[key := b];
      } else {
        b := buckets[key];
        var elapsed := now - b.last;
        b := b.(tokens := b.tokens + elapsed * settings.rate);
        if b.tokens > settings.burst {
          b := b.(tokens := settings.burst);
        }
        b := b.(last := now);
        buckets := buckets[key := b];
      }
      if b.tokens < 1.0 {
        return false;
      }
      b := b.(tokens := b.tokens - 1.0);
      buckets := buckets[key := b];
      assert b == Bucket(Ready(settings, old(buckets), key, now) - 1.0, now);
      assert buckets == old(buckets)[key := b];
      return true;
    }

    method Sweep(now: real)
      modifies this
      ensures buckets == Swept(settings, old(buckets), now)
    {
      var cutoff := now - settings.ttl;
      var keys := buckets.Keys;
      while keys != {}
        invariant keys <= old(buckets).Keys
        invariant forall k :: k in buckets <==>
                    k in old(buckets) && (k in keys || old(buckets)[k].last >= cutoff)
        invariant forall k :: k in buckets ==> buckets[k] == old(buckets)[k]
        decreases |keys|
      {
        var key :| key in keys;
        keys := keys - {key};
        if buckets[key].last < cutoff {
          buckets := buckets - {key};
        }
      }
    }
  }

  /** A sweep keeps exactly the buckets touched within the last ttl, as they are. */
  lemma SweptExactly(p: Settings, m: Buckets, now: real, key: string)
    ensures key in Swept(p, m, now) <==> key in m && now - m[key].last <= p.ttl
    ensures key in Swept(p, m, now) ==> Swept(p, m, now)[key] == m[key]
  {
  }

  // ------------------------------------------------------------------------ runs

  datatype Event = Arrival(key: string, at: real) | Sweep(at: real)

  function After(p: Settings, m: Buckets, e: Event): Buckets {
    match e
    case Arrival(key, at) => AfterAllow(p, m, key, at)
    case Sweep(at) => Swept(p, m, at)
  }

  /** The bucket map of a new limiter after the events `es`. */
  function State(p: Settings, es: seq<Event>): Buckets {
    if es == [] then map[] else After(p, State(p, es[..|es|-1]), es[|es|-1])
  }

  /** The answer to an arrival that follows the events `es`. */
  function Answer(p: Settings, es: seq<Event>, key: string, at: real): bool {
    Allowed(p, State(p, es), key, at)
  }

  function ArrivalsOnly(es: seq<Event>): seq<Event> {
    if es == [] then []
    else ArrivalsOnly(es[..|es|-1]) + (if es[|es|-1].Arrival? then [es[|es|-1]] else [])
  }

  function KeysOf(es: seq<Event>): set<string> {
    set e | e in es && e.Arrival? :: e.key
  }

  /** The arrival times of one key. */
  function Times(es: seq<Event>, key: string): seq<real> {
    if es == [] then []
    else Times(es[..|es|-1], key) + (if es[|es|-1].Arrival? && es[|es|-1].key == key then [es[|es|-1].at] else [])
  }

  ghost predicate Ordered(es: seq<Event>) {
    forall i, j :: 0 <= i < j < |es| ==> es[i].at <= es[j].at
  }

  /** The map never grows past its cap. */
  lemma {:induction false} CapHolds(p: Settings, es: seq<Event>)
    requires p.maxBuckets > 0
    ensures |State(p, es)| <= p.maxBuckets
  {
    if es != [] {
      var m := State(p, es[..|es|-1]);
      CapHolds(p, es[..|es|-1]);
      match es[|es|-1]
      case Arrival(key, at) =>
        if key in m {
          assert AfterAllow(p, m, key, at).Keys == m.Keys;
        } else if !Full(p, m) {
          assert AfterAllow(p, m, key, at).Keys == m.Keys + {key};
        }
      case Sweep(at) =>
        assert m.Keys == Swept(p, m, at).Keys + (m.Keys - Swept(p, m, at).Keys);
    }
  }

  // ---------------------------------------------------------- one key on its own
  // `cs[k]` is the credit accrued by the time of event k: rate * time.

  /** Tokens on hand at event `k` of a key that never loses its bucket. */
  function SoloReady(burst: real, cs: seq<real>, k: nat): real
    requires k < |cs|
  {
    if k == 0 then burst else Capped(Spend(SoloReady(burst, cs, k - 1)) + (cs[k] - cs[k-1]), burst)
  }

  function Spend(tokens: real): real {
    if tokens >= 1.0 then tokens - 1.0 else tokens
  }

  predicate Admitted(burst: real, cs: seq<real>, k: nat)
    requires k < |cs|
  {
    SoloReady(burst, cs, k) >= 1.0
  }

  /** Admissions among the events i..k-1. */
  function Spent(burst: real, cs: seq<real>, i: nat, k: nat): nat
    requires i <= k <= |cs|
    decreases k - i
  {
    if i == k then 0 else Spent(burst, cs, i, k - 1) + (if Admitted(burst, cs, k - 1) then 1 else 0)
  }

  /** What the window that starts at event `i` leaves for event `k`. */
  function WindowRoom(burst: real, cs: seq<real>, i: nat, k: nat): real
    requires i <= k < |cs|
  {
    burst + (cs[k] - cs[i]) - Spent(burst, cs, i, k) as real
  }

  /** The bucket holds the room of its tightest window. */
  lemma {:induction false} ReadyIsTightestWindow(burst: real, cs: seq<real>, k: nat) returns (w: nat)
    requires k < |cs|
    ensures forall i :: 0 <= i <= k ==> SoloReady(burst, cs, k) <= WindowRoom(burst, cs, i, k)
    ensures w <= k && SoloReady(burst, cs, k) == WindowRoom(burst, cs, w, k)
  {
    if k == 0 {
      w := 0;
    } else {
      var v := ReadyIsTightestWindow(burst, cs, k - 1);
      forall i | 0 <= i < k
        ensures WindowRoom(burst, cs, i, k) == WindowRoom(burst, cs, i, k - 1)
                - (if Admitted(burst, cs, k - 1) then 1.0 else 0.0) + (cs[k] - cs[k-1])
      {
      }
      assert WindowRoom(burst, cs, k, k) == burst;
      w := if SoloReady(burst, cs, k) == burst then k else v;
    }
  }

  /** The exact law for a lone bucket: an event passes if and only if no window that ends with it
      would then hold more than the burst and what has accrued since the window began. */
  lemma SoloLaw(burst: real, cs: seq<real>, k: nat)
    requires k < |cs|
    ensures Admitted(burst, cs, k) <==>
            forall i :: 0 <= i <= k ==> Spent(burst, cs, i, k) as real + 1.0 <= burst + (cs[k] - cs[i])
  {
    var w := ReadyIsTightestWindow(burst, cs, k);
    forall i | 0 <= i <= k
      ensures Spent(burst, cs, i, k) as real + 1.0 <= burst + (cs[k] - cs[i]) <==> WindowRoom(burst, cs, i, k) >= 1.0
    {
    }
    assert 0 <= w <= k;
  }

  ghost predicate Rising(cs: seq<real>) {
    forall i, j :: 0 <= i < j < |cs| ==> cs[i] <= cs[j]
  }

  /** Hence every window admits at most the burst and what accrues within it. */
  lemma {:induction false} SoloWindowBound(burst: real, cs: seq<real>, i: nat, j: nat)
    requires i <= j < |cs| && Rising(cs) && burst >= 0.0
    ensures Spent(burst, cs, i, j + 1) as real <= burst + (cs[j] - cs[i])
  {
    if Admitted(burst, cs, j) {
      SoloLaw(burst, cs, j);
      assert 0 <= i <= j;
    } else if i < j {
      SoloWindowBound(burst, cs, i, j - 1);
    } else {
      assert Spent(burst, cs, i, j) == 0;
    }
  }

  lemma {:induction false} SoloPrefix(burst: real, cs: seq<real>, ds: seq<real>, k: nat)
    requires k < |cs|
    ensures SoloReady(burst, cs + ds, k) == SoloReady(burst, cs, k)
  {
    if k > 0 {
      SoloPrefix(burst, cs, ds, k - 1);
    }
  }

  /** Tokens left after the last event, or in a bucket not yet made. */
  function Left(burst: real, cs: seq<real>): real {
    if cs == [] then burst else Spend(SoloReady(burst, cs, |cs| - 1))
  }

  lemma SoloSnoc(burst: real, cs: seq<real>, c: real)
    ensures SoloReady(burst, cs + [c], |cs|) ==
            if cs == [] then burst else Capped(Left(burst, cs) + (c - cs[|cs|-1]), burst)
  {
    if cs != [] {
      SoloPrefix(burst, cs, [c], |cs| - 1);
    }
  }

  predicate Floored(burst: real, tokens: real) {
    tokens >= 0.0 || tokens >= burst
  }

  lemma StepFloor(burst: real, tokens: real, d: real)
    requires Floored(burst, tokens) && d >= 0.0
    ensures Floored(burst, Spend(Capped(tokens + d, burst)))
  {
  }

  /** Tokens never go below zero, unless the bucket is too small to hold any. */
  lemma {:induction false} LeftFloor(burst: real, cs: seq<real>)
    requires Rising(cs)
    ensures Floored(burst, Left(burst, cs))
  {
    if |cs| > 1 {
      var ds, c := cs[..|cs|-1], cs[|cs|-1];
      assert cs == ds + [c];
      SoloSnoc(burst, ds, c);
      LeftFloor(burst, ds);
      StepFloor(burst, Left(burst, ds), c - ds[|ds|-1]);
    }
  }

  // ---------------------------------------- a shared limiter against lone buckets

  /** `credit(t)` is what the refill rate accrues by time `t`. */
  ghost predicate Accrues(p: Settings, credit: real -> real) {
    forall a, b {:trigger Refill(p, a, b)} :: Refill(p, a, b) == credit(b) - credit(a)
  }

  lemma CreditGrows(p: Settings, credit: real -> real, a: real, b: real)
    requires Accrues(p, credit) && p.rate >= 0.0 && a <= b
    ensures credit(a) <= credit(b)
  {
    assert Refill(p, a, b) >= 0.0;
  }

  function Credits(credit: real -> real, ts: seq<real>): (cs: seq<real>)
    ensures |cs| == |ts|
  {
    if ts == [] then [] else Credits(credit, ts[..|ts|-1]) + [credit(ts[|ts|-1])]
  }

  lemma {:induction false} CreditsAt(credit: real -> real, ts: seq<real>)
    ensures forall i :: 0 <= i < |ts| ==> Credits(credit, ts)[i] == credit(ts[i])
  {
    if ts != [] {
      CreditsAt(credit, ts[..|ts|-1]);
    }
  }

  lemma CreditsSnoc(credit: real -> real, ts: seq<real>, t: real)
    ensures Credits(credit, ts + [t]) == Credits(credit, ts) + [credit(t)]
  {
    assert (ts + [t])[..|ts|] == ts;
  }

  /** No arrival of `key` met a full map while it had no bucket. */
  ghost predicate AlwaysTracked(p: Settings, es: seq<Event>, key: string) {
    forall i :: 0 <= i < |es| && es[i].Arrival? && es[i].key == key ==>
      key in State(p, es[..i]) || !Full(p, State(p, es[..i]))
  }

  /** An evicted bucket would be full again. */
  predicate SafeTtl(p: Settings) {
    p.rate >= 0.0 && p.ttl * p.rate >= p.burst
  }

  ghost predicate NoSweeps(es: seq<Event>) {
    forall i :: 0 <= i < |es| ==> es[i].Arrival?
  }

  ghost predicate Harmless(p: Settings, es: seq<Event>) {
    NoSweeps(es) || (SafeTtl(p) && Ordered(es))
  }

  /** What the shared map `m` says about a key with arrival times `ts` and credits `cs`, at a time
      `now` whose credit is `c`: its bucket holds what the lone bucket holds, or it has none and the
      lone bucket is full again. */
  ghost predicate Mirrors(burst: real, m: Buckets, key: string, ts: seq<real>, cs: seq<real>, now: real, c: real) {
    && |cs| == |ts|
    && (key in m ==> ts != [] && m[key] == Bucket(Left(burst, cs), ts[|ts|-1]))
    && (key !in m && ts != [] ==> ts[|ts|-1] <= now && Left(burst, cs) + (c - cs[|cs|-1]) >= burst)
  }

  /** An arrival finds the tokens that the lone bucket would have. */
  lemma ReadyIsSolo(p: Settings, m: Buckets, key: string, ts: seq<real>, cs: seq<real>, now: real, c: real, at: real,
                    d: real)
    requires Mirrors(p.burst, m, key, ts, cs, now, c)
    requires key !in m && ts != [] ==> c <= d
    requires ts != [] ==> Refill(p, ts[|ts|-1], at) == d - cs[|cs|-1]
    ensures Ready(p, m, key, at) == SoloReady(p.burst, cs + [d], |cs|)
  {
    SoloSnoc(p.burst, cs, d);
  }

  lemma CreditsRising(p: Settings, credit: real -> real, ts: seq<real>)
    requires Accrues(p, credit) && p.rate >= 0.0 && Rising(ts)
    ensures Rising(Credits(credit, ts))
  {
    CreditsAt(credit, ts);
    forall i, j | 0 <= i < j < |ts| ensures credit(ts[i]) <= credit(ts[j]) {
      CreditGrows(p, credit, ts[i], ts[j]);
    }
  }

  lemma TtlRefills(p: Settings, credit: real -> real, last: real, now: real)
    requires Accrues(p, credit) && SafeTtl(p) && last < now - p.ttl && last <= now
    ensures credit(now) - credit(last) >= p.burst && credit(now) >= credit(last)
  {
    var t := last + p.ttl;
    assert Refill(p, last, t) == credit(t) - credit(last);
    CreditGrows(p, credit, t, now);
    CreditGrows(p, credit, last, now);
  }

  /** More than ttl idle: the lone bucket has refilled. */
  lemma IdleMeansFull(burst: real, cs: seq<real>, c: real)
    requires Rising(cs) && cs != [] && c - cs[|cs|-1] >= burst && c >= cs[|cs|-1]
    ensures Left(burst, cs) + (c - cs[|cs|-1]) >= burst
  {
    LeftFloor(burst, cs);
  }

  function LastTime(es: seq<Event>): real {
    if es == [] then 0.0 else es[|es|-1].at
  }

  lemma {:induction false} TimesLast(es: seq<Event>, key: string)
    requires Ordered(es)
    ensures Rising(Times(es, key))
    ensures Times(es, key) != [] ==> es != [] && Times(es, key)[|Times(es, key)|-1] <= LastTime(es)
  {
    if es != [] {
      var fs, e := es[..|es|-1], es[|es|-1];
      TimesLast(fs, key);
      if fs != [] {
        assert LastTime(fs) == es[|es|-2].at <= e.at;
      }
    }
  }

  lemma MirrorsArrival(p: Settings, m: Buckets, key: string, ts: seq<real>, cs: seq<real>,
                       now: real, c: real, other: string, at: real, d: real)
    requires Mirrors(p.burst, m, key, ts, cs, now, c)
    requires key !in m && ts != [] ==> c <= d && now <= at
    requires other == key && ts != [] ==> Refill(p, ts[|ts|-1], at) == d - cs[|cs|-1]
    requires other == key ==> key in m || !Full(p, m)
    ensures Mirrors(p.burst, AfterAllow(p, m, other, at), key,
                    if other == key then ts + [at] else ts, if other == key then cs + [d] else cs, at, d)
  {
    if other == key {
      ReadyIsSolo(p, m, key, ts, cs, now, c, at, d);
    }
  }

  lemma MirrorsSweep(p: Settings, credit: real -> real, m: Buckets, key: string, ts: seq<real>, now: real, at: real)
    requires Accrues(p, credit) && SafeTtl(p) && Rising(ts) && now <= at && (ts != [] ==> ts[|ts|-1] <= now)
    requires Mirrors(p.burst, m, key, ts, Credits(credit, ts), now, credit(now))
    ensures Mirrors(p.burst, Swept(p, m, at), key, ts, Credits(credit, ts), at, credit(at))
  {
    var cs := Credits(credit, ts);
    CreditsAt(credit, ts);
    CreditGrows(p, credit, now, at);
    if key in m && m[key].last < at - p.ttl {
      CreditsRising(p, credit, ts);
      TtlRefills(p, credit, m[key].last, at);
      IdleMeansFull(p.burst, cs, credit(at));
    }
  }

  lemma MirrorsStep(p: Settings, credit: real -> real, m: Buckets, key: string, ts: seq<real>, now: real, e: Event)
    requires Accrues(p, credit)
    requires Mirrors(p.burst, m, key, ts, Credits(credit, ts), now, credit(now))
    requires key !in m && ts != [] ==> p.rate >= 0.0 && now <= e.at
    requires e.Arrival? && e.key == key ==> key in m || !Full(p, m)
    requires e.Sweep? ==> SafeTtl(p) && Rising(ts) && now <= e.at && (ts != [] ==> ts[|ts|-1] <= now)
    ensures var us := if e.Arrival? && e.key == key then ts + [e.at] else ts;
            Mirrors(p.burst, After(p, m, e), key, us, Credits(credit, us), e.at, credit(e.at))
  {
    match e
    case Arrival(other, at) =>
      if ts != [] {
        CreditsAt(credit, ts);
        assert Refill(p, ts[|ts|-1], at) == credit(at) - credit(ts[|ts|-1]);
        if key !in m {
          CreditGrows(p, credit, now, at);
        }
      }
      CreditsSnoc(credit, ts, at);
      MirrorsArrival(p, m, key, ts, Credits(credit, ts), now, credit(now), other, at, credit(at));
    case Sweep(at) =>
      MirrorsSweep(p, credit, m, key, ts, now, at);
  }

  lemma PrefixTracked(p: Settings, es: seq<Event>, key: string)
    requires es != [] && Harmless(p, es) && AlwaysTracked(p, es, key)
    ensures Harmless(p, es[..|es|-1]) && AlwaysTracked(p, es[..|es|-1], key)
  {
    var fs := es[..|es|-1];
    assert forall i :: 0 <= i < |fs| ==> fs[..i] == es[..i] && fs[i] == es[i];
  }

  lemma {:induction false} NeverEvicted(p: Settings, es: seq<Event>, key: string)
    requires Harmless(p, es) && NoSweeps(es) && AlwaysTracked(p, es, key) && Times(es, key) != []
    ensures key in State(p, es)
  {
    PrefixTracked(p, es, key);
    var fs := es[..|es|-1];
    if Times(fs, key) != [] {
      NeverEvicted(p, fs, key);
    }
  }

  /** The time the event before the last one happened, or any time when there was none. */
  lemma StepClock(p: Settings, es: seq<Event>, key: string) returns (now: real)
    requires es != [] && Harmless(p, es) && AlwaysTracked(p, es, key)
    ensures var fs, e := es[..|es|-1], es[|es|-1];
            && (fs != [] ==> now == LastTime(fs))
            && (fs == [] ==> now == e.at && State(p, fs) == map[] && Times(fs, key) == [])
            && (key !in State(p, fs) && Times(fs, key) != [] ==> p.rate >= 0.0 && now <= e.at)
            && (e.Arrival? && e.key == key ==> key in State(p, fs) || !Full(p, State(p, fs)))
            && (e.Sweep? ==> SafeTtl(p) && Rising(Times(fs, key)) && now <= e.at
                             && (Times(fs, key) != [] ==> Times(fs, key)[|Times(fs, key)|-1] <= now))
  {
    var fs, e := es[..|es|-1], es[|es|-1];
    now := if fs == [] then e.at else LastTime(fs);
    PrefixTracked(p, es, key);
    if Ordered(es) {
      TimesLast(fs, key);
      assert now <= e.at;
    }
    if key !in State(p, fs) && Times(fs, key) != [] && NoSweeps(es) {
      NeverEvicted(p, fs, key);
    }
  }

  /** The shared map mirrors the lone bucket after every run. */
  lemma {:induction false} MapMirrorsSolo(p: Settings, credit: real -> real, es: seq<Event>, key: string)
    requires Accrues(p, credit) && Harmless(p, es) && AlwaysTracked(p, es, key)
    ensures Mirrors(p.burst, State(p, es), key, Times(es, key), Credits(credit, Times(es, key)), LastTime(es),
                    credit(LastTime(es)))
  {
    if es != [] {
      var fs, e := es[..|es|-1], es[|es|-1];
      PrefixTracked(p, es, key);
      MapMirrorsSolo(p, credit, fs, key);
      var now := StepClock(p, es, key);
      MirrorsStep(p, credit, State(p, fs), key, Times(fs, key), now, e);
      assert State(p, es) == After(p, State(p, fs), e) && LastTime(es) == e.at;
      assert Times(es, key) == if e.Arrival? && e.key == key then Times(fs, key) + [e.at] else Times(fs, key);
    }
  }

  lemma AnswerIsSolo(p: Settings, credit: real -> real, es: seq<Event>, key: string, at: real)
    requires Accrues(p, credit)
    requires Harmless(p, es + [Arrival(key, at)]) && AlwaysTracked(p, es + [Arrival(key, at)], key)
    ensures Answer(p, es, key, at) <==> Admitted(p.burst, Credits(credit, Times(es, key) + [at]), |Times(es, key)|)
  {
    var fs := es + [Arrival(key, at)];
    assert forall i :: 0 <= i < |es| ==> fs[..i] == es[..i] && fs[i] == es[i];
    assert fs[..|es|] == es && fs[|es|] == Arrival(key, at);
    MapMirrorsSolo(p, credit, es, key);
    var m, ts := State(p, es), Times(es, key);
    CreditsAt(credit, ts);
    CreditsSnoc(credit, ts, at);
    if ts != [] && key !in m {
      if NoSweeps(es) {
        NeverEvicted(p, es, key);
      }
      assert LastTime(es) <= at;
      CreditGrows(p, credit, LastTime(es), at);
    }
    ReadyIsSolo(p, m, key, ts, Credits(credit, ts), LastTime(es), credit(LastTime(es)), at, credit(at));
  }

  lemma {:induction false} SpentPrefix(burst: real, cs: seq<real>, d: real, i: nat, k: nat)
    requires i <= k <= |cs|
    ensures Spent(burst, cs + [d], i, k) == Spent(burst, cs, i, k)
    decreases k - i
  {
    if i < k {
      SpentPrefix(burst, cs, d, i, k - 1);
      SoloPrefix(burst, cs, [d], k - 1);
    }
  }

  // ------------------------------------------------------------------ main results

  /** Admissions in the run among the arrivals of `key`, from its `i`-th arrival on. */
  function Grants(p: Settings, es: seq<Event>, key: string, i: nat): nat {
    if es == [] then 0
    else
      var fs, e := es[..|es|-1], es[|es|-1];
      Grants(p, fs, key, i)
      + (if e.Arrival? && e.key == key && i <= |Times(fs, key)| && Answer(p, fs, key, e.at) then 1 else 0)
  }

  lemma SpentSnoc(burst: real, cs: seq<real>, d: real, i: nat)
    requires i <= |cs|
    ensures Spent(burst, cs + [d], i, |cs| + 1) == Spent(burst, cs, i, |cs|)
            + (if Admitted(burst, cs + [d], |cs|) then 1 else 0)
  {
    SpentPrefix(burst, cs, d, i, |cs|);
  }

  function SpentIn(burst: real, cs: seq<real>, i: nat): nat {
    if i <= |cs| then Spent(burst, cs, i, |cs|) else 0
  }

  lemma {:induction false} GrantsAreSpent(p: Settings, credit: real -> real, es: seq<Event>, key: string, i: nat)
    requires Accrues(p, credit) && Harmless(p, es) && AlwaysTracked(p, es, key)
    ensures Grants(p, es, key, i) == SpentIn(p.burst, Credits(credit, Times(es, key)), i)
  {
    if es != [] {
      var fs, e := es[..|es|-1], es[|es|-1];
      PrefixTracked(p, es, key);
      GrantsAreSpent(p, credit, fs, key, i);
      assert es == fs + [e];
      TimesSnoc(fs, e, key);
      if e.Arrival? && e.key == key {
        assert e == Arrival(key, e.at) && Times(es, key) == Times(fs, key) + [e.at];
        GrantIsSpent(p, credit, fs, key, e.at, i);
      } else {
        assert Times(es, key) == Times(fs, key) && Grants(p, es, key, i) == Grants(p, fs, key, i);
      }
    }
  }

  lemma GrantIsSpent(p: Settings, credit: real -> real, es: seq<Event>, key: string, at: real, i: nat)
    requires Accrues(p, credit)
    requires Harmless(p, es + [Arrival(key, at)]) && AlwaysTracked(p, es + [Arrival(key, at)], key)
    ensures var ts := Times(es, key);
            SpentIn(p.burst, Credits(credit, ts + [at]), i) ==
            SpentIn(p.burst, Credits(credit, ts), i) + (if i <= |ts| && Answer(p, es, key, at) then 1 else 0)
  {
    var ts := Times(es, key);
    AnswerIsSolo(p, credit, es, key, at);
    CreditsSnoc(credit, ts, at);
    if i <= |ts| {
      SpentSnoc(p.burst, Credits(credit, ts), credit(at), i);
    }
  }

  function Accrued(p: Settings): real -> real {
    t => p.rate * t
  }

  lemma AccruedAccrues(p: Settings)
    ensures Accrues(p, Accrued(p))
  {
    forall a, b {:trigger Refill(p, a, b)} ensures Refill(p, a, b) == Accrued(p)(b) - Accrued(p)(a) {
      assert (b - a) * p.rate == p.rate * b - p.rate * a;
    }
  }

  lemma ExactLawWith(p: Settings, credit: real -> real, es: seq<Event>, key: string, at: real)
    requires Accrues(p, credit)
    requires Harmless(p, es + [Arrival(key, at)]) && AlwaysTracked(p, es + [Arrival(key, at)], key)
    ensures var ts := Times(es, key) + [at];
            Answer(p, es, key, at) <==>
            forall i :: 0 <= i < |ts| ==> Grants(p, es, key, i) as real + 1.0 <= p.burst + Refill(p, ts[i], at)
  {
    var ts, n := Times(es, key), |Times(es, key)|;
    var cs := Credits(credit, ts);
    var fs := es + [Arrival(key, at)];
    assert fs[..|fs|-1] == es;
    PrefixTracked(p, fs, key);
    AnswerIsSolo(p, credit, es, key, at);
    CreditsSnoc(credit, ts, at);
    SoloLaw(p.burst, cs + [credit(at)], n);
    forall i | 0 <= i <= n
      ensures Refill(p, (ts + [at])[i], at) == credit(at) - (cs + [credit(at)])[i]
      ensures Grants(p, es, key, i) == Spent(p.burst, cs + [credit(at)], i, n)
    {
      CreditsAt(credit, ts);
      GrantsAreSpent(p, credit, es, key, i);
      SpentPrefix(p.burst, cs, credit(at), i, n);
    }
  }

  /** The exact law on a shared limiter, whatever other keys and sweeps do: an arrival passes if and
      only if no window of its key's arrivals that ends with it would then hold more admissions than
      burst + rate * (its length). */
  lemma ExactLaw(p: Settings, es: seq<Event>, key: string, at: real)
    requires Harmless(p, es + [Arrival(key, at)]) && AlwaysTracked(p, es + [Arrival(key, at)], key)
    ensures var ts := Times(es, key) + [at];
            Answer(p, es, key, at) <==>
            forall i :: 0 <= i < |ts| ==> Grants(p, es, key, i) as real + 1.0 <= p.burst + Refill(p, ts[i], at)
  {
    AccruedAccrues(p);
    ExactLawWith(p, Accrued(p), es, key, at);
  }

  /** What the law counts as accrued: the rate times the length of the window. */
  lemma RefillIsRate(p: Settings, last: real, now: real)
    ensures Refill(p, last, now) == p.rate * (now - last)
  {
  }

  lemma WindowBoundWith(p: Settings, credit: real -> real, es: seq<Event>, key: string, i: nat)
    requires Accrues(p, credit)
    requires Harmless(p, es) && p.rate >= 0.0 && p.burst >= 0.0 && Ordered(es) && AlwaysTracked(p, es, key)
             && i < |Times(es, key)|
    ensures var ts := Times(es, key);
            Grants(p, es, key, i) as real <= p.burst + Refill(p, ts[i], ts[|ts|-1])
  {
    var ts := Times(es, key);
    TimesLast(es, key);
    CreditsAt(credit, ts);
    CreditsRising(p, credit, ts);
    GrantsAreSpent(p, credit, es, key, i);
    SoloWindowBound(p.burst, Credits(credit, ts), i, |ts| - 1);
  }

  /** So any window of a key's arrivals admits at most burst + rate * (its length). */
  lemma WindowBound(p: Settings, es: seq<Event>, key: string, i: nat)
    requires Harmless(p, es) && p.rate >= 0.0 && p.burst >= 0.0 && Ordered(es) && AlwaysTracked(p, es, key)
             && i < |Times(es, key)|
    ensures var ts := Times(es, key);
            Grants(p, es, key, i) as real <= p.burst + Refill(p, ts[i], ts[|ts|-1])
  {
    AccruedAccrues(p);
    WindowBoundWith(p, Accrued(p), es, key, i);
  }

  /** A key without a bucket is let through when the map is full, and leaves no trace. */
  lemma UntrackedIsLetThrough(p: Settings, es: seq<Event>, key: string, at: real)
    requires key !in State(p, es) && p.maxBuckets > 0 && |State(p, es)| == p.maxBuckets
    ensures Answer(p, es, key, at) && State(p, es + [Arrival(key, at)]) == State(p, es)
  {
    StateSnoc(p, es, Arrival(key, at));
  }

  /** A bucket is made for a key only when there is room, and only for the key that arrives. */
  lemma OnlyArrivalsTrack(p: Settings, es: seq<Event>, key: string, at: real, other: string)
    ensures var m, t := State(p, es), State(p, es + [Arrival(key, at)]);
            && (other != key ==> (other in t <==> other in m) && (other in m ==> t[other] == m[other]))
            && (key in t <==> key in m || p.maxBuckets <= 0 || |m| < p.maxBuckets)
            && (key in t ==> t[key].last == at)
  {
    StateSnoc(p, es, Arrival(key, at));
  }

  predicate CapNeverHit(p: Settings, es: seq<Event>) {
    p.maxBuckets <= 0 || |KeysOf(es)| <= p.maxBuckets
  }

  lemma {:induction false} OnlySeenKeys(p: Settings, es: seq<Event>)
    ensures State(p, es).Keys <= KeysOf(es)
  {
    if es != [] {
      OnlySeenKeys(p, es[..|es|-1]);
    }
  }

  lemma NewKeyFits(m: set<string>, key: string, all: set<string>)
    requires m <= all && key in all && key !in m
    ensures |m| < |all|
  {
    assert all == (m + {key}) + (all - (m + {key}));
  }

  lemma CapNeverHitTracks(p: Settings, es: seq<Event>, key: string)
    requires CapNeverHit(p, es)
    ensures AlwaysTracked(p, es, key)
  {
    forall i | 0 <= i < |es| && es[i].Arrival? && es[i].key == key
      ensures key in State(p, es[..i]) || !Full(p, State(p, es[..i]))
    {
      var m := State(p, es[..i]).Keys;
      OnlySeenKeys(p, es[..i]);
      assert es[i] in es && key in KeysOf(es) && m <= KeysOf(es);
      if key !in m {
        NewKeyFits(m, key, KeysOf(es));
      }
    }
  }

  lemma TimesSnoc(es: seq<Event>, e: Event, key: string)
    ensures Times(es + [e], key) == Times(es, key) + (if e.Arrival? && e.key == key then [e.at] else [])
  {
    assert (es + [e])[..|es|] == es;
  }

  lemma KeysSnoc(es: seq<Event>, e: Event)
    ensures KeysOf(es + [e]) == KeysOf(es) + (if e.Arrival? then {e.key} else {})
  {
    assert e.Arrival? ==> e in es + [e];
  }

  lemma {:induction false} ArrivalsOnlyTimes(es: seq<Event>, key: string)
    ensures Times(ArrivalsOnly(es), key) == Times(es, key)
  {
    if es != [] {
      var fs, e := es[..|es|-1], es[|es|-1];
      ArrivalsOnlyTimes(fs, key);
      TimesSnoc(ArrivalsOnly(fs), e, key);
      assert !e.Arrival? ==> ArrivalsOnly(es) == ArrivalsOnly(fs);
    }
  }

  lemma {:induction false} ArrivalsOnlyMembers(es: seq<Event>, e: Event)
    ensures e in ArrivalsOnly(es) <==> e in es && e.Arrival?
  {
    if es != [] {
      var fs, last := es[..|es|-1], es[|es|-1];
      ArrivalsOnlyMembers(fs, e);
      assert es == fs + [last];
    }
  }

  lemma ArrivalsOnlySame(es: seq<Event>, key: string)
    ensures Times(ArrivalsOnly(es), key) == Times(es, key)
    ensures KeysOf(ArrivalsOnly(es)) == KeysOf(es)
    ensures NoSweeps(ArrivalsOnly(es))
  {
    ArrivalsOnlyTimes(es, key);
    forall e ensures e in ArrivalsOnly(es) <==> e in es && e.Arrival? {
      ArrivalsOnlyMembers(es, e);
    }
  }

  /** With ttl * rate >= burst, a swept limiter that never turns a key away untracked answers it exactly as
      a limiter does that never evicts and has no cap, however many keys come and go. */
  lemma SweepsInvisible(p: Settings, es: seq<Event>, key: string, at: real)
    requires SafeTtl(p) && Ordered(es + [Arrival(key, at)]) && AlwaysTracked(p, es + [Arrival(key, at)], key)
    ensures Answer(p, es, key, at) == Answer(p.(maxBuckets := 0), ArrivalsOnly(es), key, at)
  {
    var free, e, bare := p.(maxBuckets := 0), Arrival(key, at), ArrivalsOnly(es);
    AccruedAccrues(p);
    AccruesWithoutCap(p, Accrued(p));
    ArrivalsOnlySame(es, key);
    AnswerIsSolo(p, Accrued(p), es, key, at);
    AnswerIsSolo(free, Accrued(p), bare, key, at);
  }

  lemma AccruesWithoutCap(p: Settings, credit: real -> real)
    requires Accrues(p, credit)
    ensures Accrues(p.(maxBuckets := 0), credit)
  {
    var free := p.(maxBuckets := 0);
    forall a, b {:trigger Refill(free, a, b)} ensures Refill(free, a, b) == credit(b) - credit(a) {
      assert Refill(free, a, b) == Refill(p, a, b);
    }
  }

  /** So, when the run has no more keys than the cap, sweeping anywhere in it changes no answer. */
  lemma SweepsChangeNothing(p: Settings, es: seq<Event>, key: string, at: real)
    requires SafeTtl(p) && Ordered(es + [Arrival(key, at)]) && CapNeverHit(p, es + [Arrival(key, at)])
    ensures Answer(p, es, key, at) == Answer(p, ArrivalsOnly(es), key, at)
  {
    var e, bare := Arrival(key, at), ArrivalsOnly(es);
    AccruedAccrues(p);
    ArrivalsOnlySame(es, key);
    KeysSnoc(es, e);
    KeysSnoc(bare, e);
    CapNeverHitTracks(p, es + [e], key);
    CapNeverHitTracks(p, bare + [e], key);
    AnswerIsSolo(p, Accrued(p), es, key, at);
    AnswerIsSolo(p, Accrued(p), bare, key, at);
  }

  // The ttl condition is also necessary: with a shorter ttl a sweep gives tokens back.

  function Repeat(n: nat, at: real): seq<Event> {
    seq(n, _ => Arrival("", at))
  }

  function Only(tokens: real, last: real): Buckets {
    map["" := Bucket(tokens, last)]
  }

  lemma RepeatFront(es: seq<Event>, n: nat, at: real)
    ensures es + Repeat(n + 1, at) == es + [Arrival("", at)] + Repeat(n, at)
  {
  }

  lemma RepeatBack(es: seq<Event>, n: nat, at: real)
    ensures es + Repeat(n + 1, at) == es + Repeat(n, at) + [Arrival("", at)]
  {
  }

  lemma StateSnoc(p: Settings, es: seq<Event>, e: Event)
    ensures State(p, es + [e]) == After(p, State(p, es), e)
  {
    assert (es + [e])[..|es|] == es;
  }

  lemma SpendOne(p: Settings, m: Buckets, ready: real, at: real)
    requires Ready(p, m, "", at) == ready && ready >= 1.0 && m.Keys <= {""}
    ensures AfterAllow(p, m, "", at) == Only(ready - 1.0, at)
  {
    if "" !in m {
      assert m.Keys == {};
      assert |m| == 0;
    }
    assert AfterAllow(p, m, "", at).Keys == {""};
  }

  lemma DrainOne(p: Settings, es: seq<Event>, tokens: real, at: real)
    requires State(p, es) == Only(tokens, at) && 1.0 <= tokens <= p.burst
    ensures State(p, es + [Arrival("", at)]) == Only(tokens - 1.0, at)
  {
    StateSnoc(p, es, Arrival("", at));
    assert Refill(p, at, at) == 0.0;
    SpendOne(p, Only(tokens, at), tokens, at);
  }

  /** Arrivals at one instant take the whole tokens one by one. */
  lemma {:induction false} Drain(p: Settings, es: seq<Event>, tokens: real, at: real, n: nat)
    requires State(p, es) == Only(tokens, at) && n as real <= tokens <= p.burst
    ensures State(p, es + Repeat(n, at)) == Only(tokens - n as real, at)
  {
    if n == 0 {
      assert es + Repeat(n, at) == es;
    } else {
      Drain(p, es, tokens, at, n - 1);
      RepeatBack(es, n - 1, at);
      DrainOne(p, es + Repeat(n - 1, at), tokens - (n - 1) as real, at);
    }
  }

  /** How long `credit` tokens take to accrue. */
  function Wait(p: Settings, credit: real): real
    requires p.rate > 0.0
  {
    credit / p.rate
  }

  lemma WaitAccrues(p: Settings, credit: real, at: real)
    requires p.rate > 0.0 && credit >= 0.0
    ensures Wait(p, credit) >= 0.0
    ensures Refill(p, at, at + Wait(p, credit)) == credit
  {
  }

  lemma SpreeStarts(p: Settings, es: seq<Event>, ready: real, at: real)
    requires Ready(p, State(p, es), "", at) == ready && 1.0 <= ready && State(p, es).Keys <= {""}
    ensures State(p, es + [Arrival("", at)]) == Only(ready - 1.0, at)
  {
    SpendOne(p, State(p, es), ready, at);
    StateSnoc(p, es, Arrival("", at));
  }

  /** `n + 1` arrivals at `at`, the first of which finds `ready` tokens. */
  lemma Spree(p: Settings, es: seq<Event>, ready: real, at: real, n: nat)
    requires Ready(p, State(p, es), "", at) == ready && ready <= p.burst && n as real + 1.0 <= ready
    requires State(p, es).Keys <= {""}
    ensures State(p, es + Repeat(n + 1, at)) == Only(ready - 1.0 - n as real, at)
  {
    SpreeStarts(p, es, ready, at);
    Drain(p, es + [Arrival("", at)], ready - 1.0, at, n);
    RepeatFront(es, n, at);
  }

  /** A run of one key that leaves less than a token. */
  lemma FractionLeft(p: Settings) returns (n: nat, f: real)
    requires p.burst >= 1.0
    ensures 0.0 <= f < 1.0 && State(p, Repeat(n, 0.0)) == Only(f, 0.0)
  {
    n := (p.burst - 1.0).Floor;
    f := p.burst - 1.0 - n as real;
    Spree(p, [], p.burst, 0.0, n);
    n := n + 1;
    assert [] + Repeat(n, 0.0) == Repeat(n, 0.0);
  }

  /** A run of one key that leaves its bucket empty. */
  lemma EmptyBucket(p: Settings) returns (es: seq<Event>, w: real)
    requires p.rate > 0.0 && p.burst >= 1.0
    ensures State(p, es) == Only(0.0, w) && Ordered(es) && NoSweeps(es) && KeysOf(es) <= {""}
    ensures forall i :: 0 <= i < |es| ==> es[i].at <= w
  {
    var n, f := FractionLeft(p);
    w := Wait(p, 1.0 - f);
    WaitAccrues(p, 1.0 - f, 0.0);
    es := Repeat(n, 0.0) + [Arrival("", w)];
    StateSnoc(p, Repeat(n, 0.0), Arrival("", w));
    SpendOne(p, Only(f, 0.0), 1.0, w);
  }

  lemma {:induction false} ArrivalsOnlyIdentity(es: seq<Event>)
    requires NoSweeps(es)
    ensures ArrivalsOnly(es) == es
  {
    if es != [] {
      assert forall i :: 0 <= i < |es| - 1 ==> es[..|es|-1][i] == es[i];
      ArrivalsOnlyIdentity(es[..|es|-1]);
      assert es[|es|-1].Arrival?;
    }
  }

  lemma {:induction false} ArrivalsOnlySkips(es: seq<Event>, e: Event, tail: seq<Event>)
    requires NoSweeps(es) && e.Sweep? && NoSweeps(tail)
    ensures ArrivalsOnly(es + [e] + tail) == es + tail
  {
    var fs := es + [e] + tail;
    if tail == [] {
      assert fs[..|fs|-1] == es && fs[|fs|-1] == e;
      ArrivalsOnlyIdentity(es);
    } else {
      var t := tail[..|tail|-1];
      assert fs[..|fs|-1] == es + [e] + t && fs[|fs|-1] == tail[|tail|-1];
      assert tail[|tail|-1].Arrival?;
      ArrivalsOnlySkips(es, e, t);
      assert es + tail == es + t + [tail[|tail|-1]];
    }
  }

  /** Two runs that leave different tokens for the same key can be told apart by later arrivals. */
  lemma TellApart(p: Settings, a: seq<Event>, b: seq<Event>, c: real, x: real) returns (tail: seq<Event>, at: real)
    requires 0.0 <= c < p.burst && p.burst >= 1.0 && (p.rate > 0.0 || c + 1.0 <= p.burst)
    requires Ready(p, State(p, a), "", x) == c && Ready(p, State(p, b), "", x) == p.burst
    requires State(p, a).Keys == {""} && State(p, b) == map[]
    ensures NoSweeps(tail) && KeysOf(tail) <= {""} && at >= x && forall i :: 0 <= i < |tail| ==> tail[i].at == x
    ensures Answer(p, a + tail, "", at) != Answer(p, b + tail, "", at)
  {
    if c < 1.0 {
      tail, at := [], x;
      assert a + tail == a && b + tail == b;
    } else {
      var n := (c - 1.0).Floor;
      var g, h := c - 1.0 - n as real, p.burst - 1.0 - n as real;
      tail := Repeat(n + 1, x);
      assert State(p, a + tail) == Only(g, x) by { Spree(p, a, c, x, n); }
      assert State(p, b + tail) == Only(h, x) by { Spree(p, b, p.burst, x, n); }
      at := TellApartNow(p, g, h, x);
    }
  }

  lemma TellApartNow(p: Settings, g: real, h: real, x: real) returns (at: real)
    requires p.burst >= 1.0 && 0.0 <= g < 1.0 && g < h <= p.burst && (p.rate > 0.0 || h >= 1.0)
    ensures at >= x
    ensures Allowed(p, Only(g, x), "", at) != Allowed(p, Only(h, x), "", at)
  {
    if h >= 1.0 {
      at := x;
      assert Refill(p, x, x) == 0.0;
    } else {
      at := x + Wait(p, 1.0 - h);
      WaitAccrues(p, 1.0 - h, x);
    }
  }

  /** A wait longer than ttl that does not fill an empty bucket. */
  lemma ShortTtlWait(p: Settings, w: real) returns (c: real, x: real)
    requires p.rate > 0.0 && p.ttl >= 0.0 && p.ttl * p.rate < p.burst
    ensures 0.0 <= c < p.burst && x > w + p.ttl && Refill(p, w, x) == c
  {
    c := (p.ttl * p.rate + p.burst) / 2.0;
    x := w + Wait(p, c);
    WaitAccrues(p, c, w);
    assert (x - w - p.ttl) * p.rate > 0.0;
  }

  /** A run of one key after which its bucket, last touched at `w`, holds `c` tokens at `x`: too few to be
      full, too late to be kept. */
  ghost predicate ShortOf(p: Settings, es: seq<Event>, w: real, c: real, x: real) {
    && State(p, es).Keys == {""} && State(p, es)[""].last == w && w < x - p.ttl
    && Ready(p, State(p, es), "", x) == c && 0.0 <= c < p.burst && (p.rate > 0.0 || c + 1.0 <= p.burst)
    && Ordered(es) && NoSweeps(es) && KeysOf(es) <= {""} && forall i :: 0 <= i < |es| ==> es[i].at <= w
  }

  lemma OnlyIsShort(p: Settings, es: seq<Event>, tokens: real, w: real, c: real, x: real)
    requires State(p, es) == Only(tokens, w) && w < x - p.ttl && tokens + Refill(p, w, x) == c
    requires 0.0 <= c < p.burst && (p.rate > 0.0 || c + 1.0 <= p.burst)
    requires Ordered(es) && NoSweeps(es) && KeysOf(es) <= {""} && forall i :: 0 <= i < |es| ==> es[i].at <= w
    ensures ShortOf(p, es, w, c, x)
  {
  }

  lemma OneArrival(p: Settings)
    requires p.burst >= 1.0
    ensures State(p, [Arrival("", 0.0)]) == Only(p.burst - 1.0, 0.0)
  {
    StateSnoc(p, [], Arrival("", 0.0));
    assert [] + [Arrival("", 0.0)] == [Arrival("", 0.0)];
    SpendOne(p, map[], p.burst, 0.0);
  }

  lemma ShortRun(p: Settings) returns (es: seq<Event>, w: real, c: real, x: real)
    requires p.rate >= 0.0 && p.burst >= 1.0 && p.ttl >= 0.0 && p.ttl * p.rate < p.burst
    ensures ShortOf(p, es, w, c, x)
  {
    if p.rate > 0.0 {
      es, w := EmptyBucket(p);
      c, x := ShortTtlWait(p, w);
      OnlyIsShort(p, es, 0.0, w, c, x);
    } else {
      es, w, c, x := [Arrival("", 0.0)], 0.0, p.burst - 1.0, p.ttl + 1.0;
      OneArrival(p);
      assert Refill(p, w, x) == 0.0;
      OnlyIsShort(p, es, p.burst - 1.0, w, c, x);
    }
  }

  lemma SweptAway(p: Settings, es: seq<Event>, w: real, c: real, x: real)
    requires ShortOf(p, es, w, c, x)
    ensures State(p, es + [Sweep(x)]) == map[]
  {
    StateSnoc(p, es, Sweep(x));
  }

  lemma LaterOrdered(a: seq<Event>, x: real, tail: seq<Event>, at: real)
    requires Ordered(a) && (forall i :: 0 <= i < |a| ==> a[i].at <= x)
             && (forall i :: 0 <= i < |tail| ==> tail[i].at == x)
    requires at >= x && KeysOf(a) <= {""} && KeysOf(tail) <= {""}
    ensures Ordered(a + [Sweep(x)] + tail + [Arrival("", at)]) && KeysOf(a + [Sweep(x)] + tail) <= {""}
  {
  }

  /** With ttl * rate < burst some run of a single key is answered differently once it is swept. */
  lemma ShortTtlVisible(p: Settings) returns (es: seq<Event>, at: real)
    requires p.rate >= 0.0 && p.burst >= 1.0 && p.ttl >= 0.0 && p.ttl * p.rate < p.burst
    ensures Ordered(es + [Arrival("", at)]) && KeysOf(es) <= {""}
    ensures Answer(p, es, "", at) != Answer(p, ArrivalsOnly(es), "", at)
  {
    var a, w, c, x := ShortRun(p);
    var b := a + [Sweep(x)];
    SweptAway(p, a, w, c, x);
    var tail;
    tail, at := TellApart(p, a, b, c, x);
    ArrivalsOnlySkips(a, Sweep(x), tail);
    LaterOrdered(a, x, tail, at);
    es := b + tail;
  }

  /** No run in which no key is turned away untracked can show its sweeps. */
  ghost predicate HidesSweeps(p: Settings) {
    forall es: seq<Event>, key: string, at: real ::
      Ordered(es + [Arrival(key, at)]) && AlwaysTracked(p, es + [Arrival(key, at)], key) ==>
        Answer(p, es, key, at) == Answer(p.(maxBuckets := 0), ArrivalsOnly(es), key, at)
  }

  lemma TooSmallToAdmit(p: Settings, es: seq<Event>, key: string, at: real)
    requires p.burst < 1.0 && AlwaysTracked(p, es + [Arrival(key, at)], key)
    ensures !Answer(p, es, key, at) && !Answer(p.(maxBuckets := 0), ArrivalsOnly(es), key, at)
  {
    assert (es + [Arrival(key, at)])[..|es|] == es && (es + [Arrival(key, at)])[|es|] == Arrival(key, at);
  }

  lemma OneKeyTracked(p: Settings, es: seq<Event>, at: real)
    requires KeysOf(es) <= {""}
    ensures AlwaysTracked(p, es + [Arrival("", at)], "")
  {
    KeysSnoc(es, Arrival("", at));
    assert KeysOf(es + [Arrival("", at)]) == {""};
    CapNeverHitTracks(p, es + [Arrival("", at)], "");
  }

  /** Without sweeps, a cap that turns no key away makes no difference. */
  lemma CapUnseen(p: Settings, es: seq<Event>, key: string, at: real)
    requires NoSweeps(es) && AlwaysTracked(p, es + [Arrival(key, at)], key)
    ensures Answer(p, es, key, at) == Answer(p.(maxBuckets := 0), es, key, at)
  {
    AccruedAccrues(p);
    AccruesWithoutCap(p, Accrued(p));
    AnswerIsSolo(p, Accrued(p), es, key, at);
    AnswerIsSolo(p.(maxBuckets := 0), Accrued(p), es, key, at);
  }

  /** Eviction is indistinguishable from keeping every bucket if and only if ttl * rate >= burst, or the
      burst is too small to admit anything at all. */
  lemma SweepsHiddenExactly(p: Settings)
    requires p.rate >= 0.0 && p.ttl >= 0.0
    ensures HidesSweeps(p) <==> p.ttl * p.rate >= p.burst || p.burst < 1.0
  {
    if p.ttl * p.rate >= p.burst || p.burst < 1.0 {
      forall es: seq<Event>, key: string, at: real
        | Ordered(es + [Arrival(key, at)]) && AlwaysTracked(p, es + [Arrival(key, at)], key)
        ensures Answer(p, es, key, at) == Answer(p.(maxBuckets := 0), ArrivalsOnly(es), key, at)
      {
        if p.burst < 1.0 {
          TooSmallToAdmit(p, es, key, at);
        } else {
          SweepsInvisible(p, es, key, at);
        }
      }
    } else {
      var es, at := ShortTtlVisible(p);
      ArrivalsOnlySame(es, "");
      OneKeyTracked(p, es, at);
      OneKeyTracked(p, ArrivalsOnly(es), at);
      CapUnseen(p, ArrivalsOnly(es), "", at);
      assert Answer(p, es, "", at) != Answer(p.(maxBuckets := 0), ArrivalsOnly(es), "", at);
    }
  }
}
