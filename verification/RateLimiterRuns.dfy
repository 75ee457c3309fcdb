/** Whole runs of the limiter, and when forgetting idle keys does not change
    a decision. */
module RateLimiterRuns {
  import opened RateLimiter

  /** One critical section under the mutex. `oldest` is what evictOldestLocked
      settles on if it runs. */
  datatype Event = Request(key: string, now: real, oldest: string) | Sweep(now: real)

  function After(cfg: Config, s: State, e: Event): State {
    match e
    case Request(key, now, oldest) => AfterRequest(cfg, s, key, now, oldest)
    case Sweep(now) => Unexpired(s, now - cfg.lifetime)
  }

  predicate Possible(cfg: Config, s: State, e: Event) {
    e.Request? && Overflows(cfg, s, e.key, e.now) ==> IsOldest(Trimmed(cfg, s, e.now), e.oldest)
  }

  /** The clock never runs backwards and evictions follow the code. */
  predicate IsRun(cfg: Config, s: State, clock: real, es: seq<Event>)
    decreases |es|
  {
    es == [] ||
    (es[0].now >= clock && Possible(cfg, s, es[0]) && IsRun(cfg, After(cfg, s, es[0]), es[0].now, es[1..]))
  }

  /** evictOldestLocked never removes anything. */
  predicate NeverOverflows(cfg: Config, s: State, es: seq<Event>)
    decreases |es|
  {
    es == [] ||
    (!(es[0].Request? && Overflows(cfg, s, es[0].key, es[0].now)) && NeverOverflows(cfg, After(cfg, s, es[0]), es[1..]))
  }

  function Decisions(cfg: Config, s: State, es: seq<Event>): seq<bool>
    decreases |es|
  {
    if es == [] then []
    else (if es[0].Request? then [Allowed(s, es[0].key, es[0].now)] else []) +
         Decisions(cfg, After(cfg, s, es[0]), es[1..])
  }

  // ----- a limiter that never forgets -----

  type Ledger = map<string, Bucket>

  function LedgerAllows(l: Ledger, key: string, now: real): bool { key in l ==> Grants(l[key], now) }

  function LedgerAfter(cfg: Config, l: Ledger, e: Event): Ledger {
    if e.Sweep? then l
    else l[e.key := if e.key in l then Charged(l[e.key], e.now) else NewBucket(cfg, e.now)]
  }

  function LedgerDecisions(cfg: Config, l: Ledger, es: seq<Event>): seq<bool>
    decreases |es|
  {
    if es == [] then []
    else (if es[0].Request? then [LedgerAllows(l, es[0].key, es[0].now)] else []) +
         LedgerDecisions(cfg, LedgerAfter(cfg, l, es[0]), es[1..])
  }

  // ----- invariants -----

  predicate Sound(cfg: Config, b: Bucket, clock: real) {
    && b.maxTokens == cfg.burst as real && b.refillRate == cfg.rate
    && b.lastRefill <= clock && 0.0 <= b.tokens <= b.maxTokens
  }

  /** The tokens a bucket has built up by `clock` fill it. */
  predicate Full(b: Bucket, clock: real) {
    b.tokens + Earned(clock - b.lastRefill, b.refillRate) >= b.maxTokens
  }

  /** The limiter knows a part of the ledger; the rest of the ledger is full. */
  predicate Agree(cfg: Config, s: State, l: Ledger, clock: real) {
    && (forall k :: k in l ==> Sound(cfg, l[k], clock))
    && (forall k :: k in s ==> k in l && s[k].bucket == l[k] && s[k].lastSeen == l[k].lastRefill)
    && (forall k :: k in l && k !in s ==> Full(l[k], clock))
  }

  predicate RemembersEnough(cfg: Config) {
    cfg.burst >= 1 && Earned(cfg.lifetime, cfg.rate) >= cfg.burst as real
  }

  lemma MulMono(a: real, x: real, y: real)
    requires a >= 0.0 && x <= y
    ensures Earned(x, a) <= Earned(y, a)
  {
  }

  lemma NonNegative(x: real, y: real)
    requires x >= 0.0 && y >= 0.0
    ensures Earned(x, y) >= 0.0
  {
  }

  lemma FullLater(b: Bucket, clock: real, later: real)
    requires Full(b, clock) && clock <= later && b.refillRate >= 0.0
    ensures Full(b, later)
  {
    MulMono(b.refillRate, clock - b.lastRefill, later - b.lastRefill);
  }

  lemma SoundLater(cfg: Config, b: Bucket, clock: real, later: real)
    requires Sound(cfg, b, clock) && clock <= later && cfg.rate >= 0.0 && cfg.burst >= 1
    ensures Sound(cfg, b, later) && Sound(cfg, Charged(b, later), later)
  {
    NonNegative(later - b.lastRefill, b.refillRate);
  }

  /** A bucket idle for longer than the lifetime has filled up. */
  lemma IdleIsFull(cfg: Config, b: Bucket, clock: real)
    requires Sound(cfg, b, clock) && cfg.rate >= 0.0 && RemembersEnough(cfg) && b.lastRefill < clock - cfg.lifetime
    ensures Full(b, clock)
  {
    MulMono(cfg.rate, cfg.lifetime, clock - b.lastRefill);
  }

  lemma {:induction false} AgreeLater(cfg: Config, s: State, l: Ledger, clock: real, later: real)
    requires cfg.rate >= 0.0 && cfg.burst >= 1 && Agree(cfg, s, l, clock) && clock <= later
    ensures Agree(cfg, s, l, later)
    ensures forall k :: k in l ==> Sound(cfg, Charged(l[k], later), later)
  {
    forall k | k in l
      ensures Sound(cfg, l[k], later) && Sound(cfg, Charged(l[k], later), later)
      ensures k !in s ==> Full(l[k], later)
    {
      hide Full;
      SoundLater(cfg, l[k], clock, later);
      if k !in s {
        FullLater(l[k], clock, later);
      }
    }
  }

  lemma SweepAgrees(cfg: Config, s: State, l: Ledger, clock: real)
    requires cfg.rate >= 0.0 && RemembersEnough(cfg) && Agree(cfg, s, l, clock)
    ensures Agree(cfg, Unexpired(s, clock - cfg.lifetime), l, clock)
  {
    forall k | k in l && k in s && k !in Unexpired(s, clock - cfg.lifetime) ensures Full(l[k], clock) {
      IdleIsFull(cfg, l[k], clock);
    }
  }

  lemma RequestAgrees(cfg: Config, s: State, l: Ledger, key: string, now: real)
    requires cfg.rate >= 0.0 && cfg.burst >= 1 && Agree(cfg, s, l, now)
    requires forall k :: k in l ==> Sound(cfg, Charged(l[k], now), now)
    ensures Allowed(s, key, now) == LedgerAllows(l, key, now)
    ensures key in s ==> Agree(cfg, s[key := Entry(Charged(s[key].bucket, now), now)], l[key := Charged(l[key], now)], now)
    ensures key !in s && key in l ==> Charged(l[key], now) == NewBucket(cfg, now)
    ensures key !in s ==> Agree(cfg, s[key := Entry(NewBucket(cfg, now), now)], l[key := NewBucket(cfg, now)], now)
  {
    hide Refilled;
    if key !in s && key in l {
      FullRefill(cfg, l[key], now);
    }
  }

  lemma FullRefill(cfg: Config, b: Bucket, now: real)
    requires Full(b, now) && Sound(cfg, b, now) && cfg.burst >= 1
    ensures Grants(b, now) && Charged(b, now) == NewBucket(cfg, now)
  {
  }

  lemma {:induction false} StepAgrees(cfg: Config, s: State, l: Ledger, clock: real, e: Event)
    requires cfg.rate >= 0.0 && RemembersEnough(cfg) && Agree(cfg, s, l, clock) && e.now >= clock
    requires e.Request? ==> !Overflows(cfg, s, e.key, e.now)
    ensures Agree(cfg, After(cfg, s, e), LedgerAfter(cfg, l, e), e.now)
    ensures e.Request? ==> Allowed(s, e.key, e.now) == LedgerAllows(l, e.key, e.now)
  {
    hide Agree, Sound, Charged, NewBucket, Grants, Unexpired;
    AgreeLater(cfg, s, l, clock, e.now);
    SweepAgrees(cfg, s, l, e.now);
    if e.Request? {
      if e.key in s {
        RequestAgrees(cfg, s, l, e.key, e.now);
        assert e.key in l by { KnownToLedger(cfg, s, l, e.now, e.key); }
      } else {
        RequestAgrees(cfg, s, l, e.key, e.now);
        TrimmedLacks(cfg, s, e.key, e.now);
        RequestAgrees(cfg, Trimmed(cfg, s, e.now), l, e.key, e.now);
      }
    }
  }

  lemma KnownToLedger(cfg: Config, s: State, l: Ledger, clock: real, key: string)
    requires Agree(cfg, s, l, clock) && key in s
    ensures key in l && s[key].bucket == l[key]
  {
  }

  lemma TrimmedLacks(cfg: Config, s: State, key: string, now: real)
    requires key !in s
    ensures key !in Trimmed(cfg, s, now)
  {
  }

  lemma {:induction false} RunAgrees(cfg: Config, s: State, l: Ledger, clock: real, es: seq<Event>)
    requires cfg.rate >= 0.0 && RemembersEnough(cfg) && Agree(cfg, s, l, clock)
    requires IsRun(cfg, s, clock, es) && NeverOverflows(cfg, s, es)
    ensures Decisions(cfg, s, es) == LedgerDecisions(cfg, l, es)
    decreases |es|
  {
    if es != [] {
      StepAgrees(cfg, s, l, clock, es[0]);
      RunAgrees(cfg, After(cfg, s, es[0]), LedgerAfter(cfg, l, es[0]), es[0].now, es[1..]);
    }
  }

  /** Expiry is invisible: every run decides like a limiter that never forgets. */
  ghost predicate ExpiryIsInvisible(cfg: Config) {
    forall clock, es :: IsRun(cfg, map[], clock, es) && NeverOverflows(cfg, map[], es) ==>
      Decisions(cfg, map[], es) == LedgerDecisions(cfg, map[], es)
  }

  // ----- when the lifetime is too short -----

  /** `n` requests of one key at one moment. */
  function Volley(n: nat, now: real): (es: seq<Event>)
    ensures |es| == n
  {
    if n == 0 then [] else [Request("a", now, "")] + Volley(n - 1, now)
  }

  predicate AllGranted(ds: seq<bool>) { forall i :: 0 <= i < |ds| ==> ds[i] }

  function OneKey(b: Bucket): State { map["a" := Entry(b, b.lastRefill)] }

  lemma ChargedNow(b: Bucket)
    requires b.maxTokens >= b.tokens >= 1.0
    ensures Grants(b, b.lastRefill) && Charged(b, b.lastRefill) == b.(tokens := b.tokens - 1.0)
  {
    assert Earned(b.lastRefill - b.lastRefill, b.refillRate) == 0.0;
  }

  /** The first request of such a volley takes a token. */
  lemma {:induction false} OneOfVolley(cfg: Config, b: Bucket, tail: seq<Event>)
    requires b.maxTokens >= b.tokens >= 1.0
    ensures var es := [Request("a", b.lastRefill, "")] + tail; var s1 := OneKey(b.(tokens := b.tokens - 1.0));
      && Decisions(cfg, OneKey(b), es) == [true] + Decisions(cfg, s1, tail)
      && IsRun(cfg, OneKey(b), b.lastRefill, es) == IsRun(cfg, s1, b.lastRefill, tail)
      && NeverOverflows(cfg, OneKey(b), es) == NeverOverflows(cfg, s1, tail)
  {
    var es := [Request("a", b.lastRefill, "")] + tail;
    ChargedNow(b);
    assert es[1..] == tail;
    hide Grants, Charged;
    assert After(cfg, OneKey(b), es[0]) == OneKey(b.(tokens := b.tokens - 1.0));
  }

  /** A volley at the moment of the last refill takes one token a request. */
  lemma {:induction false} VolleyOnState(cfg: Config, b: Bucket, n: nat, rest: seq<Event>)
    requires b.tokens >= n as real && b.maxTokens >= b.tokens
    ensures var s := OneKey(b); var es := Volley(n, b.lastRefill) + rest;
      var left := OneKey(b.(tokens := b.tokens - n as real));
      && Decisions(cfg, s, es) == seq(n, i => true) + Decisions(cfg, left, rest)
      && (IsRun(cfg, left, b.lastRefill, rest) ==> IsRun(cfg, s, b.lastRefill, es))
      && (NeverOverflows(cfg, left, rest) ==> NeverOverflows(cfg, s, es))
    decreases n
  {
    hide Decisions, IsRun, NeverOverflows, OneKey;
    var es := Volley(n, b.lastRefill) + rest;
    if n == 0 {
      assert es == rest;
      assert b.(tokens := b.tokens - 0 as real) == b;
      assert seq(n, i => true) + Decisions(cfg, OneKey(b), rest) == Decisions(cfg, OneKey(b), rest);
    } else {
      var b1, tail := b.(tokens := b.tokens - 1.0), Volley(n - 1, b.lastRefill) + rest;
      assert es == [Request("a", b.lastRefill, "")] + tail;
      OneOfVolley(cfg, b, tail);
      VolleyOnState(cfg, b1, n - 1, rest);
      assert b1.(tokens := b1.tokens - (n - 1) as real) == b.(tokens := b.tokens - n as real);
      assert [true] + seq(n - 1, i => true) == seq(n, i => true);
    }
  }

  lemma {:induction false} OneOfLedgerVolley(cfg: Config, l: Ledger, tail: seq<Event>)
    requires "a" in l && l["a"].maxTokens >= l["a"].tokens >= 1.0
    ensures LedgerDecisions(cfg, l, [Request("a", l["a"].lastRefill, "")] + tail) ==
      [true] + LedgerDecisions(cfg, l["a" := l["a"].(tokens := l["a"].tokens - 1.0)], tail)
  {
    var es := [Request("a", l["a"].lastRefill, "")] + tail;
    ChargedNow(l["a"]);
    assert es[1..] == tail;
    hide Grants, Charged;
  }

  lemma {:induction false} VolleyOnLedger(cfg: Config, l: Ledger, n: nat, rest: seq<Event>)
    requires "a" in l && l["a"].tokens >= n as real && l["a"].maxTokens >= l["a"].tokens
    ensures var es := Volley(n, l["a"].lastRefill) + rest;
      var left := l["a" := l["a"].(tokens := l["a"].tokens - n as real)];
      LedgerDecisions(cfg, l, es) == seq(n, i => true) + LedgerDecisions(cfg, left, rest)
  {
    hide LedgerDecisions;
    var b := l["a"];
    var es := Volley(n, b.lastRefill) + rest;
    if n == 0 {
      assert es == rest;
      assert l["a" := b.(tokens := b.tokens - 0 as real)] == l;
      assert seq(n, i => true) + LedgerDecisions(cfg, l, rest) == LedgerDecisions(cfg, l, rest);
    } else {
      var b1, tail := b.(tokens := b.tokens - 1.0), Volley(n - 1, b.lastRefill) + rest;
      var l1 := l["a" := b1];
      assert es == [Request("a", b.lastRefill, "")] + tail;
      OneOfLedgerVolley(cfg, l, tail);
      VolleyOnLedger(cfg, l1, n - 1, rest);
      assert l1["a" := b1.(tokens := b1.tokens - (n - 1) as real)] == l["a" := b.(tokens := b.tokens - n as real)];
      assert [true] + seq(n - 1, i => true) == seq(n, i => true);
    }
  }

  /** A volley cannot take more tokens than there are. */
  lemma {:induction false} VolleyRunsDry(cfg: Config, l: Ledger, n: nat, now: real)
    requires "a" in l && n >= 1 && Refilled(l["a"], now) < n as real
    ensures !AllGranted(LedgerDecisions(cfg, l, Volley(n, now)))
  {
    var b := l["a"];
    var ds := LedgerDecisions(cfg, l, Volley(n, now));
    var b1 := Charged(b, now);
    assert Volley(n, now)[1..] == Volley(n - 1, now);
    assert ds == [Grants(b, now)] + LedgerDecisions(cfg, l["a" := b1], Volley(n - 1, now));
    if Grants(b, now) {
      assert n >= 2;
      assert Refilled(b1, now) <= b1.tokens + Earned(now - now, b1.refillRate) == b1.tokens;
      VolleyRunsDry(cfg, l["a" := b1], n - 1, now);
      var tail := LedgerDecisions(cfg, l["a" := b1], Volley(n - 1, now));
      var i :| 0 <= i < |tail| && !tail[i];
      assert !ds[i + 1];
    } else {
      assert !ds[0];
    }
  }

  lemma FreshVolley(cfg: Config, now: real, rest: seq<Event>)
    requires cfg.burst >= 1 && cfg.maxEntries >= 1
    ensures var es := Volley(cfg.burst, now) + rest;
      var spent := Bucket(0.0, cfg.burst as real, cfg.rate, now);
      && Decisions(cfg, map[], es) == seq(cfg.burst, i => true) + Decisions(cfg, OneKey(spent), rest)
      && LedgerDecisions(cfg, map[], es) == seq(cfg.burst, i => true) + LedgerDecisions(cfg, map["a" := spent], rest)
      && (IsRun(cfg, OneKey(spent), now, rest) ==> IsRun(cfg, map[], now, es))
      && (NeverOverflows(cfg, OneKey(spent), rest) ==> NeverOverflows(cfg, map[], es))
  {
    hide Decisions, LedgerDecisions, IsRun, NeverOverflows;
    var es := Volley(cfg.burst, now) + rest;
    var tail := Volley(cfg.burst - 1, now) + rest;
    assert es == [Request("a", now, "")] + tail;
    assert es[1..] == tail;
    var b, spent := NewBucket(cfg, now), Bucket(0.0, cfg.burst as real, cfg.rate, now);
    assert b.(tokens := b.tokens - (cfg.burst - 1) as real) == spent;
    assert [true] + seq(cfg.burst - 1, i => true) == seq(cfg.burst, i => true);
    FirstRequest(cfg, now, es);
    assert Decisions(cfg, OneKey(b), tail) == seq(cfg.burst - 1, i => true) + Decisions(cfg, OneKey(spent), rest)
      && (IsRun(cfg, OneKey(spent), now, rest) ==> IsRun(cfg, OneKey(b), now, tail))
      && (NeverOverflows(cfg, OneKey(spent), rest) ==> NeverOverflows(cfg, OneKey(b), tail)) by {
      VolleyOnState(cfg, b, cfg.burst - 1, rest);
    }
    assert LedgerDecisions(cfg, map["a" := b], tail) ==
      seq(cfg.burst - 1, i => true) + LedgerDecisions(cfg, map["a" := spent], rest) by {
      var l: Ledger := map["a" := b];
      VolleyOnLedger(cfg, l, cfg.burst - 1, rest);
      assert l["a"] == b && l["a" := spent] == map["a" := spent];
    }
  }

  lemma FirstRequest(cfg: Config, now: real, es: seq<Event>)
    requires cfg.maxEntries >= 1 && es != [] && es[0] == Request("a", now, "")
    ensures Decisions(cfg, map[], es) == [true] + Decisions(cfg, OneKey(NewBucket(cfg, now)), es[1..])
    ensures LedgerDecisions(cfg, map[], es) == [true] + LedgerDecisions(cfg, map["a" := NewBucket(cfg, now)], es[1..])
    ensures IsRun(cfg, map[], now, es) == IsRun(cfg, OneKey(NewBucket(cfg, now)), now, es[1..])
    ensures NeverOverflows(cfg, map[], es) == NeverOverflows(cfg, OneKey(NewBucket(cfg, now)), es[1..])
  {
    var none: State := map[];
    assert After(cfg, none, es[0]) == OneKey(NewBucket(cfg, now));
  }

  lemma SweepForgets(cfg: Config, b: Bucket, later: real, tail: seq<Event>)
    requires b.lastRefill < later - cfg.lifetime && later >= b.lastRefill
    ensures var rest := [Sweep(later)] + tail; var l: Ledger := map["a" := b];
      && Decisions(cfg, OneKey(b), rest) == Decisions(cfg, map[], tail)
      && LedgerDecisions(cfg, l, rest) == LedgerDecisions(cfg, l, tail)
      && IsRun(cfg, OneKey(b), b.lastRefill, rest) == IsRun(cfg, map[], later, tail)
      && NeverOverflows(cfg, OneKey(b), rest) == NeverOverflows(cfg, map[], tail)
  {
    var rest := [Sweep(later)] + tail;
    var none: State := map[];
    assert rest[1..] == tail && After(cfg, OneKey(b), rest[0]) == none;
  }

  /** The second volley, of a limiter that has forgotten the key. */
  lemma {:induction false} VolleyAgain(cfg: Config, later: real)
    requires cfg.burst >= 1 && cfg.maxEntries >= 1
    ensures var volley := Volley(cfg.burst, later);
      && Decisions(cfg, map[], volley) == seq(cfg.burst, i => true)
      && IsRun(cfg, map[], later, volley) && NeverOverflows(cfg, map[], volley)
  {
    var volley, full := Volley(cfg.burst, later), seq(cfg.burst, i => true);
    var spent := Bucket(0.0, cfg.burst as real, cfg.rate, later);
    assert NeverOverflows(cfg, OneKey(spent), []) && IsRun(cfg, OneKey(spent), later, []);
    assert Decisions(cfg, OneKey(spent), []) == [];
    hide Decisions, LedgerDecisions, IsRun, NeverOverflows, Volley, OneKey;
    FreshVolley(cfg, later, []);
    assert volley + [] == volley && full + [] == full;
  }

  /** A full volley, a pause that is long enough to be forgotten but too short
      to fill up, and another full volley. */
  lemma {:induction false} ForgettingShows(cfg: Config, later: real)
    requires cfg.rate >= 0.0 && cfg.burst >= 1 && cfg.maxEntries >= 1
    requires later >= 0.0 && later > cfg.lifetime && Earned(later, cfg.rate) < cfg.burst as real
    ensures !ExpiryIsInvisible(cfg)
  {
    var n: nat := cfg.burst;
    var spent := Bucket(0.0, n as real, cfg.rate, 0.0);
    var l: Ledger := map["a" := spent];
    var volley, full := Volley(n, later), seq(n, i => true);
    var rest := [Sweep(later)] + volley;
    var es := Volley(n, 0.0) + rest;
    var ds := LedgerDecisions(cfg, l, volley);
    assert Refilled(l["a"], later) < n as real;
    VolleyRunsDry(cfg, l, n, later);
    assert AllGranted(full);
    assert ds != full;
    hide *;
    VolleyAgain(cfg, later);
    SweepForgets(cfg, spent, later, volley);
    FreshVolley(cfg, 0.0, rest);
    assert Decisions(cfg, map[], es) == full + full;
    assert LedgerDecisions(cfg, map[], es) == full + ds;
    DifferentTails(full, ds);
    NotInvisible(cfg, 0.0, es);
  }

  lemma NotInvisible(cfg: Config, clock: real, es: seq<Event>)
    requires IsRun(cfg, map[], clock, es) && NeverOverflows(cfg, map[], es)
    requires Decisions(cfg, map[], es) != LedgerDecisions(cfg, map[], es)
    ensures !ExpiryIsInvisible(cfg)
  {
  }

  lemma DifferentTails(a: seq<bool>, b: seq<bool>)
    requires a != b
    ensures a + a != a + b
  {
    assert (a + a)[|a|..] == a && (a + b)[|a|..] == b;
  }

  lemma NoBurstShows(cfg: Config, later: real)
    requires cfg.rate >= 0.0 && cfg.burst <= 0 && cfg.maxEntries >= 1 && later >= 0.0 && later > cfg.lifetime
    ensures !ExpiryIsInvisible(cfg)
  {
    var last := [Request("a", later, "")];
    var es1 := [Sweep(later)] + last;
    var es := [Request("a", 0.0, "")] + es1;
    assert es[1..] == es1 && es1[1..] == last && last[1..] == [];
    var none: State := map[];
    var b := NewBucket(cfg, 0.0);
    assert After(cfg, OneKey(b), es1[0]) == none;
    FirstRequest(cfg, later, last);
    assert IsRun(cfg, OneKey(b), 0.0, es1) && NeverOverflows(cfg, OneKey(b), es1);
    FirstRequest(cfg, 0.0, es);
    var l: Ledger := map["a" := b];
    assert !Grants(b, later);
    assert LedgerDecisions(cfg, l, last) == [false] + LedgerDecisions(cfg, LedgerAfter(cfg, l, last[0]), []);
    assert LedgerDecisions(cfg, l, es1) == [] + LedgerDecisions(cfg, l, last);
    assert Decisions(cfg, none, last) == [true] + [];
    assert Decisions(cfg, OneKey(b), es1) == [] + Decisions(cfg, none, last);
    assert Decisions(cfg, none, es)[1] && !LedgerDecisions(cfg, map[], es)[1];
  }

  /** Forgetting idle keys is invisible if and only if a key is remembered
      until its bucket has filled up. */
  lemma ExpiryIsInvisibleIff(cfg: Config)
    requires cfg.rate >= 0.0 && cfg.maxEntries >= 1
    ensures ExpiryIsInvisible(cfg) <==> RemembersEnough(cfg)
  {
    if RemembersEnough(cfg) {
      forall clock, es | IsRun(cfg, map[], clock, es) && NeverOverflows(cfg, map[], es)
        ensures Decisions(cfg, map[], es) == LedgerDecisions(cfg, map[], es)
      {
        RunAgrees(cfg, map[], map[], clock, es);
      }
    } else if cfg.burst < 1 {
      NoBurstShows(cfg, if cfg.lifetime < 0.0 then 0.0 else cfg.lifetime + 1.0);
    } else if cfg.lifetime < 0.0 {
      ForgettingShows(cfg, 0.0);
    } else {
      var gap := cfg.burst as real - Earned(cfg.lifetime, cfg.rate);
      var extra := gap / (2.0 * (cfg.rate + 1.0));
      PauseFits(gap, cfg.rate);
      assert Earned(cfg.lifetime + extra, cfg.rate) == Earned(cfg.lifetime, cfg.rate) + extra * cfg.rate;
      ForgettingShows(cfg, cfg.lifetime + extra);
    }
  }

  lemma PauseFits(gap: real, rate: real)
    requires gap > 0.0 && rate >= 0.0
    ensures var extra := gap / (2.0 * (rate + 1.0)); extra > 0.0 && extra * rate < gap
  {
    var extra := gap / (2.0 * (rate + 1.0));
    assert extra * (2.0 * (rate + 1.0)) == gap;
    assert extra * (2.0 * (rate + 1.0)) == 2.0 * (extra * rate) + 2.0 * extra;
  }
}
