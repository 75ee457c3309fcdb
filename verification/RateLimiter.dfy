/** The per-IP limiter of ratelimit.go: token buckets in a bounded map. Times
    are seconds as reals, and floats are reals. */
module RateLimiter {

  datatype Config = Config(rate: real, burst: int, maxEntries: int, lifetime: real)

  datatype Bucket = Bucket(tokens: real, maxTokens: real, refillRate: real, lastRefill: real)

  datatype Entry = Entry(bucket: Bucket, lastSeen: real)

  type State = map<string, Entry>

  function Earned(elapsed: real, rate: real): real { elapsed * rate }

  /** The bucket's tokens at a later time, before a call is served. */
  function Refilled(b: Bucket, now: real): real {
    var t := b.tokens + Earned(now - b.lastRefill, b.refillRate);
    if t > b.maxTokens then b.maxTokens else t
  }

  predicate Grants(b: Bucket, now: real) { Refilled(b, now) >= 1.0 }

  function Charged(b: Bucket, now: real): Bucket {
    var t := Refilled(b, now);
    b.(tokens := if t < 1.0 then t else t - 1.0, lastRefill := now)
  }

  function NewBucket(cfg: Config, now: real): Bucket {
    Bucket(cfg.burst as real - 1.0, cfg.burst as real, cfg.rate, now)
  }

  function Unexpired(s: State, cutoff: real): State {
    map k | k in s && s[k].lastSeen >= cutoff :: s[k]
  }

  predicate IsOldest(s: State, key: string) {
    key in s && forall k :: k in s ==> s[key].lastSeen <= s[k].lastSeen
  }

  /** The state once a new key has had expired entries removed for it, if the map is full. */
  function Trimmed(cfg: Config, s: State, now: real): State {
    if |s| >= cfg.maxEntries then Unexpired(s, now - cfg.lifetime) else s
  }

  /** A request for `key` has to push an entry out. */
  predicate Overflows(cfg: Config, s: State, key: string, now: real) {
    key !in s && |Trimmed(cfg, s, now)| >= cfg.maxEntries && Trimmed(cfg, s, now) != map[]
  }

  /** evictOldestLocked once it has settled on `oldest`; the empty key means none was found. */
  function Without(s: State, oldest: string): State {
    if oldest == "" then s else s - {oldest}
  }

  /** `oldest` only matters when the request overflows the map. */
  function AfterRequest(cfg: Config, s: State, key: string, now: real, oldest: string): State {
    if key in s then s[key := Entry(Charged(s[key].bucket, now), now)]
    else
      var kept := if Overflows(cfg, s, key, now) then Without(Trimmed(cfg, s, now), oldest) else Trimmed(cfg, s, now);
      kept[key := Entry(NewBucket(cfg, now), now)]
  }

  predicate Allowed(s: State, key: string, now: real) {
    key in s ==> Grants(s[key].bucket, now)
  }

  class Limiter {
    const cfg: Config
    var buckets: State

    constructor (cfg: Config)
      ensures this.cfg == cfg && buckets == map[]
    {
      this.cfg := cfg;
      buckets := map[];
    }

    /** ipRateLimiter.allow. `oldest` is the entry the map iteration settled on. */
    method Allow(key: string, now: real) returns (ok: bool, ghost oldest: string)
      modifies this
      ensures ok == Allowed(old(buckets), key, now)
      ensures Overflows(cfg, old(buckets), key, now) ==> IsOldest(Trimmed(cfg, old(buckets), now), oldest)
      ensures buckets == AfterRequest(cfg, old(buckets), key, now, oldest)
    {
      oldest := "";
      if key !in buckets {
        if |buckets| >= cfg.maxEntries {
          EvictExpired(now);
        }
        if |buckets| >= cfg.maxEntries {
          oldest := EvictOldest();
        }
        buckets := buckets[key := Entry(NewBucket(cfg, now), now)];
        return true, oldest;
      }
      var b := buckets[key].bucket;
      var tokens := b.tokens + (now - b.lastRefill) * b.refillRate;
      if tokens > b.maxTokens {
        tokens := b.maxTokens;
      }
      ok := tokens >= 1.0;
      if ok {
        tokens := tokens - 1.0;
      }
      buckets := buckets[key := Entry(b.(tokens := tokens, lastRefill := now), now)];
    }

    /** evictExpiredLocked, in whatever order the map is iterated. */
    method EvictExpired(now: real)
      modifies this
      ensures buckets == Unexpired(old(buckets), now - cfg.lifetime)
    {
      var cutoff := now - cfg.lifetime;
      var unvisited := buckets.Keys;
      while unvisited != {}
        invariant unvisited <= buckets.Keys <= old(buckets).Keys
        invariant forall k :: k in buckets ==> buckets[k] == old(buckets)[k]
        invariant forall k :: k in old(buckets) && k !in unvisited ==>
          (k in buckets <==> old(buckets)[k].lastSeen >= cutoff)
      {
        var k :| k in unvisited;
        if buckets[k].lastSeen < cutoff {
          buckets := buckets - {k};
        }
        unvisited := unvisited - {k};
      }
    }

    /** evictOldestLocked, in whatever order the map is iterated. */
    method EvictOldest() returns (oldestKey: string)
      modifies this
      ensures old(buckets) == map[] ==> oldestKey == "" && buckets == map[]
      ensures old(buckets) != map[] ==> IsOldest(old(buckets), oldestKey) && buckets == Without(old(buckets), oldestKey)
    {
      oldestKey := "";
      var oldestTime := 0.0;
      var first := true;
      var unvisited := buckets.Keys;
      while unvisited != {}
        invariant unvisited <= buckets.Keys && buckets == old(buckets)
        invariant first ==> unvisited == buckets.Keys && oldestKey == ""
        invariant !first ==> oldestKey in buckets && oldestTime == buckets[oldestKey].lastSeen
        invariant !first ==> forall k :: k in buckets && k !in unvisited ==> oldestTime <= buckets[k].lastSeen
      {
        var k :| k in unvisited;
        if first || buckets[k].lastSeen < oldestTime {
          oldestKey, oldestTime, first := k, buckets[k].lastSeen, false;
        }
        unvisited := unvisited - {k};
      }
      assert buckets.Keys != {} ==> !first;
      if oldestKey != "" {
        buckets := buckets - {oldestKey};
      }
    }

    /** One tick of the cleanup goroutine. */
    method Cleanup(now: real)
      modifies this
      ensures buckets == Unexpired(old(buckets), now - cfg.lifetime)
    {
      EvictExpired(now);
    }
  }

  // ----- one step -----

  /** Deletion leaves the surviving entries as they were, and expiry deletes
      exactly the entries idle for longer than the lifetime. */
  lemma RequestTouchesOnlyItsKey(cfg: Config, s: State, key: string, now: real, oldest: string)
    requires Overflows(cfg, s, key, now) ==> IsOldest(Trimmed(cfg, s, now), oldest)
    ensures var s' := AfterRequest(cfg, s, key, now, oldest);
      && key in s' && s'[key].lastSeen == now
      && (forall k :: k in s' && k != key ==> k in s && s'[k] == s[k])
      && (forall k :: k in s && k !in s' ==>
            || now - s[k].lastSeen > cfg.lifetime
            || (k == oldest && forall j :: j in s && now - s[j].lastSeen <= cfg.lifetime ==> s[k].lastSeen <= s[j].lastSeen))
  {
  }

  function Capacity(cfg: Config): int { if cfg.maxEntries < 1 then 1 else cfg.maxEntries }

  /** A request keeps the map within its capacity, except when the oldest
      entry is the one with the empty key, which is never removed. */
  lemma RequestKeepsCapacity(cfg: Config, s: State, key: string, now: real, oldest: string)
    requires |s| <= Capacity(cfg)
    requires Overflows(cfg, s, key, now) ==> IsOldest(Trimmed(cfg, s, now), oldest)
    ensures |AfterRequest(cfg, s, key, now, oldest)| <= Capacity(cfg) <==>
      !(Overflows(cfg, s, key, now) && oldest == "")
  {
    var t := Trimmed(cfg, s, now);
    SubmapSize(t, s);
    hide Charged, NewBucket, Unexpired, Trimmed;
    if key in s {
      assert AfterRequest(cfg, s, key, now, oldest).Keys == s.Keys;
    } else if Overflows(cfg, s, key, now) {
      WithoutSize(t, oldest);
      AddedSize(Without(t, oldest), key, Entry(NewBucket(cfg, now), now));
    } else {
      AddedSize(t, key, Entry(NewBucket(cfg, now), now));
    }
  }

  lemma WithoutSize(s: State, oldest: string)
    requires oldest in s
    ensures |Without(s, oldest)| == if oldest == "" then |s| else |s| - 1
  {
    assert oldest != "" ==> Without(s, oldest).Keys == s.Keys - {oldest};
  }

  lemma AddedSize(s: State, key: string, e: Entry)
    requires key !in s
    ensures |s[key := e]| == |s| + 1
  {
    assert s[key := e].Keys == s.Keys + {key};
  }

  lemma SubmapSize(a: State, b: State)
    requires a.Keys <= b.Keys
    ensures |a| <= |b|
  {
    SubsetSize(a.Keys, b.Keys);
  }

  lemma {:induction false} SubsetSize(a: set<string>, b: set<string>)
    requires a <= b
    ensures |a| <= |b|
  {
    if a != {} {
      var x :| x in a;
      SubsetSize(a - {x}, b - {x});
    }
  }

  /** With the empty key the map outgrows any bound: here three entries where one is allowed. */
  lemma EmptyKeyBreaksCapacity(rate: real)
    ensures var cfg := Config(rate, 1, 1, 300.0);
      var s1 := AfterRequest(cfg, map[], "", 0.0, "");
      var s2 := AfterRequest(cfg, s1, "a", 1.0, "");
      var s3 := AfterRequest(cfg, s2, "b", 2.0, "");
      && IsOldest(Trimmed(cfg, s1, 1.0), "") && IsOldest(Trimmed(cfg, s2, 2.0), "")
      && |s3| == 3
  {
    var cfg := Config(rate, 1, 1, 300.0);
    var s1 := AfterRequest(cfg, map[], "", 0.0, "");
    assert s1.Keys == {""};
    assert Trimmed(cfg, s1, 1.0) == s1;
    var s2 := AfterRequest(cfg, s1, "a", 1.0, "");
    assert s2.Keys == {"", "a"};
    assert Trimmed(cfg, s2, 2.0) == s2;
    var s3 := AfterRequest(cfg, s2, "b", 2.0, "");
    assert s3.Keys == {"", "a", "b"};
  }
}
