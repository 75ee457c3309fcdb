/** What eviction can and cannot change, and how much a client can get. */
module RateLimiterBounds {
  import opened RateLimiter
  import opened RateLimiterRuns

  /** How many of a key's requests are granted. */
  function Granted(cfg: Config, s: State, es: seq<Event>, key: string): nat
    decreases |es|
  {
    if es == [] then 0
    else
      (if es[0].Request? && es[0].key == key && Allowed(s, key, es[0].now) then 1 else 0) +
      Granted(cfg, After(cfg, s, es[0]), es[1..], key)
  }

  function LedgerGranted(cfg: Config, l: Ledger, es: seq<Event>, key: string): nat
    decreases |es|
  {
    if es == [] then 0
    else
      (if es[0].Request? && es[0].key == key && LedgerAllows(l, key, es[0].now) then 1 else 0) +
      LedgerGranted(cfg, LedgerAfter(cfg, l, es[0]), es[1..], key)
  }

  // ----- eviction never costs a client a request -----

  /** `key` has been granted `lead` requests more than by the ledger, and its
      bucket makes up for no more than that. */
  predicate Ahead(cfg: Config, s: State, l: Ledger, key: string, lead: int) {
    && lead >= 0
    && (key in l ==> l[key].maxTokens == cfg.burst as real && l[key].refillRate == cfg.rate)
    && (key in s ==>
      && key in l
      && s[key].bucket == l[key].(tokens := s[key].bucket.tokens)
      && s[key].bucket.tokens + lead as real >= l[key].tokens)
  }

  function Gain(s: State, l: Ledger, key: string, e: Event): int {
    if e.Request? && e.key == key
    then (if Allowed(s, key, e.now) then 1 else 0) - (if LedgerAllows(l, key, e.now) then 1 else 0)
    else 0
  }

  /** Charging two buckets at one moment keeps the poorer one within the lead. */
  lemma {:induction false} ChargedTogether(a: Bucket, i: Bucket, lead: int, now: real)
    requires lead >= 0 && a == i.(tokens := a.tokens) && a.tokens + lead as real >= i.tokens
    ensures var gain := (if Grants(a, now) then 1 else 0) - (if Grants(i, now) then 1 else 0);
      && lead + gain >= 0
      && Charged(a, now) == Charged(i, now).(tokens := Charged(a, now).tokens)
      && Charged(a, now).tokens + (lead + gain) as real >= Charged(i, now).tokens
  {
    hide Earned;
  }

  lemma {:induction false} StaysAhead(cfg: Config, s: State, l: Ledger, key: string, lead: int, e: Event)
    requires Ahead(cfg, s, l, key, lead)
    ensures Ahead(cfg, After(cfg, s, e), LedgerAfter(cfg, l, e), key, lead + Gain(s, l, key, e))
  {
    if e.Request? && e.key == key {
      if key in s {
        ChargedTogether(s[key].bucket, l[key], lead, e.now);
      }
      assert e.key in l ==> Charged(l[key], e.now).maxTokens == l[key].maxTokens;
      hide Charged, Grants, Unexpired;
    } else {
      hide Charged, NewBucket, Grants;
      assert key in After(cfg, s, e) ==> key in s && After(cfg, s, e)[key] == s[key];
    }
  }

  lemma {:induction false} RunStaysAhead(cfg: Config, s: State, l: Ledger, key: string, lead: int, es: seq<Event>)
    requires Ahead(cfg, s, l, key, lead)
    ensures lead + Granted(cfg, s, es, key) >= LedgerGranted(cfg, l, es, key)
    decreases |es|
  {
    if es != [] {
      StaysAhead(cfg, s, l, key, lead, es[0]);
      RunStaysAhead(cfg, After(cfg, s, es[0]), LedgerAfter(cfg, l, es[0]), key, lead + Gain(s, l, key, es[0]), es[1..]);
    }
  }

  /** Whatever is evicted, for age or for lack of space, every key is granted at
      least as many requests as by a limiter that never forgets. */
  lemma EvictionNeverCosts(cfg: Config, es: seq<Event>, key: string)
    ensures Granted(cfg, map[], es, key) >= LedgerGranted(cfg, map[], es, key)
  {
    RunStaysAhead(cfg, map[], map[], key, 0, es);
  }

  // ----- reachable states -----

  predicate AllSound(cfg: Config, s: State, clock: real) {
    forall k :: k in s ==> Sound(cfg, s[k].bucket, clock) && s[k].lastSeen == s[k].bucket.lastRefill
  }

  lemma StepKeepsSound(cfg: Config, s: State, clock: real, e: Event)
    requires cfg.rate >= 0.0 && cfg.burst >= 1 && AllSound(cfg, s, clock) && e.now >= clock
    ensures AllSound(cfg, After(cfg, s, e), e.now)
  {
    forall k | k in s ensures Sound(cfg, s[k].bucket, e.now) && Sound(cfg, Charged(s[k].bucket, e.now), e.now) {
      SoundLater(cfg, s[k].bucket, clock, e.now);
    }
    hide Refilled, Earned;
    var s' := After(cfg, s, e);
    forall k | k in s' ensures Sound(cfg, s'[k].bucket, e.now) && s'[k].lastSeen == s'[k].bucket.lastRefill {
    }
  }

  function StateAfter(cfg: Config, s: State, es: seq<Event>): State
    decreases |es|
  {
    if es == [] then s else StateAfter(cfg, After(cfg, s, es[0]), es[1..])
  }

  function ClockAfter(clock: real, es: seq<Event>): real {
    if es == [] then clock else es[|es| - 1].now
  }

  /** In every reachable state each bucket holds between 0 and `burst` tokens
      and was last seen when it was last refilled. */
  lemma {:induction false} ReachableIsSound(cfg: Config, s: State, clock: real, es: seq<Event>)
    requires cfg.rate >= 0.0 && cfg.burst >= 1 && AllSound(cfg, s, clock) && IsRun(cfg, s, clock, es)
    ensures AllSound(cfg, StateAfter(cfg, s, es), ClockAfter(clock, es))
    decreases |es|
  {
    if es != [] {
      StepKeepsSound(cfg, s, clock, es[0]);
      ReachableIsSound(cfg, After(cfg, s, es[0]), es[0].now, es[1..]);
      assert ClockAfter(clock, es) == ClockAfter(es[0].now, es[1..]);
    }
  }

  predicate Within(cfg: Config, s: State) { |s| <= Capacity(cfg) && "" !in s }

  lemma EmptyKeyStaysOut(cfg: Config, s: State, e: Event)
    requires "" !in s && Possible(cfg, s, e) && (e.Request? ==> e.key != "")
    ensures "" !in After(cfg, s, e)
    ensures e.Request? && Overflows(cfg, s, e.key, e.now) ==> e.oldest != ""
  {
    hide Charged, NewBucket;
  }

  lemma {:induction false} StepKeepsCapacity(cfg: Config, s: State, e: Event)
    requires Within(cfg, s) && Possible(cfg, s, e) && (e.Request? ==> e.key != "")
    ensures Within(cfg, After(cfg, s, e))
  {
    EmptyKeyStaysOut(cfg, s, e);
    hide AfterRequest, Overflows, Capacity, Trimmed, IsOldest;
    if e.Request? {
      RequestKeepsCapacity(cfg, s, e.key, e.now, e.oldest);
    } else {
      SubmapSize(Unexpired(s, e.now - cfg.lifetime), s);
    }
  }

  /** With non-empty keys the map never outgrows its capacity, in any run. */
  lemma {:induction false} RunKeepsCapacity(cfg: Config, s: State, clock: real, es: seq<Event>)
    requires Within(cfg, s) && IsRun(cfg, s, clock, es)
    requires forall e :: e in es && e.Request? ==> e.key != ""
    ensures Within(cfg, StateAfter(cfg, s, es))
    decreases |es|
  {
    hide Within, After, Possible;
    if es != [] {
      assert es[0] in es;
      StepKeepsCapacity(cfg, s, es[0]);
      RunKeepsCapacity(cfg, After(cfg, s, es[0]), es[0].now, es[1..]);
    }
  }

  // ----- the token-bucket bound -----

  /** The key is not forgotten while the events happen. */
  predicate Kept(cfg: Config, s: State, es: seq<Event>, key: string)
    decreases |es|
  {
    es == [] ||
    ((key in s ==> key in After(cfg, s, es[0])) && Kept(cfg, After(cfg, s, es[0]), es[1..], key))
  }

  predicate Before(es: seq<Event>, end: real) { forall i :: 0 <= i < |es| ==> es[i].now <= end }

  /** What the key could get at `now` without waiting. */
  function Budget(cfg: Config, s: State, key: string, now: real): real {
    if key in s then Refilled(s[key].bucket, now) else cfg.burst as real
  }

  lemma EarnedAdds(rate: real, a: real, b: real, c: real)
    requires rate >= 0.0 && a <= b <= c
    ensures Earned(c - a, rate) == Earned(b - a, rate) + Earned(c - b, rate)
    ensures Earned(b - a, rate) >= 0.0
  {
    assert (c - a) * rate == (b - a) * rate + (c - b) * rate;
    NonNegative(b - a, rate);
  }

  lemma BudgetGrows(cfg: Config, b: Bucket, clock: real, now: real)
    requires cfg.rate >= 0.0 && Sound(cfg, b, clock) && clock <= now
    ensures 0.0 <= Refilled(b, clock) && Refilled(b, now) <= Refilled(b, clock) + Earned(now - clock, cfg.rate)
  {
    EarnedAdds(cfg.rate, b.lastRefill, clock, now);
    EarnedAdds(cfg.rate, clock, now, now);
  }

  lemma ChargedBudget(cfg: Config, b: Bucket, now: real)
    requires b.tokens <= b.maxTokens
    ensures Refilled(Charged(b, now), now) == Refilled(b, now) - (if Grants(b, now) then 1.0 else 0.0)
  {
    assert Earned(now - now, b.refillRate) == 0.0;
  }

  lemma NewBudget(cfg: Config, now: real)
    ensures Refilled(NewBucket(cfg, now), now) == cfg.burst as real - 1.0
  {
    assert Earned(now - now, cfg.rate) == 0.0;
  }

  lemma StepBudget(cfg: Config, s: State, clock: real, e: Event, key: string)
    requires cfg.rate >= 0.0 && cfg.burst >= 1 && AllSound(cfg, s, clock) && e.now >= clock
    requires key in s ==> key in After(cfg, s, e)
    ensures (if e.Request? && e.key == key && Allowed(s, key, e.now) then 1.0 else 0.0) +
      Budget(cfg, After(cfg, s, e), key, e.now) <= Budget(cfg, s, key, clock) + Earned(e.now - clock, cfg.rate)
    ensures Budget(cfg, s, key, clock) >= 0.0
  {
    EarnedAdds(cfg.rate, clock, e.now, e.now);
    NewBudget(cfg, e.now);
    if key in s {
      BudgetGrows(cfg, s[key].bucket, clock, e.now);
      ChargedBudget(cfg, s[key].bucket, e.now);
    }
    hide Refilled, Earned, Charged, NewBucket, Sound;
    BucketAfter(cfg, s, e, key);
  }

  lemma BucketAfter(cfg: Config, s: State, e: Event, key: string)
    requires key in s ==> key in After(cfg, s, e)
    ensures var s' := After(cfg, s, e);
      if e.Request? && e.key == key then
        key in s' && s'[key].bucket == if key in s then Charged(s[key].bucket, e.now) else NewBucket(cfg, e.now)
      else (key in s' <==> key in s) && (key in s ==> s'[key] == s[key])
  {
    hide Charged, NewBucket;
  }

  /** Between two evictions of a key, at most burst + rate * (end - start) of
      its requests are granted, whatever else happens. */
  lemma {:induction false} TokenBucketBound(cfg: Config, s: State, start: real, es: seq<Event>, key: string, end: real)
    requires cfg.rate >= 0.0 && cfg.burst >= 1 && AllSound(cfg, s, start)
    requires IsRun(cfg, s, start, es) && Kept(cfg, s, es, key) && Before(es, end) && start <= end
    ensures Granted(cfg, s, es, key) as real <= Budget(cfg, s, key, start) + Earned(end - start, cfg.rate)
    ensures Granted(cfg, s, es, key) as real <= cfg.burst as real + Earned(end - start, cfg.rate)
    decreases |es|
  {
    hide Earned;
    BudgetIsCapped(cfg, s, key, start);
    if es == [] {
      EarnedAdds(cfg.rate, start, end, end);
      if key in s {
        BudgetGrows(cfg, s[key].bucket, start, start);
      }
    } else {
      hide Refilled;
      var e := es[0];
      StepBudget(cfg, s, start, e, key);
      StepKeepsSound(cfg, s, start, e);
      TokenBucketBound(cfg, After(cfg, s, e), e.now, es[1..], key, end);
      EarnedAdds(cfg.rate, start, e.now, end);
    }
  }

  lemma BudgetIsCapped(cfg: Config, s: State, key: string, clock: real)
    requires AllSound(cfg, s, clock)
    ensures Budget(cfg, s, key, clock) <= cfg.burst as real
  {
  }

  // ----- the bound across expiry -----

  function LedgerAfterAll(cfg: Config, l: Ledger, es: seq<Event>): Ledger
    decreases |es|
  {
    if es == [] then l else LedgerAfterAll(cfg, LedgerAfter(cfg, l, es[0]), es[1..])
  }

  /** Along a run the limiter and the ledger stay in agreement, and the limiter
      grants what the ledger grants. */
  lemma {:induction false} RunStaysAgreed(cfg: Config, s: State, l: Ledger, clock: real, es: seq<Event>, key: string)
    requires cfg.rate >= 0.0 && RemembersEnough(cfg) && Agree(cfg, s, l, clock)
    requires IsRun(cfg, s, clock, es) && NeverOverflows(cfg, s, es)
    ensures Agree(cfg, StateAfter(cfg, s, es), LedgerAfterAll(cfg, l, es), ClockAfter(clock, es))
    ensures Granted(cfg, s, es, key) == LedgerGranted(cfg, l, es, key)
    decreases |es|
  {
    hide Agree, After, LedgerAfter, Allowed, LedgerAllows, Possible, Overflows;
    if es != [] {
      StepAgrees(cfg, s, l, clock, es[0]);
      RunStaysAgreed(cfg, After(cfg, s, es[0]), LedgerAfter(cfg, l, es[0]), es[0].now, es[1..], key);
      assert ClockAfter(clock, es) == ClockAfter(es[0].now, es[1..]);
    }
  }

  predicate LedgerSound(cfg: Config, l: Ledger, clock: real) { forall k :: k in l ==> Sound(cfg, l[k], clock) }

  predicate Ordered(clock: real, es: seq<Event>)
    decreases |es|
  {
    es == [] || (es[0].now >= clock && Ordered(es[0].now, es[1..]))
  }

  function LedgerBudget(cfg: Config, l: Ledger, key: string, now: real): real {
    if key in l then Refilled(l[key], now) else cfg.burst as real
  }

  lemma {:induction false} LedgerStep(cfg: Config, l: Ledger, clock: real, e: Event, key: string)
    requires cfg.rate >= 0.0 && cfg.burst >= 1 && LedgerSound(cfg, l, clock) && e.now >= clock
    ensures LedgerSound(cfg, LedgerAfter(cfg, l, e), e.now)
    ensures (if e.Request? && e.key == key && LedgerAllows(l, key, e.now) then 1.0 else 0.0) +
      LedgerBudget(cfg, LedgerAfter(cfg, l, e), key, e.now) <= LedgerBudget(cfg, l, key, clock) + Earned(e.now - clock, cfg.rate)
    ensures 0.0 <= LedgerBudget(cfg, l, key, clock) <= cfg.burst as real
  {
    forall k | k in l ensures Sound(cfg, l[k], e.now) && Sound(cfg, Charged(l[k], e.now), e.now) {
      SoundLater(cfg, l[k], clock, e.now);
    }
    EarnedAdds(cfg.rate, clock, e.now, e.now);
    NewBudget(cfg, e.now);
    if key in l {
      BudgetGrows(cfg, l[key], clock, e.now);
      ChargedBudget(cfg, l[key], e.now);
    }
    hide Refilled, Earned, Charged;
  }

  lemma {:induction false} LedgerBound(cfg: Config, l: Ledger, start: real, es: seq<Event>, key: string, end: real)
    requires cfg.rate >= 0.0 && cfg.burst >= 1 && LedgerSound(cfg, l, start)
    requires Ordered(start, es) && Before(es, end) && start <= end
    ensures LedgerGranted(cfg, l, es, key) as real <= LedgerBudget(cfg, l, key, start) + Earned(end - start, cfg.rate)
    ensures LedgerBudget(cfg, l, key, start) <= cfg.burst as real
    decreases |es|
  {
    LedgerStep(cfg, l, start, Sweep(start), key);
    EarnedAdds(cfg.rate, start, end, end);
    hide Earned, LedgerBudget, LedgerAfter, LedgerSound, LedgerAllows;
    if es != [] {
      var e := es[0];
      LedgerStep(cfg, l, start, e, key);
      LedgerBound(cfg, LedgerAfter(cfg, l, e), e.now, es[1..], key, end);
      EarnedAdds(cfg.rate, start, e.now, end);
    }
  }

  lemma {:induction false} RunIsOrdered(cfg: Config, s: State, clock: real, es: seq<Event>)
    requires IsRun(cfg, s, clock, es)
    ensures Ordered(clock, es)
    decreases |es|
  {
    if es != [] {
      RunIsOrdered(cfg, After(cfg, s, es[0]), es[0].now, es[1..]);
    }
  }

  lemma {:induction false} RunSplits(cfg: Config, s: State, clock: real, a: seq<Event>, b: seq<Event>)
    requires IsRun(cfg, s, clock, a + b) && NeverOverflows(cfg, s, a + b)
    ensures IsRun(cfg, s, clock, a) && NeverOverflows(cfg, s, a)
    ensures IsRun(cfg, StateAfter(cfg, s, a), ClockAfter(clock, a), b) && NeverOverflows(cfg, StateAfter(cfg, s, a), b)
    decreases |a|
  {
    hide After, Possible, Overflows;
    if a == [] {
      assert a + b == b;
    } else {
      assert (a + b)[0] == a[0] && (a + b)[1..] == a[1..] + b;
      RunSplits(cfg, After(cfg, s, a[0]), a[0].now, a[1..], b);
      assert ClockAfter(clock, a) == ClockAfter(a[0].now, a[1..]);
    }
  }

  /** Over any stretch of any run, however often the key expires in it: from
      `start`, after the events `before`, up to `end`, at most
      burst + rate * (end - start) of a key's requests are granted. */
  lemma {:induction false} BoundAcrossExpiry(cfg: Config, clock: real, before: seq<Event>, es: seq<Event>,
                                             key: string, start: real, end: real)
    requires cfg.rate >= 0.0 && RemembersEnough(cfg)
    requires IsRun(cfg, map[], clock, before + es) && NeverOverflows(cfg, map[], before + es)
    requires ClockAfter(clock, before) <= start <= end && Before(es, end) && (es != [] ==> start <= es[0].now)
    ensures Granted(cfg, StateAfter(cfg, map[], before), es, key) as real <= cfg.burst as real + Earned(end - start, cfg.rate)
  {
    hide Earned, IsRun, NeverOverflows, Granted, LedgerGranted;
    RunSplits(cfg, map[], clock, before, es);
    RunStaysAgreed(cfg, map[], map[], clock, before, key);
    var s, l := StateAfter(cfg, map[], before), LedgerAfterAll(cfg, map[], before);
    RunStaysAgreed(cfg, s, l, ClockAfter(clock, before), es, key);
    RunIsOrdered(cfg, s, ClockAfter(clock, before), es);
    AgreeLater(cfg, s, l, ClockAfter(clock, before), start);
    assert LedgerSound(cfg, l, start);
    LedgerBound(cfg, l, start, es, key, end);
  }

  predicate Silent(es: seq<Event>, key: string) {
    forall i :: 0 <= i < |es| ==> es[i].Request? ==> es[i].key != key
  }

  lemma {:induction false} UntouchedWhileSilent(cfg: Config, s: State, es: seq<Event>, key: string)
    requires Silent(es, key)
    ensures key in StateAfter(cfg, s, es) ==> key in s && StateAfter(cfg, s, es)[key] == s[key]
    decreases |es|
  {
    if es != [] {
      var s1 := After(cfg, s, es[0]);
      assert key in s1 ==> key in s && s1[key] == s[key];
      UntouchedWhileSilent(cfg, s1, es[1..], key);
    }
  }

  /** A client that waits until one token has been earned since its last call,
      granted or not, is served, whatever the others do meanwhile. */
  lemma PatientClientIsServed(cfg: Config, s: State, clock: real, call: Event, others: seq<Event>, now: real)
    requires cfg.rate > 0.0 && cfg.burst >= 1 && AllSound(cfg, s, clock)
    requires call.Request? && Silent(others, call.key) && IsRun(cfg, s, clock, [call] + others)
    requires now >= call.now + 1.0 / cfg.rate && now >= ClockAfter(call.now, others)
    ensures Allowed(StateAfter(cfg, s, [call] + others), call.key, now)
  {
    var es := [call] + others;
    assert es[1..] == others && es[0] == call;
    var s1 := After(cfg, s, call);
    StepKeepsSound(cfg, s, clock, call);
    UntouchedWhileSilent(cfg, s1, others, call.key);
    BucketAfterCall(cfg, s, call);
    if call.key in StateAfter(cfg, s, es) {
      OneTokenEarned(cfg, s1[call.key].bucket, now);
    }
  }

  lemma BucketAfterCall(cfg: Config, s: State, call: Event)
    requires call.Request?
    ensures var s1 := After(cfg, s, call); call.key in s1 && s1[call.key].bucket.lastRefill == call.now
  {
  }

  lemma OneTokenEarned(cfg: Config, b: Bucket, now: real)
    requires cfg.rate > 0.0 && cfg.burst >= 1 && Sound(cfg, b, b.lastRefill) && now >= b.lastRefill + 1.0 / cfg.rate
    ensures Grants(b, now)
  {
    MulMono(cfg.rate, 1.0 / cfg.rate, now - b.lastRefill);
    assert Earned(1.0 / cfg.rate, cfg.rate) == 1.0;
  }
}
