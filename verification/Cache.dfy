/** The bounded cache with random eviction, and the requests to the PDF handler
    that share one. */
module Cache {
  import opened Bytes

  datatype Key = Key(pages: int, size: string, seed: int)

  type Data = seq<byte>
  type Entries = map<Key, Data>

  /** generatePDF. */
  type Generator = Key -> Data

  /** The cache after a put, if `victim` is what the map iteration comes to first. */
  function Stored(maxSize: nat, s: Entries, key: Key, data: Data, victim: Key): Entries {
    (if |s| >= maxSize then s - {victim} else s)[key := data]
  }

  class BoundedCache {
    const maxSize: nat
    var entries: Entries

    constructor (maxSize: nat)
      ensures this.maxSize == maxSize && entries == map[]
    {
      this.maxSize, entries := maxSize, map[];
    }

    method Get(key: Key) returns (found: Option<Data>)
      ensures found == if key in entries then Some(entries[key]) else None
    {
      found := if key in entries then Some(entries[key]) else None;
    }

    /** Any entry may be the one that goes, even when `key` itself is present. */
    method Put(key: Key, data: Data)
      modifies this`entries
      ensures exists victim :: (old(entries) == map[] || victim in old(entries))
                               && entries == Stored(maxSize, old(entries), key, data, victim)
    {
      ghost var victim := key;
      if entries != map[] {
        var k :| k in entries;
        victim := k;
        if |entries| >= maxSize {
          entries := entries - {k};
        }
      }
      entries := entries[key := data];
      assert entries == Stored(maxSize, old(entries), key, data, victim);
    }
  }

  // ----- requests, step by step -----

  datatype Stage = Asked | Missed | Generated(data: Data) | Answered(data: Data)

  /** One request; its seed is the time when it asks for no caching. */
  datatype Request = Request(key: Key, nocache: bool, stage: Stage)

  datatype System = System(entries: Entries, requests: seq<Request>)

  /** Some request goes on; `victim` matters when it puts into a full cache. */
  datatype Step = Step(request: nat, victim: Key)

  function Continued(maxSize: nat, generate: Generator, s: Entries, r: Request, victim: Key): (Entries, Stage) {
    match r.stage
    case Asked => (s, if !r.nocache && r.key in s then Answered(s[r.key]) else Missed)
    case Missed => (s, Generated(generate(r.key)))
    case Generated(data) => (if r.nocache then s else Stored(maxSize, s, r.key, data, victim), Answered(data))
    case Answered(_) => (s, r.stage)
  }

  function Advance(maxSize: nat, generate: Generator, sys: System, step: Step): System {
    if step.request >= |sys.requests| then sys
    else
      var r := sys.requests[step.request];
      var (entries, stage) := Continued(maxSize, generate, sys.entries, r, step.victim);
      System(entries, sys.requests[step.request := r.(stage := stage)])
  }

  function Run(maxSize: nat, generate: Generator, sys: System, steps: seq<Step>): System {
    if steps == [] then sys
    else Advance(maxSize, generate, Run(maxSize, generate, sys, steps[..|steps| - 1]), steps[|steps| - 1])
  }

  /** The PDF handler, on its own, is a request's three steps. */
  method Pdf(cache: BoundedCache, key: Key, nocache: bool, generate: Generator) returns (data: Data)
    modifies cache`entries
    ensures exists victim ::
              var step, size := Step(0, victim), cache.maxSize;
              var sys := System(old(cache.entries), [Request(key, nocache, Asked)]);
              Advance(size, generate, Advance(size, generate, Advance(size, generate, sys, step), step), step) ==
                System(cache.entries, [Request(key, nocache, Answered(data))])
  {
    ghost var sys := System(old(cache.entries), [Request(key, nocache, Asked)]);
    ghost var step := Step(0, key);
    if !nocache {
      var found := cache.Get(key);
      if found.Some? {
        data := found.value;
        assert Advance(cache.maxSize, generate, sys, step).requests == [Request(key, nocache, Answered(data))];
        return;
      }
    }
    assert Advance(cache.maxSize, generate, sys, step) == System(cache.entries, [Request(key, nocache, Missed)]);
    data := generate(key);
    if !nocache {
      cache.Put(key, data);
      ghost var victim :| cache.entries == Stored(cache.maxSize, old(cache.entries), key, data, victim);
      step := Step(0, victim);
    }
    assert Advance(cache.maxSize, generate, System(old(cache.entries), [Request(key, nocache, Missed)]), step) ==
           System(old(cache.entries), [Request(key, nocache, Generated(data))]);
    assert Advance(cache.maxSize, generate, System(old(cache.entries), [Request(key, nocache, Generated(data))]), step) ==
           System(cache.entries, [Request(key, nocache, Answered(data))]);
  }

  // ----- every interleaving -----

  /** Everything generated, cached or answered is what the generator gives for
      its key, and only keys of cacheable requests are cached. */
  predicate Sound(generate: Generator, sys: System) {
    SoundRequests(generate, sys.requests) && SoundEntries(generate, sys.entries, sys.requests)
  }

  predicate SoundRequests(generate: Generator, requests: seq<Request>) {
    forall i :: 0 <= i < |requests| ==> SoundRequest(generate, requests[i])
  }

  predicate SoundEntries(generate: Generator, s: Entries, requests: seq<Request>) {
    forall k :: k in s ==> s[k] == generate(k) && WasAsked(requests, k)
  }

  predicate SoundRequest(generate: Generator, r: Request) {
    r.stage.Generated? || r.stage.Answered? ==> r.stage.data == generate(r.key)
  }

  predicate WasAsked(requests: seq<Request>, key: Key) {
    exists i :: 0 <= i < |requests| && requests[i].key == key && !requests[i].nocache
  }

  predicate SameRequests(before: seq<Request>, after: seq<Request>) {
    && |before| == |after|
    && forall i :: 0 <= i < |before| ==> after[i].key == before[i].key && after[i].nocache == before[i].nocache
  }

  function Bound(maxSize: nat): nat { if maxSize >= 1 then maxSize else 1 }

  lemma StoredIsBounded(maxSize: nat, s: Entries, key: Key, data: Data, victim: Key)
    requires |s| <= Bound(maxSize) && (s == map[] || victim in s)
    ensures var s' := Stored(maxSize, s, key, data, victim);
      && |s'| <= Bound(maxSize)
      && forall k :: k in s' ==> if k == key then s'[k] == data else k in s && s'[k] == s[k]
  {
  }

  /** The map iteration comes to an entry of the map, if there is one. */
  predicate Possible(sys: System, step: Step) { sys.entries == map[] || step.victim in sys.entries }

  predicate AllPossible(maxSize: nat, generate: Generator, sys: System, steps: seq<Step>) {
    forall i :: 0 <= i < |steps| ==> Possible(Run(maxSize, generate, sys, steps[..i]), steps[i])
  }

  lemma {:induction false} RequestContinues(maxSize: nat, generate: Generator, sys: System, i: nat, victim: Key)
    requires Sound(generate, sys) && |sys.entries| <= Bound(maxSize) && i < |sys.requests|
    requires sys.entries == map[] || victim in sys.entries
    ensures var r := sys.requests[i]; var (entries, stage) := Continued(maxSize, generate, sys.entries, r, victim);
      && SoundRequest(generate, r.(stage := stage))
      && SoundEntries(generate, entries, sys.requests) && |entries| <= Bound(maxSize)
  {
    hide Stored, Bound, WasAsked;
    var r := sys.requests[i];
    assert SoundRequest(generate, r);
    if r.stage.Generated? && !r.nocache {
      StoredIsBounded(maxSize, sys.entries, r.key, r.stage.data, victim);
      IsAsked(sys.requests, i);
    }
  }

  lemma IsAsked(requests: seq<Request>, i: nat)
    requires i < |requests| && !requests[i].nocache
    ensures WasAsked(requests, requests[i].key)
  {
  }

  lemma {:induction false} StillAsked(generate: Generator, s: Entries, requests: seq<Request>, i: nat, stage: Stage)
    requires i < |requests| && SoundEntries(generate, s, requests)
    ensures SoundEntries(generate, s, requests[i := requests[i].(stage := stage)])
  {
    var after := requests[i := requests[i].(stage := stage)];
    forall k | k in s
      ensures WasAsked(after, k)
    {
      var j :| 0 <= j < |requests| && requests[j].key == k && !requests[j].nocache;
      assert after[j].key == k;
    }
  }

  lemma {:induction false} AdvanceIsSound(maxSize: nat, generate: Generator, sys: System, step: Step)
    requires Sound(generate, sys) && |sys.entries| <= Bound(maxSize) && Possible(sys, step)
    ensures var next := Advance(maxSize, generate, sys, step);
      Sound(generate, next) && |next.entries| <= Bound(maxSize) && SameRequests(sys.requests, next.requests)
  {
    hide Continued, Bound, SoundEntries, SoundRequest;
    if step.request < |sys.requests| {
      var r := sys.requests[step.request];
      var (entries, stage) := Continued(maxSize, generate, sys.entries, r, step.victim);
      RequestContinues(maxSize, generate, sys, step.request, step.victim);
      StillAsked(generate, entries, sys.requests, step.request, stage);
    }
  }

  /** However the steps of however many requests interleave, and whatever is
      evicted, each answer is what the generator gives for the request's own
      key, and the cache never holds more than its bound. */
  lemma {:induction false} EveryAnswerIsGenerated(maxSize: nat, generate: Generator, requests: seq<Request>,
                                                  steps: seq<Step>)
    requires forall i :: 0 <= i < |requests| ==> requests[i].stage.Asked?
    requires AllPossible(maxSize, generate, System(map[], requests), steps)
    ensures var sys := Run(maxSize, generate, System(map[], requests), steps);
      Sound(generate, sys) && |sys.entries| <= Bound(maxSize) && SameRequests(requests, sys.requests)
  {
    if steps != [] {
      var init := steps[..|steps| - 1];
      forall i | 0 <= i < |init|
        ensures Possible(Run(maxSize, generate, System(map[], requests), init[..i]), init[i])
      {
        assert init[..i] == steps[..i];
      }
      EveryAnswerIsGenerated(maxSize, generate, requests, init);
      AdvanceIsSound(maxSize, generate, Run(maxSize, generate, System(map[], requests), init), steps[|steps| - 1]);
    }
  }

  // ----- no request waits for another -----

  function StepsOf(steps: seq<Step>, i: nat): nat {
    if steps == [] then 0
    else StepsOf(steps[..|steps| - 1], i) + if steps[|steps| - 1].request == i then 1 else 0
  }

  function Progress(stage: Stage): nat {
    match stage case Asked => 0 case Missed => 1 case Generated(_) => 2 case Answered(_) => 3
  }

  /** Three steps of its own answer a request, whatever the others do. */
  lemma {:induction false} ThreeStepsAnswer(maxSize: nat, generate: Generator, sys: System, steps: seq<Step>, i: nat)
    requires i < |sys.requests|
    ensures var after := Run(maxSize, generate, sys, steps).requests;
      && |after| == |sys.requests| && Progress(after[i].stage) >= Least(3, StepsOf(steps, i))
      && (StepsOf(steps, i) >= 3 ==> after[i].stage.Answered?)
  {
    if steps != [] {
      ThreeStepsAnswer(maxSize, generate, sys, steps[..|steps| - 1], i);
    }
  }
}
