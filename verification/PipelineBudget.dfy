/** The delay budget of a pipeline request, from its URL to the time slept. */
module PipelineBudget {
  import opened Bytes
  import opened Decimal
  import opened Int64
  import opened Paths
  import opened Pipeline
  import opened PipelineDelays
  import PipelineTables

  const MAX_DELAYS: nat := 9

  lemma {:induction false} SumBounds(ds: seq<Range>, maxVal: int)
    requires AllInBudget(ds, maxVal) && maxVal >= 0
    ensures 0 <= Total(ds) <= |ds| * maxVal
  {
    if ds != [] {
      SumBounds(ds[..|ds| - 1], maxVal);
      assert |ds| * maxVal == (|ds| - 1) * maxVal + maxVal;
    }
  }

  lemma ProductMono(a: nat, b: nat, c: nat)
    requires a <= b
    ensures a * c <= b * c
  {
  }

  lemma TotalIsExact(ds: seq<Range>, maxVal: duration)
    requires |ds| <= MAX_DELAYS && AllInBudget(ds, maxVal) && 0 <= maxVal && MAX_DELAYS * maxVal < TWO_TO_THE_63
    ensures WrappedSum(ds) == Total(ds)
  {
    SumBounds(ds, maxVal);
    WrappedSumIsWrap(ds);
    ProductMono(|ds|, MAX_DELAYS, maxVal);
    hide Total, WrappedSum, Wrap, AllInBudget;
    WrapsToItself(Total(ds));
  }

  // ----- the delay loop -----

  /** One delay; `draw` is the number behind rand.Int63n. */
  function DelayOf(r: Range, draw: nat): int {
    if r.max > r.min then r.min + draw % (r.max - r.min + 1) else r.min
  }

  /** rand.Int63n panics when the width of the range overflows. */
  predicate Panics(r: Range) { r.max > r.min && r.max - r.min + 1 >= TWO_TO_THE_63 }

  predicate AnyPanics(ds: seq<Range>) { exists i :: 0 <= i < |ds| && Panics(ds[i]) }

  function Slept(ds: seq<Range>, draws: nat -> nat): int {
    if ds == [] then 0 else Slept(ds[..|ds| - 1], draws) + DelayOf(ds[|ds| - 1], draws(|ds| - 1))
  }

  /** The delay loop. Returns the time slept, None for a panic. */
  method Sleep(delays: seq<Range>, draws: nat -> nat) returns (actual: Option<int>)
    requires AllInBudget(delays, TWO_TO_THE_63 - 1)
    ensures actual == if AnyPanics(delays) then None else Some(Slept(delays, draws))
  {
    var actualDelay := 0;
    for i := 0 to |delays|
      invariant forall j :: 0 <= j < i ==> !Panics(delays[j])
      invariant actualDelay == Slept(delays[..i], draws)
    {
      var d := delays[i];
      assert InBudget(d, TWO_TO_THE_63 - 1);
      var delay: int := d.min;
      if d.max > d.min {
        var width := Wrap(d.max - d.min + 1);
        Width(d);
        if width <= 0 {
          assert Panics(delays[i]);
          return None;
        }
        delay := d.min + draws(i) % width;
      }
      if delay > 0 {
        actualDelay := actualDelay + delay;
      }
      assert delays[..i + 1][..i] == delays[..i];
    }
    assert delays[..|delays|] == delays;
    actual := Some(actualDelay);
  }

  lemma Width(r: Range)
    requires InBudget(r, TWO_TO_THE_63 - 1) && r.max > r.min
    ensures var width := Wrap(r.max - r.min + 1);
      if Panics(r) then width <= 0 else width == r.max - r.min + 1
  {
  }

  lemma {:induction false} SleptBounds(ds: seq<Range>, draws: nat -> nat, maxVal: int)
    requires AllInBudget(ds, maxVal)
    ensures 0 <= Slept(ds, draws) <= Total(ds)
  {
    if ds != [] {
      SleptBounds(ds[..|ds| - 1], draws, maxVal);
    }
  }

  // ----- from the URL to the sleep -----

  datatype Admission = Refused | Panicked | Delayed(slept: int)

  /** What becomes of a request up to the point where its terminal is dispatched. */
  function Admit(urlPath: string, rules: Rules, draws: nat -> nat): Admission {
    match Parse(PipelineTables.Shipped(), urlPath)
    case Err(_) => Refused
    case Ok(p) => AdmitSteps(p.modifiers, rules, draws)
  }

  function AdmitSteps(ms: seq<Step>, rules: Rules, draws: nat -> nat): Admission {
    match Check(ms, rules)
    case None => Refused
    case Some(c) =>
      if c.total > rules.maxVal then Refused
      else if AnyPanics(c.delays) then Panicked
      else Delayed(Slept(c.delays, draws))
  }

  /** The handler Pipeline up to there. If nine times the maximum fits int64, it
      does not panic and sleeps no longer than the maximum. */
  method HandlePipeline(urlPath: string, rules: Rules, draws: nat -> nat) returns (r: Admission)
    requires urlPath != "" && urlPath[0] == '/'
    ensures r == Admit(urlPath, rules, draws)
    ensures 0 <= rules.maxVal && MAX_DELAYS * rules.maxVal < TWO_TO_THE_63 ==>
              r.Refused? || (r.Delayed? && 0 <= r.slept <= rules.maxVal)
  {
    if 0 <= rules.maxVal && MAX_DELAYS * rules.maxVal < TWO_TO_THE_63 {
      AdmittedIsBounded(urlPath, rules, draws);
    }
    hide Parse, Check, PipelineTables.Shipped, Slept, AnyPanics;
    var result := ParsePipeline(PipelineTables.Shipped(), urlPath);
    if result.Err? {
      return Refused;
    }
    var checked := CheckModifiers(result.value.modifiers, rules);
    if checked.None? || checked.value.total > rules.maxVal {
      return Refused;
    }
    CheckedBudget(result.value.modifiers, rules);
    var actual := Sleep(checked.value.delays, draws);
    r := if actual.None? then Panicked else Delayed(actual.value);
  }

  lemma {:induction false} AdmittedIsBounded(urlPath: string, rules: Rules, draws: nat -> nat)
    requires urlPath != "" && urlPath[0] == '/'
    requires 0 <= rules.maxVal && MAX_DELAYS * rules.maxVal < TWO_TO_THE_63
    ensures var r := Admit(urlPath, rules, draws); r.Refused? || (r.Delayed? && 0 <= r.slept <= rules.maxVal)
  {
    hide Parse, Check, PipelineTables.Shipped, DelaySteps, Slept, WellFormed, DelaysTakeOne;
    if Parse(PipelineTables.Shipped(), urlPath).Ok? {
      ShippedDelays();
      PipelineTables.ShippedIsWellFormed();
      AtMostNineDelays(PipelineTables.Shipped(), urlPath);
      StepsAreBounded(Parse(PipelineTables.Shipped(), urlPath).value.modifiers, rules, draws);
    }
  }

  lemma {:induction false} StepsAreBounded(ms: seq<Step>, rules: Rules, draws: nat -> nat)
    requires |DelaySteps(ms)| <= MAX_DELAYS && 0 <= rules.maxVal && MAX_DELAYS * rules.maxVal < TWO_TO_THE_63
    ensures var r := AdmitSteps(ms, rules, draws); r.Refused? || (r.Delayed? && 0 <= r.slept <= rules.maxVal)
  {
    hide Check, DelaySteps, Slept, Total, WrappedSum, ParseDelayRange;
    if Check(ms, rules).Some? {
      var ds := Check(ms, rules).value.delays;
      CheckedDelays(ms, rules);
      CheckedBudget(ms, rules);
      TotalIsExact(ds, rules.maxVal);
      SleptBounds(ds, draws, rules.maxVal);
      assert forall i :: 0 <= i < |ds| ==> InBudget(ds[i], rules.maxVal) && !Panics(ds[i]);
    }
  }

  // ----- when the budget holds -----

  predicate DelaysTakeOne(t: Tables) {
    && "delay" in t.modifiers && t.modifiers["delay"] == 1
    && "response_delay" in t.modifiers && t.modifiers["response_delay"] == 1
  }

  lemma {:induction false} ShippedDelays()
    ensures DelaysTakeOne(PipelineTables.Shipped())
  {
  }

  lemma {:induction false} DelaysTakeRoom(t: Tables, ms: seq<Step>)
    requires DelaysTakeOne(t) && GoodModifiers(t, ms)
    ensures 2 * |DelaySteps(ms)| <= |ModifierSegments(ms)|
  {
    if ms != [] {
      var init, m := ms[..|ms| - 1], ms[|ms| - 1];
      DelaysTakeRoom(t, init);
      ModifierSegmentsSnoc(init, m);
      assert ms == init + [m];
      assert GoodModifier(t, m);
    }
  }

  /** A parsed pipeline has at most nine delays. */
  lemma AtMostNineDelays(t: Tables, urlPath: string)
    requires WellFormed(t) && DelaysTakeOne(t) && urlPath != "" && urlPath[0] == '/' && Parse(t, urlPath).Ok?
    ensures |DelaySteps(Parse(t, urlPath).value.modifiers)| <= MAX_DELAYS
  {
    SegmentsOfRooted(urlPath);
    var core, extras := ParseSound(t, SegmentsOf(urlPath));
    DelaysTakeRoom(t, Parse(t, urlPath).value.modifiers);
  }

  /** No request is made to sleep longer than the maximum, whatever is drawn. */
  ghost predicate BudgetHolds(rules: Rules) {
    forall urlPath, draws :: urlPath != "" && urlPath[0] == '/' && Admit(urlPath, rules, draws).Delayed? ==>
      Admit(urlPath, rules, draws).slept <= rules.maxVal
  }

  /** The maximum as a duration in nanoseconds, as time.ParseDuration reads it. */
  function Nanoseconds(d: nat): string { Itoa(d) + "ns" }

  lemma NanosecondsArePlain(d: nat)
    ensures Plain(Nanoseconds(d)) && '-' !in Nanoseconds(d)
  {
    var s := Itoa(d);
    assert forall i :: 0 <= i < |s| ==> IsDigit(s[i]);
    assert Nanoseconds(d)[|s|] == 'n';
  }

  lemma {:induction false} NoDash(s: string)
    requires '-' !in s
    ensures CutDash(s) == None
  {
    if s != "" {
      NoDash(s[1..]);
    }
  }

  function Copies(k: nat, d: duration): (ds: seq<Range>)
    ensures |ds| == k && forall i :: 0 <= i < k ==> ds[i] == Range(d, d)
  {
    seq(k, i => Range(d, d))
  }

  lemma {:induction false} SumOfCopies(k: nat, d: duration)
    ensures Total(Copies(k, d)) == k * d
  {
    if k > 0 {
      assert Copies(k, d)[..k - 1] == Copies(k - 1, d);
      SumOfCopies(k - 1, d);
      assert k * d == (k - 1) * d + d;
    }
  }

  /** `k` delay modifiers with the same argument. */
  function Delays(k: nat, value: string): (ms: seq<Step>)
    ensures |ms| == k && forall i :: 0 <= i < k ==> ms[i] == Step("delay", [value])
  {
    seq(k, i => Step("delay", [value]))
  }

  /** The URL of `k` delays in front of get. */
  function DelayedGet(k: nat, value: string): string { PrintPipe(Pipe(Delays(k, value), Step("get", []))) }

  lemma {:induction false} DelaysSize(k: nat, value: string)
    ensures |ModifierSegments(Delays(k, value))| == 2 * k
  {
    if k > 0 {
      assert Delays(k, value) == Delays(k - 1, value) + [Step("delay", [value])];
      ModifierSegmentsSnoc(Delays(k - 1, value), Step("delay", [value]));
      DelaysSize(k - 1, value);
    }
  }

  lemma {:induction false} DelayedGetIsParsed(k: nat, value: string)
    requires k <= MAX_DELAYS && Plain(value)
    ensures DelayedGet(k, value) != "" && DelayedGet(k, value)[0] == '/'
    ensures Parse(PipelineTables.Shipped(), DelayedGet(k, value)) == Ok(Pipe(Delays(k, value), Step("get", [])))
  {
    var t, ms, core := PipelineTables.Shipped(), Delays(k, value), ["get"];
    PipelineTables.ShippedIsWellFormed();
    ShippedDelays();
    PipelineTables.GetEntry();
    DelaysSize(k, value);
    hide PipelineTables.Shipped, WellFormed, PrintPipe;
    var p, segs := Pipe(ms, Step("get", [])), ModifierSegments(ms) + core + [];
    assert GoodModifiers(t, ms);
    assert Plain("get") && core == ["get"] + [];
    assert Derives(t, p, segs, core, []);
    ParseOfPrint(t, p, segs, core);
    assert DelayedGet(k, value) != "" && DelayedGet(k, value)[0] == '/' by {
      Beginning(p);
    }
  }

  lemma Beginning(p: Pipe)
    ensures PrintPipe(p) != "" && PrintPipe(p)[0] == '/'
  {
    assert ModifierSegments(p.modifiers) + StepSegments(p.terminal) != [];
  }

  lemma {:induction false} CheckDelays(k: nat, value: string, d: duration, rules: Rules)
    requires 0 <= d <= rules.maxVal && '-' !in value && rules.parse(value) == Some(d)
    ensures Check(Delays(k, value), rules) == Some(Checked(WrappedSum(Copies(k, d)), Copies(k, d), None))
  {
    if k > 0 {
      CheckDelays(k - 1, value, d, rules);
      assert Delays(k, value)[..k - 1] == Delays(k - 1, value);
      assert Copies(k, d)[..k - 1] == Copies(k - 1, d);
      hide Wrap, CheckOne;
      OneDelay(Checked(WrappedSum(Copies(k - 1, d)), Copies(k - 1, d), None), value, d, rules);
      assert Copies(k - 1, d) + [Range(d, d)] == Copies(k, d);
    }
  }

  lemma {:induction false} OneDelay(c: Checked, value: string, d: duration, rules: Rules)
    requires 0 <= d <= rules.maxVal && '-' !in value && rules.parse(value) == Some(d)
    ensures CheckOne(c, Step("delay", [value]), rules) == Some(c.(total := Wrap(c.total + d), delays := c.delays + [Range(d, d)]))
  {
    NoDash(value);
    AcceptedDelays(value, rules.maxVal, rules.parse, Range(d, d));
    hide ParseDelayRange, Wrap;
    assert IsDelay(Step("delay", [value]));
  }

  lemma {:induction false} SleptOfCopies(k: nat, d: duration, draws: nat -> nat)
    ensures Slept(Copies(k, d), draws) == Total(Copies(k, d))
  {
    if k > 0 {
      assert Copies(k, d)[..k - 1] == Copies(k - 1, d);
      SleptOfCopies(k - 1, d, draws);
    }
  }

  lemma {:induction false} CopiesOverflow(k: nat, d: duration)
    requires k >= 2 && TWO_TO_THE_63 <= k * d < 2 * TWO_TO_THE_63
    ensures WrappedSum(Copies(k, d)) < 0 && Total(Copies(k, d)) == k * d > d
  {
    SumOfCopies(k, d);
    WrappedSumIsWrap(Copies(k, d));
    WrapsNegative(k * d);
    hide Total, WrappedSum, Wrap, Copies;
  }

  /** A URL of delays whose total is accepted sleeps for all of them. */
  lemma {:induction false} DelaysAdmitted(k: nat, rules: Rules, draws: nat -> nat)
    requires k <= MAX_DELAYS && 0 <= rules.maxVal && WrappedSum(Copies(k, rules.maxVal)) <= rules.maxVal
    requires rules.parse(Nanoseconds(rules.maxVal)) == Some(rules.maxVal)
    ensures var urlPath := DelayedGet(k, Nanoseconds(rules.maxVal));
      && urlPath != "" && urlPath[0] == '/'
      && Admit(urlPath, rules, draws) == Delayed(Total(Copies(k, rules.maxVal)))
  {
    var value, d := Nanoseconds(rules.maxVal), rules.maxVal;
    CopiesDoNotPanic(k, d);
    hide *;
    NanosecondsArePlain(d);
    DelayedGetIsParsed(k, value);
    CheckDelays(k, value, d, rules);
    SleptOfCopies(k, d, draws);
    AdmittedFor(DelayedGet(k, value), Pipe(Delays(k, value), Step("get", [])),
                Checked(WrappedSum(Copies(k, d)), Copies(k, d), None), rules, draws);
  }

  lemma CopiesDoNotPanic(k: nat, d: duration)
    ensures !AnyPanics(Copies(k, d))
  {
  }

  lemma {:induction false} AdmittedFor(urlPath: string, p: Pipe, c: Checked, rules: Rules, draws: nat -> nat)
    requires Parse(PipelineTables.Shipped(), urlPath) == Ok(p) && Check(p.modifiers, rules) == Some(c)
    requires c.total <= rules.maxVal && !AnyPanics(c.delays)
    ensures Admit(urlPath, rules, draws) == Delayed(Slept(c.delays, draws))
  {
    hide Parse, Check, AnyPanics, Slept, PipelineTables.Shipped;
  }

  /** A URL whose total wraps to a negative number: it is admitted and, whatever
      is drawn, sleeps too long. */
  lemma {:induction false} Overflow(k: nat, rules: Rules, draws: nat -> nat)
    requires 2 <= k <= MAX_DELAYS && TWO_TO_THE_63 <= k * rules.maxVal < 2 * TWO_TO_THE_63 && 0 <= rules.maxVal
    requires rules.parse(Nanoseconds(rules.maxVal)) == Some(rules.maxVal)
    ensures var urlPath := DelayedGet(k, Nanoseconds(rules.maxVal));
      && urlPath != "" && urlPath[0] == '/'
      && Admit(urlPath, rules, draws) == Delayed(k * rules.maxVal) && k * rules.maxVal > rules.maxVal
  {
    hide Admit, DelayedGet, Nanoseconds, Copies, Total, WrappedSum;
    CopiesOverflow(k, rules.maxVal);
    DelaysAdmitted(k, rules, draws);
  }

  /** The budget is enforced for every URL if and only if nine times the maximum
      fits int64, given that the maximum itself can be written as a duration. */
  lemma {:induction false} BudgetHoldsIff(rules: Rules)
    requires 0 <= rules.maxVal && rules.parse(Nanoseconds(rules.maxVal)) == Some(rules.maxVal)
    ensures BudgetHolds(rules) <==> MAX_DELAYS * rules.maxVal < TWO_TO_THE_63
  {
    hide Admit, Nanoseconds, DelayedGet;
    var maxVal := rules.maxVal;
    if MAX_DELAYS * maxVal < TWO_TO_THE_63 {
      forall urlPath, draws | urlPath != "" && urlPath[0] == '/' && Admit(urlPath, rules, draws).Delayed?
        ensures Admit(urlPath, rules, draws).slept <= maxVal
      {
        AdmittedIsBounded(urlPath, rules, draws);
      }
    } else {
      var k := if 2 * maxVal >= TWO_TO_THE_63 then 2
               else if 3 * maxVal >= TWO_TO_THE_63 then 3
               else if 4 * maxVal >= TWO_TO_THE_63 then 4
               else if 5 * maxVal >= TWO_TO_THE_63 then 5
               else if 6 * maxVal >= TWO_TO_THE_63 then 6
               else if 7 * maxVal >= TWO_TO_THE_63 then 7
               else if 8 * maxVal >= TWO_TO_THE_63 then 8 else 9;
      Overflow(k, rules, i => 0);
    }
  }
}
