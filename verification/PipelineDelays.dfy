/** Delay modifiers: ranges, and the running total as the int64 it is. */
module PipelineDelays {
  import opened Bytes
  import opened Int64
  import opened Pipeline

  /** A time.Duration, in nanoseconds. */
  type duration = int64

  /** time.ParseDuration with the float-seconds fallback, kept abstract. */
  type DurationParser = string -> Option<duration>

  datatype Range = Range(min: duration, max: duration)

  /** strings.SplitN(s, "-", 2): the parts around the first dash. */
  function CutDash(s: string): Option<(string, string)> {
    if s == "" then None
    else if s[0] == '-' then Some(("", s[1..]))
    else match CutDash(s[1..])
      case None => None
      case Some(p) => Some(([s[0]] + p.0, p.1))
  }

  /** A value "a-b" whose halves both parse. */
  function AsRange(input: string, parse: DurationParser): Option<Range> {
    match CutDash(input)
    case Some((a, b)) =>
      if a != "" && parse(a).Some? && parse(b).Some? then Some(Range(parse(a).value, parse(b).value)) else None
    case None => None
  }

  /** parseDelayRange: a range, or a single duration; None for an error. */
  function ParseDelayRange(input: string, maxVal: duration, parse: DurationParser): Option<Range> {
    match AsRange(input, parse)
    case Some(r) => if r.min > r.max || r.min < 0 || r.max > maxVal then None else Some(r)
    case None =>
      match parse(input)
      case Some(d) => if d > maxVal || d < 0 then None else Some(Range(d, d))
      case None => None
  }

  predicate InBudget(r: Range, maxVal: int) { 0 <= r.min <= r.max <= maxVal }

  /** A delay is accepted exactly when it denotes a range within the budget:
      "a-b" when both halves parse, otherwise the value itself. */
  lemma AcceptedDelays(input: string, maxVal: duration, parse: DurationParser, r: Range)
    ensures ParseDelayRange(input, maxVal, parse) == Some(r) <==>
      && InBudget(r, maxVal)
      && (AsRange(input, parse) == Some(r) ||
          (AsRange(input, parse) == None && r.min == r.max && parse(input) == Some(r.min)))
  {
  }

  predicate IsDelay(s: Step) { s.name == "delay" || s.name == "response_delay" }

  datatype Checked = Checked(total: duration, delays: seq<Range>, status: Option<int>)

  function Argument(m: Step): string { if m.args == [] then "" else m.args[0] }

  /** What decides about the other modifiers: allowed headers and status codes. */
  datatype Rules = Rules(maxVal: duration, parse: DurationParser, header: string -> bool, code: string -> Option<int>)

  function CheckOne(c: Checked, m: Step, rules: Rules): Option<Checked> {
    if IsDelay(m) then
      match ParseDelayRange(Argument(m), rules.maxVal, rules.parse)
      case None => None
      case Some(r) => Some(c.(total := Wrap(c.total + r.max), delays := c.delays + [r]))
    else if m.name == "header" then if rules.header(Argument(m)) then Some(c) else None
    else if m.name == "status" then
      match rules.code(Argument(m))
      case None => None
      case Some(s) => Some(if c.status.None? then c.(status := Some(s)) else c)
    else Some(c)
  }

  /** All modifiers checked from left to right. */
  function Check(ms: seq<Step>, rules: Rules): Option<Checked> {
    if ms == [] then Some(Checked(0, [], None))
    else match Check(ms[..|ms| - 1], rules)
      case None => None
      case Some(c) => CheckOne(c, ms[|ms| - 1], rules)
  }

  lemma {:induction false} FailureIsFinal(ms: seq<Step>, i: nat, rules: Rules)
    requires i <= |ms| && Check(ms[..i], rules) == None
    ensures Check(ms, rules) == None
    decreases |ms|
  {
    if i < |ms| {
      assert ms[..|ms| - 1][..i] == ms[..i];
      FailureIsFinal(ms[..|ms| - 1], i, rules);
    } else {
      assert ms[..i] == ms;
    }
  }

  /** The validation loop of Pipeline. */
  method CheckModifiers(ms: seq<Step>, rules: Rules) returns (r: Option<Checked>)
    ensures r == Check(ms, rules)
  {
    var totalDelay: duration := 0;
    var delays: seq<Range> := [];
    var statusCode := 0;
    var hasStatus := false;
    for i := 0 to |ms|
      invariant Check(ms[..i], rules) == Some(Checked(totalDelay, delays, if hasStatus then Some(statusCode) else None))
    {
      var m := ms[i];
      assert ms[..i + 1][..i] == ms[..i];
      if m.name == "delay" || m.name == "response_delay" {
        var range := ParseDelayRange(Argument(m), rules.maxVal, rules.parse);
        if range.None? {
          FailureIsFinal(ms, i + 1, rules);
          return None;
        }
        totalDelay := Wrap(totalDelay + range.value.max);
        delays := delays + [range.value];
      } else if m.name == "header" {
        if !rules.header(Argument(m)) {
          FailureIsFinal(ms, i + 1, rules);
          return None;
        }
      } else if m.name == "status" {
        var code := rules.code(Argument(m));
        if code.None? {
          FailureIsFinal(ms, i + 1, rules);
          return None;
        }
        if !hasStatus {
          statusCode, hasStatus := code.value, true;
        }
      }
    }
    assert ms[..|ms|] == ms;
    r := Some(Checked(totalDelay, delays, if hasStatus then Some(statusCode) else None));
  }

  // ----- what the loop accumulates -----

  function Total(ds: seq<Range>): int {
    if ds == [] then 0 else Total(ds[..|ds| - 1]) + ds[|ds| - 1].max
  }

  function WrappedSum(ds: seq<Range>): duration {
    if ds == [] then 0 else Wrap(WrappedSum(ds[..|ds| - 1]) + ds[|ds| - 1].max)
  }

  function DelaySteps(ms: seq<Step>): seq<Step> {
    if ms == [] then [] else DelaySteps(ms[..|ms| - 1]) + if IsDelay(ms[|ms| - 1]) then [ms[|ms| - 1]] else []
  }

  predicate AllInBudget(ds: seq<Range>, maxVal: int) { forall i :: 0 <= i < |ds| ==> InBudget(ds[i], maxVal) }

  /** The code of the first status modifier. */
  function FirstStatus(ms: seq<Step>, rules: Rules): Option<int> {
    if ms == [] then None
    else if ms[0].name == "status" then rules.code(Argument(ms[0]))
    else FirstStatus(ms[1..], rules)
  }

  lemma {:induction false} FirstStatusSnoc(ms: seq<Step>, m: Step, rules: Rules)
    requires forall i :: 0 <= i < |ms| && ms[i].name == "status" ==> rules.code(Argument(ms[i])).Some?
    ensures FirstStatus(ms + [m], rules) ==
      if FirstStatus(ms, rules).Some? then FirstStatus(ms, rules)
      else if m.name == "status" then rules.code(Argument(m)) else None
  {
    if ms == [] {
      assert ([] + [m])[1..] == [];
    } else {
      assert (ms + [m])[1..] == ms[1..] + [m];
      FirstStatusSnoc(ms[1..], m, rules);
    }
  }

  predicate Acceptable(m: Step, rules: Rules) {
    if IsDelay(m) then ParseDelayRange(Argument(m), rules.maxVal, rules.parse).Some?
    else if m.name == "header" then rules.header(Argument(m))
    else m.name == "status" ==> rules.code(Argument(m)).Some?
  }

  /** Validation succeeds exactly when every modifier is acceptable. */
  lemma {:induction false} CheckSucceeds(ms: seq<Step>, rules: Rules)
    ensures Check(ms, rules).Some? <==> forall i :: 0 <= i < |ms| ==> Acceptable(ms[i], rules)
  {
    if ms != [] {
      var init, m := ms[..|ms| - 1], ms[|ms| - 1];
      CheckSucceeds(init, rules);
      hide ParseDelayRange;
      if Check(init, rules).Some? {
        assert Check(ms, rules).Some? <==> Acceptable(m, rules);
        assert forall i :: 0 <= i < |init| ==> Acceptable(init[i], rules) && init[i] == ms[i];
      } else {
        var i :| 0 <= i < |init| && !Acceptable(init[i], rules);
        assert !Acceptable(ms[i], rules);
      }
    }
  }

  /** Then the first status has been kept. */
  lemma {:induction false} CheckedStatus(ms: seq<Step>, rules: Rules)
    requires Check(ms, rules).Some?
    ensures Check(ms, rules).value.status == FirstStatus(ms, rules)
  {
    if ms != [] {
      var init, m := ms[..|ms| - 1], ms[|ms| - 1];
      CheckedStatus(init, rules);
      CheckSucceeds(init, rules);
      hide ParseDelayRange, Check, FirstStatus;
      assert ms == init + [m];
      FirstStatusSnoc(init, m, rules) by {
        forall i | 0 <= i < |init| && init[i].name == "status" ensures rules.code(Argument(init[i])).Some? {
          assert Acceptable(init[i], rules);
        }
      }
    }
  }

  predicate Denotes(ds: seq<Range>, steps: seq<Step>, rules: Rules) {
    && |ds| == |steps|
    && forall i :: 0 <= i < |ds| ==>
      ParseDelayRange(Argument(steps[i]), rules.maxVal, rules.parse) == Some(ds[i])
  }

  /** What one modifier does to the delays. */
  lemma OneModifier(c: Checked, m: Step, rules: Rules)
    requires CheckOne(c, m, rules).Some?
    ensures var c' := CheckOne(c, m, rules).value; var range := ParseDelayRange(Argument(m), rules.maxVal, rules.parse);
      if IsDelay(m) then
        range.Some? && c'.delays == c.delays + [range.value] && c'.total == Wrap(c.total + range.value.max)
      else c'.delays == c.delays && c'.total == c.total
  {
    hide ParseDelayRange, Wrap, IsDelay;
  }

  lemma WrappedSumSnoc(ds: seq<Range>, r: Range)
    ensures WrappedSum(ds + [r]) == Wrap(WrappedSum(ds) + r.max)
  {
    assert (ds + [r])[..|ds|] == ds;
  }

  lemma {:induction false} CheckedStep(c: Checked, steps: seq<Step>, m: Step, rules: Rules)
    requires Denotes(c.delays, steps, rules) && c.total == WrappedSum(c.delays) && CheckOne(c, m, rules).Some?
    ensures var c' := CheckOne(c, m, rules).value;
      && Denotes(c'.delays, if IsDelay(m) then steps + [m] else steps, rules)
      && c'.total == WrappedSum(c'.delays)
  {
    hide ParseDelayRange, Wrap, WrappedSum, IsDelay, CheckOne, Argument;
    OneModifier(c, m, rules);
    if IsDelay(m) {
      WrappedSumSnoc(c.delays, ParseDelayRange(Argument(m), rules.maxVal, rules.parse).value);
    }
  }

  /** And there is one range for each delay, in order, and their wrapped sum. */
  lemma {:induction false} CheckedDelays(ms: seq<Step>, rules: Rules)
    requires Check(ms, rules).Some?
    ensures var c := Check(ms, rules).value;
      Denotes(c.delays, DelaySteps(ms), rules) && c.total == WrappedSum(c.delays)
  {
    hide ParseDelayRange, CheckOne;
    if ms != [] {
      var init, m := ms[..|ms| - 1], ms[|ms| - 1];
      CheckedDelays(init, rules);
      CheckedStep(Check(init, rules).value, DelaySteps(init), m, rules);
      assert DelaySteps(init) + [] == DelaySteps(init);
    }
  }

  lemma CheckedBudget(ms: seq<Step>, rules: Rules)
    requires Check(ms, rules).Some?
    ensures AllInBudget(Check(ms, rules).value.delays, rules.maxVal)
  {
    hide Check, DelaySteps, AsRange;
    CheckedDelays(ms, rules);
    var ds := Check(ms, rules).value.delays;
    forall i | 0 <= i < |ds| ensures InBudget(ds[i], rules.maxVal) {
      AcceptedDelays(Argument(DelaySteps(ms)[i]), rules.maxVal, rules.parse, ds[i]);
    }
  }

  lemma {:induction false} WrappedSumIsWrap(ds: seq<Range>)
    ensures WrappedSum(ds) == Wrap(Total(ds))
  {
    if ds != [] {
      WrappedSumIsWrap(ds[..|ds| - 1]);
      WrapOfWrap(Total(ds[..|ds| - 1]), ds[|ds| - 1].max);
    }
  }
}
