/** parsePipeline and buildModifierPrefix of pipeline.go: the language of
    pipeline URLs, its parser and its printer. */
module Pipeline {
  import opened Paths

  /** pipelineModifierDefs and pipelineTerminals: how many arguments each name
      takes; -1 for a terminal that takes all that is left. */
  datatype Tables = Tables(modifiers: map<string, nat>, terminals: map<string, int>)

  /** What the parser needs of the tables. A name may be both a modifier and a
      terminal only if it takes the same number of arguments, at least one,
      either way. Names of two segments do not begin with a modifier, nor with
      a terminal that takes arguments. */
  ghost predicate WellFormed(t: Tables) {
    && (forall m :: m in t.modifiers ==> Plain(m))
    && (forall m :: m in t.modifiers && m in t.terminals ==> t.terminals[m] == t.modifiers[m] >= 1)
    && (forall n :: n in t.terminals ==> n != "" && t.terminals[n] >= -1)
    && (forall a, b: string {:trigger Two(a, b)} :: Plain(a) && Plain(b) && Two(a, b) in t.terminals ==>
          a !in t.modifiers && (a in t.terminals ==> t.terminals[a] == 0))
  }

  /** The name a two-segment terminal is looked up under. */
  function Two(a: string, b: string): string { a + "/" + b }

  datatype Step = Step(name: string, args: seq<string>)

  datatype Pipe = Pipe(modifiers: seq<Step>, terminal: Step)

  datatype Error =
    | EmptyPath
    | TooManySegments(got: nat)
    | RequiresValue(modifier: string)
    | TooFewArguments(terminal: string, want: nat, got: nat)
    | UnknownSegment(segment: string)
    | NoTerminal

  datatype Result<T> = Ok(value: T) | Err(error: Error)

  const MAX_SEGMENTS: nat := 20

  /** A dual-role name is a modifier only when a terminal can follow its arguments. */
  predicate TreatAsModifier(t: Tables, segs: seq<string>)
    requires segs != []
  {
    segs[0] in t.modifiers && (segs[0] !in t.terminals || 1 + t.modifiers[segs[0]] < |segs|)
  }

  /** The terminal at the front of `segs`. */
  function ParseTerminal(t: Tables, segs: seq<string>): Result<Step>
    requires segs != []
  {
    if |segs| >= 2 && Two(segs[0], segs[1]) in t.terminals then Ok(Step(Two(segs[0], segs[1]), segs[2..]))
    else if segs[0] in t.terminals then
      var want, got := t.terminals[segs[0]], |segs| - 1;
      if 0 <= want && got < want then Err(TooFewArguments(segs[0], want, got))
      else Ok(Step(segs[0], if 0 <= want < got then segs[1..1 + want] else segs[1..]))
    else Err(UnknownSegment(segs[0]))
  }

  function Prepend(ms: seq<Step>, r: Result<Pipe>): Result<Pipe> {
    match r
    case Ok(p) => Ok(Pipe(ms + p.modifiers, p.terminal))
    case Err(e) => Err(e)
  }

  lemma PrependNothing(r: Result<Pipe>)
    ensures Prepend([], r) == r
  {
    assert r.Ok? ==> [] + r.value.modifiers == r.value.modifiers;
  }

  lemma PrependOk(ms: seq<Step>, s: Step)
    ensures Prepend(ms, Ok(Pipe([], s))) == Ok(Pipe(ms, s))
  {
    assert ms + [] == ms;
  }

  lemma PrependErr(ms: seq<Step>, e: Error)
    ensures Prepend(ms, Err(e)) == Err(e)
  {
  }

  lemma PrependTwice(a: seq<Step>, b: seq<Step>, r: Result<Pipe>)
    ensures Prepend(a, Prepend(b, r)) == Prepend(a + b, r)
  {
    assert r.Ok? ==> a + (b + r.value.modifiers) == (a + b) + r.value.modifiers;
  }

  function ParseSegments(t: Tables, segs: seq<string>): Result<Pipe>
    decreases |segs|
  {
    if segs == [] then Err(NoTerminal)
    else if TreatAsModifier(t, segs) then
      var n := t.modifiers[segs[0]];
      if n > 0 && n >= |segs| then Err(RequiresValue(segs[0]))
      else Prepend([Step(segs[0], segs[1..1 + n])], ParseSegments(t, segs[1 + n..]))
    else match ParseTerminal(t, segs)
      case Ok(s) => Ok(Pipe([], s))
      case Err(e) => Err(e)
  }

  /** One modifier in front. */
  lemma ParseOneModifier(t: Tables, m: Step, rest: seq<string>)
    requires m.name in t.modifiers && |m.args| == t.modifiers[m.name]
    requires m.name !in t.terminals || rest != []
    ensures ParseSegments(t, StepSegments(m) + rest) == Prepend([m], ParseSegments(t, rest))
  {
    var n, segs := |m.args|, StepSegments(m) + rest;
    assert segs[0] == m.name && segs[1..1 + n] == m.args && segs[1 + n..] == rest;
  }

  function Parse(t: Tables, urlPath: string): Result<Pipe> {
    var segs := SegmentsOf(urlPath);
    if segs == [] then Err(EmptyPath)
    else if |segs| > MAX_SEGMENTS then Err(TooManySegments(|segs|))
    else ParseSegments(t, segs)
  }

  /** parsePipeline: one pass with an index over the segments. */
  method ParsePipeline(t: Tables, urlPath: string) returns (r: Result<Pipe>)
    ensures r == Parse(t, urlPath)
  {
    hide SegmentsOf, ParseTerminal, StepSegments, Prepend;
    var segments := SegmentsOf(urlPath);
    if |segments| == 0 {
      return Err(EmptyPath);
    }
    if |segments| > MAX_SEGMENTS {
      return Err(TooManySegments(|segments|));
    }
    var modifiers: seq<Step> := [];
    var i := 0;
    PrependNothing(ParseSegments(t, segments));
    assert segments[0..] == segments;
    while i < |segments|
      invariant i <= |segments|
      invariant ParseSegments(t, segments) == Prepend(modifiers, ParseSegments(t, segments[i..]))
    {
      var seg := segments[i];
      var remaining := segments[i..];
      if seg in t.modifiers {
        var n := t.modifiers[seg];
        var treatAsModifier := seg !in t.terminals || i + 1 + n < |segments|;
        if treatAsModifier {
          if n > 0 && i + n >= |segments| {
            PrependErr(modifiers, RequiresValue(seg));
            return Err(RequiresValue(seg));
          }
          var m := Step(seg, segments[i + 1..i + 1 + n]);
          SliceOfDrop(segments, i, 1, 1 + n);
          i := i + 1 + n;
          OneStep(segments, m, remaining);
          ParseOneModifier(t, m, segments[i..]);
          PrependTwice(modifiers, [m], ParseSegments(t, segments[i..]));
          modifiers := modifiers + [m];
          continue;
        }
      }
      assert !TreatAsModifier(t, remaining);
      var terminal := MatchTerminal(t, remaining);
      match terminal {
        case Ok(s) =>
          PrependOk(modifiers, s);
          return Ok(Pipe(modifiers, s));
        case Err(e) =>
          PrependErr(modifiers, e);
          return Err(e);
      }
    }
    PrependErr(modifiers, NoTerminal);
    r := Err(NoTerminal);
  }

  lemma SliceOfDrop(s: seq<string>, i: nat, lo: nat, hi: nat)
    requires lo <= hi && i + hi <= |s|
    ensures s[i..][lo..hi] == s[i + lo..i + hi]
  {
  }

  lemma OneStep(segments: seq<string>, m: Step, remaining: seq<string>)
    requires 1 + |m.args| <= |remaining| <= |segments| && remaining == segments[|segments| - |remaining|..]
    requires m == Step(remaining[0], remaining[1..1 + |m.args|])
    ensures remaining == StepSegments(m) + segments[|segments| - |remaining| + 1 + |m.args|..]
  {
  }

  /** The part of the loop that matches a terminal, longest name first. */
  method MatchTerminal(t: Tables, remaining: seq<string>) returns (r: Result<Step>)
    requires remaining != []
    ensures r == ParseTerminal(t, remaining)
  {
    if |remaining| >= 2 {
      var twoSeg := remaining[0] + "/" + remaining[1];
      if twoSeg in t.terminals {
        return Ok(Step(twoSeg, remaining[2..]));
      }
    }
    if remaining[0] in t.terminals {
      var want := t.terminals[remaining[0]];
      var termArgs := remaining[1..];
      if want >= 0 && |termArgs| > want {
        termArgs := remaining[1..1 + want];
      }
      if want >= 0 && |termArgs| < want {
        return Err(TooFewArguments(remaining[0], want, |termArgs|));
      }
      return Ok(Step(remaining[0], termArgs));
    }
    r := Err(UnknownSegment(remaining[0]));
  }

  // ----- the printer -----

  function StepSegments(s: Step): seq<string> { [s.name] + s.args }

  function ModifierSegments(ms: seq<Step>): seq<string> {
    if ms == [] then [] else StepSegments(ms[0]) + ModifierSegments(ms[1..])
  }

  /** A pipeline as a path; a terminal's name may hold a slash itself. */
  function PrintPipe(p: Pipe): string {
    Print(ModifierSegments(p.modifiers) + StepSegments(p.terminal))
  }

  lemma {:induction false} ModifierSegmentsSnoc(ms: seq<Step>, m: Step)
    ensures ModifierSegments(ms + [m]) == ModifierSegments(ms) + StepSegments(m)
  {
    if ms == [] {
      assert [m][1..] == [];
    } else {
      assert (ms + [m])[1..] == ms[1..] + [m];
      ModifierSegmentsSnoc(ms[1..], m);
    }
  }

  /** buildModifierPrefix fills a string builder step by step. */
  method BuildModifierPrefix(modifiers: seq<Step>) returns (s: string)
    ensures s == Print(ModifierSegments(modifiers))
  {
    s := "";
    for i := 0 to |modifiers|
      invariant s == Print(ModifierSegments(modifiers[..i]))
    {
      var m := modifiers[i];
      ghost var before := s;
      s := s + "/" + m.name;
      for j := 0 to |m.args|
        invariant s == before + Print([m.name] + m.args[..j])
      {
        s := s + "/" + m.args[j];
        assert m.args[..j + 1] == m.args[..j] + [m.args[j]];
        assert [m.name] + m.args[..j + 1] == ([m.name] + m.args[..j]) + [m.args[j]];
        PrintConcat([m.name] + m.args[..j], [m.args[j]]);
      }
      assert [m.name] + m.args[..|m.args|] == StepSegments(m);
      assert modifiers[..i + 1] == modifiers[..i] + [m];
      ModifierSegmentsSnoc(modifiers[..i], m);
      PrintConcat(ModifierSegments(modifiers[..i]), StepSegments(m));
    }
    assert modifiers[..|modifiers|] == modifiers;
  }

  // ----- the language -----

  predicate GoodModifier(t: Tables, s: Step) {
    s.name in t.modifiers && |s.args| == t.modifiers[s.name] && AllPlain(s.args)
  }

  /** The segments a terminal is made of: a name of one or two segments, then arguments. */
  ghost predicate GoodTerminal(t: Tables, s: Step, segs: seq<string>) {
    && s.name in t.terminals && AllPlain(segs)
    && (|| (segs == [s.name] + s.args && (t.terminals[s.name] == -1 || t.terminals[s.name] == |s.args|))
        || (|segs| >= 2 && s.name == Two(segs[0], segs[1]) && s.args == segs[2..]))
  }

  predicate GoodModifiers(t: Tables, ms: seq<Step>) { forall i :: 0 <= i < |ms| ==> GoodModifier(t, ms[i]) }

  /** Segments that may follow a terminal and are ignored: only after a name of
      one segment with a fixed number of arguments, and not when they change
      how the name is read. */
  predicate Ignored(t: Tables, s: Step, extras: seq<string>)
    requires s.name in t.terminals
  {
    extras == [] ||
    (Plain(s.name) && t.terminals[s.name] >= 0 && s.name !in t.modifiers
     && (s.args == [] ==> Two(s.name, extras[0]) !in t.terminals))
  }

  ghost predicate Derives(t: Tables, p: Pipe, segs: seq<string>, core: seq<string>, extras: seq<string>) {
    && GoodModifiers(t, p.modifiers) && GoodTerminal(t, p.terminal, core) && Ignored(t, p.terminal, extras)
    && segs == ModifierSegments(p.modifiers) + core + extras
  }

  lemma TwoIsNotPlain(a: string, b: string)
    ensures !Plain(Two(a, b))
  {
    assert Two(a, b)[|a|] == '/';
  }

  lemma ModifierSegmentsPlain(t: Tables, ms: seq<Step>)
    requires WellFormed(t) && GoodModifiers(t, ms)
    ensures AllPlain(ModifierSegments(ms))
  {
  }

  lemma TerminalComplete(t: Tables, s: Step, core: seq<string>, extras: seq<string>)
    requires WellFormed(t) && GoodTerminal(t, s, core) && Ignored(t, s, extras) && AllPlain(core + extras)
    ensures !TreatAsModifier(t, core + extras) && ParseTerminal(t, core + extras) == Ok(s)
  {
    var segs := core + extras;
    var two := |segs| >= 2 && Two(segs[0], segs[1]) in t.terminals;
    assert two ==> Plain(segs[0]) && Plain(segs[1]);
    if core == [s.name] + s.args && (t.terminals[s.name] == -1 || t.terminals[s.name] == |s.args|) {
      assert Plain(segs[0]) && segs[0] == s.name;
      assert !two;
      if extras != [] {
        assert segs[1..1 + |s.args|] == s.args;
      } else {
        assert segs[1..] == s.args;
      }
    } else {
      assert !Plain(s.name) by { TwoIsNotPlain(core[0], core[1]); }
      assert segs == core;
    }
  }

  /** Every derivation is found by the parser. */
  lemma {:induction false} ParseComplete(t: Tables, p: Pipe, segs: seq<string>, core: seq<string>, extras: seq<string>)
    requires WellFormed(t) && AllPlain(segs) && Derives(t, p, segs, core, extras)
    ensures ParseSegments(t, segs) == Ok(p)
    decreases |p.modifiers|
  {
    if p.modifiers == [] {
      assert segs == core + extras;
      TerminalComplete(t, p.terminal, core, extras);
    } else {
      var m, rest := p.modifiers[0], Pipe(p.modifiers[1..], p.terminal);
      var n := |m.args|;
      var tail := ModifierSegments(rest.modifiers) + core + extras;
      assert GoodModifier(t, m);
      assert segs == StepSegments(m) + tail;
      assert segs[0] == m.name && segs[1..1 + n] == m.args && segs[1 + n..] == tail;
      ParseComplete(t, rest, tail, core, extras);
      assert [m] + rest.modifiers == p.modifiers;
    }
  }

  /** A terminal of two segments takes everything. */
  lemma TwoSegmentsSound(t: Tables, segs: seq<string>)
    requires AllPlain(segs) && |segs| >= 2 && Two(segs[0], segs[1]) in t.terminals
    ensures ParseTerminal(t, segs) == Ok(Step(Two(segs[0], segs[1]), segs[2..]))
    ensures GoodTerminal(t, Step(Two(segs[0], segs[1]), segs[2..]), segs)
  {
    hide AllPlain, Two;
  }

  /** A terminal of one segment takes `n` segments with its name. */
  lemma {:induction false} OneSegmentSound(t: Tables, segs: seq<string>) returns (n: nat)
    requires WellFormed(t) && AllPlain(segs) && segs != [] && !TreatAsModifier(t, segs)
    requires !(|segs| >= 2 && Two(segs[0], segs[1]) in t.terminals) && ParseTerminal(t, segs).Ok?
    ensures n <= |segs|
    ensures var s := ParseTerminal(t, segs).value; GoodTerminal(t, s, segs[..n]) && Ignored(t, s, segs[n..])
  {
    var name := segs[0];
    assert Plain(name) && t.terminals[name] >= -1;
    assert name in t.modifiers ==> t.terminals[name] == t.modifiers[name];
    hide WellFormed, Two, Plain;
    var want := t.terminals[name];
    n := if 0 <= want < |segs| - 1 then 1 + want else |segs|;
    assert segs[..n] == [name] + segs[1..n];
    assert n < |segs| ==> segs[n..][0] == segs[n];
  }

  lemma {:induction false} TerminalSound(t: Tables, segs: seq<string>) returns (core: seq<string>, extras: seq<string>)
    requires WellFormed(t) && AllPlain(segs) && segs != []
    requires !TreatAsModifier(t, segs) && ParseTerminal(t, segs).Ok?
    ensures segs == core + extras
    ensures var s := ParseTerminal(t, segs).value;
      GoodTerminal(t, s, core) && Ignored(t, s, extras)
  {
    hide WellFormed, AllPlain;
    if |segs| >= 2 && Two(segs[0], segs[1]) in t.terminals {
      TwoSegmentsSound(t, segs);
      core, extras := segs, [];
    } else {
      var n := OneSegmentSound(t, segs);
      hide GoodTerminal, Ignored, ParseTerminal, Two;
      core, extras := segs[..n], segs[n..];
    }
  }

  /** Whatever the parser accepts is derived: its segments are the input's,
      up to segments that are ignored. */
  lemma {:induction false} ParseSound(t: Tables, segs: seq<string>) returns (core: seq<string>, extras: seq<string>)
    requires WellFormed(t) && AllPlain(segs) && ParseSegments(t, segs).Ok?
    ensures Derives(t, ParseSegments(t, segs).value, segs, core, extras)
    decreases |segs|
  {
    if TreatAsModifier(t, segs) {
      var n := t.modifiers[segs[0]];
      var m, tail := Step(segs[0], segs[1..1 + n]), segs[1 + n..];
      assert segs == StepSegments(m) + tail;
      assert GoodModifier(t, m);
      core, extras := ParseSound(t, tail);
      DerivesCons(t, m, ParseSegments(t, tail).value, tail, core, extras);
    } else {
      core, extras := TerminalSound(t, segs);
    }
  }

  lemma DerivesCons(t: Tables, m: Step, p: Pipe, tail: seq<string>, core: seq<string>, extras: seq<string>)
    requires GoodModifier(t, m) && Derives(t, p, tail, core, extras)
    ensures Derives(t, Pipe([m] + p.modifiers, p.terminal), StepSegments(m) + tail, core, extras)
  {
    var ms := [m] + p.modifiers;
    assert ms[1..] == p.modifiers;
    assert StepSegments(m) + (ModifierSegments(p.modifiers) + core + extras) ==
           (StepSegments(m) + ModifierSegments(p.modifiers)) + core + extras;
  }

  /** The parser accepts exactly the derived segment lists, and returns what derives them. */
  lemma ParseIff(t: Tables, segs: seq<string>, p: Pipe)
    requires WellFormed(t) && AllPlain(segs)
    ensures ParseSegments(t, segs) == Ok(p) <==> exists core, extras :: Derives(t, p, segs, core, extras)
  {
    if ParseSegments(t, segs) == Ok(p) {
      var core, extras := ParseSound(t, segs);
    }
    if core, extras :| Derives(t, p, segs, core, extras) {
      ParseComplete(t, p, segs, core, extras);
    }
  }

  // ----- paths -----

  /** A name of two segments is printed like the two segments. */
  lemma PrintedTerminal(t: Tables, s: Step, core: seq<string>)
    requires GoodTerminal(t, s, core)
    ensures Print(StepSegments(s)) == Print(core)
  {
    if core != [s.name] + s.args {
      assert core[2..] == s.args && core[1..][1..] == s.args;
      assert StepSegments(s)[1..] == s.args;
      assert Print(core) == "/" + core[0] + ("/" + core[1] + Print(s.args));
    }
  }

  lemma PrintedPipe(t: Tables, p: Pipe, segs: seq<string>, core: seq<string>)
    requires Derives(t, p, segs, core, [])
    ensures PrintPipe(p) == Print(segs)
  {
    PrintedTerminal(t, p.terminal, core);
    assert segs == ModifierSegments(p.modifiers) + core;
    PrintConcat(ModifierSegments(p.modifiers), core);
    PrintConcat(ModifierSegments(p.modifiers), StepSegments(p.terminal));
  }

  /** Parsing a printed pipeline gives it back. */
  lemma ParseOfPrint(t: Tables, p: Pipe, segs: seq<string>, core: seq<string>)
    requires WellFormed(t) && Derives(t, p, segs, core, []) && |segs| <= MAX_SEGMENTS
    ensures Parse(t, PrintPipe(p)) == Ok(p)
  {
    ModifierSegmentsPlain(t, p.modifiers);
    assert segs == ModifierSegments(p.modifiers) + core;
    PrintedPipe(t, p, segs, core);
    SegmentsOfPrint(segs);
    ParseComplete(t, p, segs, core, []);
  }

  /** Printing what was parsed and parsing it again changes nothing. */
  lemma ParsePrintParse(t: Tables, urlPath: string)
    requires WellFormed(t) && urlPath != "" && urlPath[0] == '/' && Parse(t, urlPath).Ok?
    ensures Parse(t, PrintPipe(Parse(t, urlPath).value)) == Parse(t, urlPath)
  {
    SegmentsOfRooted(urlPath);
    var core, extras := ParseSound(t, SegmentsOf(urlPath));
    var p := Parse(t, urlPath).value;
    ParseOfPrint(t, p, ModifierSegments(p.modifiers) + core, core);
  }

  /** Modifiers in front of an accepted path are parsed as such: parsing is
      compatible with concatenation. */
  lemma {:induction false} ParseAfterModifiers(t: Tables, ms: seq<Step>, segs: seq<string>)
    requires WellFormed(t) && GoodModifiers(t, ms) && segs != []
    ensures ParseSegments(t, ModifierSegments(ms) + segs) == Prepend(ms, ParseSegments(t, segs))
  {
    var r := ParseSegments(t, segs);
    if ms == [] {
      assert ModifierSegments(ms) + segs == segs;
      PrependNothing(r);
    } else {
      var m, tail := ms[0], ModifierSegments(ms[1..]) + segs;
      assert GoodModifier(t, m);
      assert ModifierSegments(ms) + segs == StepSegments(m) + tail;
      ParseOneModifier(t, m, tail);
      ParseAfterModifiers(t, ms[1..], segs);
      PrependTwice([m], ms[1..], r);
      assert [m] + ms[1..] == ms;
    }
  }

  /** A terminal whose name has two segments takes all that is left: its
      arguments are empty if and only if nothing follows the name. */
  lemma {:induction false} TwoSegmentArguments(t: Tables, urlPath: string) returns (a: string, b: string)
    requires WellFormed(t) && urlPath != "" && urlPath[0] == '/' && Parse(t, urlPath).Ok?
    requires '/' in Parse(t, urlPath).value.terminal.name
    ensures var p := Parse(t, urlPath).value; var before := ModifierSegments(p.modifiers);
      && p.terminal.name == Two(a, b)
      && SegmentsOf(urlPath) == before + ([a, b] + p.terminal.args)
      && (p.terminal.args == [] <==> |SegmentsOf(urlPath)| == |before| + 2)
  {
    var p := Parse(t, urlPath).value;
    SegmentsOfRooted(urlPath);
    var core, extras := ParseSound(t, SegmentsOf(urlPath));
    assert !Plain(p.terminal.name);
    assert core != [p.terminal.name] + p.terminal.args by {
      assert Plain(core[0]);
    }
    a, b := core[0], core[1];
    assert core == [a, b] + p.terminal.args && extras == [];
    assert ModifierSegments(p.modifiers) + core + [] == ModifierSegments(p.modifiers) + core;
  }

  /** For instance after a flag modifier, with one argument too many. */
  lemma {:induction false} ExtraArgument(t: Tables, flag: string, a: string, b: string, extra: string)
    requires WellFormed(t) && flag in t.modifiers && t.modifiers[flag] == 0 && Two(a, b) in t.terminals
    requires Plain(a) && Plain(b) && Plain(extra)
    ensures var p := Pipe([Step(flag, [])], Step(Two(a, b), [extra])); Parse(t, PrintPipe(p)) == Ok(p)
  {
    var p := Pipe([Step(flag, [])], Step(Two(a, b), [extra]));
    var core, segs := [a, b, extra], [flag, a, b, extra];
    assert p.modifiers[1..] == [];
    assert ModifierSegments(p.modifiers) == [flag];
    assert segs == [flag] + core + [] && core[2..] == [extra];
    assert Derives(t, p, segs, core, []);
    hide Derives, PrintPipe, ModifierSegments, WellFormed;
    ParseOfPrint(t, p, segs, core);
  }
}
