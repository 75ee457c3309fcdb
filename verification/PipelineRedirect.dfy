/** Redirect terminals: each Location has to be a pipeline URL that counts down
    to the destination. */
module PipelineRedirect {
  import opened Bytes
  import opened Decimal
  import opened Paths
  import opened Pipeline
  import PipelineTables

  /** The URL prefix the service is mounted under, and scheme and host of its absolute URLs. */
  datatype Site = Site(prefix: string, origin: string)

  predicate ValidSite(site: Site) {
    && (site.prefix == "" || site.prefix[0] == '/')
    && site.origin != "" && site.origin[0] != '/'
  }

  datatype Reply = Found(location: string) | BadRequest | NotARedirect

  predicate StartsWith(s: string, prefix: string) { prefix <= s }

  /** doRedirect: the Location header for a path or an absolute URL. */
  function DoRedirect(site: Site, path: string): string {
    if StartsWith(path, "/") && !StartsWith(path, "//") then site.prefix + path else path
  }

  /** What comes after the modifiers in the next URL. */
  function NextSegments(kind: string, n: int, dest: seq<string>): seq<string> {
    if n > 1 then [kind, Itoa(n - 1)] + dest else if dest != [] then dest else ["get"]
  }

  /** The reply of a redirect terminal: one step down, or the destination. */
  function Redirect(site: Site, kind: string, args: seq<string>, modifierPrefix: string, relative: bool): Reply {
    if args == [] then BadRequest
    else match Atoi(args[0])
      case None => BadRequest
      case Some(n) =>
        if n < 1 || n > 20 then BadRequest
        else
          var path := modifierPrefix + Print(NextSegments(kind, n, args[1..]));
          Found(DoRedirect(site, if relative then path else site.origin + site.prefix + path))
  }

  /** dispatchRedirectTerminal. */
  method DispatchRedirect(site: Site, kind: string, args: seq<string>, modifierPrefix: string, relative: bool)
    returns (r: Reply)
    ensures r == Redirect(site, kind, args, modifierPrefix, relative)
  {
    if |args| == 0 {
      return BadRequest;
    }
    var count := Atoi(args[0]);
    if count.None? {
      return BadRequest;
    }
    if count.value < 1 {
      return BadRequest;
    }
    if count.value > 20 {
      return BadRequest;
    }
    var destSegments := args[1..];
    NextPathIsPrinted(modifierPrefix, kind, count.value, destSegments);
    hide Print, Itoa, Join;
    var path;
    if count.value > 1 {
      if |destSegments| > 0 {
        path := modifierPrefix + "/" + kind + "/" + Itoa(count.value - 1) + "/" + Join(destSegments);
      } else {
        path := modifierPrefix + "/" + kind + "/" + Itoa(count.value - 1);
      }
    } else if |destSegments| > 0 {
      path := modifierPrefix + "/" + Join(destSegments);
    } else {
      path := modifierPrefix + "/get";
    }
    if relative {
      r := Found(DoRedirect(site, path));
    } else {
      path := site.prefix + path;
      r := Found(DoRedirect(site, site.origin + path));
      ConcatAssociative(site.origin, site.prefix, modifierPrefix + Print(NextSegments(kind, count.value, destSegments)));
    }
  }

  /** The formatted paths are printed segments. */
  lemma NextPathIsPrinted(modifierPrefix: string, kind: string, n: int, dest: seq<string>)
    ensures modifierPrefix + Print(NextSegments(kind, n, dest)) == (
      if n > 1 then
        if dest != [] then modifierPrefix + "/" + kind + "/" + Itoa(n - 1) + "/" + Join(dest)
        else modifierPrefix + "/" + kind + "/" + Itoa(n - 1)
      else if dest != [] then modifierPrefix + "/" + Join(dest)
      else modifierPrefix + "/get")
  {
    if dest != [] {
      PrintIsSlashJoin(dest);
    } else {
      PrintIsSlashJoin(["get"]);
    }
    if n > 1 {
      PrintTwo(kind, Itoa(n - 1), dest);
      assert NextSegments(kind, n, dest) == [kind, Itoa(n - 1)] + dest;
    }
  }

  lemma PrintTwo(a: string, b: string, rest: seq<string>)
    ensures Print([a, b] + rest) == "/" + a + "/" + b + Print(rest)
  {
    var segs := [a, b] + rest;
    assert segs[1..] == [b] + rest && segs[1..][1..] == rest;
    assert Print(segs) == "/" + a + ("/" + b + Print(rest));
  }

  predicate RedirectKind(name: string) { name in ["redirect", "absolute-redirect", "relative-redirect"] }

  /** The redirect reply of the pipeline handler to a request for `urlPath`. */
  function Handle(t: Tables, site: Site, urlPath: string): Reply {
    match Parse(t, urlPath)
    case Err(_) => BadRequest
    case Ok(p) =>
      var modifierPrefix := Print(ModifierSegments(p.modifiers));
      if RedirectKind(p.terminal.name)
      then Redirect(site, p.terminal.name, p.terminal.args, modifierPrefix, p.terminal.name != "absolute-redirect")
      else NotARedirect
  }

  /** The path a client asks for when it follows a Location, as the handler sees it. */
  function Target(site: Site, location: string): Option<string> {
    var p := if StartsWith(location, site.origin) then location[|site.origin|..] else location;
    if StartsWith(p, site.prefix) then Some(p[|site.prefix|..]) else None
  }

  /** Following `k` redirects. */
  function Follow(t: Tables, site: Site, urlPath: string, k: nat): Option<string>
    decreases k
  {
    if k == 0 then Some(urlPath)
    else match Handle(t, site, urlPath)
      case Found(location) =>
        (match Target(site, location) case Some(p) => Follow(t, site, p, k - 1) case None => None)
      case _ => None
  }

  // ----- one redirect -----

  /** Tables in which the redirect terminals take all that follows. */
  ghost predicate HasRedirects(t: Tables) {
    WellFormed(t) && forall k :: RedirectKind(k) ==> k in t.terminals && t.terminals[k] == -1 && k !in t.modifiers
  }

  function Countdown(ms: seq<Step>, kind: string, count: string, dest: seq<string>): seq<string> {
    ModifierSegments(ms) + ([kind, count] + dest)
  }

  lemma KindsArePlain(kind: string)
    requires RedirectKind(kind)
    ensures Plain(kind)
  {
  }

  lemma ItoaIsPlain(n: nat)
    ensures Plain(Itoa(n))
  {
    var s := Itoa(n);
    assert IsDigit(s[0]);
    assert '/' !in s;
  }

  lemma PrintBegins(segs: seq<string>)
    requires segs != [] && AllPlain(segs)
    ensures |Print(segs)| >= 2 && Print(segs)[0] == '/' && Print(segs)[1] != '/'
  {
    assert Plain(segs[0]);
    assert segs[0][0] in segs[0];
  }

  /** The Location of a printed path, in both forms: the prefix once, in front. */
  lemma {:induction false} LocationForm(site: Site, segs: seq<string>)
    requires ValidSite(site) && segs != [] && AllPlain(segs)
    ensures var path := Print(segs);
      && DoRedirect(site, path) == site.prefix + path
      && DoRedirect(site, site.origin + site.prefix + path) == site.origin + site.prefix + path
      && Target(site, site.prefix + path) == Some(path)
      && Target(site, site.origin + site.prefix + path) == Some(path)
  {
    PrintBegins(segs);
    hide Print, AllPlain;
    var path := Print(segs);
    var rel, abs := site.prefix + path, site.origin + site.prefix + path;
    assert rel[0] == '/';
    assert rel[|site.prefix|..] == path;
    assert abs[0] == site.origin[0];
    assert abs[|site.origin|..] == rel;
  }

  lemma ParseCountdown(t: Tables, ms: seq<Step>, kind: string, count: string, dest: seq<string>)
    requires HasRedirects(t) && RedirectKind(kind) && GoodModifiers(t, ms) && Plain(count) && AllPlain(dest)
    ensures var segs := Countdown(ms, kind, count, dest);
      AllPlain(segs) && ParseSegments(t, segs) == Ok(Pipe(ms, Step(kind, [count] + dest)))
  {
    var segs, core := Countdown(ms, kind, count, dest), [kind, count] + dest;
    KindsArePlain(kind);
    ModifierSegmentsPlain(t, ms);
    assert core == [kind] + ([count] + dest);
    assert segs == ModifierSegments(ms) + core + [];
    assert Derives(t, Pipe(ms, Step(kind, [count] + dest)), segs, core, []);
    ParseComplete(t, Pipe(ms, Step(kind, [count] + dest)), segs, core, []);
  }

  /** One request: the Location is one step closer, keeps modifiers, kind and
      destination, and carries the prefix exactly once. */
  lemma {:induction false} RedirectStep(t: Tables, site: Site, urlPath: string, ms: seq<Step>, kind: string,
                                        count: string, dest: seq<string>, n: int)
    requires HasRedirects(t) && ValidSite(site) && RedirectKind(kind) && GoodModifiers(t, ms)
    requires Plain(count) && AllPlain(dest) && Atoi(count) == Some(n) && 1 <= n <= 20
    requires SegmentsOf(urlPath) == Countdown(ms, kind, count, dest) && |SegmentsOf(urlPath)| <= MAX_SEGMENTS
    ensures var path := Print(ModifierSegments(ms) + NextSegments(kind, n, dest));
      && Handle(t, site, urlPath) ==
         Found(if kind == "absolute-redirect" then site.origin + site.prefix + path else site.prefix + path)
      && Follow(t, site, urlPath, 1) == Some(path)
  {
    var next := NextSegments(kind, n, dest);
    var segs := ModifierSegments(ms) + next;
    NextIsPlain(t, ms, kind, dest, n);
    LocationForm(site, segs);
    var path := Print(segs);
    var location := if kind == "absolute-redirect" then site.origin + site.prefix + path else site.prefix + path;
    HandleCountdown(t, site, urlPath, ms, kind, count, dest, n);
    hide Handle, Target, DoRedirect, Print, SegmentsOf, NextSegments;
    assert Handle(t, site, urlPath) == Found(location);
    assert Target(site, location) == Some(path);
    assert Follow(t, site, path, 0) == Some(path);
  }

  lemma NextIsPlain(t: Tables, ms: seq<Step>, kind: string, dest: seq<string>, n: nat)
    requires WellFormed(t) && RedirectKind(kind) && GoodModifiers(t, ms) && AllPlain(dest)
    ensures AllPlain(ModifierSegments(ms) + NextSegments(kind, n, dest)) && NextSegments(kind, n, dest) != []
  {
    ModifierSegmentsPlain(t, ms);
    KindsArePlain(kind);
    if n > 1 {
      ItoaIsPlain(n - 1);
    }
  }

  lemma HandleCountdown(t: Tables, site: Site, urlPath: string, ms: seq<Step>, kind: string, count: string,
                        dest: seq<string>, n: int)
    requires HasRedirects(t) && RedirectKind(kind) && GoodModifiers(t, ms)
    requires Plain(count) && AllPlain(dest) && Atoi(count) == Some(n) && 1 <= n <= 20
    requires SegmentsOf(urlPath) == Countdown(ms, kind, count, dest) && |SegmentsOf(urlPath)| <= MAX_SEGMENTS
    ensures var path := Print(ModifierSegments(ms) + NextSegments(kind, n, dest));
      Handle(t, site, urlPath) ==
        Found(DoRedirect(site, if kind == "absolute-redirect" then site.origin + site.prefix + path else path))
  {
    ParseCountdown(t, ms, kind, count, dest);
    hide SegmentsOf, ParseSegments, Print, NextSegments, DoRedirect, Atoi, RedirectKind, ModifierSegments;
    var terminal := Step(kind, [count] + dest);
    assert Parse(t, urlPath) == Ok(Pipe(ms, terminal));
    assert terminal.args[1..] == dest;
    PrintConcat(ModifierSegments(ms), NextSegments(kind, n, dest));
  }

  // ----- the whole chain -----

  lemma {:induction false} FollowAdds(t: Tables, site: Site, urlPath: string, j: nat, k: nat)
    requires Follow(t, site, urlPath, j).Some?
    ensures Follow(t, site, urlPath, j + k) == Follow(t, site, Follow(t, site, urlPath, j).value, k)
    decreases j
  {
    hide Handle, Target;
    if j > 0 {
      var next := Target(site, Handle(t, site, urlPath).location).value;
      FollowAdds(t, site, next, j - 1, k);
    }
  }

  function Destination(ms: seq<Step>, dest: seq<string>): seq<string> {
    ModifierSegments(ms) + if dest != [] then dest else ["get"]
  }

  /** Where a client is after `k` of `n` redirects. */
  function Waypoint(ms: seq<Step>, kind: string, dest: seq<string>, n: nat, k: nat): string {
    if k < n then Print(Countdown(ms, kind, Itoa(n - k), dest)) else Print(Destination(ms, dest))
  }

  /** A redirect terminal with count n takes exactly n steps to its destination,
      with every URL on the way accepted, whatever form the Locations have. */
  lemma {:induction false} RedirectChain(t: Tables, site: Site, urlPath: string, ms: seq<Step>, kind: string,
                                         count: string, dest: seq<string>, n: nat, k: nat)
    requires HasRedirects(t) && ValidSite(site) && RedirectKind(kind) && GoodModifiers(t, ms)
    requires Plain(count) && AllPlain(dest) && Atoi(count) == Some(n) && 1 <= n <= 20
    requires SegmentsOf(urlPath) == Countdown(ms, kind, count, dest) && |SegmentsOf(urlPath)| <= MAX_SEGMENTS
    requires 1 <= k <= n
    ensures Follow(t, site, urlPath, k) == Some(Waypoint(ms, kind, dest, n, k))
    decreases n
  {
    hide SegmentsOf, Parse, Handle, Print, Atoi, Itoa, RedirectKind, Plain, Follow, HasRedirects, GoodModifier;
    RedirectStep(t, site, urlPath, ms, kind, count, dest, n);
    if k > 1 {
      var down := Itoa(n - 1);
      var next := Print(Countdown(ms, kind, down, dest));
      assert next == Print(ModifierSegments(ms) + NextSegments(kind, n, dest));
      FollowAdds(t, site, urlPath, 1, k - 1);
      ItoaIsPlain(n - 1);
      AtoiOfItoa(n - 1);
      CountdownIsRead(t, ms, kind, down, dest);
      RedirectChain(t, site, next, ms, kind, down, dest, n - 1, k - 1);
    }
  }

  lemma CountdownIsRead(t: Tables, ms: seq<Step>, kind: string, count: string, dest: seq<string>)
    requires HasRedirects(t) && RedirectKind(kind) && GoodModifiers(t, ms) && Plain(count) && AllPlain(dest)
    ensures SegmentsOf(Print(Countdown(ms, kind, count, dest))) == Countdown(ms, kind, count, dest)
  {
    ParseCountdown(t, ms, kind, count, dest);
    SegmentsOfPrint(Countdown(ms, kind, count, dest));
  }

  /** At the end the destination is served under the same modifiers. */
  lemma DestinationIsParsed(t: Tables, ms: seq<Step>, dest: seq<string>)
    requires WellFormed(t) && GoodModifiers(t, ms) && AllPlain(dest) && |Destination(ms, dest)| <= MAX_SEGMENTS
    ensures Parse(t, Print(Destination(ms, dest))) ==
      Prepend(ms, ParseSegments(t, if dest != [] then dest else ["get"]))
  {
    var last := if dest != [] then dest else ["get"];
    ModifierSegmentsPlain(t, ms);
    assert Plain("get");
    assert AllPlain(Destination(ms, dest));
    SegmentsOfPrint(Destination(ms, dest));
    ParseAfterModifiers(t, ms, last);
  }

  lemma {:induction false} ShippedHasRedirects()
    ensures HasRedirects(PipelineTables.Shipped())
  {
    PipelineTables.ShippedIsWellFormed();
    PipelineTables.RedirectEntries();
  }
}
