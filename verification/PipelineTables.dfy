/** The tables pipeline.go ships, and that they are well formed. */
module PipelineTables {
  import opened Paths
  import opened Pipeline

  function Modifiers(): map<string, nat> {
    map["delay" := 1, "response_delay" := 1, "status" := 1, "header" := 1, "no-cache" := 0, "nocache" := 0]
  }

  function TwoSegmentTerminals(): map<string, int> {
    map["cookies/set" := 0, "cookies/delete" := 0, "encoding/utf8" := 0, "forms/post" := 0, "dump/request" := 0]
  }

  function MethodTerminals(): map<string, int> {
    map["get" := 0, "head" := 0, "post" := 0, "put" := 0, "delete" := 0, "patch" := 0, "echo" := 0, "upload" := 0]
  }

  function ArgumentTerminals(): map<string, int> {
    map["status" := 1, "bytes" := 1, "stream" := 1, "stream-bytes" := 1, "etag" := 1, "range" := 1, "body" := 1,
        "basic-auth" := 2, "hidden-basic-auth" := 2,
        "links" := -1, "cache" := -1, "base64" := -1, "digest-auth" := -1, "image" := -1,
        "redirect" := -1, "absolute-redirect" := -1, "relative-redirect" := -1]
  }

  function PlainTerminals(): map<string, int> {
    map["gzip" := 0, "deflate" := 0, "html" := 0, "json" := 0, "xml" := 0, "robots.txt" := 0, "deny" := 0, "ip" := 0,
        "headers" := 0, "user-agent" := 0, "uuid" := 0, "hostname" := 0, "bearer" := 0]
  }

  function MorePlainTerminals(): map<string, int> {
    map["cookies" := 0, "drip" := 0, "sse" := 0, "unstable" := 0, "anything" := 0, "env" := 0, "pdf" := 0,
        "trailers" := 0, "version" := 0, "problem" := 0, "negotiate" := 0, "close" := 0,
        "redirect-to" := 0, "response-headers" := 0]
  }

  function OneSegmentTerminals(): map<string, int> {
    MethodTerminals() + ArgumentTerminals() + PlainTerminals() + MorePlainTerminals()
  }

  function Shipped(): Tables { Tables(Modifiers(), OneSegmentTerminals() + TwoSegmentTerminals()) }

  // ----- well-formedness, table by table -----

  predicate OneSegment(t: map<string, int>) {
    forall n :: n in t ==> n != "" && '/' !in n && -1 <= t[n]
  }

  lemma MethodsAreOneSegment() ensures OneSegment(MethodTerminals()) {}
  lemma ArgumentsAreOneSegment() ensures OneSegment(ArgumentTerminals()) {}
  lemma PlainAreOneSegment() ensures OneSegment(PlainTerminals()) {}
  lemma MoreAreOneSegment() ensures OneSegment(MorePlainTerminals()) {}

  lemma ModifiersArePlain()
    ensures forall m :: m in Modifiers() ==> Plain(m)
  {
  }

  lemma OneSegmentNames()
    ensures OneSegment(OneSegmentTerminals())
  {
    hide MethodTerminals, ArgumentTerminals, PlainTerminals, MorePlainTerminals;
    MethodsAreOneSegment();
    ArgumentsAreOneSegment();
    PlainAreOneSegment();
    MoreAreOneSegment();
  }

  lemma DualInMethods() ensures forall m :: m in Modifiers() ==> m !in MethodTerminals() {}
  lemma DualInArguments()
    ensures forall m :: m in Modifiers() && m in ArgumentTerminals() ==> m == "status"
  {}
  lemma DualInPlain() ensures forall m :: m in Modifiers() ==> m !in PlainTerminals() {}
  lemma DualInMore() ensures forall m :: m in Modifiers() ==> m !in MorePlainTerminals() {}
  lemma DualInTwo() ensures forall m :: m in Modifiers() ==> m !in TwoSegmentTerminals() {}

  lemma OnlyStatusIsDual(m: string)
    requires m in Shipped().modifiers && m in Shipped().terminals
    ensures m == "status"
  {
    hide Modifiers, MethodTerminals, ArgumentTerminals, PlainTerminals, MorePlainTerminals, TwoSegmentTerminals;
    DualInMethods();
    DualInArguments();
    DualInPlain();
    DualInMore();
    DualInTwo();
  }

  lemma StatusTakesOne()
    ensures "status" in Modifiers() && Modifiers()["status"] == 1
    ensures "status" in Shipped().terminals && Shipped().terminals["status"] == 1
  {
    hide PlainTerminals;
    assert "status" in ArgumentTerminals();
    assert "status" !in MorePlainTerminals() && "status" !in PlainTerminals() && "status" !in TwoSegmentTerminals() by {
      StatusElsewhere();
    }
  }

  lemma StatusElsewhere()
    ensures "status" !in MorePlainTerminals() && "status" !in PlainTerminals() && "status" !in TwoSegmentTerminals()
  {
  }

  /** The first segment of a two-segment name. */
  lemma FirstOfTwo(a: string, b: string, name: string, first: string, second: string)
    requires Plain(a) && Plain(b) && Two(a, b) == name == Two(first, second)
    requires '/' !in first
    ensures a == first
  {
    assert name[..|a|] == a && name[|a|] == '/';
    assert name[..|first|] == first && name[|first|] == '/';
    InPrefix(name, |a|, |first|);
    InPrefix(name, |first|, |a|);
  }

  lemma InPrefix(s: string, i: nat, k: nat)
    requires i < |s| && k <= |s|
    ensures i < k ==> s[i] in s[..k]
  {
    if i < k {
      assert s[..k][i] == s[i];
    }
  }

  lemma FirstSegments(a: string, b: string)
    requires Plain(a) && Plain(b) && Two(a, b) in TwoSegmentTerminals()
    ensures a in ["cookies", "encoding", "forms", "dump"]
  {
    var name := Two(a, b);
    if name == "cookies/set" { FirstOfTwo(a, b, name, "cookies", "set"); }
    else if name == "cookies/delete" { FirstOfTwo(a, b, name, "cookies", "delete"); }
    else if name == "encoding/utf8" { FirstOfTwo(a, b, name, "encoding", "utf8"); }
    else if name == "forms/post" { FirstOfTwo(a, b, name, "forms", "post"); }
    else { FirstOfTwo(a, b, name, "dump", "request"); }
  }

  lemma FirstInMethods(a: string)
    requires a in ["cookies", "encoding", "forms", "dump"]
    ensures a !in Modifiers() && a !in MethodTerminals() && a !in ArgumentTerminals()
  {
  }

  lemma FirstInPlain(a: string)
    requires a in ["cookies", "encoding", "forms", "dump"]
    ensures a !in PlainTerminals() && a !in TwoSegmentTerminals()
    ensures a in MorePlainTerminals() ==> MorePlainTerminals()[a] == 0
  {
  }

  /** Everything proved about well-formed tables holds for the shipped ones. */
  lemma {:induction false} ShippedIsWellFormed()
    ensures WellFormed(Shipped())
  {
    ModifiersArePlain();
    OneSegmentNames();
    StatusTakesOne();
    TwoSegmentNames();
    hide Modifiers, MethodTerminals, ArgumentTerminals, PlainTerminals, MorePlainTerminals, TwoSegmentTerminals;
    var t := Shipped();
    forall m | m in t.modifiers && m in t.terminals ensures t.terminals[m] == t.modifiers[m] >= 1 {
      OnlyStatusIsDual(m);
    }
    forall a, b: string {:trigger Two(a, b)} | Plain(a) && Plain(b) && Two(a, b) in t.terminals
      ensures a !in t.modifiers && (a in t.terminals ==> t.terminals[a] == 0)
    {
      assert Two(a, b)[|a|] == '/';
      assert Two(a, b) !in OneSegmentTerminals();
      FirstSegments(a, b);
      FirstInMethods(a);
      FirstInPlain(a);
    }
  }

  lemma TwoSegmentNames()
    ensures forall n :: n in TwoSegmentTerminals() ==> n != "" && TwoSegmentTerminals()[n] == 0
  {
  }

  lemma RedirectElsewhere(k: string)
    requires k in ["redirect", "absolute-redirect", "relative-redirect"]
    ensures k !in PlainTerminals() && k !in MorePlainTerminals()
  {
  }

  lemma RedirectInArguments(k: string)
    requires k in ["redirect", "absolute-redirect", "relative-redirect"]
    ensures k !in TwoSegmentTerminals() && k !in Modifiers()
    ensures k in ArgumentTerminals() && ArgumentTerminals()[k] == -1
  {
  }

  lemma RedirectEntries()
    ensures forall k :: k in ["redirect", "absolute-redirect", "relative-redirect"] ==>
      k in Shipped().terminals && Shipped().terminals[k] == -1 && k !in Shipped().modifiers
  {
    hide Modifiers, MethodTerminals, ArgumentTerminals, PlainTerminals, MorePlainTerminals, TwoSegmentTerminals;
    forall k | k in ["redirect", "absolute-redirect", "relative-redirect"]
      ensures k in Shipped().terminals && Shipped().terminals[k] == -1 && k !in Shipped().modifiers
    {
      RedirectElsewhere(k);
      RedirectInArguments(k);
    }
  }

  lemma GetElsewhere()
    ensures "get" !in ArgumentTerminals() && "get" !in PlainTerminals() && "get" !in MorePlainTerminals()
    ensures "get" !in TwoSegmentTerminals()
  {
  }

  lemma {:induction false} GetEntry()
    ensures "get" in Shipped().terminals && Shipped().terminals["get"] == 0
  {
    GetElsewhere();
    assert "get" in MethodTerminals() && MethodTerminals()["get"] == 0;
    hide MethodTerminals, ArgumentTerminals, PlainTerminals, MorePlainTerminals, TwoSegmentTerminals;
  }

  lemma {:induction false} CookiesEntry()
    ensures "cookies/set" in Shipped().terminals
    ensures "no-cache" in Shipped().modifiers && Shipped().modifiers["no-cache"] == 0
  {
    assert "cookies/set" in TwoSegmentTerminals();
    assert "no-cache" in Modifiers() && Modifiers()["no-cache"] == 0;
    hide Modifiers, OneSegmentTerminals, TwoSegmentTerminals;
  }

  /** A two-segment terminal that is said to consume no arguments and gets one. */
  lemma {:induction false} ExtraArgumentIsKept()
    ensures Parse(Shipped(), "/no-cache/cookies/set/x") ==
      Ok(Pipe([Step("no-cache", [])], Step("cookies/set", ["x"])))
  {
    hide *;
    ShippedIsWellFormed();
    CookiesEntry();
    CookiesNames();
    ExtraArgumentPath();
    ExtraArgument(Shipped(), "no-cache", "cookies", "set", "x");
  }

  lemma CookiesNames()
    ensures Plain("cookies") && Plain("set") && Plain("x") && Two("cookies", "set") == "cookies/set"
  {
  }

  lemma {:induction false} ExtraArgumentPath()
    ensures PrintPipe(Pipe([Step("no-cache", [])], Step("cookies/set", ["x"]))) == "/no-cache/cookies/set/x"
  {
    var ms := [Step("no-cache", [])];
    assert ms[1..] == [];
    assert ModifierSegments(ms) + StepSegments(Step("cookies/set", ["x"])) == ["no-cache", "cookies/set", "x"];
    var segs := ["no-cache", "cookies/set", "x"];
    assert segs[1..] == ["cookies/set", "x"] && segs[1..][1..] == ["x"] && segs[1..][1..][1..] == [];
  }
}
