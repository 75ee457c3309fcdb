/** URL paths: splitting, joining and path.Clean. */
module Paths {
  /** A segment as path.Clean leaves it. */
  predicate Plain(s: string) { s != "" && '/' !in s && s != "." && s != ".." }

  predicate AllPlain(segs: seq<string>) { forall i :: 0 <= i < |segs| ==> Plain(segs[i]) }

  /** strings.Split(s, "/"). */
  function Split(s: string): (segs: seq<string>)
    ensures segs != []
    ensures forall i :: 0 <= i < |segs| ==> '/' !in segs[i]
  {
    if s == "" then [""]
    else
      var rest := Split(s[1..]);
      if s[0] == '/' then [""] + rest else [[s[0]] + rest[0]] + rest[1..]
  }

  /** strings.Join(segs, "/"). */
  function Join(segs: seq<string>): string {
    if segs == [] then "" else if |segs| == 1 then segs[0] else segs[0] + "/" + Join(segs[1..])
  }

  /** Every segment preceded by a slash. */
  function Print(segs: seq<string>): string {
    if segs == [] then "" else "/" + segs[0] + Print(segs[1..])
  }

  lemma {:induction false} PrintConcat(a: seq<string>, b: seq<string>)
    ensures Print(a + b) == Print(a) + Print(b)
  {
    if a == [] {
      assert a + b == b;
    } else {
      assert (a + b)[1..] == a[1..] + b;
      PrintConcat(a[1..], b);
    }
  }

  lemma {:induction false} PrintIsSlashJoin(segs: seq<string>)
    requires segs != []
    ensures Print(segs) == "/" + Join(segs)
  {
    if |segs| > 1 {
      PrintIsSlashJoin(segs[1..]);
    } else {
      assert segs[1..] == [];
    }
  }

  lemma {:induction false} SplitConcat(a: string, b: string)
    requires '/' !in a
    ensures Split(a + b) == [a + Split(b)[0]] + Split(b)[1..]
  {
    if a == "" {
      assert a + b == b && a + Split(b)[0] == Split(b)[0];
    } else {
      assert (a + b)[1..] == a[1..] + b && (a + b)[0] == a[0];
      assert a[0] in a && forall c :: c in a[1..] ==> c in a;
      SplitConcat(a[1..], b);
      assert [a[0]] + (a[1..] + Split(b)[0]) == a + Split(b)[0];
    }
  }

  lemma {:induction false} SplitJoin(segs: seq<string>)
    requires segs != [] && forall i :: 0 <= i < |segs| ==> '/' !in segs[i]
    ensures Split(Join(segs)) == segs
  {
    if |segs| == 1 {
      assert segs[0] + "" == segs[0];
      SplitConcat(segs[0], "");
    } else {
      var rest := Join(segs[1..]);
      SplitJoin(segs[1..]);
      SplitConcat(segs[0], "/" + rest);
      assert segs[0] + ("/" + rest) == Join(segs);
      assert ("/" + rest)[1..] == rest;
      assert Split("/" + rest) == [""] + Split(rest);
      assert segs[0] + "" == segs[0];
    }
  }

  // ----- path.Clean -----

  /** One segment of the input meets the segments kept so far. */
  function CleanOne(out: seq<string>, seg: string, rooted: bool): seq<string> {
    if seg == "" || seg == "." then out
    else if seg != ".." then out + [seg]
    else if out != [] && out[|out| - 1] != ".." then out[..|out| - 1]
    else if rooted then out
    else out + [".."]
  }

  function CleanSegments(segs: seq<string>, rooted: bool): seq<string> {
    if segs == [] then []
    else CleanOne(CleanSegments(segs[..|segs| - 1], rooted), segs[|segs| - 1], rooted)
  }

  function Clean(p: string): string {
    var rooted := p != "" && p[0] == '/';
    var segs := CleanSegments(Split(p), rooted);
    if rooted then "/" + Join(segs) else if segs == [] then "." else Join(segs)
  }

  lemma {:induction false} CleanRootedIsPlain(segs: seq<string>)
    requires forall i :: 0 <= i < |segs| ==> '/' !in segs[i]
    ensures AllPlain(CleanSegments(segs, true))
  {
    if segs != [] {
      CleanRootedIsPlain(segs[..|segs| - 1]);
    }
  }

  lemma {:induction false} CleanPlain(segs: seq<string>, rooted: bool)
    requires AllPlain(segs)
    ensures CleanSegments(segs, rooted) == segs
  {
    if segs != [] {
      CleanPlain(segs[..|segs| - 1], rooted);
    }
  }

  lemma {:induction false} CleanConcat(a: seq<string>, b: seq<string>, rooted: bool)
    requires CleanSegments(a, rooted) == []
    ensures CleanSegments(a + b, rooted) == CleanSegments(b, rooted)
  {
    if b == [] {
      assert a + b == a;
    } else {
      assert (a + b)[..|a + b| - 1] == a + b[..|b| - 1];
      CleanConcat(a, b[..|b| - 1], rooted);
    }
  }

  /** strings.Trim(s, "/"). */
  function Trim(s: string): string {
    if s != "" && s[0] == '/' then Trim(s[1..])
    else if s != "" && s[|s| - 1] == '/' then Trim(s[..|s| - 1])
    else s
  }

  function NonEmpty(segs: seq<string>): seq<string> {
    if segs == [] then []
    else NonEmpty(segs[..|segs| - 1]) + if segs[|segs| - 1] != "" then [segs[|segs| - 1]] else []
  }

  lemma {:induction false} NonEmptyPlain(segs: seq<string>)
    requires AllPlain(segs)
    ensures NonEmpty(segs) == segs
  {
    if segs != [] {
      NonEmptyPlain(segs[..|segs| - 1]);
    }
  }

  /** The segments parsePipeline works on; none when the path is empty. */
  function SegmentsOf(urlPath: string): seq<string> {
    var cleaned := Trim(Clean(urlPath));
    if cleaned == "" || cleaned == "." then [] else NonEmpty(Split(cleaned))
  }

  lemma {:induction false} JoinEnds(segs: seq<string>)
    requires segs != [] && AllPlain(segs)
    ensures var s := Join(segs); s != "" && s[0] != '/' && s[|s| - 1] != '/'
  {
    if |segs| > 1 {
      JoinEnds(segs[1..]);
    }
  }

  /** A rooted path is reduced to its plain segments. */
  lemma {:induction false} SegmentsOfRooted(p: string)
    requires p != "" && p[0] == '/'
    ensures SegmentsOf(p) == CleanSegments(Split(p), true) && AllPlain(SegmentsOf(p))
  {
    var segs := CleanSegments(Split(p), true);
    CleanRootedIsPlain(Split(p));
    if segs != [] {
      JoinEnds(segs);
      SplitJoin(segs);
      NonEmptyPlain(segs);
      assert ("/" + Join(segs))[1..] == Join(segs);
      assert Trim("/" + Join(segs)) == Join(segs);
    } else {
      assert "/" + "" == "/" && "/"[1..] == "";
    }
  }

  /** Printing plain segments and reading them back changes nothing. */
  lemma SegmentsOfPrint(segs: seq<string>)
    requires segs != [] && AllPlain(segs)
    ensures Print(segs) != "" && Print(segs)[0] == '/' && SegmentsOf(Print(segs)) == segs
  {
    PrintIsSlashJoin(segs);
    SplitJoin(segs);
    assert ("/" + Join(segs))[1..] == Join(segs);
    assert Split(Print(segs)) == [""] + segs;
    assert [""][..0] == [];
    assert CleanSegments([""], true) == [];
    CleanConcat([""], segs, true);
    CleanPlain(segs, true);
    SegmentsOfRooted(Print(segs));
  }
}
