/** generatePDF of helpers.go: the bytes of a PDF 1.4 file around the page
    contents, which are arbitrary. A byte is a char below 256. */
module Pdf {
  import opened Bytes
  import opened Decimal

  const HEADER: string := "%PDF-1.4\n%\U{E2}\U{E3}\U{CF}\U{D3}\n"

  // ----- fixed texts, cut at the numbers -----

  function ObjHead(): string { " 0 obj\n<< " }
  function CatalogHead(): string { "/Type /Catalog /Pages " }
  function RefEnd(): string { " 0 R >>\nendobj\n" }
  function KidsHead(): string { "/Type /Pages /Kids [" }
  function KidEnd(): string { " 0 R" }
  function CountHead(): string { "]" + CountRest() }
  function CountRest(): string { " /Count " }
  function DictEnd(): string { " >>\nendobj\n" }
  function FontHead(): string { "/Type /Font " }
  function FontRest(): string { "/Subtype /Type1 /BaseFont /Helvetica >>\nendobj\n" }
  function PageHead(): string { "/Type /Page /Parent " }
  function MediaBox(): string { " 0 R /MediaBox [0 0 595 842] /Contents " }
  function Resources(): string { " 0 R /Resources << /Font << /F1 " }
  function PageEnd(): string { " 0 R >> >> >>\nendobj\n" }
  function LengthHead(): string { "/Length " }
  function StreamHead(): string { " >>\nstream\n" }
  function StreamEnd(): string { "\nendstream\nendobj\n" }
  function XrefHead(): string { "xref\n0 " }
  function FreeEntry(): string { "\n0000000000 65535 f \n" }
  function EntryEnd(): string { " 00000 n \n" }
  function SizeHead(): string { "trailer\n<< /Size " }
  function RootHead(): string { " /Root " }
  function RootEnd(): string { " 0 R >>\n" }
  function StartHead(): string { "startxref\n" }
  function Eof(): string { "\n%%EOF\n" }

  // ----- objects: 1 is the catalog, 2 the page tree, 3 the font -----

  function Object(number: nat, body: string): string { Itoa(number) + ObjHead() + body }

  function Catalog(): string { Object(1, CatalogHead() + Itoa(2) + RefEnd()) }

  function Font(): string { Object(3, FontHead() + FontRest()) }

  /** Then a page and its contents for each page. */
  function PageNumber(i: nat): nat { 4 + 2 * i }

  /** The references to pages i, ..., n-1 in the Kids array. */
  function KidsText(i: nat, n: nat): string
    decreases n - i
  {
    if i >= n then "" else (if i > 0 then " " else "") + Itoa(PageNumber(i)) + KidEnd() + KidsText(i + 1, n)
  }

  function Pages(n: nat): string {
    Object(2, KidsHead() + (KidsText(0, n) + (CountHead() + Itoa(n) + DictEnd())))
  }

  function PageText(number: nat): string {
    Object(number, PageHead() + Itoa(2) + MediaBox() +
      ("" + Itoa(number + 1) + Resources() + ("" + Itoa(3) + PageEnd())))
  }

  function Page(i: nat): string { PageText(PageNumber(i)) }

  function ContentsText(number: nat, stream: string): string {
    Object(number, LengthHead() + Itoa(|stream|) + StreamHead() + (stream + StreamEnd()))
  }

  function Contents(i: nat, stream: string): string { ContentsText(PageNumber(i) + 1, stream) }

  function FirstObjects(n: nat): seq<string> { [Catalog(), Pages(n), Font()] }

  /** All objects in file order: object k is at index k - 1. */
  function Objects(streams: seq<string>): (objects: seq<string>)
    ensures |objects| == 3 + 2 * |streams|
  {
    FirstObjects(|streams|) + PageObjects(streams, |streams|)
  }

  /** The objects of the first `n` pages. */
  function PageObjects(streams: seq<string>, n: nat): (objects: seq<string>)
    requires n <= |streams|
    ensures |objects| == 2 * n
  {
    if n == 0 then []
    else PageObjects(streams, n - 1) + [Page(n - 1), Contents(n - 1, streams[n - 1])]
  }

  // ----- the file -----

  function Body(objects: seq<string>): string { HEADER + Flatten(objects) }

  /** Where each object begins. */
  function Offsets(objects: seq<string>): (offsets: seq<nat>)
    ensures |offsets| == |objects|
  {
    if objects == [] then []
    else Offsets(objects[..|objects| - 1]) + [|Body(objects[..|objects| - 1])|]
  }

  function Zeros(n: nat): (s: string)
    ensures |s| == n
  {
    seq(n, i => '0')
  }

  /** A cross-reference entry; an offset of more than ten digits does not fit. */
  function Entry(offset: nat): (s: string)
    requires |Itoa(offset)| <= 10
    ensures |s| == 20
  {
    Zeros(10 - |Itoa(offset)|) + Itoa(offset) + EntryEnd()
  }

  predicate Fits(offsets: seq<nat>) { forall i :: 0 <= i < |offsets| ==> |Itoa(offsets[i])| <= 10 }

  function Entries(offsets: seq<nat>): (s: string)
    requires Fits(offsets)
    ensures |s| == 20 * |offsets|
  {
    if offsets == [] then "" else Entries(offsets[..|offsets| - 1]) + Entry(offsets[|offsets| - 1])
  }

  /** Cross-reference table, trailer and the offset of the table. */
  function Tail(offsets: seq<nat>, xrefOffset: nat): string
    requires Fits(offsets)
  {
    XrefHead() + Itoa(|offsets| + 1) + FreeEntry() + (Entries(offsets) + Trailer(|offsets| + 1, xrefOffset))
  }

  function Trailer(size: nat, xrefOffset: nat): string {
    SizeHead() + Itoa(size) + RootHead() + ("" + Itoa(1) + RootEnd() + (StartHead() + (Itoa(xrefOffset) + Eof())))
  }

  function File(streams: seq<string>): string
    requires Fits(Offsets(Objects(streams)))
  {
    Body(Objects(streams)) + Tail(Offsets(Objects(streams)), |Body(Objects(streams))|)
  }

  // ----- the writer -----

  /** Puts `s` at the end of the ten digits of a reused entry. */
  method FillEntry(entry: array<char>, s: string)
    requires entry.Length == 20 && |s| <= 10
    modifies entry
    ensures entry[..] == Zeros(10 - |s|) + s + old(entry[10..])
  {
    for i := 0 to 10
      invariant forall k :: 0 <= k < i ==> entry[k] == '0'
      invariant entry[10..] == old(entry[10..])
    {
      entry[i] := '0';
    }
    for i := 0 to |s|
      invariant forall k :: 0 <= k < 10 - |s| ==> entry[k] == '0'
      invariant forall k :: 0 <= k < i ==> entry[10 - |s| + k] == s[k]
      invariant entry[10..] == old(entry[10..])
    {
      entry[10 - |s| + i] := s[i];
    }
    assert entry[..] == entry[..10 - |s|] + entry[10 - |s|..10] + entry[10..];
  }

  /** The cross-reference loop; None where the code would panic on an offset
      that is too wide. */
  method WriteEntries(offsets: seq<nat>) returns (buf: Option<string>)
    ensures buf.Some? <==> Fits(offsets)
    ensures buf.Some? ==> buf.value == Entries(offsets)
  {
    var xrefEntry := new char[20];
    var template := "0000000000 00000 n \n";
    forall i | 0 <= i < 20 {
      xrefEntry[i] := template[i];
    }
    assert xrefEntry[10..] == EntryEnd();
    var out := "";
    for k := 0 to |offsets|
      invariant xrefEntry[10..] == EntryEnd()
      invariant Fits(offsets[..k]) && out == Entries(offsets[..k])
    {
      var s := Itoa(offsets[k]);
      if |s| > 10 {
        return None;
      }
      FillEntry(xrefEntry, s);
      assert xrefEntry[..] == Entry(offsets[k]);
      assert xrefEntry[10..] == xrefEntry[..][10..];
      assert offsets[..k + 1][..k] == offsets[..k];
      out := out + xrefEntry[..20];
    }
    assert offsets[..|offsets|] == offsets;
    buf := Some(out);
  }

  /** The Kids loop over the page object numbers. */
  method WriteKids(pageObjNums: seq<nat>) returns (s: string)
    requires forall i :: 0 <= i < |pageObjNums| ==> pageObjNums[i] == PageNumber(i)
    ensures s == KidsText(0, |pageObjNums|)
  {
    s := "";
    for i := 0 to |pageObjNums|
      invariant s + KidsText(i, |pageObjNums|) == KidsText(0, |pageObjNums|)
    {
      KidsStep(s, i, |pageObjNums|);
      hide KidsText, Itoa;
      if i > 0 {
        s := s + " ";
      }
      s := s + (Itoa(pageObjNums[i]) + KidEnd());
    }
  }

  lemma {:induction false} KidsStep(s: string, i: nat, n: nat)
    requires i < n
    ensures s + KidsText(i, n) == (if i > 0 then s + " " else s) + (Itoa(PageNumber(i)) + KidEnd()) + KidsText(i + 1, n)
  {
    var number, rest := Itoa(PageNumber(i)), KidsText(i + 1, n);
    assert KidsText(i, n) == (if i > 0 then " " else "") + number + KidEnd() + rest;
    hide *;
    if i > 0 {
      Reassociate(s, " ", number, KidEnd(), rest);
    } else {
      Reassociate(s, "", number, KidEnd(), rest);
      assert s + "" == s;
    }
  }

  lemma Reassociate(s: string, a: string, b: string, c: string, d: string)
    ensures s + (a + b + c + d) == (s + a) + (b + c) + d
  {
  }

  lemma {:induction false} ObjectWritten(objects: seq<string>, next: string)
    ensures Body(objects + [next]) == Body(objects) + next
    ensures Offsets(objects + [next]) == Offsets(objects) + [|Body(objects)|]
  {
    FlattenConcat(objects, [next]);
    assert [next][1..] == [] && Flatten([next]) == next + [];
    assert (objects + [next])[..|objects|] == objects;
  }

  method NumberPages(pages: nat) returns (pageObjNums: seq<nat>)
    ensures |pageObjNums| == pages && forall k :: 0 <= k < pages ==> pageObjNums[k] == PageNumber(k)
  {
    pageObjNums := [];
    var nextObj := 4;
    for i := 0 to pages
      invariant nextObj == PageNumber(i) && |pageObjNums| == i
      invariant forall k :: 0 <= k < i ==> pageObjNums[k] == PageNumber(k)
    {
      pageObjNums := pageObjNums + [nextObj];
      nextObj := nextObj + 2;
    }
  }

  /** The header and the objects 1 to 3. */
  method WritePreamble(pageObjNums: seq<nat>) returns (buf: string, offsets: seq<nat>)
    requires forall k :: 0 <= k < |pageObjNums| ==> pageObjNums[k] == PageNumber(k)
    ensures buf == Body(FirstObjects(|pageObjNums|)) && offsets == Offsets(FirstObjects(|pageObjNums|))
  {
    var pages := |pageObjNums|;
    var none: seq<string> := [];
    assert Body(none) == HEADER && Offsets(none) == [];
    ObjectWritten(none, Catalog());
    ObjectWritten([Catalog()], Pages(pages));
    ObjectWritten([Catalog(), Pages(pages)], Font());
    assert none + [Catalog()] == [Catalog()];
    assert [Catalog()] + [Pages(pages)] == [Catalog(), Pages(pages)];
    assert [Catalog(), Pages(pages)] + [Font()] == FirstObjects(pages);
    hide Body, Offsets, KidsText, Itoa, Catalog, Font;
    buf, offsets := HEADER, [];
    offsets := offsets + [|buf|];
    buf := buf + Catalog();
    offsets := offsets + [|buf|];
    var kids := WriteKids(pageObjNums);
    buf := buf + Object(2, KidsHead() + (kids + (CountHead() + Itoa(pages) + DictEnd())));
    offsets := offsets + [|buf|];
    buf := buf + Font();
  }

  lemma PageWritten(streams: seq<string>, p: nat, before: seq<string>)
    requires p < |streams| && before == FirstObjects(|streams|) + PageObjects(streams, p)
    ensures var page, contents := Page(p), Contents(p, streams[p]);
      var after := FirstObjects(|streams|) + PageObjects(streams, p + 1);
      && Body(after) == Body(before) + page + contents
      && Offsets(after) == Offsets(before) + [|Body(before)|] + [|Body(before) + page|]
  {
    var page, contents := Page(p), Contents(p, streams[p]);
    ObjectWritten(before, page);
    ObjectWritten(before + [page], contents);
    assert FirstObjects(|streams|) + PageObjects(streams, p + 1) == before + [page] + [contents];
  }

  /** generatePDF around given page contents; None where the code would panic. */
  method GeneratePdf(streams: seq<string>) returns (r: Option<string>)
    ensures r.Some? <==> Fits(Offsets(Objects(streams)))
    ensures r.Some? ==> r.value == File(streams)
  {
    hide Body, Offsets, Entries, Itoa, PageText, ContentsText, Fits;
    var pages := |streams|;
    var pageObjNums := NumberPages(pages);
    var buf, offsets := WritePreamble(pageObjNums);
    assert FirstObjects(pages) + PageObjects(streams, 0) == FirstObjects(pages);
    for p := 0 to pages
      invariant var written := FirstObjects(pages) + PageObjects(streams, p);
                buf == Body(written) && offsets == Offsets(written)
    {
      PageWritten(streams, p, FirstObjects(pages) + PageObjects(streams, p));
      var contentBytes := streams[p];
      offsets := offsets + [|buf|];
      buf := buf + PageText(pageObjNums[p]);
      offsets := offsets + [|buf|];
      buf := buf + ContentsText(pageObjNums[p] + 1, contentBytes);
    }
    var xrefOffset := |buf|;
    var entries := WriteEntries(offsets);
    if entries.None? {
      return None;
    }
    r := Some(buf + (XrefHead() + Itoa(|offsets| + 1) + FreeEntry() +
      (entries.value + Trailer(|offsets| + 1, xrefOffset))));
  }
}
