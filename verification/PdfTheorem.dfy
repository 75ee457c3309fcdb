/** A written file, followed by offsets from its last line, yields the page
    contents it was written from. */
module PdfTheorem {
  import opened Bytes
  import opened Decimal
  import opened Pdf
  import opened PdfReader

  /** The texts after a number do not begin with a digit. */
  lemma AfterNumbers()
    ensures NonDigit(ObjHead()) && NonDigit(RefEnd()) && NonDigit(KidEnd()) && NonDigit(DictEnd())
    ensures NonDigit(MediaBox()) && NonDigit(Resources()) && NonDigit(PageEnd()) && NonDigit(StreamHead())
    ensures NonDigit(FreeEntry()) && NonDigit(RootHead()) && NonDigit(RootEnd())
  {
  }

  // ----- the end of the file -----

  lemma LastDigits(file: string, p: nat, x: nat)
    requires At(file, p, StartHead()) && At(file, p + |StartHead()|, Itoa(x))
    ensures DigitsStart(file, p + |StartHead()| + |Itoa(x)|) == p + |StartHead()|
  {
    var word := "startxref";
    assert StartHead() == word + ['\n'];
    hide Itoa, StartHead, DigitsStart;
    AtSplit(file, p, word, ['\n']);
    AtJoin(file, p + |word|, ['\n'], Itoa(x));
    DigitsStartAt(file, p + |word|, '\n', Itoa(x));
  }

  lemma StartXrefAt(file: string, p: nat, x: nat)
    requires At(file, p, StartHead()) && At(file, p + |StartHead()|, Itoa(x))
    requires At(file, p + |StartHead()| + |Itoa(x)|, Eof()) && |file| == p + |StartHead()| + |Itoa(x)| + |Eof()|
    ensures StartXref(file) == Some(x)
  {
    LastDigits(file, p, x);
    ValueOfItoa(x);
    hide Itoa, Value, StartHead, Eof, DigitsStart;
  }

  lemma StartXrefOf(front: string, x: nat)
    ensures StartXref(front + (StartHead() + (Itoa(x) + Eof()))) == Some(x)
  {
    hide Itoa, StartHead, Eof, StartXref;
    var file := front + (StartHead() + (Itoa(x) + Eof()));
    AtInside(front, StartHead() + (Itoa(x) + Eof()), "");
    assert front + (StartHead() + (Itoa(x) + Eof())) + "" == file;
    AtSplit(file, |front|, StartHead(), Itoa(x) + Eof());
    AtSplit(file, |front| + |StartHead()|, Itoa(x), Eof());
    StartXrefAt(file, |front|, x);
  }

  lemma Regroup(body: string, a: string, b: string, c: string, tail: string)
    ensures body + (a + (b + (c + tail))) == (body + (a + (b + c))) + tail
  {
    ConcatAssociative(b, c, tail);
    ConcatAssociative(a, b + c, tail);
    ConcatAssociative(body, a + (b + c), tail);
  }

  lemma FileEnds(streams: seq<string>)
    requires Fits(Offsets(Objects(streams)))
    ensures StartXref(File(streams)) == Some(|Body(Objects(streams))|)
  {
    hide Body, Offsets, Objects, Fits, Entries, Itoa, StartXref, XrefHead, FreeEntry, SizeHead, RootHead, RootEnd, StartHead, Eof;
    var body, offsets := Body(Objects(streams)), Offsets(Objects(streams));
    var size := |offsets| + 1;
    var last := StartHead() + (Itoa(|body|) + Eof());
    Regroup(body, XrefHead() + Itoa(size) + FreeEntry(), Entries(offsets),
      SizeHead() + Itoa(size) + RootHead() + ("" + Itoa(1) + RootEnd()), last);
    ConcatAssociative(SizeHead() + Itoa(size) + RootHead(), "" + Itoa(1) + RootEnd(), last);
    StartXrefOf(body + (XrefHead() + Itoa(size) + FreeEntry() + (Entries(offsets) +
      (SizeHead() + Itoa(size) + RootHead() + ("" + Itoa(1) + RootEnd())))), |body|);
  }

  // ----- the table -----

  datatype Layout = Layout(file: string, objects: seq<string>, offsets: seq<nat>, t: Table)

  function LayoutOf(streams: seq<string>): Layout
    requires Fits(Offsets(Objects(streams)))
  {
    var objects := Objects(streams);
    var size := |objects| + 1;
    var base := |Body(objects)| + |XrefHead()| + |Itoa(size)| + |FreeEntry()|;
    Layout(File(streams), objects, Offsets(objects), Table(base, size))
  }

  lemma TrailerAt(file: string, t: Table, x: nat)
    requires t.size >= 1 && At(file, t.base + 20 * (t.size - 1), Trailer(t.size, x))
    ensures ReadTrailer(file, t) == Some(1)
  {
    AfterNumbers();
    hide Itoa, Field, SizeHead, RootHead, RootEnd, StartHead, Eof, NonDigit, At;
    var last := StartHead() + (Itoa(x) + Eof());
    var p := t.base + 20 * (t.size - 1);
    FieldThen(file, p, SizeHead(), t.size, RootHead(), "" + Itoa(1) + RootEnd() + last);
    FieldThen(file, p + |SizeHead()| + |Itoa(t.size)| + |RootHead()|, "", 1, RootEnd(), last);
  }

  lemma FileTable(streams: seq<string>)
    requires Fits(Offsets(Objects(streams)))
    ensures var l := LayoutOf(streams);
      && ReadTable(l.file, |Body(l.objects)|) == Some(l.t)
      && At(l.file, l.t.base, Entries(l.offsets))
      && ReadTrailer(l.file, l.t) == Some(1)
      && l.t.size == |l.objects| + 1
  {
    AfterNumbers();
    hide Body, Offsets, Objects, Fits, Entries, Itoa, Field, XrefHead, FreeEntry, NonDigit, Trailer, ReadTrailer, At;
    var l := LayoutOf(streams);
    var x, size := |Body(l.objects)|, |l.objects| + 1;
    AtInside(Body(l.objects), Tail(l.offsets, x), "");
    assert Body(l.objects) + Tail(l.offsets, x) + "" == l.file;
    FieldThen(l.file, x, XrefHead(), size, FreeEntry(), Entries(l.offsets) + Trailer(size, x));
    AtSplit(l.file, l.t.base, Entries(l.offsets), Trailer(size, x));
    TrailerAt(l.file, l.t, x);
  }

  lemma AtWithin(file: string, pos: nat, outer: string, offset: nat, s: string)
    requires At(file, pos, outer) && At(outer, offset, s)
    ensures At(file, pos + offset, s)
  {
    assert forall i :: 0 <= i < |s| ==> outer[offset + i] == s[i] by {
      assert forall i :: 0 <= i < |s| ==> outer[offset..offset + |s|][i] == s[i];
    }
    assert forall i :: 0 <= i < |outer| ==> file[pos + i] == outer[i] by {
      assert forall i :: 0 <= i < |outer| ==> file[pos..pos + |outer|][i] == outer[i];
    }
    assert forall i :: 0 <= i < |s| ==> file[pos + (offset + i)] == s[i];
  }

  /** Entry k of the table holds the offset at which object k begins. */
  lemma ObjectIsLocated(streams: seq<string>, k: nat)
    requires Fits(Offsets(Objects(streams))) && 1 <= k <= |Objects(streams)|
    ensures var l := LayoutOf(streams);
      && Locate(l.file, l.t, k) == Some(l.offsets[k - 1])
      && At(l.file, l.offsets[k - 1], l.objects[k - 1])
  {
    hide Body, Offsets, Objects, Entries, Itoa, Tail, Entry, Locate, ReadTable, ReadTrailer, At;
    var l := LayoutOf(streams);
    FileTable(streams);
    ObjectAt(l.objects, k - 1);
    AtExtended(Body(l.objects), Tail(l.offsets, |Body(l.objects)|), l.offsets[k - 1], l.objects[k - 1]);
    EntryAt(l.offsets, k - 1);
    AtWithin(l.file, l.t.base, Entries(l.offsets), 20 * (k - 1), Entry(l.offsets[k - 1]));
    LocateAt(l.file, l.t, k, l.offsets[k - 1]);
  }

  lemma LocateAt(file: string, t: Table, k: nat, offset: nat)
    requires 1 <= k < t.size && |Itoa(offset)| <= 10 && At(file, t.base + 20 * (k - 1), Entry(offset))
    ensures Locate(file, t, k) == Some(offset)
  {
    hide Itoa, Entry, EntryEnd, Value, AllDigits;
    EntryIsRead(file, t.base + 20 * (k - 1), offset);
  }

  lemma {:induction false} ObjectOpens(streams: seq<string>, k: nat, body: string) returns (pos: nat)
    requires Fits(Offsets(Objects(streams))) && 1 <= k <= |Objects(streams)|
    requires Objects(streams)[k - 1] == Object(k, body)
    ensures OpenObject(File(streams), LayoutOf(streams).t, k) == Some(pos) && At(File(streams), pos, body)
  {
    hide Body, Offsets, Objects, Itoa, Field, Locate, ObjHead, NonDigit;
    var l := LayoutOf(streams);
    ObjectIsLocated(streams, k);
    AfterNumbers();
    assert "" + Itoa(k) + ObjHead() + body == Object(k, body);
    FieldThen(l.file, l.offsets[k - 1], "", k, ObjHead(), body);
    pos := l.offsets[k - 1] + |Itoa(k)| + |ObjHead()|;
  }

  // ----- the objects of a written file -----

  lemma {:induction false} PageObjectAt(streams: seq<string>, n: nat, i: nat)
    requires i < n <= |streams|
    ensures PageObjects(streams, n)[2 * i] == Page(i)
    ensures PageObjects(streams, n)[2 * i + 1] == Contents(i, streams[i])
  {
    hide Page, Contents;
    if i < n - 1 {
      PageObjectAt(streams, n - 1, i);
    }
  }

  lemma NumberedObjects(streams: seq<string>)
    ensures Objects(streams)[0] == Catalog() && Objects(streams)[1] == Pages(|streams|) && Objects(streams)[2] == Font()
    ensures forall i :: 0 <= i < |streams| ==> Objects(streams)[PageNumber(i) - 1] == Page(i)
    ensures forall i :: 0 <= i < |streams| ==> Objects(streams)[PageNumber(i)] == Contents(i, streams[i])
  {
    hide Page, Contents, Catalog, Pages, Font;
    forall i | 0 <= i < |streams|
      ensures Objects(streams)[PageNumber(i) - 1] == Page(i) && Objects(streams)[PageNumber(i)] == Contents(i, streams[i])
    {
      PageObjectAt(streams, |streams|, i);
    }
  }

  lemma SecondObject(streams: seq<string>)
    ensures |Objects(streams)| >= 2 && Objects(streams)[1] == Object(2, TreeText(|streams|))
  {
    hide Object, Catalog, Font, TreeText;
    PagesIsTree(|streams|);
  }

  lemma {:induction false} RootIsRead(streams: seq<string>)
    requires Fits(Offsets(Objects(streams)))
    ensures ReadRoot(File(streams), LayoutOf(streams).t, 1) == Some(2)
  {
    hide Offsets, Fits, OpenObject, Field, Objects, Itoa, Pages, Font, Object, CatalogHead, RefEnd, NonDigit, LayoutOf, File;
    NumberedObjects(streams);
    AfterNumbers();
    var pos := ObjectOpens(streams, 1, CatalogHead() + Itoa(2) + RefEnd());
    FieldAt(File(streams), pos, CatalogHead(), 2, RefEnd());
  }

  /** The page numbers in the Kids array from page i on. */
  function Numbers(i: nat, n: nat): (ks: seq<nat>)
    ensures |ks| == if i < n then n - i else 0
    decreases n - i
  {
    if i >= n then [] else [PageNumber(i)] + Numbers(i + 1, n)
  }

  lemma NotBracket(file: string, pos: nat, sep: string, n: nat, after: string)
    requires (sep == "" || sep == " ") && At(file, pos, sep + Itoa(n) + after)
    ensures !At(file, pos, "]")
  {
    var s := sep + Itoa(n) + after;
    assert IsDigit(Itoa(n)[0]);
    assert s[0] != ']' && file[pos] == file[pos..pos + |s|][0] == s[0];
  }

  lemma {:induction false} KidsAreRead(file: string, pos: nat, i: nat, n: nat, after: string)
    requires i <= n && At(file, pos, KidsText(i, n) + ("]" + after))
    ensures ReadKids(file, pos, i == 0) == Some((Numbers(i, n), pos + |KidsText(i, n)|))
    decreases n - i
  {
    hide KidsText, ReadKids, At, Numbers, PageNumber;
    if i == n {
      NoKids(file, pos, i == 0, n, after);
    } else {
      var next := KidStep(file, pos, i, n, after);
      KidsAreRead(file, next, i + 1, n, after);
      NumbersUnfold(i, n);
    }
  }

  lemma KidStep(file: string, pos: nat, i: nat, n: nat, after: string) returns (next: nat)
    requires i < n && At(file, pos, KidsText(i, n) + ("]" + after))
    ensures At(file, next, KidsText(i + 1, n) + ("]" + after))
    ensures next + |KidsText(i + 1, n)| == pos + |KidsText(i, n)|
    ensures ReadKids(file, next, false).Some? ==>
      var (kids, end) := ReadKids(file, next, false).value;
      ReadKids(file, pos, i == 0) == Some(([PageNumber(i)] + kids, end))
  {
    hide Itoa, KidEnd, At, KidsText, ReadKids, PageNumber;
    var sep := if i == 0 then "" else " ";
    var rest := KidsText(i + 1, n) + ("]" + after);
    assert KidsText(i, n) + ("]" + after) == sep + Itoa(PageNumber(i)) + KidEnd() + rest
      && |KidsText(i, n)| == |sep| + |Itoa(PageNumber(i))| + |KidEnd()| + |KidsText(i + 1, n)| by {
      KidsUnfold(i, n, sep, "]" + after);
    }
    next := pos + |sep| + |Itoa(PageNumber(i))| + |KidEnd()|;
    OneKidIsRead(file, pos, i == 0, PageNumber(i), rest);
  }

  lemma NumbersUnfold(i: nat, n: nat)
    requires i < n
    ensures Numbers(i, n) == [PageNumber(i)] + Numbers(i + 1, n)
  {
  }

  lemma NoKids(file: string, pos: nat, first: bool, n: nat, after: string)
    requires At(file, pos, KidsText(n, n) + ("]" + after))
    ensures ReadKids(file, pos, first) == Some((Numbers(n, n), pos + |KidsText(n, n)|))
  {
    assert KidsText(n, n) + ("]" + after) == "]" + after;
    AtSplit(file, pos, "]", after);
  }

  lemma OneKidIsRead(file: string, pos: nat, first: bool, kid: nat, rest: string)
    requires At(file, pos, (if first then "" else " ") + Itoa(kid) + KidEnd() + rest)
    ensures var next := pos + |(if first then "" else " ")| + |Itoa(kid)| + |KidEnd()|;
      && At(file, next, rest)
      && (ReadKids(file, next, false).Some? ==>
            var (kids, end) := ReadKids(file, next, false).value;
            ReadKids(file, pos, first) == Some(([kid] + kids, end)))
  {
    var sep := if first then "" else " ";
    AfterNumbers();
    ConcatAssociative(sep + Itoa(kid), KidEnd(), rest);
    NotBracket(file, pos, sep, kid, KidEnd() + rest);
    hide Itoa, Field, KidEnd, At, NonDigit;
    FieldThen(file, pos, sep, kid, KidEnd(), rest);
  }

  lemma KidsUnfold(i: nat, n: nat, sep: string, after: string)
    requires i < n && sep == if i == 0 then "" else " "
    ensures KidsText(i, n) + after == sep + Itoa(PageNumber(i)) + KidEnd() + (KidsText(i + 1, n) + after)
    ensures |KidsText(i, n)| == |sep| + |Itoa(PageNumber(i))| + |KidEnd()| + |KidsText(i + 1, n)|
  {
    hide Itoa, KidEnd;
    ConcatAssociative(sep + Itoa(PageNumber(i)) + KidEnd(), KidsText(i + 1, n), after);
  }

  lemma {:induction false} TreeIsRead(streams: seq<string>)
    requires Fits(Offsets(Objects(streams)))
    ensures ReadTree(File(streams), LayoutOf(streams).t, 2) == Some(Numbers(0, |streams|))
  {
    hide ReadTree, LayoutOf, File, OpenObject, TreeText, Numbers, Objects, Object;
    var n := |streams|;
    SecondObject(streams);
    var pos := ObjectOpens(streams, 2, TreeText(n));
    TreeAt(File(streams), LayoutOf(streams).t, pos, n);
  }

  function TreeText(n: nat): string { KidsHead() + (KidsText(0, n) + (CountHead() + Itoa(n) + DictEnd())) }

  lemma PagesIsTree(n: nat)
    ensures Pages(n) == Object(2, TreeText(n))
  {
  }

  lemma TreeAt(file: string, t: Table, pos: nat, n: nat)
    requires OpenObject(file, t, 2) == Some(pos) && At(file, pos, TreeText(n))
    ensures ReadTree(file, t, 2) == Some(Numbers(0, n))
  {
    AfterNumbers();
    hide Itoa, DictEnd, CountRest, KidsHead, KidsText, NonDigit, OpenObject, Field, ReadKids, Numbers, At;
    var kids, count := KidsText(0, n), CountHead() + Itoa(n) + DictEnd();
    var after := CountRest() + Itoa(n) + DictEnd();
    BracketFirst(Itoa(n), DictEnd());
    hide CountHead;
    AtSplit(file, pos, KidsHead(), kids + count);
    var p := pos + |KidsHead()|;
    KidsAreRead(file, p, 0, n, after);
    AtSplit(file, p, kids, count);
    FieldAt(file, p + |kids|, CountHead(), n, DictEnd());
  }

  lemma BracketFirst(number: string, end: string)
    ensures CountHead() + number + end == "]" + (CountRest() + number + end)
  {
    hide CountRest;
    ConcatAssociative("]", CountRest(), number);
    ConcatAssociative("]", CountRest() + number, end);
  }

  /** The stream of a contents object is cut out exactly by its /Length. */
  lemma {:induction false} StreamIsRead(streams: seq<string>, i: nat)
    requires Fits(Offsets(Objects(streams))) && i < |streams|
    ensures var file := File(streams);
      var pos := OpenObject(file, LayoutOf(streams).t, PageNumber(i) + 1);
      && pos.Some?
      && var length := Field(file, pos.value, LengthHead(), StreamHead());
      && length.Some? && length.value.0 == |streams[i]|
      && At(file, length.value.1, streams[i])
      && At(file, length.value.1 + length.value.0, StreamEnd())
  {
    hide Offsets, Fits, OpenObject, Field, Objects, Object, Itoa, LayoutOf, File, LengthHead, StreamHead, StreamEnd, NonDigit;
    var file, stream := File(streams), streams[i];
    NumberedObjects(streams);
    AfterNumbers();
    assert Contents(i, stream) == Object(PageNumber(i) + 1, LengthHead() + Itoa(|stream|) + StreamHead() + (stream + StreamEnd()));
    var pos := ObjectOpens(streams, PageNumber(i) + 1, LengthHead() + Itoa(|stream|) + StreamHead() + (stream + StreamEnd()));
    FieldThen(file, pos, LengthHead(), |stream|, StreamHead(), stream + StreamEnd());
    AtSplit(file, Field(file, pos, LengthHead(), StreamHead()).value.1, stream, StreamEnd());
  }

  lemma {:induction false} FontIsRead(streams: seq<string>)
    requires Fits(Offsets(Objects(streams)))
    ensures var pos := OpenObject(File(streams), LayoutOf(streams).t, 3);
      pos.Some? && At(File(streams), pos.value, FontHead())
  {
    hide Offsets, Fits, OpenObject, Objects, Object, LayoutOf, File, FontHead, FontRest;
    NumberedObjects(streams);
    var pos := ObjectOpens(streams, 3, FontHead() + FontRest());
    AtSplit(File(streams), pos, FontHead(), FontRest());
  }

  lemma {:induction false} PageDictionary(streams: seq<string>, i: nat) returns (pos: nat, pos1: nat, pos2: nat, pos3: nat)
    requires Fits(Offsets(Objects(streams))) && i < |streams|
    ensures var file := File(streams);
      && OpenObject(file, LayoutOf(streams).t, PageNumber(i)) == Some(pos)
      && Field(file, pos, PageHead(), MediaBox()) == Some((2, pos1))
      && Field(file, pos1, "", Resources()) == Some((PageNumber(i) + 1, pos2))
      && Field(file, pos2, "", PageEnd()) == Some((3, pos3))
  {
    hide Offsets, Fits, OpenObject, Field, Objects, Object, Itoa, LayoutOf, File, PageHead, MediaBox, Resources, PageEnd, NonDigit;
    var file, number := File(streams), PageNumber(i);
    NumberedObjects(streams);
    AfterNumbers();
    var toFont := "" + Itoa(3) + PageEnd();
    var toContents := "" + Itoa(number + 1) + Resources() + toFont;
    assert Page(i) == Object(number, PageHead() + Itoa(2) + MediaBox() + toContents);
    pos := ObjectOpens(streams, number, PageHead() + Itoa(2) + MediaBox() + toContents);
    FieldThen(file, pos, PageHead(), 2, MediaBox(), toContents);
    pos1 := pos + |PageHead()| + |Itoa(2)| + |MediaBox()|;
    FieldThen(file, pos1, "", number + 1, Resources(), toFont);
    pos2 := pos1 + |Itoa(number + 1)| + |Resources()|;
    FieldAt(file, pos2, "", 3, PageEnd());
    pos3 := pos2 + |Itoa(3)| + |PageEnd()|;
  }

  lemma PageIsRead(streams: seq<string>, i: nat)
    requires Fits(Offsets(Objects(streams))) && i < |streams|
    ensures ReadPage(File(streams), LayoutOf(streams).t, 2, PageNumber(i)) == Some(streams[i])
  {
    hide Offsets, Fits, OpenObject, Field, Objects, LayoutOf, File, PageHead, MediaBox, Resources, PageEnd,
      LengthHead, StreamHead, StreamEnd, FontHead;
    var pos, pos1, pos2, pos3 := PageDictionary(streams, i);
    FontIsRead(streams);
    StreamIsRead(streams, i);
  }

  lemma {:induction false} PagesAreRead(streams: seq<string>, i: nat)
    requires Fits(Offsets(Objects(streams))) && i <= |streams|
    ensures ReadPages(File(streams), LayoutOf(streams).t, 2, Numbers(i, |streams|)) == Some(streams[i..])
    decreases |streams| - i
  {
    hide File, LayoutOf, ReadPage, Offsets, Objects, Fits, ReadPages, Numbers, PageNumber;
    if i < |streams| {
      PageIsRead(streams, i);
      PagesAreRead(streams, i + 1);
      NumbersUnfold(i, |streams|);
      OneMorePage(File(streams), LayoutOf(streams).t, PageNumber(i), Numbers(i + 1, |streams|));
      assert streams[i..] == [streams[i]] + streams[i + 1..];
    } else {
      NoMorePages(File(streams), LayoutOf(streams).t, i);
      assert streams[i..] == [];
    }
  }

  lemma OneMorePage(file: string, t: Table, page: nat, kids: seq<nat>)
    requires ReadPage(file, t, 2, page).Some? && ReadPages(file, t, 2, kids).Some?
    ensures ReadPages(file, t, 2, [page] + kids) ==
      Some([ReadPage(file, t, 2, page).value] + ReadPages(file, t, 2, kids).value)
  {
    hide ReadPage;
    assert ([page] + kids)[1..] == kids;
  }

  lemma NoMorePages(file: string, t: Table, n: nat)
    ensures ReadPages(file, t, 2, Numbers(n, n)) == Some([])
  {
  }

  /** Main result: reading a written file from its end gives back the page
      contents, for any number of pages and any contents. */
  lemma {:induction false} ReadsBack(streams: seq<string>)
    requires Fits(Offsets(Objects(streams)))
    ensures ReadPdf(File(streams)) == Some(streams)
  {
    hide Offsets, Fits, File, StartXref, ReadTable, ReadTrailer, ReadRoot, ReadTree, ReadPages, LayoutOf, Objects, Body;
    FileEnds(streams);
    FileTable(streams);
    assert LayoutOf(streams).file == File(streams) && LayoutOf(streams).objects == Objects(streams) by { LayoutParts(streams); }
    RootIsRead(streams);
    TreeIsRead(streams);
    PagesAreRead(streams, 0);
    assert streams[0..] == streams;
  }

  lemma LayoutParts(streams: seq<string>)
    requires Fits(Offsets(Objects(streams)))
    ensures LayoutOf(streams).file == File(streams) && LayoutOf(streams).objects == Objects(streams)
  {
  }

  // ----- when offsets fit -----

  lemma {:induction false} OffsetsAreInside(objects: seq<string>, k: nat)
    requires k < |objects|
    ensures Offsets(objects)[k] <= |Body(objects)|
  {
    var init, last := objects[..|objects| - 1], objects[|objects| - 1];
    ObjectWritten(init, last);
    assert init + [last] == objects;
    if k < |init| {
      OffsetsAreInside(init, k);
    }
  }

  /** A body below ten billion bytes is always written. */
  lemma SmallFilesFit(streams: seq<string>)
    requires |Body(Objects(streams))| < 10_000_000_000
    ensures Fits(Offsets(Objects(streams)))
  {
    var objects := Objects(streams);
    assert Pow10(5) == 100_000 && Pow10(10) == 10_000_000_000;
    hide Objects, Body, Pow10, Itoa;
    forall k | 0 <= k < |objects| ensures |Itoa(Offsets(objects)[k])| <= 10 {
      OffsetsAreInside(objects, k);
      ItoaLength(Offsets(objects)[k], 10);
    }
  }
}
