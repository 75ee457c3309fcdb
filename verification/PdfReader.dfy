/** A reader that navigates by offsets only, from the end of the file as
    section 7.5.5 of ISO 32000-1 prescribes, and what it reads at a position
    where something known was written. */
module PdfReader {
  import opened Bytes
  import opened Decimal
  import opened Pdf

  predicate At(file: string, pos: nat, s: string) { pos + |s| <= |file| && file[pos..pos + |s|] == s }

  /** The end of the digits at `pos`. */
  function DigitsEnd(file: string, pos: nat): (end: nat)
    requires pos <= |file|
    ensures pos <= end <= |file| && AllDigits(file[pos..end])
    decreases |file| - pos
  {
    if pos < |file| && IsDigit(file[pos]) then
      var end := DigitsEnd(file, pos + 1);
      assert file[pos..end] == [file[pos]] + file[pos + 1..end];
      end
    else pos
  }

  /** The start of the digits that end at `end`. */
  function DigitsStart(file: string, end: nat): (start: nat)
    requires end <= |file|
    ensures start <= end && AllDigits(file[start..end])
  {
    if end > 0 && IsDigit(file[end - 1]) then
      var start := DigitsStart(file, end - 1);
      assert file[start..end] == file[start..end - 1] + [file[end - 1]];
      start
    else end
  }

  /** A number between two fixed texts: its value and the position after them. */
  function Field(file: string, pos: nat, before: string, after: string): Option<(nat, nat)> {
    if !At(file, pos, before) then None
    else
      var start := pos + |before|;
      var end := DigitsEnd(file, start);
      if start == end || !At(file, end, after) then None else Some((Value(file[start..end]), end + |after|))
  }

  /** The cross-reference table: where entry 1 is, and how many entries there are. */
  datatype Table = Table(base: nat, size: nat)

  function StartXref(file: string): Option<nat> {
    var eof := Eof();
    if |file| < |eof| || !At(file, |file| - |eof|, eof) then None
    else
      var end := |file| - |eof|;
      var start := DigitsStart(file, end);
      if start == end || start < |StartHead()| || !At(file, start - |StartHead()|, StartHead()) then None
      else Some(Value(file[start..end]))
  }

  function ReadTable(file: string, xref: nat): Option<Table> {
    var field :- Field(file, xref, XrefHead(), FreeEntry());
    if field.0 == 0 then None else Some(Table(field.1, field.0))
  }

  function ReadTrailer(file: string, t: Table): Option<nat>
    requires t.size >= 1
  {
    var size :- Field(file, t.base + 20 * (t.size - 1), SizeHead(), RootHead());
    var root :- Field(file, size.1, "", RootEnd());
    if size.0 == t.size then Some(root.0) else None
  }

  /** The offset in entry k, section 7.5.4: ten digits, generation 00000, in use. */
  function Locate(file: string, t: Table, k: nat): Option<nat> {
    if k < 1 || k >= t.size then None
    else
      var pos := t.base + 20 * (k - 1);
      if pos + 20 <= |file| && AllDigits(file[pos..pos + 10]) && At(file, pos + 10, EntryEnd())
      then Some(Value(file[pos..pos + 10]))
      else None
  }

  /** The position inside the dictionary of object k. */
  function OpenObject(file: string, t: Table, k: nat): Option<nat> {
    var offset :- Locate(file, t, k);
    var number :- Field(file, offset, "", ObjHead());
    if number.0 == k then Some(number.1) else None
  }

  function ReadKids(file: string, pos: nat, first: bool): Option<(seq<nat>, nat)>
    decreases |file| - pos
  {
    if At(file, pos, "]") then Some(([], pos))
    else
      var kid :- Field(file, pos, if first then "" else " ", KidEnd());
      var rest :- ReadKids(file, kid.1, false);
      Some(([kid.0] + rest.0, rest.1))
  }

  /** The contents stream of a page, reached through /Contents and cut by /Length. */
  function ReadPage(file: string, t: Table, parent: nat, page: nat): Option<string> {
    var pos :- OpenObject(file, t, page);
    var up :- Field(file, pos, PageHead(), MediaBox());
    var contents :- Field(file, up.1, "", Resources());
    var font :- Field(file, contents.1, "", PageEnd());
    var fontPos :- OpenObject(file, t, font.0);
    var streamPos :- OpenObject(file, t, contents.0);
    var length :- Field(file, streamPos, LengthHead(), StreamHead());
    if up.0 == parent && At(file, fontPos, FontHead()) && At(file, length.1 + length.0, StreamEnd())
    then Some(file[length.1..length.1 + length.0])
    else None
  }

  function ReadPages(file: string, t: Table, parent: nat, kids: seq<nat>): Option<seq<string>> {
    if kids == [] then Some([])
    else
      var page :- ReadPage(file, t, parent, kids[0]);
      var rest :- ReadPages(file, t, parent, kids[1..]);
      Some([page] + rest)
  }

  function ReadRoot(file: string, t: Table, root: nat): Option<nat> {
    var pos :- OpenObject(file, t, root);
    var pages :- Field(file, pos, CatalogHead(), RefEnd());
    Some(pages.0)
  }

  function ReadTree(file: string, t: Table, pages: nat): Option<seq<nat>> {
    var pos :- OpenObject(file, t, pages);
    if !At(file, pos, KidsHead()) then None
    else
      var kids :- ReadKids(file, pos + |KidsHead()|, true);
      var count :- Field(file, kids.1, CountHead(), DictEnd());
      if count.0 == |kids.0| then Some(kids.0) else None
  }

  /** All page contents of a file, in page order. */
  function ReadPdf(file: string): Option<seq<string>> {
    var xref :- StartXref(file);
    var t :- ReadTable(file, xref);
    var root :- ReadTrailer(file, t);
    var pages :- ReadRoot(file, t, root);
    var kids :- ReadTree(file, t, pages);
    ReadPages(file, t, pages, kids)
  }

  predicate NonDigit(s: string) { s != "" && !IsDigit(s[0]) }

  // ----- reading back what is known to be there -----

  lemma AtSplit(file: string, pos: nat, a: string, b: string)
    requires At(file, pos, a + b)
    ensures At(file, pos, a) && At(file, pos + |a|, b)
  {
    var s := file[pos..pos + |a + b|];
    assert file[pos..pos + |a|] == s[..|a|] == a;
    assert file[pos + |a|..pos + |a| + |b|] == s[|a|..] == b;
  }

  lemma AtJoin(file: string, pos: nat, a: string, b: string)
    requires At(file, pos, a) && At(file, pos + |a|, b)
    ensures At(file, pos, a + b)
  {
  }

  lemma AtInside(before: string, s: string, after: string)
    ensures At(before + s + after, |before|, s)
  {
  }

  lemma AtExtended(file: string, more: string, pos: nat, s: string)
    requires At(file, pos, s)
    ensures At(file + more, pos, s)
  {
  }

  lemma {:induction false} DigitsEndAt(file: string, pos: nat, digits: string, after: string)
    requires AllDigits(digits) && NonDigit(after)
    requires At(file, pos, digits + after)
    ensures DigitsEnd(file, pos) == pos + |digits|
    decreases |digits|
  {
    AtSplit(file, pos, digits, after);
    if digits == "" {
      assert file[pos] == after[0];
    } else {
      assert file[pos] == digits[0];
      assert digits + after == [digits[0]] + (digits[1..] + after);
      AtSplit(file, pos, [digits[0]], digits[1..] + after);
      DigitsEndAt(file, pos + 1, digits[1..], after);
    }
  }

  lemma {:induction false} DigitsStartAt(file: string, pos: nat, before: char, digits: string)
    requires AllDigits(digits) && !IsDigit(before) && At(file, pos, [before] + digits)
    ensures DigitsStart(file, pos + 1 + |digits|) == pos + 1
    decreases |digits|
  {
    AtSplit(file, pos, [before], digits);
    if digits == "" {
      assert file[pos] == before;
    } else {
      var init, last := digits[..|digits| - 1], digits[|digits| - 1];
      assert [before] + digits == ([before] + init) + [last];
      AtSplit(file, pos, [before] + init, [last]);
      assert file[pos + |digits|] == last;
      DigitsStartAt(file, pos, before, init);
    }
  }

  /** A field whose number was printed by Itoa is read as that number. */
  lemma FieldAt(file: string, pos: nat, before: string, n: nat, after: string)
    requires At(file, pos, before + Itoa(n) + after) && NonDigit(after)
    ensures Field(file, pos, before, after) == Some((n, pos + |before| + |Itoa(n)| + |after|))
  {
    hide Itoa, Value, DigitsEnd;
    ConcatAssociative(before, Itoa(n), after);
    AtSplit(file, pos, before, Itoa(n) + after);
    DigitsEndAt(file, pos + |before|, Itoa(n), after);
    AtSplit(file, pos + |before|, Itoa(n), after);
    ValueOfItoa(n);
  }

  /** ... and what follows it is still there. */
  lemma FieldThen(file: string, pos: nat, before: string, n: nat, after: string, rest: string)
    requires At(file, pos, before + Itoa(n) + after + rest) && NonDigit(after)
    ensures Field(file, pos, before, after) == Some((n, pos + |before| + |Itoa(n)| + |after|))
    ensures At(file, pos + |before| + |Itoa(n)| + |after|, rest)
  {
    AtSplit(file, pos, before + Itoa(n) + after, rest);
    FieldAt(file, pos, before, n, after);
  }

  // ----- offsets and entries -----

  lemma {:induction false} ObjectAt(objects: seq<string>, k: nat)
    requires k < |objects|
    ensures At(Body(objects), Offsets(objects)[k], objects[k])
  {
    var init, last := objects[..|objects| - 1], objects[|objects| - 1];
    ObjectWritten(init, last);
    assert init + [last] == objects;
    if k < |init| {
      ObjectAt(init, k);
      AtExtended(Body(init), last, Offsets(init)[k], init[k]);
    } else {
      AtInside(Body(init), last, "");
      assert Body(init) + last + "" == Body(init) + last;
    }
  }

  lemma {:induction false} ValueOfZeros(n: nat, s: string)
    requires AllDigits(s)
    ensures AllDigits(Zeros(n) + s) && Value(Zeros(n) + s) == Value(s)
    decreases n + |s|
  {
    if s != "" {
      ValueOfZeros(n, s[..|s| - 1]);
      assert (Zeros(n) + s)[..n + |s| - 1] == Zeros(n) + s[..|s| - 1];
    } else if n > 0 {
      ValueOfZeros(n - 1, "");
      assert (Zeros(n) + "")[..n - 1] == Zeros(n - 1) + "";
      assert (Zeros(n) + "")[n - 1] == '0';
    } else {
      assert Zeros(0) + "" == "";
    }
  }

  lemma {:induction false} EntryAt(offsets: seq<nat>, k: nat)
    requires k < |offsets| && Fits(offsets)
    ensures At(Entries(offsets), 20 * k, Entry(offsets[k]))
  {
    var init := offsets[..|offsets| - 1];
    if k < |init| {
      EntryAt(init, k);
      AtExtended(Entries(init), Entry(offsets[|init|]), 20 * k, Entry(offsets[k]));
    } else {
      AtInside(Entries(init), Entry(offsets[k]), "");
      assert Entries(init) + Entry(offsets[k]) + "" == Entries(offsets);
    }
  }

  /** Twenty bytes that are an entry give back its offset. */
  lemma EntryIsRead(file: string, pos: nat, offset: nat)
    requires |Itoa(offset)| <= 10 && At(file, pos, Entry(offset))
    ensures AllDigits(file[pos..pos + 10]) && Value(file[pos..pos + 10]) == offset
    ensures At(file, pos + 10, EntryEnd())
  {
    var digits := Zeros(10 - |Itoa(offset)|) + Itoa(offset);
    AtSplit(file, pos, digits, EntryEnd());
    ValueOfZeros(10 - |Itoa(offset)|, Itoa(offset));
    ValueOfItoa(offset);
  }
}
