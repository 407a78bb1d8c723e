/** The spreadsheet rows and image file names that `save_annotations` writes,
    as functions of the session and of one timestamp per image (the source
    takes `datetime.now()` once per image). A reader for the rows shows that
    the export loses nothing: it gives back every image index, its timestamp
    and its marks in recording order. */
module Export {
  import opened Text
  import opened Session

  /** A row of the annotations sheet, before it is written out as text. */
  datatype Row = Header(index: nat, stamp: string) | MarkLine(number: nat, mark: Mark)

  /** The row that opens an image's group: `f"Image {idx} ({timestamp}):"`. */
  function HeaderText(idx: nat, stamp: string): string {
    "Image " + (NatToString(idx) + (" (" + (stamp + "):")))
  }

  /** A header row starts with "Image " and ends with the timestamp and "):". */
  lemma HeaderShape(idx: nat, stamp: string)
    ensures var t := HeaderText(idx, stamp);
            && |t| >= |stamp| + 9 && t[..6] == "Image "
            && t[|t| - 2..] == "):" && t[|t| - 2 - |stamp|..|t| - 2] == stamp
  {
    var t := HeaderText(idx, stamp);
    var d := NatToString(idx);
    assert t == ("Image " + (d + " (")) + (stamp + "):");
  }

  /** Python's `str` of the tuple `(x, y)`. */
  function MarkText(m: Mark): string {
    "(" + (IntToString(m.0) + (", " + (IntToString(m.1) + ")")))
  }

  /** One row per mark: `f"Mark {mark_idx + 1}: {mark}"`. */
  function MarkLineText(number: nat, m: Mark): string {
    "Mark " + (NatToString(number) + (": " + MarkText(m)))
  }

  /** A mark row starts with "Mark " and ends with the closing parenthesis
      of the tuple; it never looks like a header. */
  lemma MarkLineShape(number: nat, m: Mark)
    ensures var t := MarkLineText(number, m);
            && t[..5] == "Mark " && t[|t| - 1] == ')' && !("Image " <= t)
  {
    var mt := MarkText(m);
    assert mt[|mt| - 1] == ')';
    var rest := NatToString(number) + (": " + mt);
    var t := MarkLineText(number, m);
    assert t == "Mark " + rest;
    assert t[..5] == "Mark ";
    assert t[|t| - 1] == mt[|mt| - 1];
    assert t[0] == 'M';
  }

  function Render(row: Row): string {
    match row
    case Header(idx, stamp) => HeaderText(idx, stamp)
    case MarkLine(number, m) => MarkLineText(number, m)
  }

  function RenderAll(rows: seq<Row>): (texts: seq<string>)
    ensures |texts| == |rows|
    ensures forall i :: 0 <= i < |rows| ==> texts[i] == Render(rows[i])
  {
    seq(|rows|, i requires 0 <= i < |rows| => Render(rows[i]))
  }

  /** The rows one image contributes: its header, then one row per mark,
      numbered from 1 in recording order. */
  function GroupRows(idx: nat, stamp: string, ms: seq<Mark>): (rows: seq<Row>)
    ensures |rows| == |ms| + 1 && rows[0] == Header(idx, stamp)
    ensures forall j :: 0 <= j < |ms| ==> rows[j + 1] == MarkLine(j + 1, ms[j])
  {
    [Header(idx, stamp)] + seq(|ms|, j requires 0 <= j < |ms| => MarkLine(j + 1, ms[j]))
  }

  /** The texts of the first `k` mark rows of an image. */
  function MarkLineTexts(ms: seq<Mark>, k: nat): (texts: seq<string>)
    requires k <= |ms|
    ensures |texts| == k
  {
    seq(k, j requires 0 <= j < k => MarkLineText(j + 1, ms[j]))
  }

  /** One more mark row. */
  lemma MarkLineTextsStep(ms: seq<Mark>, k: nat)
    requires k < |ms|
    ensures MarkLineTexts(ms, k + 1) == MarkLineTexts(ms, k) + [MarkLineText(k + 1, ms[k])]
  {
  }

  /** An image's group as text: its header, then its mark rows. */
  lemma RenderGroupRows(idx: nat, stamp: string, ms: seq<Mark>)
    ensures RenderAll(GroupRows(idx, stamp, ms)) == [HeaderText(idx, stamp)] + MarkLineTexts(ms, |ms|)
  {
  }

  /** The groups of the images `lo .. hi - 1`, in index order. */
  function ExportRange(marks: map<nat, seq<Mark>>, stamps: seq<string>, lo: nat, hi: nat): (rows: seq<Row>)
    requires lo <= hi <= |stamps|
    ensures |rows| == (hi - lo) + TotalMarks(marks, lo, hi)
    decreases hi
  {
    if lo == hi then []
    else ExportRange(marks, stamps, lo, hi - 1) + GroupRows(hi - 1, stamps[hi - 1], MarksOf(marks, hi - 1))
  }

  /** Every row one save appends to the sheet, as text. */
  function ExportRows(s: State, stamps: seq<string>): (texts: seq<string>)
    requires |stamps| == |s.images|
    ensures |texts| == |s.images| + TotalMarks(s.marks, 0, |s.images|)
  {
    RenderAll(ExportRange(s.marks, stamps, 0, |s.images|))
  }

  /** The sheet after `save_annotations`: unchanged when there are no images
      (the warning path) or the directory dialog was cancelled (`saveDir` is
      empty); otherwise the export rows are appended after the existing ones. */
  function Saved(sheet: seq<string>, s: State, saveDir: string, stamps: seq<string>): (r: seq<string>)
    requires |stamps| == |s.images|
    ensures |sheet| <= |r| && r[..|sheet|] == sheet
    ensures s.images == [] || saveDir == "" ==> r == sheet
  {
    if s.images == [] || saveDir == "" then sheet else sheet + ExportRows(s, stamps)
  }

  /** `f"image_{idx}_{timestamp}.png"`. */
  function ImageFileName(idx: nat, stamp: string): string {
    "image_" + (NatToString(idx) + ("_" + (stamp + ".png")))
  }

  /** An image file name starts with "image_" and ends with the timestamp and ".png". */
  lemma ImageFileNameShape(idx: nat, stamp: string)
    ensures var t := ImageFileName(idx, stamp);
            && |t| >= |stamp| + 11 && t[..6] == "image_"
            && t[|t| - 4..] == ".png" && t[|t| - 4 - |stamp|..|t| - 4] == stamp
  {
    var t := ImageFileName(idx, stamp);
    var d := NatToString(idx);
    assert t == ("image_" + (d + "_")) + (stamp + ".png");
  }

  /** The file names of the first `n` images. */
  function ImageFileNames(stamps: seq<string>, n: nat): (names: seq<string>)
    requires n <= |stamps|
    ensures |names| == n
    ensures forall i :: 0 <= i < n ==> names[i] == ImageFileName(i, stamps[i])
  {
    seq(n, i requires 0 <= i < n => ImageFileName(i, stamps[i]))
  }

  /** The annotated copies one save writes into the chosen directory, one per image. */
  function SavedNames(s: State, saveDir: string, stamps: seq<string>): (names: seq<string>)
    requires |stamps| == |s.images|
    ensures s.images == [] || saveDir == "" ==> names == []
    ensures s.images != [] && saveDir != "" ==>
              |names| == |s.images| && forall i :: 0 <= i < |names| ==> names[i] == ImageFileName(i, stamps[i])
  {
    if s.images == [] || saveDir == "" then [] else ImageFileNames(stamps, |stamps|)
  }

  /** The number of marks recorded for the images `lo .. hi - 1`. */
  function TotalMarks(marks: map<nat, seq<Mark>>, lo: nat, hi: nat): nat
    requires lo <= hi
    decreases hi
  {
    if lo == hi then 0 else TotalMarks(marks, lo, hi - 1) + |MarksOf(marks, hi - 1)|
  }

  // Reading the sheet back.

  function ReadHeader(text: string): Option<Row> {
    var a :- Skip("Image ", text);
    var idx :- ReadNat(a);
    var b :- Skip(" (", idx.1);
    if 2 <= |b| && b[|b| - 2..] == "):" then Some(Header(idx.0, b[..|b| - 2])) else None
  }

  function ReadMarkLine(text: string): Option<Row> {
    var a :- Skip("Mark ", text);
    var number :- ReadNat(a);
    var b :- Skip(": ", number.1);
    var b' :- Skip("(", b);
    var x :- ReadInt(b');
    var c :- Skip(", ", x.1);
    var y :- ReadInt(c);
    if y.1 == ")" then Some(MarkLine(number.0, (x.0, y.0))) else None
  }

  function Read(text: string): Option<Row> {
    if "Image " <= text then ReadHeader(text) else ReadMarkLine(text)
  }

  /** Reads every row; fails if any row is not one the export writes. */
  function ReadAll(texts: seq<string>): Option<seq<Row>>
    decreases |texts|
  {
    if texts == [] then Some([])
    else
      var row :- Read(texts[0]);
      var rest :- ReadAll(texts[1..]);
      Some([row] + rest)
  }

  /** One image's group as read back from the sheet. */
  datatype Group = Group(index: nat, stamp: string, marks: seq<Mark>)

  /** Reads the consecutive mark rows numbered `next`, `next + 1`, ...; returns
      their marks and the rows after them. */
  function TakeMarks(rows: seq<Row>, next: nat): (r: (seq<Mark>, seq<Row>))
    ensures |r.1| <= |rows|
    decreases |rows|
  {
    if rows != [] && rows[0].MarkLine? && rows[0].number == next then
      var t := TakeMarks(rows[1..], next + 1);
      ([rows[0].mark] + t.0, t.1)
    else ([], rows)
  }

  /** Reads a sequence of groups: a header row followed by its mark rows. */
  function DecodeRows(rows: seq<Row>): Option<seq<Group>>
    decreases |rows|
  {
    if rows == [] then Some([])
    else if rows[0].MarkLine? then None
    else
      var t := TakeMarks(rows[1..], 1);
      var rest :- DecodeRows(t.1);
      Some([Group(rows[0].index, rows[0].stamp, t.0)] + rest)
  }

  function Decode(texts: seq<string>): Option<seq<Group>> {
    var rows :- ReadAll(texts);
    DecodeRows(rows)
  }

  /** What a save records about the images `lo .. hi - 1`. */
  function Groups(marks: map<nat, seq<Mark>>, stamps: seq<string>, lo: nat, hi: nat): (gs: seq<Group>)
    requires lo <= hi <= |stamps|
    ensures |gs| == hi - lo
  {
    seq(hi - lo, j requires 0 <= j < hi - lo => Group(lo + j, stamps[lo + j], MarksOf(marks, lo + j)))
  }

  lemma HeaderRoundTrip(idx: nat, stamp: string)
    ensures ReadHeader(HeaderText(idx, stamp)) == Some(Header(idx, stamp))
  {
    var d := NatToString(idx);
    var tail := stamp + "):";
    SkipLiteral("Image ", d + (" (" + tail));
    ReadNatRoundTrip(idx, " (" + tail);
    SkipLiteral(" (", tail);
    assert tail[|tail| - 2..] == "):";
    assert tail[..|tail| - 2] == stamp;
  }

  lemma MarkLineRoundTrip(number: nat, m: Mark)
    ensures ReadMarkLine(MarkLineText(number, m)) == Some(MarkLine(number, m))
  {
    var d := NatToString(number);
    var x := IntToString(m.0);
    var y := IntToString(m.1);
    var text := MarkText(m);
    SkipLiteral("Mark ", d + (": " + text));
    ReadNatRoundTrip(number, ": " + text);
    SkipLiteral(": ", text);
    SkipLiteral("(", x + (", " + (y + ")")));
    ReadIntRoundTrip(m.0, ", " + (y + ")"));
    SkipLiteral(", ", y + ")");
    ReadIntRoundTrip(m.1, ")");
  }

  /** Every row the export writes reads back as itself. */
  lemma ReadRender(row: Row)
    ensures Read(Render(row)) == Some(row)
  {
    match row
    case Header(idx, stamp) =>
      HeaderRoundTrip(idx, stamp);
    case MarkLine(number, m) =>
      MarkLineRoundTrip(number, m);
      var text := MarkLineText(number, m);
      assert text[0] == 'M';
      assert !("Image " <= text);
  }

  lemma RenderAllTail(rows: seq<Row>)
    requires rows != []
    ensures RenderAll(rows)[0] == Render(rows[0]) && RenderAll(rows)[1..] == RenderAll(rows[1..])
  {
  }

  lemma {:induction false} ReadAllRenderAll(rows: seq<Row>)
    ensures ReadAll(RenderAll(rows)) == Some(rows)
    decreases |rows|
  {
    if rows != [] {
      var texts := RenderAll(rows);
      RenderAllTail(rows);
      ReadRender(rows[0]);
      ReadAllRenderAll(rows[1..]);
      assert ReadAll(texts) == Some([rows[0]] + rows[1..]);
      assert [rows[0]] + rows[1..] == rows;
    }
  }

  lemma {:induction false} TakeMarksRoundTrip(ms: seq<Mark>, first: nat, rest: seq<Row>)
    requires rest == [] || rest[0].Header?
    ensures TakeMarks(seq(|ms|, j requires 0 <= j < |ms| => MarkLine(first + j, ms[j])) + rest, first) == (ms, rest)
    decreases |ms|
  {
    var lines := seq(|ms|, j requires 0 <= j < |ms| => MarkLine(first + j, ms[j]));
    if ms == [] {
      assert lines + rest == rest;
    } else {
      var later := seq(|ms| - 1, j requires 0 <= j < |ms| - 1 => MarkLine(first + 1 + j, ms[1..][j]));
      assert (lines + rest)[1..] == later + rest;
      TakeMarksRoundTrip(ms[1..], first + 1, rest);
      assert [ms[0]] + ms[1..] == ms;
    }
  }

  /** The range of groups can also be taken apart from the front. */
  lemma {:induction false} ExportRangeFront(marks: map<nat, seq<Mark>>, stamps: seq<string>, lo: nat, hi: nat)
    requires lo < hi <= |stamps|
    ensures ExportRange(marks, stamps, lo, hi)
         == GroupRows(lo, stamps[lo], MarksOf(marks, lo)) + ExportRange(marks, stamps, lo + 1, hi)
    decreases hi
  {
    var first := GroupRows(lo, stamps[lo], MarksOf(marks, lo));
    if lo + 1 < hi {
      ExportRangeFront(marks, stamps, lo, hi - 1);
      var last := GroupRows(hi - 1, stamps[hi - 1], MarksOf(marks, hi - 1));
      var middle := ExportRange(marks, stamps, lo + 1, hi - 1);
      assert ExportRange(marks, stamps, lo, hi) == ExportRange(marks, stamps, lo, hi - 1) + last;
      assert ExportRange(marks, stamps, lo + 1, hi) == middle + last;
      Associative(first, middle, last);
    } else {
      assert ExportRange(marks, stamps, lo, hi) == [] + first;
      assert ExportRange(marks, stamps, lo + 1, hi) == [];
    }
  }

  lemma ExportRangeFrontThen(marks: map<nat, seq<Mark>>, stamps: seq<string>, lo: nat, hi: nat, rest: seq<Row>)
    requires lo < hi <= |stamps|
    ensures ExportRange(marks, stamps, lo, hi) + rest
         == GroupRows(lo, stamps[lo], MarksOf(marks, lo)) + (ExportRange(marks, stamps, lo + 1, hi) + rest)
  {
    ExportRangeFront(marks, stamps, lo, hi);
  }

  /** One image's group, followed by rows that start a further group, decodes
      to that image's group and then the further ones. */
  lemma DecodeGroup(idx: nat, stamp: string, ms: seq<Mark>, later: seq<Row>, tail: seq<Group>)
    requires later == [] || later[0].Header?
    requires DecodeRows(later) == Some(tail)
    ensures DecodeRows(GroupRows(idx, stamp, ms) + later) == Some([Group(idx, stamp, ms)] + tail)
  {
    var lines := seq(|ms|, j requires 0 <= j < |ms| => MarkLine(1 + j, ms[j]));
    TakeMarksRoundTrip(ms, 1, later);
    var rows := GroupRows(idx, stamp, ms) + later;
    assert rows == [Header(idx, stamp)] + (lines + later);
    assert rows[1..] == lines + later;
  }

  lemma GroupsFront(marks: map<nat, seq<Mark>>, stamps: seq<string>, lo: nat, hi: nat, tail: seq<Group>)
    requires lo < hi <= |stamps|
    ensures Groups(marks, stamps, lo, hi) + tail
         == [Group(lo, stamps[lo], MarksOf(marks, lo))] + (Groups(marks, stamps, lo + 1, hi) + tail)
  {
    assert Groups(marks, stamps, lo, hi) == [Group(lo, stamps[lo], MarksOf(marks, lo))] + Groups(marks, stamps, lo + 1, hi);
  }

  lemma ExportRangeStartsWithHeader(marks: map<nat, seq<Mark>>, stamps: seq<string>, lo: nat, hi: nat, rest: seq<Row>)
    requires lo <= hi <= |stamps|
    requires rest == [] || rest[0].Header?
    ensures var rows := ExportRange(marks, stamps, lo, hi) + rest;
            rows == [] || rows[0].Header?
  {
    if lo < hi {
      ExportRangeFront(marks, stamps, lo, hi);
    } else {
      assert ExportRange(marks, stamps, lo, hi) + rest == rest;
    }
  }

  /** Decoding the rows of a range of images, followed by rows that start a
      further group, gives the range's groups and then the further ones. */
  lemma {:induction false} DecodeExportRange(marks: map<nat, seq<Mark>>, stamps: seq<string>, lo: nat, hi: nat,
                                             rest: seq<Row>, tail: seq<Group>)
    requires lo <= hi <= |stamps|
    requires rest == [] || rest[0].Header?
    requires DecodeRows(rest) == Some(tail)
    ensures DecodeRows(ExportRange(marks, stamps, lo, hi) + rest) == Some(Groups(marks, stamps, lo, hi) + tail)
    decreases hi - lo
  {
    if lo == hi {
      assert ExportRange(marks, stamps, lo, hi) + rest == rest;
      assert Groups(marks, stamps, lo, hi) + tail == tail;
    } else {
      var later := ExportRange(marks, stamps, lo + 1, hi) + rest;
      DecodeExportRange(marks, stamps, lo + 1, hi, rest, tail);
      ExportRangeStartsWithHeader(marks, stamps, lo + 1, hi, rest);
      var gs := Groups(marks, stamps, lo + 1, hi) + tail;
      DecodeGroup(lo, stamps[lo], MarksOf(marks, lo), later, gs);
      ExportRangeFrontThen(marks, stamps, lo, hi, rest);
      GroupsFront(marks, stamps, lo, hi, tail);
    }
  }

  /** The rows of one save read back as exactly one group per image, in index
      order, each with its timestamp and its marks in recording order; an image
      without a mark entry reads back with no marks. */
  lemma ExportRoundTrip(s: State, stamps: seq<string>)
    requires |stamps| == |s.images|
    ensures Decode(ExportRows(s, stamps)) == Some(Groups(s.marks, stamps, 0, |s.images|))
  {
    var rows := ExportRange(s.marks, stamps, 0, |s.images|);
    ReadAllRenderAll(rows);
    DecodeExportRange(s.marks, stamps, 0, |s.images|, [], []);
    assert rows + [] == rows;
    assert Groups(s.marks, stamps, 0, |s.images|) + [] == Groups(s.marks, stamps, 0, |s.images|);
  }

  /** Saving the same session twice appends its groups a second time: nothing
      is de-duplicated against the earlier save. */
  lemma SaveTwiceRepeatsGroups(sheet: seq<string>, s: State, saveDir: string, first: seq<string>, second: seq<string>)
    requires |first| == |second| == |s.images|
    requires s.images != [] && saveDir != ""
    ensures var after := Saved(Saved(sheet, s, saveDir, first), s, saveDir, second);
            && after == sheet + ExportRows(s, first) + ExportRows(s, second)
            && Decode(after[|sheet|..])
               == Some(Groups(s.marks, first, 0, |s.images|) + Groups(s.marks, second, 0, |s.images|))
  {
    var e1, e2 := ExportRows(s, first), ExportRows(s, second);
    var once := Saved(sheet, s, saveDir, first);
    assert once == sheet + e1;
    assert Saved(once, s, saveDir, second) == sheet + e1 + e2;
    AfterPrefix(sheet, e1, e2);
    DecodeTwoExports(s, first, second);
  }

  /** The rows of two saves of the same session, one after the other, decode
      to the groups of the first save followed by those of the second. */
  lemma DecodeTwoExports(s: State, first: seq<string>, second: seq<string>)
    requires |first| == |second| == |s.images| > 0
    ensures Decode(ExportRows(s, first) + ExportRows(s, second))
         == Some(Groups(s.marks, first, 0, |s.images|) + Groups(s.marks, second, 0, |s.images|))
  {
    var n := |s.images|;
    var rows1 := ExportRange(s.marks, first, 0, n);
    var rows2 := ExportRange(s.marks, second, 0, n);
    RenderAllAppend(rows1, rows2);
    ReadAllRenderAll(rows1 + rows2);
    var gs2 := Groups(s.marks, second, 0, n);
    DecodeExportRange(s.marks, second, 0, n, [], []);
    assert rows2 + [] == rows2;
    assert gs2 + [] == gs2;
    ExportRangeFront(s.marks, second, 0, n);
    DecodeExportRange(s.marks, first, 0, n, rows2, gs2);
  }

  lemma AfterPrefix<T>(a: seq<T>, b: seq<T>, c: seq<T>)
    ensures (a + b + c)[|a|..] == b + c
  {
    assert a + b + c == a + (b + c);
  }

  lemma Associative<T>(a: seq<T>, b: seq<T>, c: seq<T>)
    ensures (a + b) + c == a + (b + c)
  {
  }

  lemma RenderAllAppend(a: seq<Row>, b: seq<Row>)
    ensures RenderAll(a + b) == RenderAll(a) + RenderAll(b)
  {
  }

  /** Two images of one save never get the same file name, whatever the timestamps. */
  lemma ImageNamesDistinct(i: nat, j: nat, si: string, sj: string)
    requires i != j
    ensures ImageFileName(i, si) != ImageFileName(j, sj)
  {
    var ti := "_" + (si + ".png");
    var tj := "_" + (sj + ".png");
    SkipLiteral("image_", NatToString(i) + ti);
    SkipLiteral("image_", NatToString(j) + tj);
    ReadNatRoundTrip(i, ti);
    ReadNatRoundTrip(j, tj);
  }
}
