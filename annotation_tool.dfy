/** `AnnotationTool` with its session fields. Each method changes the fields
    the way the source's handler does, and is proved to perform the matching
    transition of module Session; `SaveAnnotations` builds the sheet rows
    and file names with the source's nested loops and is proved to produce
    exactly what module Export describes. Widgets, images and dialogs are
    not modelled: dialog answers and timestamps are parameters. */
module Annotation {
  import opened Session
  import opened Export

  class AnnotationTool {
    var images: seq<string>
    var cursor: nat
    var marks: map<nat, seq<Mark>>

    /** The session the fields hold. */
    function Snapshot(): State
      reads this
    {
      State(images, cursor, marks)
    }

    ghost predicate Valid()
      reads this
    {
      Session.Valid(Snapshot())
    }

    constructor ()
      ensures Valid() && Snapshot() == Initial
    {
      images := [];
      cursor := 0;
      marks := map[];
    }

    method LoadImage()
      requires cursor < |images|
      modifies this
      ensures Snapshot() == Load(old(Snapshot()))
      ensures old(forall k :: k in marks ==> k < |images|) ==> Valid()
    {
      marks := marks[cursor := MarksOf(marks, cursor)];
    }

    method UploadImages(files: seq<string>)
      requires Valid()
      modifies this
      ensures Valid()
      ensures Snapshot() == Upload(old(Snapshot()), files)
    {
      if files == [] {
        return;
      }
      if images == [] {
        images := files;
      } else {
        images := images[..cursor + 1] + files + images[cursor + 1..];
      }
      LoadImage();
    }

    method MarkPosition(x: int, y: int)
      requires Valid() && cursor in marks
      modifies this
      ensures Valid()
      ensures Snapshot() == AddMark(old(Snapshot()), x, y)
    {
      marks := marks[cursor := marks[cursor] + [(x, y)]];
    }

    method RemoveLastMark()
      requires Valid() && cursor in marks
      modifies this
      ensures Valid()
      ensures Snapshot() == RemoveLast(old(Snapshot()))
    {
      if marks[cursor] != [] {
        marks := marks[cursor := marks[cursor][..|marks[cursor]| - 1]];
        LoadImage();
      }
    }

    method PreviousImage()
      requires Valid()
      modifies this
      ensures Valid()
      ensures Snapshot() == Previous(old(Snapshot()))
    {
      if cursor > 0 {
        cursor := cursor - 1;
        LoadImage();
      }
    }

    method NextImage()
      requires Valid()
      modifies this
      ensures Valid()
      ensures Snapshot() == Next(old(Snapshot()))
    {
      if cursor < |images| - 1 {
        cursor := cursor + 1;
        LoadImage();
      }
    }

    /** The rows and file names of `save_annotations`. `sheet` holds the rows
        already in annotations.xlsx (empty when the file does not exist yet),
        `saveDir` is the directory dialog's answer (empty when cancelled) and
        `stamps` the timestamp taken for each image. */
    method SaveAnnotations(sheet: seq<string>, saveDir: string, stamps: seq<string>)
      returns (rows: seq<string>, written: seq<string>)
      requires |stamps| == |images|
      ensures rows == Saved(sheet, Snapshot(), saveDir, stamps)
      ensures written == SavedNames(Snapshot(), saveDir, stamps)
    {
      rows, written := sheet, [];
      if images == [] {
        return;
      }
      if saveDir == "" {
        return;
      }
      var idx := 0;
      while idx < |images|
        invariant idx <= |images|
        invariant rows == sheet + RenderAll(ExportRange(marks, stamps, 0, idx))
        invariant written == ImageFileNames(stamps, idx)
      {
        assert ImageFileNames(stamps, idx + 1) == ImageFileNames(stamps, idx) + [ImageFileName(idx, stamps[idx])];
        written := written + [ImageFileName(idx, stamps[idx])];
        rows := rows + [HeaderText(idx, stamps[idx])];
        rows := AppendMarkRows(rows, MarksOf(marks, idx));
        ExportRangeStep(marks, stamps, idx);
        Regroup(sheet, RenderAll(ExportRange(marks, stamps, 0, idx)), [HeaderText(idx, stamps[idx])],
                MarkLineTexts(MarksOf(marks, idx), |MarksOf(marks, idx)|));
        idx := idx + 1;
      }
      assert rows == sheet + ExportRows(Snapshot(), stamps);
      assert written == ImageFileNames(stamps, |stamps|);
    }
  }

  /** The inner loop of `save_annotations`: appends one row per mark of an
      image, numbered from 1 in recording order. */
  method AppendMarkRows(rows: seq<string>, ms: seq<Mark>) returns (out: seq<string>)
    ensures out == rows + MarkLineTexts(ms, |ms|)
  {
    out := rows;
    var k := 0;
    while k < |ms|
      invariant k <= |ms|
      invariant out == rows + MarkLineTexts(ms, k)
    {
      MarkLineTextsStep(ms, k);
      out := out + [MarkLineText(k + 1, ms[k])];
      k := k + 1;
    }
  }

  /** Image `idx`'s header and mark rows extend the sheet text of the groups
      before it to the sheet text of the groups up to `idx + 1`. */
  lemma ExportRangeStep(marks: map<nat, seq<Mark>>, stamps: seq<string>, idx: nat)
    requires idx < |stamps|
    ensures RenderAll(ExportRange(marks, stamps, 0, idx + 1))
         == RenderAll(ExportRange(marks, stamps, 0, idx))
            + ([HeaderText(idx, stamps[idx])] + MarkLineTexts(MarksOf(marks, idx), |MarksOf(marks, idx)|))
  {
    var ms := MarksOf(marks, idx);
    var a := ExportRange(marks, stamps, 0, idx);
    var b := GroupRows(idx, stamps[idx], ms);
    assert ExportRange(marks, stamps, 0, idx + 1) == a + b;
    RenderAllAppend(a, b);
    RenderGroupRows(idx, stamps[idx], ms);
  }

  lemma Regroup<T>(a: seq<T>, b: seq<T>, c: seq<T>, d: seq<T>)
    ensures a + (b + (c + d)) == a + b + c + d
  {
  }
}
