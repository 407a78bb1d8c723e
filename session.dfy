/** The annotation session of `AnnotationTool` as a value: the list of image
    paths, the cursor into it, and the mark lists keyed by image index. Each
    user action is a function from the old state to the new one; the class in
    annotation_tool.dfy is proved to perform exactly these transitions. */
module Session {

  /** A mark is the canvas position of a click, as the source stores it. */
  type Mark = (int, int)

  datatype State = State(images: seq<string>, cursor: nat, marks: map<nat, seq<Mark>>)

  /** The state right after the tool is created: no images, cursor 0, no marks. */
  const Initial: State := State([], 0, map[])

  /** `marks.get(idx, [])`: the marks of an image, or none when it has no entry. */
  function MarksOf(marks: map<nat, seq<Mark>>, idx: nat): (ms: seq<Mark>)
    ensures idx in marks ==> ms == marks[idx]
    ensures idx !in marks ==> ms == []
  {
    if idx in marks then marks[idx] else []
  }

  /** What every reachable state satisfies: each mark list belongs to an index
      inside the image list, the cursor stays at 0 while there are no images,
      and once there are images the cursor is in range and has a mark list. */
  predicate Valid(s: State) {
    && (forall k :: k in s.marks ==> k < |s.images|)
    && (s.images == [] ==> s.cursor == 0)
    && (s.images != [] ==> s.cursor < |s.images| && s.cursor in s.marks)
  }

  lemma InitialIsValid()
    ensures Valid(Initial) && Initial.marks == map[]
  {
  }

  /** The bookkeeping part of `load_image`: the current image gets an empty
      mark list if it has none yet. Opening and drawing the image are not modelled. */
  function Load(s: State): (r: State)
    ensures r.images == s.images && r.cursor == s.cursor
    ensures r.marks.Keys == s.marks.Keys + {s.cursor}
    ensures s.cursor !in s.marks ==> r.marks[s.cursor] == []
    ensures forall k :: k in s.marks ==> r.marks[k] == s.marks[k]
  {
    s.(marks := s.marks[s.cursor := MarksOf(s.marks, s.cursor)])
  }

  /** `images[:at] + files + images[at:]` for an in-range cut. */
  function Inserted(images: seq<string>, at: nat, files: seq<string>): (r: seq<string>)
    requires at <= |images|
    ensures |r| == |images| + |files|
    ensures forall j :: 0 <= j < at ==> r[j] == images[j]
    ensures forall j :: 0 <= j < |files| ==> r[at + j] == files[j]
    ensures forall j :: at <= j < |images| ==> r[j + |files|] == images[j]
  {
    images[..at] + files + images[at..]
  }

  /** The image list after `upload_images` chose a non-empty `files`: the
      files themselves when the list was empty, otherwise the list with the
      files inserted after the cursor. Python's slice `images[:cursor + 1]`
      stops at the end of the list, so the cut is clamped the same way. */
  function UploadedImages(images: seq<string>, cursor: nat, files: seq<string>): (r: seq<string>)
    ensures |r| == |images| + |files|
    ensures images == [] ==> r == files
    ensures images != [] && cursor < |images| ==> r == Inserted(images, cursor + 1, files)
  {
    if images == [] then files
    else if cursor < |images| then Inserted(images, cursor + 1, files)
    else Inserted(images, |images|, files)
  }

  /** `upload_images` with the chosen files as input (an empty selection is a
      cancelled dialog). */
  function Upload(s: State, files: seq<string>): (r: State)
    ensures files == [] ==> r == s
    ensures r.cursor == s.cursor
    ensures files != [] && s.images == [] ==> r.images == files
    ensures files != [] && s.images != [] && s.cursor < |s.images| ==>
              r.images == Inserted(s.images, s.cursor + 1, files)
    ensures forall k :: k in s.marks ==> k in r.marks && r.marks[k] == s.marks[k]
    ensures r.marks.Keys <= s.marks.Keys + {s.cursor}
    ensures files != [] ==> s.cursor in r.marks
    ensures files != [] && s.cursor !in s.marks ==> r.marks[s.cursor] == []
    ensures |r.images| == |s.images| + |files|
    ensures Valid(s) ==> Valid(r)
  {
    if files == [] then s else Load(s.(images := UploadedImages(s.images, s.cursor, files)))
  }

  /** `mark_position`: the click is appended to the current image's list.
      The list must exist (the source raises `KeyError` otherwise). */
  function AddMark(s: State, x: int, y: int): (r: State)
    requires s.cursor in s.marks
    ensures r.images == s.images && r.cursor == s.cursor && r.marks.Keys == s.marks.Keys
    ensures |r.marks[s.cursor]| == |s.marks[s.cursor]| + 1
    ensures r.marks[s.cursor][..|s.marks[s.cursor]|] == s.marks[s.cursor]
    ensures r.marks[s.cursor][|s.marks[s.cursor]|] == (x, y)
    ensures forall k :: k in s.marks && k != s.cursor ==> r.marks[k] == s.marks[k]
    ensures Valid(s) ==> Valid(r)
  {
    s.(marks := s.marks[s.cursor := s.marks[s.cursor] + [(x, y)]])
  }

  /** `remove_last_mark`: pops the current image's last mark, then reloads,
      which leaves the (existing) list as it is. No-op on an empty list. */
  function RemoveLast(s: State): (r: State)
    requires s.cursor in s.marks
    ensures r.images == s.images && r.cursor == s.cursor && r.marks.Keys == s.marks.Keys
    ensures s.marks[s.cursor] == [] ==> r == s
    ensures s.marks[s.cursor] != [] ==>
              r.marks[s.cursor] + [s.marks[s.cursor][|s.marks[s.cursor]| - 1]] == s.marks[s.cursor]
    ensures forall k :: k in s.marks && k != s.cursor ==> r.marks[k] == s.marks[k]
    ensures Valid(s) ==> Valid(r)
  {
    var ms := s.marks[s.cursor];
    if ms == [] then s
    else
      assert ms[..|ms| - 1] + [ms[|ms| - 1]] == ms;
      Load(s.(marks := s.marks[s.cursor := ms[..|ms| - 1]]))
  }

  /** `previous_image`: one step back unless already at the first image. */
  function Previous(s: State): (r: State)
    ensures r.images == s.images
    ensures s.cursor > 0 ==> r.cursor + 1 == s.cursor && r.cursor in r.marks
    ensures s.cursor > 0 && s.cursor - 1 !in s.marks ==> r.marks[r.cursor] == []
    ensures s.cursor == 0 ==> r == s
    ensures forall k :: k in s.marks ==> k in r.marks && r.marks[k] == s.marks[k]
    ensures r.marks.Keys <= s.marks.Keys + {r.cursor}
    ensures Valid(s) ==> Valid(r)
  {
    if s.cursor > 0 then Load(s.(cursor := s.cursor - 1)) else s
  }

  /** `next_image`: one step forward unless already at the last image (or
      there are no images, where `len - 1` is -1). */
  function Next(s: State): (r: State)
    ensures r.images == s.images
    ensures s.cursor < |s.images| - 1 ==> r.cursor == s.cursor + 1 && r.cursor in r.marks
    ensures s.cursor < |s.images| - 1 && s.cursor + 1 !in s.marks ==> r.marks[r.cursor] == []
    ensures s.cursor >= |s.images| - 1 ==> r == s
    ensures forall k :: k in s.marks ==> k in r.marks && r.marks[k] == s.marks[k]
    ensures r.marks.Keys <= s.marks.Keys + {r.cursor}
    ensures Valid(s) ==> Valid(r)
  {
    if s.cursor < |s.images| - 1 then Load(s.(cursor := s.cursor + 1)) else s
  }

  // Repeated actions, to state what a series of clicks or key presses does.

  /** Clicking each position of `ps` in turn on the current image. */
  function AddMarks(s: State, ps: seq<Mark>): State
    requires s.cursor in s.marks
    decreases |ps|
  {
    if ps == [] then s else AddMarks(AddMark(s, ps[0].0, ps[0].1), ps[1..])
  }

  /** Pressing Remove `n` times. */
  function RemoveTimes(s: State, n: nat): State
    requires s.cursor in s.marks
    decreases n
  {
    if n == 0 then s else RemoveTimes(RemoveLast(s), n - 1)
  }

  function NextTimes(s: State, n: nat): State
    decreases n
  {
    if n == 0 then s else NextTimes(Next(s), n - 1)
  }

  function PreviousTimes(s: State, n: nat): State
    decreases n
  {
    if n == 0 then s else PreviousTimes(Previous(s), n - 1)
  }

  /** Marks are recorded in click order at the end of the current list, and
      nothing else changes. */
  lemma {:induction false} AddMarksAppends(s: State, ps: seq<Mark>)
    requires s.cursor in s.marks
    ensures AddMarks(s, ps) == s.(marks := s.marks[s.cursor := s.marks[s.cursor] + ps])
    decreases |ps|
  {
    if ps == [] {
      assert s.marks[s.cursor] + ps == s.marks[s.cursor];
      assert s.marks[s.cursor := s.marks[s.cursor] + ps] == s.marks;
    } else {
      var t := AddMark(s, ps[0].0, ps[0].1);
      AddMarksAppends(t, ps[1..]);
      assert t.marks[s.cursor] + ps[1..] == s.marks[s.cursor] + ps;
      assert t.marks[s.cursor := t.marks[s.cursor] + ps[1..]]
          == s.marks[s.cursor := s.marks[s.cursor] + ps];
    }
  }

  /** `ms` without its last `n` elements; empty when it has fewer. */
  function DropLast(ms: seq<Mark>, n: nat): (r: seq<Mark>)
    ensures |r| == if n <= |ms| then |ms| - n else 0
    ensures r <= ms
  {
    if n <= |ms| then ms[..|ms| - n] else []
  }

  /** `n` removals drop the last `n` marks of the current image, or all of
      them when there are fewer; nothing else changes. */
  lemma {:induction false} RemoveTimesDrops(s: State, n: nat)
    requires s.cursor in s.marks
    ensures RemoveTimes(s, n) == s.(marks := s.marks[s.cursor := DropLast(s.marks[s.cursor], n)])
    decreases n
  {
    var ms := s.marks[s.cursor];
    if n == 0 {
      assert DropLast(ms, n) == ms;
      assert s.marks[s.cursor := ms] == s.marks;
    } else if ms == [] {
      RemoveTimesDrops(s, n - 1);
    } else {
      var t := RemoveLast(s);
      RemoveTimesDrops(t, n - 1);
      assert t.marks[s.cursor] == ms[..|ms| - 1];
      assert DropLast(ms[..|ms| - 1], n - 1) == DropLast(ms, n);
    }
  }

  /** Clicking N marks and then pressing Remove N times restores the session. */
  lemma MarksThenRemovesRestore(s: State, ps: seq<Mark>)
    requires s.cursor in s.marks
    ensures AddMarks(s, ps).cursor in AddMarks(s, ps).marks
    ensures RemoveTimes(AddMarks(s, ps), |ps|) == s
  {
    AddMarksAppends(s, ps);
    var t := AddMarks(s, ps);
    RemoveTimesDrops(t, |ps|);
    var ms := s.marks[s.cursor];
    assert DropLast(ms + ps, |ps|) == ms;
    assert t.marks[s.cursor := ms] == s.marks;
  }

  /** Removing from an image without marks never changes anything. */
  lemma RemovesOnEmptyAreNoOps(s: State, n: nat)
    requires s.cursor in s.marks && s.marks[s.cursor] == []
    ensures RemoveTimes(s, n) == s
  {
    RemoveTimesDrops(s, n);
    assert s.marks[s.cursor := []] == s.marks;
  }

  /** Pressing Next `n` times moves the cursor `n` steps, stopping at the last image. */
  lemma {:induction false} NextTimesClamps(s: State, n: nat)
    requires Valid(s) && s.images != []
    ensures var r := NextTimes(s, n);
            && Valid(r) && r.images == s.images
            && r.cursor == if s.cursor + n < |s.images| then s.cursor + n else |s.images| - 1
    decreases n
  {
    if n > 0 {
      NextTimesClamps(Next(s), n - 1);
    }
  }

  /** Pressing Back `n` times moves the cursor `n` steps, stopping at the first image. */
  lemma {:induction false} PreviousTimesClamps(s: State, n: nat)
    requires Valid(s)
    ensures var r := PreviousTimes(s, n);
            && Valid(r) && r.images == s.images
            && r.cursor == if s.cursor >= n then s.cursor - n else 0
    decreases n
  {
    if n > 0 {
      PreviousTimesClamps(Previous(s), n - 1);
    }
  }

  /** Next followed by Back returns to the same image, and vice versa. */
  lemma NavigationInverse(s: State)
    requires Valid(s)
    ensures s.cursor < |s.images| - 1 ==> Previous(Next(s)).cursor == s.cursor
    ensures s.cursor > 0 ==> Next(Previous(s)).cursor == s.cursor
  {
  }

  /** Uploading keeps every old path, in order, and places the new files as
      one block right after the current image. */
  lemma UploadKeepsOrder(s: State, files: seq<string>)
    requires Valid(s) && s.images != []
    ensures var r := Upload(s, files).images;
            && |r| == |s.images| + |files|
            && r[..s.cursor + 1] == s.images[..s.cursor + 1]
            && r[s.cursor + 1..s.cursor + 1 + |files|] == files
            && r[s.cursor + 1 + |files|..] == s.images[s.cursor + 1..]
  {
  }

  /** Mark lists are keyed by position and uploading never re-keys them: a
      list recorded for the image at index `k` past the cursor stays at `k`,
      while that image itself moves to `k + |files|`. */
  lemma UploadLeavesMarksBehind(s: State, files: seq<string>, k: nat)
    requires Valid(s) && s.images != [] && files != []
    requires k in s.marks && s.cursor < k
    ensures var r := Upload(s, files);
            && r.marks[k] == s.marks[k]
            && r.images[k + |files|] == s.images[k]
            && r.images[k] == (if k <= s.cursor + |files| then files[k - s.cursor - 1]
                               else s.images[k - |files|])
  {
  }
}
