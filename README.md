# Image annotation session, modelled in Dafny

The annotation tool lets a user load a list of images, click marks onto the
image under the cursor, undo the last mark, step back and forth through the
images, and save. A save writes an annotated copy of each image and appends
one group of rows per image to the `annotations.xlsx` sheet. The session is
three fields of `AnnotationTool`:

- `images`: the list of image paths;
- `current_image_index`: the cursor, called `cursor` here;
- `marks`: a dictionary from image index to that image's list of `(x, y)` clicks.

The model has two layers.

- `Session` (session.dfy) is the session as a value. `State` holds the three
  fields, and each user action is a function from one `State` to the next.
  `Valid` is the invariant every reachable session keeps, and lemmas state
  what a series of actions does.
- `Annotation` (annotation_tool.dfy) is the class `AnnotationTool` with the
  same three fields. Its methods change the fields as the Python handlers do.
  Each method is proved to perform exactly the matching `Session`
  transition. Each handler method also keeps `Valid`. `LoadImage`, which the
  handlers call part-way through an update, restores `Valid` whenever every
  mark list's index is inside the image list. `SaveAnnotations` runs the
  source's loop over the images and its inner loop over their marks. It is
  proved to append exactly the rows that `Export.ExportRows` describes and to
  name exactly the files that `Export.ImageFileNames` describes.

`Export` (export.dfy) builds the saved rows. Each row is first a structured
`Row`, either an image header or a mark line, and is then rendered as the
source's f-strings render it. `Text` (text.dfy) renders integers as Python's
`str` does. Both modules also contain a reader for the rendered rows. With it
the model proves that a save loses nothing: reading the appended rows back
gives every image index, its timestamp and its marks, in recording order.

`Scenarios` (scenarios.dfy) works two concrete sessions through end to end.

Timestamps, the chosen files and the chosen directory are parameters, and an
empty selection stands for a cancelled dialog. The sheet is the list of row
texts it already holds.

Four behaviours of the code are kept exactly as written:

- Mark lists are keyed by position. An upload inserts paths into `images`
  (annotation_tool.py:103) but never re-keys `marks`, and `load_image` only
  adds the current index (annotation_tool.py:110). After an upload in the
  middle of the list, the lists of later images stay at their old indices,
  which now hold other images. `Session.UploadLeavesMarksBehind` states this.
- `mark_position` and `remove_last_mark` index `marks` directly
  (annotation_tool.py:121, :129). Before any image is loaded, `marks` is empty
  and both raise `KeyError`. The model makes `cursor in marks` their
  precondition, which every valid session with images satisfies.
- `upload_images` never assigns the cursor (annotation_tool.py:96-104). In a
  valid session without images the cursor is already 0.
- `save_annotations` writes a header row for every image, marked or not
  (annotation_tool.py:179). An image without a mark list gets its header and
  no mark rows.

## Model

| member | source | states |
|---|---|---|
| Session.MarksOf | annotation_tool.py:110 | `marks.get(idx, [])`: the image's list when it has one, otherwise the empty list |
| Session.Valid | annotation_tool.py:76-145 | the invariant the handlers keep: every mark list's index is inside the image list, the cursor is 0 while there are no images, and once there are images the cursor is in range and has a mark list |
| Session.InitialIsValid | annotation_tool.py:76-78 | a new tool has no images, cursor 0 and no mark lists, and is a valid session |
| Session.Load | annotation_tool.py:110 | the current image gets an empty mark list exactly when it has none; every existing list, the images and the cursor are kept |
| Session.Inserted | annotation_tool.py:103 | the first `at` paths are kept, then come the new files in order, then the remaining old paths shifted by the number of files |
| Session.UploadedImages | annotation_tool.py:100-103 | uploading into an empty list gives exactly the chosen files; otherwise the files are inserted right after the cursor, and the list grows by their number |
| Session.Upload | annotation_tool.py:96-104 | an empty selection changes nothing; otherwise the images are as above, the cursor is unchanged, no mark list is re-keyed or changed, only the cursor's list may be created empty, and a valid session stays valid |
| Session.AddMark | annotation_tool.py:119-121 | the click is appended at the end of the current image's list, with no de-duplication; every other list, the images and the cursor are unchanged; validity is kept |
| Session.RemoveLast | annotation_tool.py:128-131 | on an empty list nothing changes; otherwise exactly the last mark is dropped; every other list is unchanged; validity is kept |
| Session.Previous | annotation_tool.py:137-140 | moves the cursor back by exactly one unless it is at 0, where nothing changes; the new image gets an empty list if it had none; no mark list is lost or changed; validity, so the cursor's range, is kept |
| Session.Next | annotation_tool.py:142-145 | moves the cursor forward by exactly one unless it is at the last image or there are none, where nothing changes; the new image gets an empty list if it had none; no mark list is lost or changed; validity is kept |
| Session.AddMarksAppends | annotation_tool.py:119-121 | clicking a series of positions appends them, in click order, to the current list, and changes nothing else |
| Session.RemoveTimesDrops | annotation_tool.py:128-131 | pressing Remove n times drops the last n marks, or all marks when there are fewer, and changes nothing else |
| Session.MarksThenRemovesRestore | annotation_tool.py:119-131 | N clicks followed by N removals give back exactly the session before the clicks |
| Session.RemovesOnEmptyAreNoOps | annotation_tool.py:128-131 | any number of removals on an image without marks changes nothing |
| Session.NextTimesClamps | annotation_tool.py:142-145 | n presses of Next move the cursor n steps, stopping at the last image, and keep the session valid |
| Session.PreviousTimesClamps | annotation_tool.py:137-140 | n presses of Back move the cursor n steps, stopping at 0, and keep the session valid |
| Session.NavigationInverse | annotation_tool.py:137-145 | away from the boundary, Next then Back and Back then Next return to the same image |
| Session.UploadKeepsOrder | annotation_tool.py:103 | after an upload the old paths up to the cursor, the new files and the old paths after the cursor appear as three consecutive blocks, in their original order |
| Session.UploadLeavesMarksBehind | annotation_tool.py:96-110 | a mark list at index k past the cursor stays at k after an upload, while the image it was recorded for moves to k plus the number of files |
| Annotation.AnnotationTool.constructor | annotation_tool.py:76-78 | the tool starts with the initial session, which is valid |
| Annotation.AnnotationTool.LoadImage | annotation_tool.py:110 | the fields change exactly as `Session.Load` says; the session is valid afterwards whenever every mark list's index was inside the image list |
| Annotation.AnnotationTool.UploadImages | annotation_tool.py:96-104 | the fields change exactly as `Session.Upload` says, and validity is kept |
| Annotation.AnnotationTool.MarkPosition | annotation_tool.py:119-121 | the fields change exactly as `Session.AddMark` says, and validity is kept |
| Annotation.AnnotationTool.RemoveLastMark | annotation_tool.py:128-131 | the fields change exactly as `Session.RemoveLast` says, and validity is kept |
| Annotation.AnnotationTool.PreviousImage | annotation_tool.py:137-140 | the fields change exactly as `Session.Previous` says, and validity is kept |
| Annotation.AnnotationTool.NextImage | annotation_tool.py:142-145 | the fields change exactly as `Session.Next` says, and validity is kept |
| Annotation.AnnotationTool.SaveAnnotations | annotation_tool.py:147-181 | the sheet after the loops is `Export.Saved` of the session, and the files written are `Export.SavedNames`: nothing on the warning or cancel paths, otherwise one header per image and one row per mark, in order |
| Annotation.AppendMarkRows | annotation_tool.py:180-181 | the inner loop appends one row per mark, numbered from 1 in recording order |
| Annotation.ExportRangeStep | annotation_tool.py:164-181 | one pass of the outer loop extends the rows of the earlier images by image idx's header and mark rows |
| Export.HeaderText | annotation_tool.py:179 | the header f-string; `Export.HeaderShape` and `Export.HeaderRoundTrip` state what it holds |
| Export.HeaderShape | annotation_tool.py:179 | a header row starts with `Image ` and ends with the image's timestamp followed by `):` |
| Export.MarkText | annotation_tool.py:181 | Python's `str` of a mark tuple, `(x, y)`; `Export.MarkLineRoundTrip` shows both coordinates read back from it |
| Export.MarkLineText | annotation_tool.py:181 | the mark row f-string; `Export.MarkLineShape` and `Export.MarkLineRoundTrip` state what it holds |
| Export.MarkLineShape | annotation_tool.py:181 | a mark row starts with `Mark ` and ends with the tuple's closing parenthesis, so it never reads as a header |
| Export.GroupRows | annotation_tool.py:179-181 | one image's rows: its header, then mark k at row k, numbered from 1, for every mark in recording order |
| Export.MarkLineTexts | annotation_tool.py:180-181 | the texts of an image's first k mark rows, one per mark |
| Export.ExportRange | annotation_tool.py:164-181 | the rows of the images in a range, in index order, number one per image plus one per mark recorded for those images |
| Export.ExportRows | annotation_tool.py:164-181 | the texts one save appends number one per image plus one per recorded mark |
| Export.ImageFileName | annotation_tool.py:166 | the file name f-string; `Export.ImageFileNameShape` and `Export.ImageNamesDistinct` state what it holds |
| Export.ImageFileNameShape | annotation_tool.py:166 | a file name starts with `image_` and ends with the image's timestamp followed by `.png` |
| Export.Saved | annotation_tool.py:147-181 | the existing rows are kept as a prefix; with no images or a cancelled dialog nothing is appended |
| Export.ImageFileNames | annotation_tool.py:164-166 | image i is saved as `image_{i}_{timestamp}.png` with its own timestamp |
| Export.SavedNames | annotation_tool.py:147-166 | no files on the warning or cancel paths, otherwise exactly one name per image, in index order |
| Export.HeaderRoundTrip | annotation_tool.py:179 | a header row `Image {idx} ({timestamp}):` reads back as its index and timestamp |
| Export.MarkLineRoundTrip | annotation_tool.py:180-181 | a mark row `Mark {k}: (x, y)` reads back as its number and both coordinates, negative ones included |
| Export.ReadRender | annotation_tool.py:179-181 | every row a save writes reads back as itself |
| Export.ReadAllRenderAll | annotation_tool.py:179-181 | a whole series of written rows reads back as itself |
| Export.TakeMarksRoundTrip | annotation_tool.py:180-181 | consecutively numbered mark rows read back as the marks in order, stopping at the next header |
| Export.ExportRangeFront | annotation_tool.py:164-181 | the rows of a range of images are the first image's group followed by the rows of the rest |
| Export.DecodeExportRange | annotation_tool.py:164-181 | the rows of a range of images decode to one group per image, in index order, followed by whatever groups come after |
| Export.ExportRoundTrip | annotation_tool.py:164-181 | the rows of one save decode to exactly one group per image, in index order, with its timestamp and its marks in recording order; an image without a mark list gives a header and no marks |
| Export.SaveTwiceRepeatsGroups | annotation_tool.py:156-181 | saving twice appends the rows of both saves after the earlier rows, and they decode to the groups of the first save followed by a second copy with the same indices and marks, carrying the second save's timestamps |
| Export.ImageNamesDistinct | annotation_tool.py:166 | two images of one save never get the same file name, whatever their timestamps |
| Text.NatToString | annotation_tool.py:166 | `str(n)` is a non-empty run of digits with no leading zero |
| Text.IntToString | annotation_tool.py:181 | `str(i)` starts with a minus sign exactly when i is negative, followed by digits |
| Text.DigitsValueOfNatToString | annotation_tool.py:179 | the digits of `str(n)` have value n |
| Text.ReadNatRoundTrip | annotation_tool.py:179 | reading a rendered count gives it back and leaves the text after it |
| Text.ReadIntRoundTrip | annotation_tool.py:181 | reading a rendered coordinate gives it back, with its sign, and leaves the text after it |
| Scenarios.SaveScenario | annotation_tool.py:96-181 | uploading two images, clicking (10, 10) and (50, 60), going to the next image, clicking (5, 5) and saving gives exactly the rows `Image 0 (t0):`, `Mark 1: (10, 10)`, `Mark 2: (50, 60)`, `Image 1 (t1):`, `Mark 1: (5, 5)` |
| Scenarios.UploadScenario | annotation_tool.py:96-110 | uploading F2 with the cursor on F1 of [F1, F3] gives [F1, F2, F3], and the existing mark list stays at index 0 |

## Left out

- Widgets, layout, scroll bars, tooltips, the image index label and message boxes: they are display only.
- The mark size slider and the red rectangles drawn on the canvas and on the saved copies: floating point drawing through PIL. Marks are stored as centres, which is what the model keeps.
- Opening, decoding and saving images, and the canvas image: calls into PIL and tkinter. A decode failure ends the handler with an exception, with no recovery, and is not modelled.
- Loading, creating and saving the workbook, and the `os.path` checks: file I/O. The sheet is the list of row texts it already holds, and the rows a save appends are its result.
- `datetime.now()`: each image's timestamp is a parameter.
- The file and directory dialogs: their answers are parameters, and an empty answer stands for a cancelled dialog.
- Session.AddMark, Session.RemoveLast: the `KeyError` the source raises when the current image has no mark list is a precondition (`cursor in marks`), not an error result.
- Annotation.AnnotationTool.LoadImage: the `IndexError` that `self.images[self.current_image_index]` would raise for an out-of-range cursor is a precondition. Every caller runs it with the cursor in range.
- Annotation.AnnotationTool.SaveAnnotations: the sheet is modelled as the texts of its single cells. Spreadsheet cell types and formatting are not modelled.
