# DICOM viewer with box labels and reports — a Dafny model

The system is a small web application for reading DICOM images. A FastAPI
backend keeps the uploaded files under a static directory and records them,
plus the rectangular labels ("nodule" boxes) and the free-text reports drawn
on them, in a relational database. A React frontend browses folders, shows one
slice at a time, draws new boxes, resizes and deletes them, and steps
through the slices of a folder with the arrow keys.

The model covers both halves of that core:

- `Models` — the three tables as maps from id to row in a `Database` class,
  with monotonic id counters and the database's constraints as `Valid()`:
  - `(filename, sop_instance)` is unique among files;
  - there is at most one report per file;
  - labels and reports only refer to existing files.
  The lookups the routers make (`.first()` on a filter) are loops over the ids.
  They return the lowest matching id: the queries have no `ORDER BY`, so this
  fixes one of the orders the database is free to use (see "## Left out").
- `Labels`, `Reports`, `Files` — the routers:
  - label create, list, patch and delete;
  - report read and upsert;
  - the folder listing, with its filter and its ordering;
  - the upload loop's de-duplication of file rows.
  Each is a method that takes the `Database` (the listing takes only the
  directory) and states the new tables and the response, including every 404
  path.
- `Paths` — the string operations the code relies on:
  - JavaScript `split("/")` and `join("/")`;
  - `pathlib`'s `name` and `suffix`;
  - ASCII `lower()`.
- `Geometry` — the overlay's pixel arithmetic:
  - client-to-image mapping with `Math.round`;
  - the normalised drag box;
  - the per-handle resize table.
- `Viewer` — the overlay as an `Overlay` class. It holds the state the viewer
  shares with the application and its own gesture state:
  - shared: labels, selected label, file list, current file;
  - the overlay's own: drawing, start point, working box, resize in progress.
  Its methods are the mouse, key and delete handlers.
- `Sidebar`, `App` — the folder browser and the application shell:
  - relative paths and "Up";
  - the highlighted row;
  - the file list the viewer navigates;
  - Delete-key and side-list label deletion.

Calls to the remote store are not executed by the model. Their outcome is a
parameter of the handler that makes them:
- `deleted` and `updated` say whether the call succeeded;
- `created` is the label returned, or None.
Each handler returns the `Request` it sends, so its contract also states what
goes over the wire.

Behaviour of the code worth stating because it may be unexpected:

- Navigating to another slice does not clear the selection or a gesture in progress.
- Nothing guards against a late label load for a slice already left.
- The Delete key acts even while a text field has focus.
- When `updateLabel` fails at the end of a resize, the await throws before
  `setResizing(null)`, so the resize stays in progress (`Viewer.Overlay.OnMouseUp`).
- The `nx`/`ny` normalisation in `onMouseUp` can never change anything:
  - every working box is already normalised;
  - the width-and-height check has just excluded negative sizes.
  The model keeps the branch, and the contract shows the box is sent as drawn.
- The outer `onMouseDown` branch for a click on a resize handle is dead code:
  - the handle's own handler stops the event from reaching it;
  - resizing starts only through `Viewer.Overlay.ResizeMouseDown`.

## Model

| member | source | states |
|---|---|---|
| `Models.Database.constructor` | backend/models.py:5-58 | an empty database satisfies the table constraints: unique (filename, sop_instance), one report per file, foreign keys to existing files |
| `Models.Database.FindFile` | backend/routers/labels.py:21-23 | `filter_by(filename, sop_instance).first()`: Some(id) is a row with exactly that pair; None exactly when no row has it |
| `Models.Database.FirstFileBySop` | backend/routers/reports.py:21 | `filter_by(sop_instance).first()`: Some(id) is a file with that UID (the model picks the lowest such id); None exactly when no file has it |
| `Models.Database.FindReport` | backend/routers/reports.py:25 | `filter_by(file_id).first()`: a report of that file, None exactly when it has none |
| `Models.Database.AddFile` | backend/models.py:5-14 | inserting a new (filename, uid) row takes a fresh id, keeps every other row and keeps the unique constraint |
| `Models.Database.AddLabel` | backend/models.py:31-43 | inserting a label for an existing file takes a fresh id and keeps every other row |
| `Models.Database.AddReport` | backend/models.py:45-58 | inserting the first report of an existing file takes a fresh id and keeps one report per file |
| `Labels.Response` | backend/routers/labels.py:37-46 | the response carries the label's id and its file's filename and UID, and the stored row can be rebuilt from it and the file id |
| `Labels.CreateLabel` | backend/routers/labels.py:18-46 | 404 exactly when no file has the (filename, sop_instance) pair, with nothing written; otherwise one new label row for that file with the request's text and geometry, echoed back with its new id |
| `Labels.ReadLabels` | backend/routers/labels.py:48-72 | [] when no file matches; otherwise exactly the labels of the matching file, each once and (as the model orders them) in ascending id order, each carrying the requested filename and UID |
| `Labels.LabelsBelowStep` | backend/routers/labels.py:56-58 | one more step of the id scan appends the response for that id exactly when the label belongs to the file |
| `Labels.LabelsBelowBelong` | backend/routers/labels.py:56-72 | every response of the scan is for a label of the file, built from its row with the requested filename and UID |
| `Labels.LabelsBelowAscending` | backend/routers/labels.py:56-72 | the scan returns its labels in ascending id order |
| `Labels.LabelsBelowComplete` | backend/routers/labels.py:56-72 | the scan misses none of the file's labels |
| `Labels.SuppliedFields` | backend/routers/labels.py:79 | `exclude_unset` items: at most five, none exactly when no field is supplied, each field at most once and in declaration order |
| `Labels.Patched` | backend/routers/labels.py:79-81 | the patched row stays on its file, and equals the old row exactly when every supplied field already had that value |
| `Labels.SetAllAppend` | backend/routers/labels.py:80-81 | applying assignments in sequence: a split list of assignments equals applying the two halves one after the other |
| `Labels.SetAllSupplied` | backend/routers/labels.py:79-81 | the `setattr` loop over the `exclude_unset` fields yields the row with every supplied field replaced and every other kept |
| `Labels.SetAllOption` | backend/routers/labels.py:79-81 | an optional field contributes its assignment exactly when it is supplied |
| `Labels.PatchedNothing` | backend/schemas.py:22-27 | a PATCH with no fields leaves the label as it was |
| `Labels.PatchedIdempotent` | backend/routers/labels.py:74-95 | applying the same PATCH twice gives the same label as applying it once |
| `Labels.UpdateLabel` | backend/routers/labels.py:74-95 | 404 exactly when the id is unknown; otherwise only that label changes, to the patched row, and the response carries its file's name and UID |
| `Labels.DeleteLabel` | backend/routers/labels.py:97-104 | 404 exactly when the id is unknown; otherwise exactly that label is removed and nothing else changes |
| `Reports.ReadReport` | backend/routers/reports.py:18-39 | 404 exactly when no file has the UID; otherwise the first such file's report, or id 0 and empty content when it has none |
| `Reports.FirstBySopUnique` | backend/routers/reports.py:21 | the file `first()` picks by UID is unique, so a read and a write for the same UID reach the same file |
| `Reports.UpsertReport` | backend/routers/reports.py:41-64 | 404 exactly when no file has the UID, with nothing written; otherwise the first such file's report is overwritten if it exists and created if not, keeping one report per file |
| `Reports.SaveThenFetch` | backend/routers/reports.py:18-64 | reading a report right after saving it returns the saved content; a save that 404s is followed by a read that 404s |
| `Paths.LastIndex` | backend/routers/files.py:36 | the last position of a character, or -1 when it is absent |
| `Paths.Split` | frontend/src/components/Sidebar.jsx:33 | `split("/")` returns at least one part and no part contains '/' |
| `Paths.SplitLast` | frontend/src/components/Sidebar.jsx:33 | splitting `a/b` with a slash-free `b` gives the parts of `a` followed by `b` |
| `Paths.JoinSnoc` | frontend/src/components/Sidebar.jsx:35 | joining one more part appends "/" and that part |
| `Paths.JoinSplit` | frontend/src/components/Sidebar.jsx:33-35 | `join("/")` undoes `split("/")` |
| `Paths.SplitNoSlash` | frontend/src/components/Sidebar.jsx:33 | a string without '/' splits into itself alone |
| `Paths.Basename` | backend/routers/files.py:69 | `Path(p).name`: slash-free, and either the whole path or what follows its last '/' |
| `Paths.Join` | frontend/src/components/Sidebar.jsx:35 | `join("/")` starts with the first part, ends with the last, and puts a '/' right after the first part when there are two or more |
| `Paths.Suffix` | backend/routers/files.py:36 | `suffix`: empty, or a proper tail of the name that starts with its last '.' and holds no other dot |
| `Paths.Lower` | backend/routers/files.py:33 | `lower()` on ASCII: same length, no capital letter left, and each character either kept or a capital moved to its small letter |
| `Paths.LowerIdempotent` | backend/routers/files.py:33 | lower-casing twice is lower-casing once |
| `Files.LexLeqTotal` | backend/routers/files.py:33 | string order is total |
| `Files.LexLeqTransitive` | backend/routers/files.py:33 | string order is transitive |
| `Files.ChildLeqTotal` | backend/routers/files.py:33 | the sort key `(not is_dir, name.lower())` orders any two children |
| `Files.ChildLeqTransitive` | backend/routers/files.py:33 | the sort key order is transitive |
| `Files.SortedCons` | backend/routers/files.py:33 | a child no greater than every element of a sorted list can head it |
| `Files.BelowAll` | backend/routers/files.py:33 | a lower bound of every element stays a lower bound after the elements are rearranged |
| `Files.Insert` | backend/routers/files.py:33 | inserting into a sorted list keeps it sorted and adds exactly that child |
| `Files.Sort` | backend/routers/files.py:33 | `sorted(...)`: the result is ordered by the key and is a permutation of the input |
| `Files.IsDicom` | backend/routers/files.py:36 | a name that passes the suffix test has at least five characters and a '.' four from its end |
| `Files.IsDicomIff` | backend/routers/files.py:36 | `suffix.lower() == ".dcm"` holds exactly when the name is at least five characters long and ends in ".dcm" in any case |
| `Files.ListedMembers` | backend/routers/files.py:34-37 | an entry is listed exactly when some child is a folder of that name, or a DICOM file of that name |
| `Files.ListedSorted` | backend/routers/files.py:33-37 | filtering a sorted list keeps it sorted |
| `Files.ListingOfSorted` | backend/routers/files.py:33-37 | the listing puts folders first, orders each group by lower-cased name and shows exactly the folders and DICOM files |
| `Files.ListingOfSortedCounts` | backend/routers/files.py:33-37 | sorting before filtering only rearranges the listing: each entry appears as often as in the unsorted listing, and distinct child names give distinct entry names |
| `Files.ListedAppend` | backend/routers/files.py:33-37 | listing a concatenation of children lists each part in turn |
| `Files.ListedPermutation` | backend/routers/files.py:33-37 | listing a rearrangement of the children gives a rearrangement of the listing, every entry as often as before |
| `Files.NamesDistinctPermutation` | backend/routers/files.py:33 | `sorted` keeps the names of a directory's children distinct |
| `Files.ListedNamesDistinct` | backend/routers/files.py:34-37 | children with distinct names give entries with distinct names |
| `Files.ListedOrigin` | backend/routers/files.py:34-37 | every entry of the listing is shown by some child |
| `Files.ListFiles` | backend/routers/files.py:22-38 | 404 exactly when the target is missing or not a folder; otherwise the listing has folders first, then by lower-cased name, shows exactly the sub-folders and the ".dcm" files, is a permutation of the unsorted listing (no entry repeated or dropped), and has distinct names when the directory's names are distinct |
| `Files.RecordingKeeps` | backend/routers/files.py:51-74 | the upload loop only adds rows, under ids not used before, so every earlier row survives |
| `Files.RecordingRecords` | backend/routers/files.py:51-74 | after the loop every upload with a readable UID has its (basename, UID) row |
| `Files.RecordingExplains` | backend/routers/files.py:51-74 | after the loop every new row is the (basename, UID) row of some upload |
| `Files.RecordUpload` | backend/routers/files.py:62-74 | an upload with no readable UID writes no row; otherwise a row is added exactly when its (basename, UID) pair is not yet recorded, after which the pair is recorded |
| `Files.ListChildren` | backend/routers/files.py:32-37 | the loop appends, in order, an entry for each sub-folder and each DICOM file and nothing for any other file |
| `Files.UploadFiles` | backend/routers/files.py:40-76 | `saved` is every upload's path in order; afterwards old rows are kept, every readable upload has its row, no other row appears, and no pair is recorded twice |
| `Geometry.Round` | frontend/src/components/Viewer.jsx:145 | `Math.round`: the nearest integer, halves rounding up |
| `Geometry.MapPoint` | frontend/src/components/Viewer.jsx:144-146 | the image point is within half a pixel of the cursor's offset from the overlay's corner |
| `Geometry.MapPointWholePixels` | frontend/src/components/Viewer.jsx:144-146 | with a whole-pixel origin the mapping is the exact offset |
| `Geometry.DragBox` | frontend/src/components/Viewer.jsx:216-220 | the working box has non-negative size, starts at the smaller coordinate of the two points and is as wide and as tall as their distance |
| `Geometry.DragBoxSpans` | frontend/src/components/Viewer.jsx:216-220 | on each axis the working box's two edges are exactly the start point and the cursor |
| `Geometry.DragBoxSymmetric` | frontend/src/components/Viewer.jsx:216-220 | dragging from p to q gives the same box as dragging from q to p |
| `Geometry.ResizeBox` | frontend/src/components/Viewer.jsx:183-208 | a resize step moves the grabbed corner by the cursor delta and leaves the opposite corner fixed |
| `Geometry.ResizeCompose` | frontend/src/components/Viewer.jsx:173-208 | two resize steps on one handle equal one step by the summed delta |
| `Geometry.ReplayTelescopes` | frontend/src/components/Viewer.jsx:171-211 | a whole resize gesture amounts to one step by the total cursor movement since the press |
| `Viewer.IndexOf` | frontend/src/components/Viewer.jsx:108 | `indexOf`: the first position holding the value, or -1 exactly when it is absent |
| `Viewer.NavTarget` | frontend/src/components/Viewer.jsx:106-113 | the file navigation moves to is always a member of the file list |
| `Viewer.NavStep` | frontend/src/components/Viewer.jsx:106-113 | in a list without repeats, a step lands exactly `direction` places on when that stays in range, and does nothing otherwise |
| `Viewer.NavNeverWraps` | frontend/src/components/Viewer.jsx:110-111 | stepping back from the first file or on from the last does nothing |
| `Viewer.PrevDisabled` | frontend/src/components/Viewer.jsx:380 | the "previous" button is disabled exactly when the file is not in the list or is its first item |
| `Viewer.NextDisabled` | frontend/src/components/Viewer.jsx:404 | the "next" button is disabled exactly when the list is empty, or the file is its last item and occurs nowhere before |
| `Viewer.NavButtons` | frontend/src/components/Viewer.jsx:378-414 | for a file of the list, each arrow button is disabled exactly when pressing it does nothing |
| `Viewer.NavRoundTrip` | frontend/src/components/Viewer.jsx:106-113 | next then previous returns to the same file |
| `Viewer.Without` | frontend/src/components/Viewer.jsx:131 | the filter keeps exactly the labels with another id |
| `Viewer.WithoutAppend` | frontend/src/components/Viewer.jsx:131 | the filter keeps the survivors in their order |
| `Viewer.WithoutAbsent` | frontend/src/components/Viewer.jsx:131 | deleting an id no label has leaves the list unchanged |
| `Viewer.FindLabel` | frontend/src/components/Viewer.jsx:226 | `find`: the first label of the list with that id, None exactly when there is none |
| `Viewer.Resized` | frontend/src/components/Viewer.jsx:182-208 | resizing one label keeps its id, text, filename and UID, moves the grabbed corner by the delta and fixes the opposite corner |
| `Viewer.ResizeAll` | frontend/src/components/Viewer.jsx:180-210 | the list keeps its length, every id and every text; labels with another id are unchanged |
| `Viewer.ResizeAllAt` | frontend/src/components/Viewer.jsx:180-210 | each label with the resized id is replaced by its resized version |
| `Viewer.ResizeAllCorners` | frontend/src/components/Viewer.jsx:180-210 | every label with the resized id has its grabbed corner moved by the delta and its opposite corner fixed |
| `Viewer.Overlay.constructor` | frontend/src/components/Viewer.jsx:22-48 | the overlay starts with no drag, no working box and no resize |
| `Viewer.Overlay.ImageLoaded` | frontend/src/components/Viewer.jsx:75-95 | the UID and filename become known, and the label list is replaced by the fetched list when the fetch succeeds |
| `Viewer.Overlay.Navigate` | frontend/src/components/Viewer.jsx:106-113 | the current file becomes the navigation target, or stays when there is none |
| `Viewer.Overlay.HandleKey` | frontend/src/components/Viewer.jsx:117-123 | left arrow steps back, right arrow steps on, any other key leaves the file |
| `Viewer.Overlay.Select` | frontend/src/components/Viewer.jsx:329-332 | clicking a label selects it |
| `Viewer.Overlay.HandleDelete` | frontend/src/components/Viewer.jsx:129-133 | sends a delete; on success the labels are the old list without that id and a selection of it is cleared; on failure nothing changes |
| `Viewer.Overlay.ResizeMouseDown` | frontend/src/components/Viewer.jsx:335-371 | a resize can start only on the selected label, through one of its four handles, and records the cursor position |
| `Viewer.Overlay.OnMouseDown` | frontend/src/components/Viewer.jsx:142-162 | a press on the image clears the selection; every press starts a drag with a zero-size box at the mapped point |
| `Viewer.Overlay.OnMouseMove` | frontend/src/components/Viewer.jsx:165-221 | a resize in progress takes precedence and moves its label by the delta since the last event; otherwise a drag's working box becomes the drag box to the cursor; the working box always spans from the start point |
| `Viewer.Overlay.ResizeMove` | frontend/src/components/Viewer.jsx:171-211 | the resize branch: the stored position advances to the cursor and the labels are resized by the delta since the last event |
| `Viewer.Overlay.DragMove` | frontend/src/components/Viewer.jsx:215-220 | the drawing branch: the working box becomes the drag box to the cursor and still spans from the start point |
| `Viewer.DragBoxFarCorner` | frontend/src/components/Viewer.jsx:216-220 | a drag box is determined by its start point and the corner opposite it |
| `Viewer.Overlay.OnMouseUp` | frontend/src/components/Viewer.jsx:224-254 | ending a resize sends the label's geometry and forgets the gesture unless the update fails; ending a drag always drops the working box, discards boxes under 10 pixels either way, and otherwise sends a "nodule" create and appends the returned label |
| `Viewer.GeometryPatch` | frontend/src/components/Viewer.jsx:228-233 | the update sent at the end of a resize supplies x, y, width and height, in that order, and never the text |
| `Viewer.GeometryPatchApplied` | frontend/src/components/Viewer.jsx:228-233 | applied by the server, that update moves the stored row to the label's box and keeps its text and file |
| `Sidebar.RelPath` | frontend/src/components/Sidebar.jsx:121 | the relative path ends with the entry's name and, below the root, starts with the folder and a '/' |
| `Sidebar.GoUp` | frontend/src/components/Sidebar.jsx:31-36 | "Up" does nothing exactly at the root, and otherwise gives a strictly shorter path |
| `Sidebar.DropLastShorter` | frontend/src/components/Sidebar.jsx:33-35 | dropping the last part of a non-empty path shortens it |
| `Sidebar.GoUpOfRelPath` | frontend/src/components/Sidebar.jsx:31-36 | "Up" from a folder entered from a listing returns to that listing's folder |
| `Sidebar.GoUpTopLevel` | frontend/src/components/Sidebar.jsx:31-36 | "Up" from a top-level folder reaches the root |
| `Sidebar.RelPathInjective` | frontend/src/components/Sidebar.jsx:121 | within one folder, different names give different relative paths |
| `Sidebar.IsSelected` | frontend/src/components/Sidebar.jsx:123 | a highlighted row is a file whose name ends the selected path, and at the root it is highlighted exactly when its name is the selected path |
| `Sidebar.AtMostOneSelected` | frontend/src/components/Sidebar.jsx:123 | with distinct names in a folder, at most one row is highlighted |
| `App.FileList` | frontend/src/App.jsx:23-30 | the file list has no more items than the listing |
| `App.FileListMembers` | frontend/src/App.jsx:25-27 | a path is in the file list exactly when a file of the listing has it as relative path |
| `App.FileListAppend` | frontend/src/App.jsx:25-27 | the file list keeps the listing's order |
| `App.FileListDistinct` | frontend/src/App.jsx:25-27 | distinct names in a folder give a file list without repeats |
| `App.SelectedRowIsListed` | frontend/src/App.jsx:23-30 | the file the sidebar highlights is in the list the viewer navigates |
| `App.HandleDeleteLabel` | frontend/src/App.jsx:32-40 | sends a delete; on success the label leaves the list and a selection of it is cleared; a failure is caught and changes nothing |
| `App.HandleKeyDown` | frontend/src/App.jsx:43-51 | Delete with a selection sends a delete of the selected label, after which nothing is selected and no label with that id is left; any other key, or no selection, sends nothing and changes nothing |

## Left out

- Image decoding, Cornerstone set-up and rendering are not modelled.
  - Image size and the patient name never reach a modelled operation.
  - The SOP Instance UID and the file's base name are inputs of `Viewer.Overlay.ImageLoaded`.
  - The frontend's `getFilename` is replaced by that input.
- The `if (!file) setLabels([])` branch of the load effect is not modelled: the viewer is only rendered with a non-empty file.
- Cursor positions are modelled as whole numbers. The overlay's bounding-box origin is a real number.
- JSX layout, styling, the report editor and the upload input are not modelled.
  - The upload input is `FileUploader`; it and the report editor are not part of this model.
  - The buttons are modelled only through the handlers they call and through `Viewer.NavButtons`.
- Asynchrony is not modelled.
  - Each handler runs to completion with the store's answer as a parameter.
  - Interleavings of awaits, stale React closures, and loads that finish after the user has moved on are not captured.
  - Errors that are only logged are not modelled.
- Writing upload bytes to disk, `mkdir`, and parsing DICOM headers are not modelled.
  - Whether a header parse yields a UID is the `uid: Option<string>` of each `Upload`.
- `Path.as_posix` is not modelled: the relative path is kept exactly as given, and `pathlib` normalisation of `.`, `..` or repeated slashes is left out.
- `Files.ListFiles`: the directory to list is an input.
  - How `BASE_DIR / folder` is resolved is not modelled, and neither is `iterdir`.
  - The contract states the order as the sort key's order. It does not state which order `sorted`'s stability keeps for children with equal keys.
- `Paths.Lower` folds only ASCII letters. Python's full Unicode `lower()` is not modelled.
- Ids come from counters that only grow. The database engine is chosen by `DATABASE_URL`, and an engine may reuse an id after a delete; the model does not.
- `Models.Database.FirstFileBySop`: returns the lowest matching id. The query has no `ORDER BY`, so SQL does not promise which matching row `first()` returns; the model fixes ascending id order.
- `Models.Database.FindReport`: returns the lowest matching id, an order SQL without `ORDER BY` does not promise. With one report per file the choice does not matter.
- `Labels.ReadLabels`: returns the labels in ascending id order. `.all()` has no `ORDER BY`, so SQL does not promise that order; the set of labels returned does not depend on it.
- `Reports.SaveThenFetch` relies on the read and the write picking the same file for a UID, which holds because the model fixes that order for both.
- A PATCH that sends an explicit JSON `null` is not distinguished from a field that is left out. Both are `None` in the model.
- Status codes, HTTP routing and the response's JSON field name `label` are not modelled; the label text is the field `text`.
- Cascade deletion of a file's labels and report is not modelled: no core operation deletes files.
