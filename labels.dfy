/** The label router: create, read, update and delete labels keyed by their image's file row. */
module Labels {
  import opened Wrappers
  import opened Schemas
  import opened Models

  /** The row a response was built from, given the file it belongs to. */
  function StoredRow(r: LabelResponse, fileId: int): LabelRow
  {
    LabelRow(fileId, r.text, r.x, r.y, r.width, r.height)
  }

  /** The response for label `id`: the row's fields plus its image's filename and UID. */
  function Response(id: int, f: FileRow, row: LabelRow): (r: LabelResponse)
    ensures r.id == id && r.filename == f.filename && r.sopInstance == f.sopInstance
    ensures StoredRow(r, row.fileId) == row
  {
    LabelResponse(id, f.filename, f.sopInstance, row.text, row.x, row.y, row.width, row.height)
  }

  /**
   * POST /api/labels/: store a new label on the image (filename, sop_instance).
   * The geometry is stored as given; nothing checks its sign or size.
   */
  method CreateLabel(db: Database, data: LabelCreate) returns (r: Result<LabelResponse, Error>)
    requires db.Valid()
    modifies db
    ensures db.Valid()
    ensures db.files == old(db.files) && db.reports == old(db.reports)
    ensures r.Failure? <==> !HasRow(old(db.files), FileRow(data.filename, data.sopInstance))
    ensures r.Failure? ==> r.error == NotFound && db.labels == old(db.labels)
    ensures r.Success? ==>
      && r.value.id !in old(db.labels)
      && r.value == LabelResponse(r.value.id, data.filename, data.sopInstance, data.text,
                                  data.x, data.y, data.width, data.height)
      && exists fileId ::
           && fileId in db.files && db.files[fileId] == FileRow(data.filename, data.sopInstance)
           && db.labels == old(db.labels)[r.value.id := LabelRow(fileId, data.text, data.x, data.y, data.width, data.height)]
  {
    var fileMeta := db.FindFile(data.filename, data.sopInstance);
    if fileMeta.None? {
      return Failure(NotFound);
    }
    var fileId := fileMeta.value;
    var row := LabelRow(fileId, data.text, data.x, data.y, data.width, data.height);
    var id := db.AddLabel(row);
    r := Success(Response(id, db.files[fileId], row));
  }

  /** The responses for the labels of file `fileId` among ids 1 to n - 1, in id order. */
  ghost function LabelsBelow(labels: map<int, LabelRow>, fileId: int, f: FileRow, n: int): seq<LabelResponse>
    decreases n
  {
    if n <= 1 then []
    else
      LabelsBelow(labels, fileId, f, n - 1)
        + (if n - 1 in labels && labels[n - 1].fileId == fileId then [Response(n - 1, f, labels[n - 1])] else [])
  }

  /** `r` is the response for a label of file `fileId` with an id in 1 to n - 1. */
  predicate BelongsBelow(labels: map<int, LabelRow>, fileId: int, f: FileRow, n: int, r: LabelResponse)
  {
    1 <= r.id < n && r.id in labels && labels[r.id].fileId == fileId && r == Response(r.id, f, labels[r.id])
  }

  /** Every response in `out` is for a label of the file with an id in 1 to n - 1. */
  predicate AllBelong(labels: map<int, LabelRow>, fileId: int, f: FileRow, n: int, out: seq<LabelResponse>)
  {
    forall k :: 0 <= k < |out| ==> BelongsBelow(labels, fileId, f, n, out[k])
  }

  predicate Ascending(out: seq<LabelResponse>)
  {
    forall i, j :: 0 <= i < j < |out| ==> out[i].id < out[j].id
  }

  /** Every label of the file with an id in 1 to n - 1 has a response in `out`. */
  predicate Covers(labels: map<int, LabelRow>, fileId: int, n: int, out: seq<LabelResponse>)
  {
    forall id :: 1 <= id < n && id in labels && labels[id].fileId == fileId ==>
      exists k :: 0 <= k < |out| && out[k].id == id
  }

  /** One more step of the scan appends the response for id n - 1 when that label is the file's. */
  lemma LabelsBelowStep(labels: map<int, LabelRow>, fileId: int, f: FileRow, n: int)
    requires n > 1
    ensures var before, out := LabelsBelow(labels, fileId, f, n - 1), LabelsBelow(labels, fileId, f, n);
      && |out| >= |before| && out[..|before|] == before
      && (n - 1 in labels && labels[n - 1].fileId == fileId ==> out == before + [Response(n - 1, f, labels[n - 1])])
      && (!(n - 1 in labels && labels[n - 1].fileId == fileId) ==> out == before)
  {
  }

  /** The scan yields only responses for the file's labels below `n`. */
  lemma {:induction false} LabelsBelowBelong(labels: map<int, LabelRow>, fileId: int, f: FileRow, n: int)
    ensures AllBelong(labels, fileId, f, n, LabelsBelow(labels, fileId, f, n))
    decreases n
  {
    if n > 1 {
      var before, out := LabelsBelow(labels, fileId, f, n - 1), LabelsBelow(labels, fileId, f, n);
      LabelsBelowBelong(labels, fileId, f, n - 1);
      LabelsBelowStep(labels, fileId, f, n);
      forall k | 0 <= k < |out| ensures BelongsBelow(labels, fileId, f, n, out[k]) {
        if k < |before| {
          assert out[k] == before[k];
          assert BelongsBelow(labels, fileId, f, n - 1, before[k]);
        }
      }
    }
  }

  /** The scan yields its responses in ascending id order. */
  lemma {:induction false} LabelsBelowAscending(labels: map<int, LabelRow>, fileId: int, f: FileRow, n: int)
    ensures Ascending(LabelsBelow(labels, fileId, f, n))
    decreases n
  {
    if n > 1 {
      var before, out := LabelsBelow(labels, fileId, f, n - 1), LabelsBelow(labels, fileId, f, n);
      LabelsBelowAscending(labels, fileId, f, n - 1);
      LabelsBelowBelong(labels, fileId, f, n - 1);
      LabelsBelowStep(labels, fileId, f, n);
      forall i, j | 0 <= i < j < |out| ensures out[i].id < out[j].id {
        assert out[i] == before[i];
        assert BelongsBelow(labels, fileId, f, n - 1, before[i]);
        if j < |before| {
          assert out[j] == before[j];
        }
      }
    }
  }

  /** The scan misses none of the file's labels below `n`. */
  lemma {:induction false} LabelsBelowComplete(labels: map<int, LabelRow>, fileId: int, f: FileRow, n: int)
    ensures Covers(labels, fileId, n, LabelsBelow(labels, fileId, f, n))
    decreases n
  {
    if n > 1 {
      var before, out := LabelsBelow(labels, fileId, f, n - 1), LabelsBelow(labels, fileId, f, n);
      LabelsBelowComplete(labels, fileId, f, n - 1);
      LabelsBelowStep(labels, fileId, f, n);
      forall id | 1 <= id < n && id in labels && labels[id].fileId == fileId
        ensures exists k :: 0 <= k < |out| && out[k].id == id
      {
        if id == n - 1 {
          assert out[|out| - 1].id == id;
        } else {
          var k :| 0 <= k < |before| && before[k].id == id;
          assert out[k] == before[k];
        }
      }
    }
  }

  /**
   * GET /api/labels/: the labels of the image (filename, sop_instance), in id
   * order; an unknown image has none.
   */
  method ReadLabels(db: Database, filename: string, sop: string) returns (out: seq<LabelResponse>)
    requires db.Valid()
    ensures !HasRow(db.files, FileRow(filename, sop)) ==> out == []
    ensures forall i, j :: 0 <= i < j < |out| ==> out[i].id < out[j].id
    ensures HasRow(db.files, FileRow(filename, sop)) ==>
      exists fileId ::
        && fileId in db.files && db.files[fileId] == FileRow(filename, sop)
        && (forall k :: 0 <= k < |out| ==>
              out[k].id in db.labels && db.labels[out[k].id].fileId == fileId &&
              out[k] == Response(out[k].id, FileRow(filename, sop), db.labels[out[k].id]))
        && (forall id :: id in db.labels && db.labels[id].fileId == fileId ==>
              exists k :: 0 <= k < |out| && out[k].id == id)
  {
    var fileMeta := db.FindFile(filename, sop);
    if fileMeta.None? {
      return [];
    }
    var fileId := fileMeta.value;
    ghost var f := FileRow(filename, sop);
    out := [];
    var id := 1;
    while id < db.nextLabelId
      invariant 1 <= id <= db.nextLabelId
      invariant out == LabelsBelow(db.labels, fileId, f, id)
    {
      if id in db.labels && db.labels[id].fileId == fileId {
        out := out + [Response(id, FileRow(filename, sop), db.labels[id])];
      }
      id := id + 1;
    }
    LabelsBelowBelong(db.labels, fileId, f, db.nextLabelId);
    LabelsBelowAscending(db.labels, fileId, f, db.nextLabelId);
    LabelsBelowComplete(db.labels, fileId, f, db.nextLabelId);
  }

  /** One `setattr(lbl, key, val)`: a column and its new value. */
  datatype Assignment =
    | SetText(text: string)
    | SetX(x: int)
    | SetY(y: int)
    | SetWidth(width: int)
    | SetHeight(height: int)

  function Option2Seq<T>(o: Option<T>, f: T -> Assignment): seq<Assignment>
  {
    if o.Some? then [f(o.value)] else []
  }

  /** The position of an assignment's field in `LabelUpdate`'s declaration. */
  function Rank(a: Assignment): int
  {
    match a
    case SetText(_) => 0
    case SetX(_) => 1
    case SetY(_) => 2
    case SetWidth(_) => 3
    case SetHeight(_) => 4
  }

  /** `data.dict(exclude_unset=True).items()`: the supplied fields, in declaration order. */
  function SuppliedFields(u: LabelUpdate): (items: seq<Assignment>)
    ensures |items| <= 5
    ensures items == [] <==> u.text.None? && u.x.None? && u.y.None? && u.width.None? && u.height.None?
    ensures forall i, j :: 0 <= i < j < |items| ==> Rank(items[i]) < Rank(items[j])
  {
    Option2Seq(u.text, t => SetText(t)) + Option2Seq(u.x, v => SetX(v)) + Option2Seq(u.y, v => SetY(v))
      + Option2Seq(u.width, v => SetWidth(v)) + Option2Seq(u.height, v => SetHeight(v))
  }

  function SetAttr(row: LabelRow, a: Assignment): LabelRow
  {
    match a
    case SetText(t) => row.(text := t)
    case SetX(v) => row.(x := v)
    case SetY(v) => row.(y := v)
    case SetWidth(v) => row.(width := v)
    case SetHeight(v) => row.(height := v)
  }

  function SetAll(row: LabelRow, items: seq<Assignment>): LabelRow
    decreases |items|
  {
    if items == [] then row else SetAll(SetAttr(row, items[0]), items[1..])
  }

  /** The row after a partial update: each supplied field takes its new value, every other keeps its own. */
  function Patched(row: LabelRow, u: LabelUpdate): (r: LabelRow)
    ensures r.fileId == row.fileId
    ensures r == row <==>
      && (u.text.Some? ==> u.text.value == row.text) && (u.x.Some? ==> u.x.value == row.x)
      && (u.y.Some? ==> u.y.value == row.y) && (u.width.Some? ==> u.width.value == row.width)
      && (u.height.Some? ==> u.height.value == row.height)
  {
    LabelRow(row.fileId, u.text.GetOr(row.text), u.x.GetOr(row.x), u.y.GetOr(row.y),
             u.width.GetOr(row.width), u.height.GetOr(row.height))
  }

  lemma {:induction false} SetAllAppend(row: LabelRow, a: seq<Assignment>, b: seq<Assignment>)
    ensures SetAll(row, a + b) == SetAll(SetAll(row, a), b)
    decreases |a|
  {
    if a == [] {
      assert a + b == b;
    } else {
      assert (a + b)[0] == a[0] && (a + b)[1..] == a[1..] + b;
      SetAllAppend(SetAttr(row, a[0]), a[1..], b);
    }
  }

  /** Applying the supplied fields one `setattr` at a time yields the patched row. */
  lemma SetAllSupplied(row: LabelRow, u: LabelUpdate)
    ensures SetAll(row, SuppliedFields(u)) == Patched(row, u)
  {
    var t, x, y := Option2Seq(u.text, t => SetText(t)), Option2Seq(u.x, v => SetX(v)), Option2Seq(u.y, v => SetY(v));
    var w, h := Option2Seq(u.width, v => SetWidth(v)), Option2Seq(u.height, v => SetHeight(v));
    SetAllAppend(row, t + x + y + w, h);
    SetAllAppend(row, t + x + y, w);
    SetAllAppend(row, t + x, y);
    SetAllAppend(row, t, x);
    var r1 := SetAll(row, t);
    SetAllOption(row, u.text, t => SetText(t));
    var r2 := SetAll(r1, x);
    SetAllOption(r1, u.x, v => SetX(v));
    var r3 := SetAll(r2, y);
    SetAllOption(r2, u.y, v => SetY(v));
    var r4 := SetAll(r3, w);
    SetAllOption(r3, u.width, v => SetWidth(v));
    SetAllOption(r4, u.height, v => SetHeight(v));
  }

  /** Applying the assignments of an optional field sets that field when it is supplied. */
  lemma SetAllOption<T>(row: LabelRow, o: Option<T>, f: T -> Assignment)
    ensures SetAll(row, Option2Seq(o, f)) == if o.Some? then SetAttr(row, f(o.value)) else row
  {
    if o.Some? {
      assert Option2Seq(o, f)[1..] == [];
    }
  }

  /** A partial update that supplies no field leaves the row as it was. */
  lemma PatchedNothing(row: LabelRow)
    ensures Patched(row, LabelUpdate(None, None, None, None, None)) == row
  {
  }

  /** Sending the same partial update twice changes nothing the first did not. */
  lemma PatchedIdempotent(row: LabelRow, u: LabelUpdate)
    ensures Patched(Patched(row, u), u) == Patched(row, u)
  {
  }

  /**
   * PATCH /api/labels/{id}: unknown ids are not found; otherwise the fields
   * the client supplied are overwritten and the others keep their values.
   */
  method UpdateLabel(db: Database, labelId: int, data: LabelUpdate) returns (r: Result<LabelResponse, Error>)
    requires db.Valid()
    modifies db
    ensures db.Valid()
    ensures db.files == old(db.files) && db.reports == old(db.reports)
    ensures r.Failure? <==> labelId !in old(db.labels)
    ensures r.Failure? ==> r.error == NotFound && db.labels == old(db.labels)
    ensures r.Success? ==>
      && db.labels == old(db.labels)[labelId := Patched(old(db.labels)[labelId], data)]
      && r.value == Response(labelId, db.files[db.labels[labelId].fileId], db.labels[labelId])
  {
    if labelId !in db.labels {
      return Failure(NotFound);
    }
    var row := db.labels[labelId];
    var updateData := SuppliedFields(data);
    SetAllSupplied(row, data);
    for k := 0 to |updateData|
      invariant SetAll(row, updateData[k..]) == Patched(db.labels[labelId], data)
    {
      assert updateData[k..][0] == updateData[k] && updateData[k..][1..] == updateData[k + 1..];
      row := SetAttr(row, updateData[k]);
    }
    db.labels := db.labels[labelId := row];
    r := Success(Response(labelId, db.files[row.fileId], row));
  }

  /** DELETE /api/labels/{id}: unknown ids are not found; otherwise exactly that label goes. */
  method DeleteLabel(db: Database, labelId: int) returns (r: Outcome<Error>)
    requires db.Valid()
    modifies db
    ensures db.Valid()
    ensures db.files == old(db.files) && db.reports == old(db.reports)
    ensures r.Fail? <==> labelId !in old(db.labels)
    ensures r.Fail? ==> r.error == NotFound && db.labels == old(db.labels)
    ensures r.Pass? ==> db.labels == old(db.labels) - {labelId}
  {
    if labelId !in db.labels {
      return Fail(NotFound);
    }
    db.labels := db.labels - {labelId};
    r := Pass;
  }
}
