/** The report router: one free-text report per image, looked up by SOP Instance UID. */
module Reports {
  import opened Wrappers
  import opened Schemas
  import opened Models

  /**
   * GET /api/reports/{sop_instance}: not found when no image has the UID;
   * an image without a report reads as id 0 with empty content.
   */
  method ReadReport(db: Database, sop: string) returns (r: Result<ReportResponse, Error>)
    requires db.Valid()
    ensures r.Failure? <==> !HasFileWithSop(db.files, sop)
    ensures r.Failure? ==> r.error == NotFound
    ensures r.Success? ==> IsFirstBySop(db.files, sop, r.value.fileId) && r.value.sopInstance == sop
    ensures r.Success? && HasReport(db.reports, r.value.fileId) ==>
      r.value.id in db.reports && db.reports[r.value.id] == ReportRow(r.value.fileId, r.value.content)
    ensures r.Success? && !HasReport(db.reports, r.value.fileId) ==>
      r.value.id == 0 && r.value.content == ""
  {
    var fileMeta := db.FirstFileBySop(sop);
    if fileMeta.None? {
      return Failure(NotFound);
    }
    var fileId := fileMeta.value;
    var report := db.FindReport(fileId);
    if report.None? {
      return Success(ReportResponse(0, fileId, db.files[fileId].sopInstance, ""));
    }
    var row := db.reports[report.value];
    r := Success(ReportResponse(report.value, row.fileId, db.files[fileId].sopInstance, row.content));
  }

  /**
   * POST /api/reports/{sop_instance}: not found when no image has the UID;
   * otherwise the image's report is overwritten, or created when it has none,
   * so an image never has two reports.
   */
  method UpsertReport(db: Database, sop: string, content: string) returns (r: Result<ReportResponse, Error>)
    requires db.Valid()
    modifies db
    ensures db.Valid()
    ensures db.files == old(db.files) && db.labels == old(db.labels)
    ensures r.Failure? <==> !HasFileWithSop(old(db.files), sop)
    ensures r.Failure? ==> r.error == NotFound && db.reports == old(db.reports)
    ensures r.Success? ==>
      && IsFirstBySop(db.files, sop, r.value.fileId)
      && r.value == ReportResponse(r.value.id, r.value.fileId, sop, content)
      && db.reports == old(db.reports)[r.value.id := ReportRow(r.value.fileId, content)]
      && (r.value.id in old(db.reports) <==> HasReport(old(db.reports), r.value.fileId))
  {
    var fileMeta := db.FirstFileBySop(sop);
    if fileMeta.None? {
      return Failure(NotFound);
    }
    var fileId := fileMeta.value;
    var report := db.FindReport(fileId);
    var id;
    if report.Some? {
      id := report.value;
      db.reports := db.reports[id := ReportRow(fileId, content)];
    } else {
      id := db.AddReport(ReportRow(fileId, content));
    }
    r := Success(ReportResponse(id, fileId, db.files[fileId].sopInstance, content));
  }

  /** Only one file row can be the first with a given UID. */
  lemma FirstBySopUnique(files: map<int, FileRow>, sop: string, a: int, b: int)
    requires IsFirstBySop(files, sop, a) && IsFirstBySop(files, sop, b)
    ensures a == b
  {
  }

  /**
   * The report editor's save followed by a later fetch of the same image:
   * once the save succeeds, the fetch returns exactly the saved text.
   */
  method SaveThenFetch(db: Database, sop: string, content: string)
    returns (saved: Result<ReportResponse, Error>, fetched: Result<ReportResponse, Error>)
    requires db.Valid()
    modifies db
    ensures db.Valid()
    ensures saved.Success? ==> fetched.Success? && fetched.value.content == content
    ensures saved.Failure? ==> fetched.Failure?
  {
    saved := UpsertReport(db, sop, content);
    fetched := ReadReport(db, sop);
    if saved.Success? {
      FirstBySopUnique(db.files, sop, saved.value.fileId, fetched.value.fileId);
      assert db.reports[saved.value.id].fileId == saved.value.fileId;
    }
  }
}
