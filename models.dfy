/**
 * The three database tables (files, labels, reports) and the session
 * operations the routers use on them: look-ups that return the first
 * matching row in id order, and inserts that allocate the next id.
 */
module Models {
  import opened Wrappers

  /** A `files` row: one uploaded image, keyed by base name and SOP Instance UID. */
  datatype FileRow = FileRow(filename: string, sopInstance: string)

  /** A `labels` row: one rectangle on the image `fileId`; `text` is the `label` column. */
  datatype LabelRow = LabelRow(fileId: int, text: string, x: int, y: int, width: int, height: int)

  /** A `reports` row: the free-text report of the image `fileId`. */
  datatype ReportRow = ReportRow(fileId: int, content: string)

  /** Constraint `uq_file_name_uid`: no two file rows share (filename, sop_instance). */
  predicate UniqueFiles(files: map<int, FileRow>)
  {
    forall i, j :: i in files && j in files && files[i] == files[j] ==> i == j
  }

  /** `reports.file_id` is unique: at most one report per image. */
  predicate OneReportPerFile(reports: map<int, ReportRow>)
  {
    forall i, j :: i in reports && j in reports && reports[i].fileId == reports[j].fileId ==> i == j
  }

  /** `id` is the first file row, in id order, whose sop_instance is `sop`. */
  predicate IsFirstBySop(files: map<int, FileRow>, sop: string, id: int)
  {
    && id in files
    && files[id].sopInstance == sop
    && forall j :: j in files && j < id ==> files[j].sopInstance != sop
  }

  /** Some file row holds exactly `row`. */
  predicate HasRow(files: map<int, FileRow>, row: FileRow)
  {
    exists id :: id in files && files[id] == row
  }

  predicate HasFileWithSop(files: map<int, FileRow>, sop: string)
  {
    exists id :: id in files && files[id].sopInstance == sop
  }

  predicate HasReport(reports: map<int, ReportRow>, fileId: int)
  {
    exists id :: id in reports && reports[id].fileId == fileId
  }

  class Database {
    var files: map<int, FileRow>
    var labels: map<int, LabelRow>
    var reports: map<int, ReportRow>
    // The id the next inserted row of each table receives.
    var nextFileId: int
    var nextLabelId: int
    var nextReportId: int

    /** Ids are positive and below the next id; the unique and foreign-key constraints hold. */
    ghost predicate Valid()
      reads this
    {
      && 1 <= nextFileId && 1 <= nextLabelId && 1 <= nextReportId
      && (forall id :: id in files ==> 1 <= id < nextFileId)
      && (forall id :: id in labels ==> 1 <= id < nextLabelId)
      && (forall id :: id in reports ==> 1 <= id < nextReportId)
      && UniqueFiles(files)
      && OneReportPerFile(reports)
      && (forall id :: id in labels ==> labels[id].fileId in files)
      && (forall id :: id in reports ==> reports[id].fileId in files)
    }

    constructor ()
      ensures Valid()
      ensures files == map[] && labels == map[] && reports == map[]
    {
      files, labels, reports := map[], map[], map[];
      nextFileId, nextLabelId, nextReportId := 1, 1, 1;
    }

    /** `query(File).filter_by(filename=..., sop_instance=...).first()`. */
    method FindFile(filename: string, sop: string) returns (found: Option<int>)
      requires Valid()
      ensures found.Some? ==> found.value in files && files[found.value] == FileRow(filename, sop)
      ensures found.None? <==> !HasRow(files, FileRow(filename, sop))
    {
      var id := 1;
      while id < nextFileId
        invariant 1 <= id <= nextFileId
        invariant forall j :: j in files && j < id ==> files[j] != FileRow(filename, sop)
      {
        if id in files && files[id] == FileRow(filename, sop) {
          return Some(id);
        }
        id := id + 1;
      }
      found := None;
    }

    /** `query(File).filter_by(sop_instance=...).first()`: several files may share a UID, the lowest id wins. */
    method FirstFileBySop(sop: string) returns (found: Option<int>)
      requires Valid()
      ensures found.Some? ==> IsFirstBySop(files, sop, found.value)
      ensures found.None? <==> !HasFileWithSop(files, sop)
    {
      var id := 1;
      while id < nextFileId
        invariant 1 <= id <= nextFileId
        invariant forall j :: j in files && j < id ==> files[j].sopInstance != sop
      {
        if id in files && files[id].sopInstance == sop {
          return Some(id);
        }
        id := id + 1;
      }
      found := None;
    }

    /** `query(Report).filter_by(file_id=...).first()`. */
    method FindReport(fileId: int) returns (found: Option<int>)
      requires Valid()
      ensures found.Some? ==> found.value in reports && reports[found.value].fileId == fileId
      ensures found.None? <==> !HasReport(reports, fileId)
    {
      var id := 1;
      while id < nextReportId
        invariant 1 <= id <= nextReportId
        invariant forall j :: j in reports && j < id ==> reports[j].fileId != fileId
      {
        if id in reports && reports[id].fileId == fileId {
          return Some(id);
        }
        id := id + 1;
      }
      found := None;
    }

    /** `add(File(...))` and commit; the caller has checked the unique constraint. */
    method AddFile(row: FileRow) returns (id: int)
      requires Valid()
      requires !HasRow(files, row)
      modifies this`files, this`nextFileId
      ensures Valid()
      ensures id == old(nextFileId) && id !in old(files)
      ensures files == old(files)[id := row] && nextFileId == old(nextFileId) + 1
    {
      id := nextFileId;
      files := files[id := row];
      nextFileId := nextFileId + 1;
    }

    /** `add(Label(...))` and commit. */
    method AddLabel(row: LabelRow) returns (id: int)
      requires Valid()
      requires row.fileId in files
      modifies this`labels, this`nextLabelId
      ensures Valid()
      ensures id == old(nextLabelId) && id !in old(labels)
      ensures labels == old(labels)[id := row]
    {
      id := nextLabelId;
      labels := labels[id := row];
      nextLabelId := nextLabelId + 1;
    }

    /** `add(Report(...))` and commit; the caller has checked that the image has no report yet. */
    method AddReport(row: ReportRow) returns (id: int)
      requires Valid()
      requires row.fileId in files && !HasReport(reports, row.fileId)
      modifies this`reports, this`nextReportId
      ensures Valid()
      ensures id == old(nextReportId) && id !in old(reports)
      ensures reports == old(reports)[id := row]
    {
      id := nextReportId;
      reports := reports[id := row];
      nextReportId := nextReportId + 1;
    }
  }
}
