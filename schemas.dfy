/** The request and response bodies exchanged over the HTTP API. */
module Schemas {
  import opened Wrappers

  /** Body of a label creation: the image it belongs to, its `label` text and its geometry. */
  datatype LabelCreate = LabelCreate(filename: string, sopInstance: string, text: string,
                                     x: int, y: int, width: int, height: int)

  /** Body of a partial label update: `None` marks a field the client left unset. */
  datatype LabelUpdate = LabelUpdate(text: Option<string>, x: Option<int>, y: Option<int>,
                                     width: Option<int>, height: Option<int>)

  /** A label as the server returns it, and as the viewer keeps it in its list. In all three
      bodies `text` carries the JSON field `label`. */
  datatype LabelResponse = LabelResponse(id: int, filename: string, sopInstance: string, text: string,
                                         x: int, y: int, width: int, height: int)

  datatype ReportResponse = ReportResponse(id: int, fileId: int, sopInstance: string, content: string)

  /** The `type` of a folder listing entry: "directory" or "file". */
  datatype Kind = Directory | File

  /** One entry of a folder listing, `{"name": ..., "type": ...}`. */
  datatype Entry = Entry(name: string, kind: Kind)

  /** No two entries of a listing share a name, as in one directory. */
  predicate EntryNamesDistinct(es: seq<Entry>)
  {
    forall i, j :: 0 <= i < j < |es| ==> es[i].name != es[j].name
  }

  /** HTTP 404, the only error the routers raise. */
  datatype Error = NotFound
}
