/**
 * The application shell: the file list the viewer steps through, and label
 * deletion from the side list or the Delete key.
 */
module App {
  import opened Wrappers
  import opened Schemas
  import opened Sidebar
  import opened Viewer

  /** The relative paths of the plain files of a listing, in listing order; folders are skipped. */
  function FileList(folder: string, entries: seq<Entry>): (files: seq<string>)
    ensures |files| <= |entries|
  {
    if entries == [] then []
    else
      var last := entries[|entries| - 1];
      FileList(folder, entries[..|entries| - 1]) + (if last.kind == File then [RelPath(folder, last.name)] else [])
  }

  /** A path is in the file list exactly when some file of the listing has it as relative path. */
  lemma {:induction false} FileListMembers(folder: string, entries: seq<Entry>, p: string)
    ensures p in FileList(folder, entries) <==> exists e :: e in entries && e.kind == File && RelPath(folder, e.name) == p
  {
    if entries != [] {
      var init, last := entries[..|entries| - 1], entries[|entries| - 1];
      assert entries == init + [last];
      FileListMembers(folder, init, p);
    }
  }

  /** The list keeps the listing's order: a longer listing extends the list of its prefix. */
  lemma {:induction false} FileListAppend(folder: string, a: seq<Entry>, b: seq<Entry>)
    ensures FileList(folder, a + b) == FileList(folder, a) + FileList(folder, b)
  {
    if b == [] {
      assert a + b == a;
    } else {
      var init, last := b[..|b| - 1], b[|b| - 1];
      assert (a + b)[..|a + b| - 1] == a + init;
      FileListAppend(folder, a, init);
    }
  }

  /** Distinct names in a folder give a file list without repeats, so navigation steps one slice at a time. */
  lemma {:induction false} FileListDistinct(folder: string, entries: seq<Entry>)
    requires EntryNamesDistinct(entries)
    ensures Distinct(FileList(folder, entries))
  {
    if entries != [] {
      var init, last := entries[..|entries| - 1], entries[|entries| - 1];
      FileListDistinct(folder, init);
      if last.kind == File {
        var rel := RelPath(folder, last.name);
        var files := FileList(folder, init);
        if rel in files {
          FileListMembers(folder, init, rel);
          var e :| e in init && e.kind == File && RelPath(folder, e.name) == rel;
          RelPathInjective(folder, e.name, last.name);
          assert false;
        }
      }
    }
  }

  /** The row the sidebar highlights is always a file the viewer can step from. */
  lemma SelectedRowIsListed(entries: seq<Entry>, folder: string, selectedFile: string, e: Entry)
    requires e in entries && IsSelected(e, folder, selectedFile)
    ensures selectedFile in FileList(folder, entries)
  {
    FileListMembers(folder, entries, selectedFile);
  }

  /**
   * `handleDeleteLabel(id)`: once the store deletes the label, it leaves the
   * list and a selection of it is cleared; a rejected call is caught and
   * changes nothing.
   */
  method HandleDeleteLabel(o: Overlay, id: int, deleted: bool) returns (req: Request)
    modifies o`labels, o`selectedId
    ensures req == Delete(id)
    ensures deleted ==> o.labels == Without(old(o.labels), id)
    ensures deleted ==> o.selectedId == (if old(o.selectedId) == Some(id) then None else old(o.selectedId))
    ensures !deleted ==> o.labels == old(o.labels) && o.selectedId == old(o.selectedId)
  {
    req := o.HandleDelete(id, deleted);
  }

  /**
   * The Delete key removes the selected label, if any; other keys, or no
   * selection, send nothing. After a successful removal nothing is selected
   * and no label with the removed id is left.
   */
  method HandleKeyDown(o: Overlay, key: string, deleted: bool) returns (req: Option<Request>)
    modifies o`labels, o`selectedId
    ensures key == "Delete" && old(o.selectedId).Some? ==> req == Some(Delete(old(o.selectedId).value))
    ensures key == "Delete" && old(o.selectedId).Some? && deleted ==>
      o.selectedId.None? && forall l :: l in o.labels ==> l.id != old(o.selectedId).value
    ensures key == "Delete" && old(o.selectedId).Some? && deleted ==> o.labels == Without(old(o.labels), old(o.selectedId).value)
    ensures !(key == "Delete" && old(o.selectedId).Some?) || !deleted ==>
      o.labels == old(o.labels) && o.selectedId == old(o.selectedId)
    ensures !(key == "Delete" && old(o.selectedId).Some?) ==> req.None?
  {
    req := None;
    if key == "Delete" && o.selectedId.Some? {
      var sent := HandleDeleteLabel(o, o.selectedId.value, deleted);
      req := Some(sent);
    }
  }
}
