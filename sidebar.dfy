/**
 * The folder browser: the path of a row relative to the storage root, the
 * "Up" button that climbs one folder, and which row shows as selected.
 * Folder paths are relative, '/'-separated, and "" is the root.
 */
module Sidebar {
  import opened Wrappers
  import opened Schemas
  import opened Paths

  /** The relative path of the entry `name` listed in `folder`. */
  function RelPath(folder: string, name: string): (rel: string)
    ensures |rel| >= |name| && rel[|rel| - |name|..] == name
    ensures folder == "" ==> rel == name
    ensures folder != "" ==> |rel| == |folder| + 1 + |name| && rel[..|folder| + 1] == folder + "/"
  {
    if folder == "" then name else folder + "/" + name
  }

  /**
   * `goUp`: at the root the button does nothing (None); elsewhere the new
   * folder is the current one without its last segment.
   */
  function GoUp(folder: string): (up: Option<string>)
    ensures up.None? <==> folder == ""
    ensures up.Some? ==> |up.value| < |folder|
  {
    if folder == "" then None
    else
      var parts := Split(folder);
      JoinSplit(folder);
      DropLastShorter(parts);
      Some(Join(parts[..|parts| - 1]))
  }

  /** Joining all but the last part gives a strictly shorter string. */
  lemma {:induction false} DropLastShorter(parts: seq<string>)
    requires |parts| >= 1
    ensures |Join(parts[..|parts| - 1])| < |Join(parts)| || (|parts| == 1 && Join(parts) == "")
  {
    var init := parts[..|parts| - 1];
    assert parts == init + [parts[|parts| - 1]];
    if |init| == 0 {
      assert Join(init) == "";
    } else {
      JoinSnoc(init, parts[|parts| - 1]);
    }
  }

  /** "Up" from a folder entered from the listing returns to the folder it was listed in. */
  lemma GoUpOfRelPath(folder: string, name: string)
    requires name != "" && '/' !in name
    ensures GoUp(RelPath(folder, name)) == Some(folder)
  {
    if folder == "" {
      SplitNoSlash(name);
    } else {
      SplitLast(folder, name);
      var parts := Split(folder) + [name];
      assert parts[..|parts| - 1] == Split(folder);
      JoinSplit(folder);
    }
  }

  /** "Up" from a top-level folder reaches the root. */
  lemma GoUpTopLevel(folder: string)
    requires folder != "" && '/' !in folder
    ensures GoUp(folder) == Some("")
  {
    SplitNoSlash(folder);
  }

  /** Within one folder, distinct names give distinct relative paths. */
  lemma RelPathInjective(folder: string, a: string, b: string)
    requires RelPath(folder, a) == RelPath(folder, b)
    ensures a == b
  {
    if folder != "" {
      var pa, pb := folder + "/" + a, folder + "/" + b;
      assert a == pa[|folder| + 1..] && b == pb[|folder| + 1..];
    }
  }

  /** A row is highlighted when it is a file whose relative path is the selected file. */
  predicate IsSelected(e: Entry, folder: string, selectedFile: string)
    ensures IsSelected(e, folder, selectedFile) ==> e.kind == File && |selectedFile| >= |e.name|
    ensures IsSelected(e, folder, selectedFile) ==> selectedFile[|selectedFile| - |e.name|..] == e.name
    ensures folder == "" ==> (IsSelected(e, folder, selectedFile) <==> e.kind == File && e.name == selectedFile)
  {
    e.kind == File && RelPath(folder, e.name) == selectedFile
  }

  /** When a folder's names are distinct, at most one row is highlighted. */
  lemma AtMostOneSelected(entries: seq<Entry>, folder: string, selectedFile: string, i: int, j: int)
    requires EntryNamesDistinct(entries)
    requires 0 <= i < |entries| && 0 <= j < |entries|
    requires IsSelected(entries[i], folder, selectedFile) && IsSelected(entries[j], folder, selectedFile)
    ensures i == j
  {
    RelPathInjective(folder, entries[i].name, entries[j].name);
  }
}
