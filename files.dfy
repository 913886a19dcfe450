/**
 * The file router: listing a folder (sub-folders first, then DICOM files, each
 * group by lower-cased name) and recording uploaded images in the files table.
 * The filesystem is given as data.
 */
module Files {
  import opened Wrappers
  import opened Schemas
  import opened Models
  import opened Paths

  /** One item of a directory as the filesystem reports it. */
  datatype Child = Child(name: string, isDir: bool)

  /** What the requested folder path resolves to. */
  datatype Target = Missing | RegularFile | Folder(children: seq<Child>)

  /** Python's `<=` on strings: lexicographic by code point. */
  predicate LexLeq(a: string, b: string)
  {
    |a| == 0 || (|b| > 0 && (a[0] < b[0] || (a[0] == b[0] && LexLeq(a[1..], b[1..]))))
  }

  lemma {:induction false} LexLeqTotal(a: string, b: string)
    ensures LexLeq(a, b) || LexLeq(b, a)
  {
    if |a| > 0 && |b| > 0 && a[0] == b[0] {
      LexLeqTotal(a[1..], b[1..]);
    }
  }

  lemma {:induction false} LexLeqTransitive(a: string, b: string, c: string)
    requires LexLeq(a, b) && LexLeq(b, c)
    ensures LexLeq(a, c)
  {
    if |a| > 0 && a[0] == b[0] && b[0] == c[0] {
      LexLeqTransitive(a[1..], b[1..], c[1..]);
    }
  }

  /** The sort key `(not p.is_dir(), p.name.lower())`: folders first, then by lower-cased name. */
  predicate ChildLeq(a: Child, b: Child)
  {
    (a.isDir && !b.isDir) || (a.isDir == b.isDir && LexLeq(Lower(a.name), Lower(b.name)))
  }

  lemma ChildLeqTotal(a: Child, b: Child)
    ensures ChildLeq(a, b) || ChildLeq(b, a)
  {
    LexLeqTotal(Lower(a.name), Lower(b.name));
  }

  lemma ChildLeqTransitive(a: Child, b: Child, c: Child)
    requires ChildLeq(a, b) && ChildLeq(b, c)
    ensures ChildLeq(a, c)
  {
    if a.isDir == b.isDir == c.isDir {
      LexLeqTransitive(Lower(a.name), Lower(b.name), Lower(c.name));
    }
  }

  predicate SortedChildren(s: seq<Child>)
  {
    forall i, j :: 0 <= i < j < |s| ==> ChildLeq(s[i], s[j])
  }

  /** A child no greater than every element of a sorted list can head it. */
  lemma SortedCons(x: Child, s: seq<Child>)
    requires SortedChildren(s)
    requires forall k :: 0 <= k < |s| ==> ChildLeq(x, s[k])
    ensures SortedChildren([x] + s)
  {
    var r := [x] + s;
    forall i, j | 0 <= i < j < |r| ensures ChildLeq(r[i], r[j]) {
      assert r[j] == s[j - 1];
      if i > 0 {
        assert r[i] == s[i - 1];
      }
    }
  }

  /** A bound below `c` and below every element of `t` is below every element of a rearrangement of them. */
  lemma BelowAll(h: Child, c: Child, t: seq<Child>, rest: seq<Child>)
    requires ChildLeq(h, c)
    requires forall k :: 0 <= k < |t| ==> ChildLeq(h, t[k])
    requires multiset(rest) == multiset(t) + multiset{c}
    ensures forall k :: 0 <= k < |rest| ==> ChildLeq(h, rest[k])
  {
    forall k | 0 <= k < |rest| ensures ChildLeq(h, rest[k]) {
      assert rest[k] in multiset(rest);
      if rest[k] != c {
        assert rest[k] in multiset(t);
        var i :| 0 <= i < |t| && t[i] == rest[k];
      }
    }
  }

  /** Inserts `c` before the first element it does not follow. */
  function Insert(c: Child, s: seq<Child>): (r: seq<Child>)
    requires SortedChildren(s)
    ensures SortedChildren(r)
    ensures multiset(r) == multiset(s) + multiset{c}
  {
    if s == [] then [c]
    else if ChildLeq(c, s[0]) then
      assert forall k :: 0 <= k < |s| ==> ChildLeq(c, s[k]) by {
        forall k | 0 <= k < |s| ensures ChildLeq(c, s[k]) {
          if k > 0 { ChildLeqTransitive(c, s[0], s[k]); }
        }
      }
      SortedCons(c, s);
      [c] + s
    else
      var tail := s[1..];
      assert SortedChildren(tail) && forall k :: 0 <= k < |tail| ==> ChildLeq(s[0], tail[k]) by {
        assert forall k :: 0 <= k < |tail| ==> tail[k] == s[k + 1];
      }
      var rest := Insert(c, tail);
      ChildLeqTotal(c, s[0]);
      BelowAll(s[0], c, tail, rest);
      SortedCons(s[0], rest);
      assert s == [s[0]] + tail;
      [s[0]] + rest
  }

  /** `sorted(target.iterdir(), key=...)`: the children in key order. */
  function Sort(s: seq<Child>): (r: seq<Child>)
    ensures SortedChildren(r)
    ensures multiset(r) == multiset(s)
  {
    if s == [] then []
    else
      assert s == [s[0]] + s[1..];
      Insert(s[0], Sort(s[1..]))
  }

  /** `p.suffix.lower() == ".dcm"`: the name has something before a final four-character extension starting with a dot. */
  predicate IsDicom(name: string)
    ensures IsDicom(name) ==> |name| >= 5 && name[|name| - 4] == '.'
  {
    Lower(Suffix(name)) == ".dcm"
  }

  /** A name counts as DICOM exactly when it has at least one character before a final ".dcm" in any case. */
  lemma IsDicomIff(name: string)
    ensures IsDicom(name) <==> |name| >= 5 && Lower(name[|name| - 4..]) == ".dcm"
  {
    var i := LastIndex(name, '.');
    if IsDicom(name) {
      assert 0 < i < |name| - 1;
      assert |name[i..]| == 4;
      assert name[|name| - 4..] == name[i..];
    }
    if |name| >= 5 && Lower(name[|name| - 4..]) == ".dcm" {
      var tail := name[|name| - 4..];
      var low := Lower(tail);
      assert low[0] == LowerChar(tail[0]) && low[1] == LowerChar(tail[1]);
      assert low[2] == LowerChar(tail[2]) && low[3] == LowerChar(tail[3]);
      assert tail[0] == '.';
      assert tail[1] != '.' && tail[2] != '.' && tail[3] != '.';
      assert name[|name| - 4] == '.';
      assert '.' !in name[|name| - 3..] by {
        assert name[|name| - 3..] == tail[1..];
      }
      assert i == |name| - 4;
    }
  }

  /** The listing entries one child contributes: a folder, a DICOM file, or nothing. */
  function Entries(c: Child): seq<Entry>
  {
    if c.isDir then [Entry(c.name, Directory)]
    else if IsDicom(c.name) then [Entry(c.name, File)]
    else []
  }

  /** The entries a run of children contributes, in order. */
  function Listed(s: seq<Child>): seq<Entry>
  {
    if s == [] then [] else Listed(s[..|s| - 1]) + Entries(s[|s| - 1])
  }

  /** Whether child `c` of a folder is listed as entry `e`. */
  predicate Shows(c: Child, e: Entry)
  {
    c.name == e.name && (if c.isDir then e.kind == Directory else e.kind == File && IsDicom(c.name))
  }

  lemma {:induction false} ListedMembers(s: seq<Child>, e: Entry)
    ensures e in Listed(s) <==> exists c :: c in s && Shows(c, e)
  {
    if s != [] {
      var init, last := s[..|s| - 1], s[|s| - 1];
      assert s == init + [last];
      ListedMembers(init, e);
      if e in Listed(s) && e !in Listed(init) {
        assert Shows(last, e);
      }
      if c :| c in s && Shows(c, e) {
        if c != last {
          assert c in init;
        }
      }
    }
  }

  /** The order of the listing: folders before files, each group by lower-cased name. */
  predicate EntryLeq(a: Entry, b: Entry)
  {
    (a.kind == Directory && b.kind == File) || (a.kind == b.kind && LexLeq(Lower(a.name), Lower(b.name)))
  }

  /** A child's entries: at most one, showing that child. */
  lemma EntriesShow(c: Child)
    ensures |Entries(c)| <= 1
    ensures forall e :: e in Entries(c) ==> Shows(c, e)
  {
  }

  /** Each entry of a listing is shown by some child. */
  lemma {:induction false} ListedOrigin(s: seq<Child>, i: int) returns (k: int)
    requires 0 <= i < |Listed(s)|
    ensures 0 <= k < |s| && Shows(s[k], Listed(s)[i])
  {
    var init, last := s[..|s| - 1], s[|s| - 1];
    var li := Listed(init);
    assert Listed(s) == li + Entries(last);
    if i < |li| {
      k := ListedOrigin(init, i);
      assert s[k] == init[k];
    } else {
      EntriesShow(last);
      assert Listed(s)[i] in Entries(last);
      k := |s| - 1;
    }
  }

  lemma {:induction false} ListedSorted(s: seq<Child>)
    requires SortedChildren(s)
    ensures forall i, j :: 0 <= i < j < |Listed(s)| ==> EntryLeq(Listed(s)[i], Listed(s)[j])
  {
    if s != [] {
      var init, last := s[..|s| - 1], s[|s| - 1];
      ListedSorted(init);
      var l := Listed(s);
      var li := Listed(init);
      var le := Entries(last);
      assert l == li + le;
      EntriesShow(last);
      forall i, j | 0 <= i < j < |l| ensures EntryLeq(l[i], l[j]) {
        if j < |li| {
          assert l[i] == li[i] && l[j] == li[j];
        } else {
          assert i < |li| && l[j] == le[0] && l[i] == li[i];
          var k := ListedOrigin(init, i);
          assert s[k] == init[k];
          assert ChildLeq(init[k], last) && Shows(init[k], li[i]) && Shows(last, le[0]);
        }
      }
    }
  }

  /** Sub-folders come before files. */
  predicate FoldersFirst(es: seq<Entry>)
  {
    forall i, j :: 0 <= i < j < |es| ==> !(es[i].kind == File && es[j].kind == Directory)
  }

  /** Within each kind, entries are ordered by lower-cased name. */
  predicate ByLowerName(es: seq<Entry>)
  {
    forall i, j :: 0 <= i < j < |es| && es[i].kind == es[j].kind ==> LexLeq(Lower(es[i].name), Lower(es[j].name))
  }

  /** The entries are exactly the sub-folders and DICOM files among `children`. */
  ghost predicate ShowsExactly(es: seq<Entry>, children: seq<Child>)
  {
    forall e :: e in es <==> exists c :: c in children && Shows(c, e)
  }

  /** One more child adds its own entries at the end. */
  lemma ListedSnoc(s: seq<Child>, x: Child)
    ensures Listed(s + [x]) == Listed(s) + Entries(x)
  {
    assert (s + [x])[..|s|] == s;
  }

  /** Listing a concatenation lists each part in turn. */
  lemma {:induction false} ListedAppend(a: seq<Child>, b: seq<Child>)
    ensures Listed(a + b) == Listed(a) + Listed(b)
  {
    if b == [] {
      assert a + b == a;
    } else {
      var front, last := b[..|b| - 1], b[|b| - 1];
      assert b == front + [last];
      assert a + b == (a + front) + [last];
      calc {
        Listed(a + b);
        Listed((a + front) + [last]);
        { ListedSnoc(a + front, last); }
        Listed(a + front) + Entries(last);
        { ListedAppend(a, front); }
        Listed(a) + Listed(front) + Entries(last);
        { ListedSnoc(front, last); }
        Listed(a) + Listed(b);
      }
    }
  }

  /** Splits `t` around one occurrence of `x`: what remains holds every other child as often as before. */
  lemma Pick(t: seq<Child>, x: Child) returns (i: int)
    requires x in multiset(t)
    ensures 0 <= i < |t| && t == t[..i] + [x] + t[i + 1..]
    ensures multiset(t[..i] + t[i + 1..]) == multiset(t) - multiset{x}
  {
    i :| 0 <= i < |t| && t[i] == x;
    assert t == t[..i] + [x] + t[i + 1..];
  }

  /** Dropping the last child of `s` leaves every other child as often as before. */
  lemma DropLast(s: seq<Child>)
    requires s != []
    ensures s == s[..|s| - 1] + [s[|s| - 1]]
    ensures multiset(s[..|s| - 1]) == multiset(s) - multiset{s[|s| - 1]}
  {
    assert s == s[..|s| - 1] + [s[|s| - 1]];
  }

  /** Listing a rearrangement of the children gives a rearrangement of the listing: every entry as often as before. */
  lemma {:induction false} ListedPermutation(s: seq<Child>, t: seq<Child>)
    requires multiset(s) == multiset(t)
    ensures multiset(Listed(s)) == multiset(Listed(t))
  {
    if s == [] {
      assert |t| == |multiset(t)|;
    } else {
      var init, x := s[..|s| - 1], s[|s| - 1];
      DropLast(s);
      var i := Pick(t, x);
      var t1, t2 := t[..i], t[i + 1..];
      ListedPermutation(init, t1 + t2);
      ListedAppend(t1, t2);
      ListedAppend(t1 + [x], t2);
      ListedAppend(t1, [x]);
      assert [x][..0] == [];
      assert Listed(s) == Listed(init) + Entries(x);
    }
  }

  /** No two children share a name, as in one directory. */
  predicate NamesDistinct(s: seq<Child>)
  {
    forall i, j :: 0 <= i < j < |s| ==> s[i].name != s[j].name
  }

  /** Removing one child from a directory keeps the names distinct, and none of the others has its name. */
  lemma NamesDistinctWithout(t: seq<Child>, i: int)
    requires NamesDistinct(t) && 0 <= i < |t|
    ensures NamesDistinct(t[..i] + t[i + 1..])
    ensures forall y :: y in t[..i] + t[i + 1..] ==> y.name != t[i].name
  {
    var rest := t[..i] + t[i + 1..];
    forall m | 0 <= m < |rest| ensures rest[m] == t[if m < i then m else m + 1] {
    }
  }

  /** Rearranging children whose names are distinct keeps them distinct. */
  lemma {:induction false} NamesDistinctPermutation(s: seq<Child>, t: seq<Child>)
    requires multiset(s) == multiset(t) && NamesDistinct(t)
    ensures NamesDistinct(s)
  {
    if s != [] {
      var init, x := s[..|s| - 1], s[|s| - 1];
      DropLast(s);
      var i := Pick(t, x);
      var rest := t[..i] + t[i + 1..];
      NamesDistinctWithout(t, i);
      NamesDistinctPermutation(init, rest);
      forall p, q | 0 <= p < q < |s| ensures s[p].name != s[q].name {
        assert s[p] == init[p];
        if q == |init| {
          assert init[p] in multiset(rest);
        }
      }
    }
  }

  /** Children with distinct names give entries with distinct names. */
  lemma {:induction false} ListedNamesDistinct(s: seq<Child>)
    requires NamesDistinct(s)
    ensures EntryNamesDistinct(Listed(s))
  {
    if s != [] {
      var init, last := s[..|s| - 1], s[|s| - 1];
      ListedNamesDistinct(init);
      var l, li := Listed(s), Listed(init);
      assert l == li + Entries(last);
      forall i, j | 0 <= i < j < |l| ensures l[i].name != l[j].name {
        if j >= |li| {
          assert l[j] == Entries(last)[0];
          assert l[i] in li;
          ListedMembers(init, l[i]);
          var c :| c in init && Shows(c, l[i]);
          var k :| 0 <= k < |init| && init[k] == c;
          assert s[k] == c;
        }
      }
    }
  }

  /**
   * Sorting before listing only rearranges the listing: every folder and DICOM
   * file appears exactly as often as the directory holds it, and distinct names
   * stay distinct.
   */
  lemma ListingOfSortedCounts(children: seq<Child>)
    ensures multiset(Listed(Sort(children))) == multiset(Listed(children))
    ensures NamesDistinct(children) ==> EntryNamesDistinct(Listed(Sort(children)))
  {
    var sorted := Sort(children);
    ListedPermutation(sorted, children);
    if NamesDistinct(children) {
      NamesDistinctPermutation(sorted, children);
      ListedNamesDistinct(sorted);
    }
  }

  /** Listing the sorted children puts folders first, orders by name and drops nothing but non-DICOM files. */
  lemma ListingOfSorted(children: seq<Child>)
    ensures var es := Listed(Sort(children));
            FoldersFirst(es) && ByLowerName(es) && ShowsExactly(es, children)
  {
    var sorted := Sort(children);
    var es := Listed(sorted);
    ListedSorted(sorted);
    forall e ensures e in es <==> exists c :: c in children && Shows(c, e) {
      ListedMembers(sorted, e);
      forall c ensures c in sorted <==> c in children {
        assert c in sorted <==> c in multiset(sorted);
      }
    }
  }

  /** The loop over the sorted children: folders and DICOM files are appended in order, other files skipped. */
  method ListChildren(sorted: seq<Child>) returns (entries: seq<Entry>)
    ensures entries == Listed(sorted)
  {
    entries := [];
    for k := 0 to |sorted|
      invariant entries == Listed(sorted[..k])
    {
      var p := sorted[k];
      assert sorted[..k + 1] == sorted[..k] + [p];
      ListedSnoc(sorted[..k], p);
      if p.isDir {
        entries := entries + [Entry(p.name, Directory)];
      } else if IsDicom(p.name) {
        entries := entries + [Entry(p.name, File)];
      } else {
        assert Entries(p) == [];
      }
    }
    assert sorted[..|sorted|] == sorted;
  }

  /**
   * GET /api/files?folder=...: not found unless the path is a folder; otherwise
   * its sub-folders and ".dcm" files (any case), folders first and each group
   * ordered by lower-cased name.
   */
  method ListFiles(target: Target) returns (r: Result<seq<Entry>, Error>)
    ensures !target.Folder? <==> r == Failure(NotFound)
    ensures r.Success? ==> FoldersFirst(r.value) && ByLowerName(r.value)
    ensures r.Success? ==> ShowsExactly(r.value, target.children)
    ensures r.Success? ==> multiset(r.value) == multiset(Listed(target.children))
    ensures r.Success? && NamesDistinct(target.children) ==> EntryNamesDistinct(r.value)
  {
    if !target.Folder? {
      return Failure(NotFound);
    }
    var entries := ListChildren(Sort(target.children));
    ListingOfSorted(target.children);
    ListingOfSortedCounts(target.children);
    r := Success(entries);
  }

  /** One uploaded file: its relative path and the SOP Instance UID read from it, if any could be. */
  datatype Upload = Upload(path: string, uid: Option<string>)

  /** The file row an upload with a readable UID should have. */
  function RowOf(up: Upload): FileRow
    requires up.uid.Some?
  {
    FileRow(Basename(up.path), up.uid.value)
  }

  /** Every one of the first `n` uploads with a readable UID has its row. */
  predicate Recorded(files: map<int, FileRow>, uploads: seq<Upload>, n: int)
    requires 0 <= n <= |uploads|
  {
    forall j :: 0 <= j < n && uploads[j].uid.Some? ==> HasRow(files, RowOf(uploads[j]))
  }

  /** Every row not in `before` is the row of one of the first `n` uploads. */
  predicate Explained(files: map<int, FileRow>, before: map<int, FileRow>, uploads: seq<Upload>, n: int)
    requires 0 <= n <= |uploads|
  {
    forall id :: id in files && id !in before ==>
      exists j :: 0 <= j < n && uploads[j].uid.Some? && files[id] == RowOf(uploads[j])
  }

  /** The file table as the upload loop sees it: its rows and the id the next row receives. */
  datatype FileTable = FileTable(rows: map<int, FileRow>, next: int)

  /** Every id in the table is below the next id. */
  ghost predicate Fresh(t: FileTable)
  {
    forall id :: id in t.rows ==> id < t.next
  }

  /** One pass of the upload loop: a readable upload adds its row unless that pair is recorded already. */
  ghost function RecordOne(t: FileTable, up: Upload): FileTable
  {
    if up.uid.None? || HasRow(t.rows, RowOf(up)) then t
    else FileTable(t.rows[t.next := RowOf(up)], t.next + 1)
  }

  /** The table after the upload loop has handled `ups`, in order. */
  ghost function Recording(t: FileTable, ups: seq<Upload>): FileTable
    decreases |ups|
  {
    if ups == [] then t
    else RecordOne(Recording(t, ups[..|ups| - 1]), ups[|ups| - 1])
  }

  /** The loop only adds rows, under ids it has not used before. */
  lemma {:induction false} RecordingKeeps(t: FileTable, ups: seq<Upload>)
    requires Fresh(t)
    ensures Fresh(Recording(t, ups)) && Recording(t, ups).next >= t.next
    ensures forall id :: id in t.rows ==> id in Recording(t, ups).rows && Recording(t, ups).rows[id] == t.rows[id]
    decreases |ups|
  {
    if ups != [] {
      RecordingKeeps(t, ups[..|ups| - 1]);
    }
  }

  /** After the loop, every upload with a readable UID has its (base name, UID) row. */
  lemma {:induction false} RecordingRecords(t: FileTable, ups: seq<Upload>)
    requires Fresh(t)
    ensures Recorded(Recording(t, ups).rows, ups, |ups|)
    decreases |ups|
  {
    if ups != [] {
      var init, last := ups[..|ups| - 1], ups[|ups| - 1];
      var s, r := Recording(t, init), Recording(t, ups);
      RecordingRecords(t, init);
      RecordingKeeps(t, init);
      forall j | 0 <= j < |ups| && ups[j].uid.Some? ensures HasRow(r.rows, RowOf(ups[j])) {
        if j < |init| {
          assert ups[j] == init[j];
          var id :| id in s.rows && s.rows[id] == RowOf(init[j]);
          assert r.rows[id] == s.rows[id];
        } else if !HasRow(s.rows, RowOf(last)) {
          assert r.rows[s.next] == RowOf(last);
        }
      }
    }
  }

  /** After the loop, every new row is the (base name, UID) row of some upload. */
  lemma {:induction false} RecordingExplains(t: FileTable, ups: seq<Upload>)
    ensures Explained(Recording(t, ups).rows, t.rows, ups, |ups|)
    decreases |ups|
  {
    if ups != [] {
      var init, last := ups[..|ups| - 1], ups[|ups| - 1];
      var s, r := Recording(t, init), Recording(t, ups);
      RecordingExplains(t, init);
      forall id | id in r.rows && id !in t.rows
        ensures exists j :: 0 <= j < |ups| && ups[j].uid.Some? && r.rows[id] == RowOf(ups[j])
      {
        if id in s.rows && r.rows[id] == s.rows[id] {
          var j :| 0 <= j < |init| && init[j].uid.Some? && s.rows[id] == RowOf(init[j]);
          assert ups[j] == init[j];
        } else {
          assert r.rows[id] == RowOf(ups[|ups| - 1]);
        }
      }
    }
  }

  /**
   * The body of the upload loop after the file is written: an upload whose UID
   * could be read gets the row (base name, UID) unless that row exists already.
   */
  method RecordUpload(db: Database, up: Upload)
    requires db.Valid()
    modifies db
    ensures db.Valid()
    ensures db.labels == old(db.labels) && db.reports == old(db.reports)
    ensures FileTable(db.files, db.nextFileId) == RecordOne(FileTable(old(db.files), old(db.nextFileId)), up)
    ensures up.uid.Some? ==> HasRow(db.files, RowOf(up))
  {
    if up.uid.None? {
      return;
    }
    var row := FileRow(Basename(up.path), up.uid.value);
    var known := db.FindFile(row.filename, row.sopInstance);
    if known.None? {
      var id := db.AddFile(row);
      assert db.files[id] == row;
    }
  }

  /**
   * POST /api/files/upload: every upload is saved and reported, in order; each
   * one whose UID could be read gets a file row (base name, UID) unless that
   * pair is already recorded.
   */
  method UploadFiles(db: Database, uploads: seq<Upload>) returns (saved: seq<string>)
    requires db.Valid()
    modifies db
    ensures db.Valid()
    ensures db.labels == old(db.labels) && db.reports == old(db.reports)
    ensures |saved| == |uploads| && forall k :: 0 <= k < |uploads| ==> saved[k] == uploads[k].path
    ensures FileTable(db.files, db.nextFileId) == Recording(FileTable(old(db.files), old(db.nextFileId)), uploads)
    ensures forall id :: id in old(db.files) ==> id in db.files && db.files[id] == old(db.files)[id]
    ensures Recorded(db.files, uploads, |uploads|)
    ensures Explained(db.files, old(db.files), uploads, |uploads|)
  {
    ghost var start := FileTable(db.files, db.nextFileId);
    saved := [];
    for k := 0 to |uploads|
      invariant db.Valid()
      invariant db.labels == old(db.labels) && db.reports == old(db.reports)
      invariant |saved| == k && forall j :: 0 <= j < k ==> saved[j] == uploads[j].path
      invariant FileTable(db.files, db.nextFileId) == Recording(start, uploads[..k])
    {
      saved := saved + [uploads[k].path];
      RecordUpload(db, uploads[k]);
      assert uploads[..k + 1][..k] == uploads[..k];
    }
    assert uploads[..|uploads|] == uploads;
    RecordingKeeps(start, uploads);
    RecordingRecords(start, uploads);
    RecordingExplains(start, uploads);
  }
}
