/**
 * The annotation overlay of the image viewer: mouse handlers that draw new
 * boxes and resize the selected one, label deletion, and stepping through the
 * slices of the current folder. The component's own state (the drag and the
 * resize in progress) and the state it shares with the application (the
 * labels, the selected label, the file list and the current file) live in one
 * `Overlay` object.
 */
module Viewer {
  import opened Wrappers
  import opened Schemas
  import opened Geometry
  import Models
  import Labels

  /** A drawn box narrower or shorter than this many pixels is discarded. */
  const MinSide: int := 10

  /** The text every drawn box is created with. */
  const DefaultText: string := "nodule"

  /** The resize in progress: the label, the handle grabbed and the cursor's last screen position. */
  datatype Resize = Resize(id: int, handle: Handle, lastX: int, lastY: int)

  /** A call issued to the remote label store. */
  datatype Request = Create(body: LabelCreate) | Update(id: int, patch: LabelUpdate) | Delete(id: int)

  /** `s.indexOf(x)`: the first position of `x`, or -1. */
  function IndexOf(s: seq<string>, x: string): (i: int)
    ensures -1 <= i < |s|
    ensures i >= 0 ==> s[i] == x && forall j :: 0 <= j < i ==> s[j] != x
    ensures i == -1 <==> x !in s
  {
    if |s| == 0 then -1
    else if s[0] == x then 0
    else
      var k := IndexOf(s[1..], x);
      assert s == [s[0]] + s[1..];
      if k == -1 then -1 else k + 1
  }

  /** The file `navigate(direction)` moves to, or None when it leaves the current file as it is. */
  function NavTarget(fileList: seq<string>, file: string, direction: int): (target: Option<string>)
    ensures target.Some? ==> target.value in fileList
  {
    if file == "" then None
    else
      var idx := IndexOf(fileList, file);
      if idx == -1 then None
      else
        var newIdx := idx + direction;
        if newIdx < 0 || newIdx >= |fileList| then None
        else Some(fileList[newIdx])
  }

  predicate Distinct(s: seq<string>)
  {
    forall i, j :: 0 <= i < j < |s| ==> s[i] != s[j]
  }

  /** In a list without repeats, a step moves exactly `direction` places when it stays in range. */
  lemma NavStep(fileList: seq<string>, i: int, direction: int)
    requires Distinct(fileList) && 0 <= i < |fileList| && fileList[i] != ""
    ensures 0 <= i + direction < |fileList| ==> NavTarget(fileList, fileList[i], direction) == Some(fileList[i + direction])
    ensures !(0 <= i + direction < |fileList|) ==> NavTarget(fileList, fileList[i], direction) == None
  {
    assert IndexOf(fileList, fileList[i]) == i;
  }

  /** Navigation is bounded: stepping back from the first file or on from the last does nothing. */
  lemma NavNeverWraps(fileList: seq<string>, file: string)
    ensures IndexOf(fileList, file) == 0 ==> NavTarget(fileList, file, -1) == None
    ensures IndexOf(fileList, file) == |fileList| - 1 ==> NavTarget(fileList, file, 1) == None
  {
  }

  /** The "previous" button is greyed out when the current file is first in the list or absent from it. */
  predicate PrevDisabled(fileList: seq<string>, file: string)
    ensures PrevDisabled(fileList, file) <==> file !in fileList || fileList[0] == file
  {
    IndexOf(fileList, file) <= 0
  }

  /** The "next" button is greyed out when the current file is last in the list. */
  predicate NextDisabled(fileList: seq<string>, file: string)
    ensures NextDisabled(fileList, file) <==>
      fileList == [] || (fileList[|fileList| - 1] == file && file !in fileList[..|fileList| - 1])
  {
    IndexOf(fileList, file) == |fileList| - 1
  }

  /**
   * For a file of the list, each button is greyed out exactly when pressing it
   * would do nothing; for a file not in the list "next" stays enabled
   * (unless the list is empty) although it does nothing.
   */
  lemma NavButtons(fileList: seq<string>, file: string)
    requires file != ""
    ensures file in fileList ==> (PrevDisabled(fileList, file) <==> NavTarget(fileList, file, -1).None?)
    ensures file in fileList ==> (NextDisabled(fileList, file) <==> NavTarget(fileList, file, 1).None?)
    ensures file !in fileList ==> PrevDisabled(fileList, file) && NavTarget(fileList, file, -1).None?
    ensures file !in fileList && |fileList| > 0 ==> !NextDisabled(fileList, file) && NavTarget(fileList, file, 1).None?
  {
  }

  /** Next then previous comes back to the same slice, when the list has no repeats. */
  lemma NavRoundTrip(fileList: seq<string>, file: string)
    requires Distinct(fileList) && forall k :: 0 <= k < |fileList| ==> fileList[k] != ""
    ensures NavTarget(fileList, file, 1).Some? ==> NavTarget(fileList, NavTarget(fileList, file, 1).value, -1) == Some(file)
  {
    if NavTarget(fileList, file, 1).Some? {
      var i := IndexOf(fileList, file);
      NavStep(fileList, i + 1, -1);
    }
  }

  /** `labels.filter(l => l.id !== id)`. */
  function Without(labels: seq<LabelResponse>, id: int): (r: seq<LabelResponse>)
    ensures forall l :: l in r <==> l in labels && l.id != id
  {
    if labels == [] then []
    else (if labels[0].id == id then [] else [labels[0]]) + Without(labels[1..], id)
  }

  /** Removal keeps the survivors in their original order. */
  lemma {:induction false} WithoutAppend(a: seq<LabelResponse>, b: seq<LabelResponse>, id: int)
    ensures Without(a + b, id) == Without(a, id) + Without(b, id)
  {
    if a == [] {
      assert a + b == b;
    } else {
      assert (a + b)[0] == a[0] && (a + b)[1..] == a[1..] + b;
      WithoutAppend(a[1..], b, id);
    }
  }

  /** Removing an id no label has leaves the list as it was. */
  lemma {:induction false} WithoutAbsent(labels: seq<LabelResponse>, id: int)
    requires forall k :: 0 <= k < |labels| ==> labels[k].id != id
    ensures Without(labels, id) == labels
  {
    if labels != [] {
      WithoutAbsent(labels[1..], id);
    }
  }

  /** `labels.find(l => l.id === id)`: the first label with that id. */
  function FindLabel(labels: seq<LabelResponse>, id: int): (r: Option<LabelResponse>)
    ensures r.Some? ==> r.value in labels && r.value.id == id
    ensures r.None? <==> forall k :: 0 <= k < |labels| ==> labels[k].id != id
    ensures r.Some? ==> exists k :: 0 <= k < |labels| && labels[k] == r.value && forall j :: 0 <= j < k ==> labels[j].id != id
  {
    if labels == [] then None
    else if labels[0].id == id then Some(labels[0])
    else
      var r := FindLabel(labels[1..], id);
      assert forall k :: 1 <= k < |labels| ==> labels[k] == labels[1..][k - 1];
      if r.Some? then
        var k :| 0 <= k < |labels[1..]| && labels[1..][k] == r.value && forall j :: 0 <= j < k ==> labels[1..][j].id != id;
        assert labels[k + 1] == r.value && forall j :: 0 <= j < k + 1 ==> labels[j].id != id;
        r
      else r
  }

  /** The box a label is drawn in. */
  function BoxOf(l: LabelResponse): Box
  {
    Box(l.x, l.y, l.width, l.height)
  }

  /** A label's box resized by one step on handle `h`; its id and text stay. */
  function Resized(l: LabelResponse, h: Handle, dX: int, dY: int): (r: LabelResponse)
    ensures r.id == l.id && r.text == l.text && r.filename == l.filename && r.sopInstance == l.sopInstance
    ensures Corner(BoxOf(r), h) == Point(Corner(BoxOf(l), h).x + dX, Corner(BoxOf(l), h).y + dY)
    ensures Corner(BoxOf(r), Opposite(h)) == Corner(BoxOf(l), Opposite(h))
  {
    var b := ResizeBox(BoxOf(l), h, dX, dY);
    var r := l.(x := b.x, y := b.y, width := b.width, height := b.height);
    assert BoxOf(r) == b;
    r
  }

  /** One resize step applied to every label with id `id`; every other label is left as it was. */
  function ResizeAll(labels: seq<LabelResponse>, id: int, h: Handle, dX: int, dY: int): (r: seq<LabelResponse>)
    ensures |r| == |labels|
    ensures forall k :: 0 <= k < |labels| ==> r[k].id == labels[k].id && r[k].text == labels[k].text
    ensures forall k :: 0 <= k < |labels| && labels[k].id != id ==> r[k] == labels[k]
  {
    if labels == [] then []
    else
      [if labels[0].id == id then Resized(labels[0], h, dX, dY) else labels[0]]
        + ResizeAll(labels[1..], id, h, dX, dY)
  }

  /** Each label with the resized id is replaced by its resized version. */
  lemma {:induction false} ResizeAllAt(labels: seq<LabelResponse>, id: int, h: Handle, dX: int, dY: int, k: int)
    requires 0 <= k < |labels| && labels[k].id == id
    ensures ResizeAll(labels, id, h, dX, dY)[k] == Resized(labels[k], h, dX, dY)
    decreases k
  {
    if k > 0 {
      ResizeAllAt(labels[1..], id, h, dX, dY, k - 1);
    }
  }

  /** Each label with the resized id has its grabbed corner moved by the delta and the opposite corner fixed. */
  lemma ResizeAllCorners(labels: seq<LabelResponse>, id: int, h: Handle, dX: int, dY: int, k: int)
    requires 0 <= k < |labels| && labels[k].id == id
    ensures var after := BoxOf(ResizeAll(labels, id, h, dX, dY)[k]);
            Corner(after, h) == Point(Corner(BoxOf(labels[k]), h).x + dX, Corner(BoxOf(labels[k]), h).y + dY) &&
            Corner(after, Opposite(h)) == Corner(BoxOf(labels[k]), Opposite(h))
  {
    ResizeAllAt(labels, id, h, dX, dY, k);
  }

  /** The corner of a drag box opposite the drag's start point: where the cursor is. */
  function FarCorner(start: Point, b: Box): Point
  {
    Point(if b.x == start.x then b.x + b.width else b.x, if b.y == start.y then b.y + b.height else b.y)
  }

  /** A drag box is determined by its start point and its far corner. */
  lemma DragBoxFarCorner(start: Point, cur: Point)
    ensures DragBox(start, FarCorner(start, DragBox(start, cur))) == DragBox(start, cur)
  {
  }

  class Overlay {
    // State shared with the application and passed down as properties.
    var labels: seq<LabelResponse>
    var selectedId: Option<int>
    var fileList: seq<string>
    var file: string
    // The image's base name and SOP Instance UID, known once it has loaded.
    var filename: string
    var sopUid: string
    // The overlay's own gesture state.
    var drawing: bool
    var startPt: Point
    var newBox: Option<Box>
    var resizing: Option<Resize>

    /** A working box exists exactly while drawing, and it always spans from the start point. */
    ghost predicate Valid()
      reads this`drawing, this`newBox, this`startPt
    {
      && drawing == newBox.Some?
      && (newBox.Some? ==> newBox.value == DragBox(startPt, FarCorner(startPt, newBox.value)))
    }

    /** The viewer as first rendered for `file`: no gesture under way, its image not loaded yet. */
    constructor (file: string, fileList: seq<string>, labels: seq<LabelResponse>, selectedId: Option<int>)
      ensures Valid()
      ensures this.file == file && this.fileList == fileList
      ensures this.labels == labels && this.selectedId == selectedId
      ensures filename == "" && sopUid == ""
      ensures !drawing && newBox.None? && resizing.None? && startPt == Point(0, 0)
    {
      this.file, this.fileList := file, fileList;
      this.labels, this.selectedId := labels, selectedId;
      filename, sopUid := "", "";
      drawing, startPt, newBox, resizing := false, Point(0, 0), None, None;
    }

    /**
     * The image has been read: its base name and UID become known, and the
     * label list is replaced by the store's labels for it when that fetch succeeds.
     */
    method ImageLoaded(name: string, uid: string, fetched: Option<seq<LabelResponse>>)
      modifies this`filename, this`sopUid, this`labels
      ensures filename == name && sopUid == uid
      ensures labels == fetched.GetOr(old(labels))
    {
      sopUid := uid;
      filename := name;
      if fetched.Some? {
        labels := fetched.value;
      }
    }

    /** `navigate(direction)`: move to the neighbouring slice, never past either end. */
    method Navigate(direction: int)
      modifies this`file
      ensures file == NavTarget(fileList, old(file), direction).GetOr(old(file))
    {
      if file == "" {
        return;
      }
      var idx := IndexOf(fileList, file);
      if idx == -1 {
        return;
      }
      var newIdx := idx + direction;
      if newIdx < 0 || newIdx >= |fileList| {
        return;
      }
      file := fileList[newIdx];
    }

    /** The arrow keys: left steps back, right steps on, every other key does nothing here. */
    method HandleKey(key: string)
      modifies this`file
      ensures key == "ArrowLeft" ==> file == NavTarget(fileList, old(file), -1).GetOr(old(file))
      ensures key == "ArrowRight" ==> file == NavTarget(fileList, old(file), 1).GetOr(old(file))
      ensures key != "ArrowLeft" && key != "ArrowRight" ==> file == old(file)
    {
      if key == "ArrowLeft" {
        Navigate(-1);
      } else if key == "ArrowRight" {
        Navigate(1);
      }
    }

    /** A click on a label's body selects it. */
    method Select(id: int)
      requires exists k :: 0 <= k < |labels| && labels[k].id == id
      modifies this`selectedId
      ensures selectedId == Some(id)
    {
      selectedId := Some(id);
    }

    /**
     * `handleDelete(id)` (double-click on a label): once the store has deleted
     * it, every label with that id goes and a selection of it is cleared. When
     * the store rejects the call the handler stops and nothing changes.
     */
    method HandleDelete(id: int, deleted: bool) returns (req: Request)
      modifies this`labels, this`selectedId
      ensures req == Delete(id)
      ensures deleted ==> labels == Without(old(labels), id)
      ensures deleted ==> selectedId == (if old(selectedId) == Some(id) then None else old(selectedId))
      ensures !deleted ==> labels == old(labels) && selectedId == old(selectedId)
    {
      req := Delete(id);
      if !deleted {
        return;
      }
      labels := Without(labels, id);
      if selectedId == Some(id) {
        selectedId := None;
      }
    }

    /**
     * Mouse button down on a corner handle. Handles are drawn only on the selected
     * label, so only it can be resized; the gesture records the screen position.
     */
    method ResizeMouseDown(id: int, handle: Handle, clientX: int, clientY: int)
      requires selectedId == Some(id)
      requires exists k :: 0 <= k < |labels| && labels[k].id == id
      modifies this`resizing
      ensures resizing == Some(Resize(id, handle, clientX, clientY))
    {
      resizing := Some(Resize(id, handle, clientX, clientY));
    }

    /**
     * Mouse button down anywhere else on the overlay: a press on the image itself
     * clears the selection, and a drag starts with a zero-size box at the
     * mapped point.
     */
    method OnMouseDown(onImage: bool, clientX: int, clientY: int, origin: Origin)
      requires Valid()
      modifies this`selectedId, this`startPt, this`newBox, this`drawing
      ensures Valid()
      ensures selectedId == (if onImage then None else old(selectedId))
      ensures drawing && startPt == MapPoint(clientX, clientY, origin)
      ensures newBox == Some(Box(startPt.x, startPt.y, 0, 0))
    {
      if onImage {
        selectedId := None;
      }
      var p := MapPoint(clientX, clientY, origin);
      startPt := p;
      newBox := Some(Box(p.x, p.y, 0, 0));
      drawing := true;
      DragBoxFarCorner(p, p);
    }

    /**
     * Mouse motion. A resize in progress takes precedence: the target label
     * moves by the delta since the last motion and the stored position
     * advances. Otherwise, while drawing, the working box becomes the
     * normalised box from the start point to the mapped cursor.
     */
    method OnMouseMove(clientX: int, clientY: int, origin: Origin)
      requires Valid()
      modifies this`resizing, this`labels, this`newBox
      ensures Valid()
      ensures old(resizing).Some? ==>
        var r := old(resizing).value;
        && resizing == Some(r.(lastX := clientX, lastY := clientY))
        && labels == ResizeAll(old(labels), r.id, r.handle, clientX - r.lastX, clientY - r.lastY)
        && newBox == old(newBox)
      ensures old(resizing).None? ==> resizing == old(resizing) && labels == old(labels)
      ensures old(resizing).None? && drawing ==> newBox == Some(DragBox(startPt, MapPoint(clientX, clientY, origin)))
      ensures old(resizing).None? && !drawing ==> newBox == old(newBox)
    {
      var p := MapPoint(clientX, clientY, origin);
      if resizing.Some? {
        ResizeMove(clientX, clientY);
        return;
      }
      if !drawing {
        return;
      }
      DragMove(p);
    }

    /** The resize branch of a mouse motion. */
    method ResizeMove(clientX: int, clientY: int)
      requires resizing.Some?
      modifies this`resizing, this`labels
      ensures var r := old(resizing).value;
        && resizing == Some(r.(lastX := clientX, lastY := clientY))
        && labels == ResizeAll(old(labels), r.id, r.handle, clientX - r.lastX, clientY - r.lastY)
    {
      var r := resizing.value;
      var dX, dY := clientX - r.lastX, clientY - r.lastY;
      resizing := Some(r.(lastX := clientX, lastY := clientY));
      labels := ResizeAll(labels, r.id, r.handle, dX, dY);
    }

    /** The drawing branch of a mouse motion: the working box now reaches the cursor at `p`. */
    method DragMove(p: Point)
      requires Valid() && drawing
      modifies this`newBox
      ensures Valid() && newBox == Some(DragBox(startPt, p))
    {
      newBox := Some(DragBox(startPt, p));
      DragBoxFarCorner(startPt, p);
    }

    /**
     * Mouse button up. Ending a resize sends the label's current geometry to the
     * store and then forgets the gesture; if the store rejects the update the
     * handler stops first and the gesture stays. Ending a drag always drops the
     * working box; a box at least 10 pixels each way is sent for creation as a
     * "nodule", and the label the store returns is appended to the list.
     */
    method OnMouseUp(created: Option<LabelResponse>, updated: bool) returns (req: Option<Request>)
      requires Valid()
      modifies this`resizing, this`drawing, this`newBox, this`labels
      ensures Valid()
      ensures old(resizing).Some? ==>
        && drawing == old(drawing) && newBox == old(newBox) && labels == old(labels)
        && var found := FindLabel(old(labels), old(resizing).value.id);
           && req == (if found.Some? then Some(Update(found.value.id, GeometryPatch(found.value))) else None)
           && resizing == (if found.Some? && !updated then old(resizing) else None)
      ensures old(resizing).None? && !old(drawing) ==>
        req.None? && labels == old(labels) && !drawing && newBox == old(newBox) && resizing.None?
      ensures old(resizing).None? && old(drawing) ==>
        && !drawing && newBox.None? && resizing.None?
        && var b := old(newBox).value;
           && (b.width < MinSide || b.height < MinSide ==> req.None? && labels == old(labels))
           && (b.width >= MinSide && b.height >= MinSide ==>
                 && req == Some(Create(LabelCreate(filename, sopUid, DefaultText, b.x, b.y, b.width, b.height)))
                 && labels == old(labels) + (if created.Some? then [created.value] else []))
    {
      req := None;
      if resizing.Some? {
        var lbl := FindLabel(labels, resizing.value.id);
        if lbl.Some? {
          req := Some(Update(lbl.value.id, GeometryPatch(lbl.value)));
          if !updated {
            return;
          }
        }
        resizing := None;
        return;
      }
      if !drawing || newBox.None? {
        return;
      }
      drawing := false;
      var b := newBox.value;
      newBox := None;
      if b.width < MinSide || b.height < MinSide {
        return;
      }
      var nx := if b.width < 0 then b.x + b.width else b.x;
      var ny := if b.height < 0 then b.y + b.height else b.y;
      req := Some(Create(LabelCreate(filename, sopUid, DefaultText, nx, ny, b.width, b.height)));
      if created.Some? {
        labels := labels + [created.value];
      }
    }
  }

  /** The update a finished resize sends: the label's position and size, and not its text. */
  function GeometryPatch(l: LabelResponse): (u: LabelUpdate)
    ensures u.text.None?
    ensures Labels.SuppliedFields(u) == [Labels.SetX(l.x), Labels.SetY(l.y), Labels.SetWidth(l.width), Labels.SetHeight(l.height)]
  {
    LabelUpdate(None, Some(l.x), Some(l.y), Some(l.width), Some(l.height))
  }

  /** The server applies the patch as a move of the stored row to the label's box, keeping its text and file. */
  lemma GeometryPatchApplied(row: Models.LabelRow, l: LabelResponse)
    ensures Labels.Patched(row, GeometryPatch(l)) == Models.LabelRow(row.fileId, row.text, l.x, l.y, l.width, l.height)
  {
  }
}
