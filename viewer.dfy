/**
 * The gallery controller (Gallery.jsx Gallery, with the gesture rules of
 * ImageModal): the selected category, the full-screen viewer's current image and
 * index, its zoom level, its pan offset and the drag in progress.
 *
 * Zoom levels are counted in quarter steps: the level z stands for z / 4, so the
 * range 0.5 .. 3 is 2 .. 12, the default 1 is 4 and one zoom step is 1.
 */
module GalleryViewer {
  import opened Wrappers
  import opened GalleryCatalog

  const MinZoom: int := 2
  const MaxZoom: int := 12
  const UnitZoom: int := 4
  /** Horizontal travel, in pixels, that a touch must exceed to count as a swipe. */
  const SwipeThreshold: int := 50

  /** A pointer position or a pan offset, in pixels. */
  datatype Point = Point(x: int, y: int)
  const Origin := Point(0, 0)

  /** The viewer actions that keys, the wheel, swipes and double-clicks are mapped to. */
  datatype Command = Close | Next | Prev | ZoomIn | ZoomOut | NoCommand

  function Abs(x: int): nat { if x < 0 then -x else x }

  // ---------------------------------------------------------------------------
  // Navigation, zoom and drag arithmetic.

  /** The index after `i` in a list of `n` images, wrapping to the first. */
  function NextIndex(i: nat, n: nat): nat
    requires n > 0
  {
    (i + 1) % n
  }

  /** The index before `i` in a list of `n` images, wrapping from the first to the last. */
  function PrevIndex(i: nat, n: nat): nat
    requires n > 0
  {
    if i == 0 then n - 1 else i - 1
  }

  /** `Math.min(zoom + 0.25, 3)`. */
  function ZoomedIn(z: int): int
  {
    if z + 1 <= MaxZoom then z + 1 else MaxZoom
  }

  /** `Math.max(zoom - 0.25, 0.5)`. */
  function ZoomedOut(z: int): int
  {
    if z - 1 >= MinZoom then z - 1 else MinZoom
  }

  /** The zoom level after a mix of zoom-in (true) and zoom-out (false) actions. */
  function ZoomAfter(z: int, zoomIns: seq<bool>): int
    decreases |zoomIns|
  {
    if zoomIns == [] then z
    else ZoomAfter(if zoomIns[0] then ZoomedIn(z) else ZoomedOut(z), zoomIns[1..])
  }

  /** The anchor recorded when a drag starts: pointer minus current pan. */
  function DragAnchor(pointer: Point, pan: Point): Point
  {
    Point(pointer.x - pan.x, pointer.y - pan.y)
  }

  /** The pan offset while dragging: pointer minus anchor. */
  function DraggedPan(pointer: Point, anchor: Point): Point
  {
    Point(pointer.x - anchor.x, pointer.y - anchor.y)
  }

  // ---------------------------------------------------------------------------
  // Input mapping.

  /** The keyboard shortcuts of the open viewer. */
  function KeyCommand(key: string): Command
  {
    if key == "Escape" then Close
    else if key == "ArrowRight" then Next
    else if key == "ArrowLeft" then Prev
    else if key == "+" || key == "=" then ZoomIn
    else if key == "-" then ZoomOut
    else NoCommand
  }

  /** Scrolling the wheel up zooms in; any other wheel event zooms out. */
  function WheelCommand(deltaY: int): Command
  {
    if deltaY < 0 then ZoomIn else ZoomOut
  }

  /** A double-click on the image steps out when zoomed in beyond 1, and steps in otherwise. */
  function DoubleClickCommand(zoom: int): Command
  {
    if zoom > UnitZoom then ZoomOut else ZoomIn
  }

  /** A touch that travelled (dx, dy): a mostly horizontal travel beyond the threshold navigates. */
  function SwipeCommand(dx: int, dy: int): Command
  {
    if Abs(dx) > SwipeThreshold && Abs(dx) > Abs(dy) then
      (if dx > 0 then Prev else Next)
    else NoCommand
  }

  /** The on-screen zoom buttons are disabled at the ends of the zoom range. */
  predicate ZoomOutEnabled(z: int) { !(z <= MinZoom) }
  predicate ZoomInEnabled(z: int) { !(z >= MaxZoom) }

  // ---------------------------------------------------------------------------
  // Properties of the arithmetic and of the input mapping.

  /** Both navigation steps stay in the list and wrap at its ends. */
  lemma NavigationInRange(i: nat, n: nat)
    requires n > 0 && i < n
    ensures NextIndex(i, n) < n && PrevIndex(i, n) < n
    ensures NextIndex(i, n) == if i == n - 1 then 0 else i + 1
    ensures PrevIndex(0, n) == n - 1 && NextIndex(n - 1, n) == 0
  {
  }

  /** Next and previous undo each other. */
  lemma NextPrevInverse(i: nat, n: nat)
    requires n > 0 && i < n
    ensures PrevIndex(NextIndex(i, n), n) == i
    ensures NextIndex(PrevIndex(i, n), n) == i
  {
  }

  /** The index reached by k next steps. */
  function NextTimes(i: nat, n: nat, k: nat): nat
    requires n > 0
    decreases k
  {
    if k == 0 then i else NextIndex(NextTimes(i, n, k - 1), n)
  }

  /** The index reached by k previous steps. */
  function PrevTimes(i: nat, n: nat, k: nat): nat
    requires n > 0
    decreases k
  {
    if k == 0 then i else PrevIndex(PrevTimes(i, n, k - 1), n)
  }

  lemma ZeroMultiple(d: int, n: int)
    requires n > 0 && -n < d * n < n
    ensures d == 0
  {
  }

  /** The remainder is determined by any decomposition a == q * n + r with 0 <= r < n. */
  lemma ModUnique(a: int, n: int, q: int, r: int)
    requires n > 0 && 0 <= r < n && a == q * n + r
    ensures a % n == r
  {
    var q2, r2 := a / n, a % n;
    assert (q - q2) * n == r2 - r;
    ZeroMultiple(q - q2, n);
  }

  lemma ModSucc(a: int, n: int)
    requires n > 0
    ensures (a % n + 1) % n == (a + 1) % n
  {
    var q, r := a / n, a % n;
    if r + 1 == n {
      ModUnique(a + 1, n, q + 1, 0);
      ModUnique(r + 1, n, 1, 0);
    } else {
      ModUnique(a + 1, n, q, r + 1);
      ModUnique(r + 1, n, 0, r + 1);
    }
  }

  lemma ModPred(a: int, n: int)
    requires n > 0
    ensures (if a % n == 0 then n - 1 else a % n - 1) == (a - 1) % n
  {
    var q, r := a / n, a % n;
    if r == 0 {
      ModUnique(a - 1, n, q - 1, n - 1);
    } else {
      ModUnique(a - 1, n, q, r - 1);
    }
  }

  /** k next steps from index i land on (i + k) mod n: the viewer cycles through the whole list. */
  lemma {:induction false} NextTimesWraps(i: nat, n: nat, k: nat)
    requires n > 0 && i < n
    ensures NextTimes(i, n, k) == (i + k) % n
    decreases k
  {
    if k > 0 {
      NextTimesWraps(i, n, k - 1);
      ModSucc(i + k - 1, n);
    }
  }

  /** k previous steps from index i land on (i - k) mod n. */
  lemma {:induction false} PrevTimesWraps(i: nat, n: nat, k: nat)
    requires n > 0 && i < n
    ensures PrevTimes(i, n, k) == (i - k) % n
    decreases k
  {
    if k > 0 {
      PrevTimesWraps(i, n, k - 1);
      ModPred(i - (k - 1), n);
    }
  }

  /** Opening index 2 of 5 images and stepping back twice shows the first image; a third step wraps to the last. */
  lemma PrevWrapScenario()
    ensures PrevTimes(2, 5, 2) == 0 && PrevTimes(2, 5, 3) == 4
  {
  }

  /** No mix of zoom actions leaves the zoom range 0.5 .. 3. */
  lemma {:induction false} ZoomStaysInRange(z: int, zoomIns: seq<bool>)
    requires MinZoom <= z <= MaxZoom
    ensures MinZoom <= ZoomAfter(z, zoomIns) <= MaxZoom
    decreases |zoomIns|
  {
    if zoomIns != [] {
      ZoomStaysInRange(if zoomIns[0] then ZoomedIn(z) else ZoomedOut(z), zoomIns[1..]);
    }
  }

  /** Zooming in then out, or out then in, returns to the starting level away from the clamped end. */
  lemma ZoomStepsInverse(z: int)
    requires MinZoom <= z <= MaxZoom
    ensures z < MaxZoom ==> ZoomedOut(ZoomedIn(z)) == z
    ensures z > MinZoom ==> ZoomedIn(ZoomedOut(z)) == z
    ensures ZoomedIn(MaxZoom) == MaxZoom && ZoomedOut(MinZoom) == MinZoom
  {
  }

  /** From 1, three zoom-ins give 1.75; five zoom-outs from 1.75 stop at 0.5. */
  lemma ZoomScenario()
    ensures ZoomAfter(UnitZoom, [true, true, true]) == 7
    ensures ZoomAfter(7, [false, false, false, false, false]) == MinZoom
  {
  }

  /** A disabled zoom button's action would change nothing. */
  lemma DisabledZoomIsNoOp(z: int)
    ensures !ZoomInEnabled(z) && z <= MaxZoom ==> ZoomedIn(z) == MaxZoom == z
    ensures !ZoomOutEnabled(z) && z >= MinZoom ==> ZoomedOut(z) == MinZoom == z
  {
  }

  /** The image follows the pointer 1:1 while dragging; back at the press point, the pan is the original one. */
  lemma DragFollowsPointer(press: Point, pan: Point, pointer: Point)
    ensures DraggedPan(pointer, DragAnchor(press, pan)) == Point(pan.x + pointer.x - press.x, pan.y + pointer.y - press.y)
    ensures DraggedPan(press, DragAnchor(press, pan)) == pan
  {
  }

  /**
   * A touch navigates exactly when its horizontal travel exceeds 50 pixels and its
   * vertical travel: rightwards to the previous image, leftwards to the next.
   */
  lemma SwipeClassification(dx: int, dy: int)
    ensures SwipeCommand(dx, dy) in {Prev, Next, NoCommand}
    ensures SwipeCommand(dx, dy) != NoCommand <==> Abs(dx) > SwipeThreshold && Abs(dx) > Abs(dy)
    ensures SwipeCommand(dx, dy) == Prev <==> dx > SwipeThreshold && dx > Abs(dy)
    ensures SwipeCommand(dx, dy) == Next <==> -dx > SwipeThreshold && -dx > Abs(dy)
  {
  }

  /** Mirroring a swipe left-to-right swaps previous and next; a vertical mirror changes nothing. */
  lemma SwipeMirror(dx: int, dy: int)
    ensures SwipeCommand(-dx, dy) == match SwipeCommand(dx, dy) case Prev => Next case Next => Prev case c => c
    ensures SwipeCommand(dx, -dy) == SwipeCommand(dx, dy)
  {
  }

  /** A leftward swipe of 80 pixels with little vertical travel goes to the next image; with more vertical than horizontal travel it does nothing. */
  lemma SwipeScenario()
    ensures SwipeCommand(-80, 10) == Next && SwipeCommand(-80, 90) == NoCommand
  {
  }

  /** The six shortcut keys, and nothing else, act on the viewer. */
  lemma KeyMapping(key: string)
    ensures KeyCommand(key) != NoCommand <==> key in ["Escape", "ArrowRight", "ArrowLeft", "+", "=", "-"]
    ensures KeyCommand("+") == KeyCommand("=") == ZoomIn
  {
  }

  /** The wheel and the double-click only ever zoom. */
  lemma WheelAndDoubleClickOnlyZoom(deltaY: int, z: int)
    ensures WheelCommand(deltaY) in {ZoomIn, ZoomOut} && DoubleClickCommand(z) in {ZoomIn, ZoomOut}
    ensures DoubleClickCommand(z) == ZoomOut <==> z > UnitZoom
  {
  }

  // ---------------------------------------------------------------------------
  // The controller.

  class Gallery {
    /** The flattened catalog and the category list (computed once). */
    const images: seq<Entry>
    const categories: seq<string>

    var selectedCategory: string
    /** The image shown in the viewer; None while the viewer is closed. */
    var selectedImage: Option<Entry>
    var selectedIndex: nat
    var zoom: int
    var pan: Point
    var isDragging: bool
    var dragStart: Point
    /** Where the current touch began (the viewer's touch-start refs). */
    var touchStart: Point

    /** The images of the selected category. */
    function Filtered(): seq<Entry>
      reads this
    {
      FilterImages(images, selectedCategory)
    }

    /**
     * The controller's invariant: zoom stays in range, the image is never panned
     * unless zoomed in beyond 1, and an open viewer shows the filtered image at the
     * selected index.
     */
    ghost predicate Valid()
      reads this
    {
      && MinZoom <= zoom <= MaxZoom
      && (zoom <= UnitZoom ==> pan == Origin)
      && (selectedImage.Some? ==> selectedIndex < |Filtered()| && selectedImage.value == Filtered()[selectedIndex])
    }

    constructor (groups: seq<CategoryGroup>)
      ensures Valid()
      ensures images == Flattened(groups) && categories == [AllCategory] + Distinct(Labels(groups))
      ensures selectedCategory == AllCategory && selectedImage == None && selectedIndex == 0
      ensures zoom == UnitZoom && pan == Origin && !isDragging && dragStart == Origin && touchStart == Origin
    {
      var flat := Flatten(groups);
      var cats := Categories(groups);
      images, categories := flat, cats;
      selectedCategory, selectedImage, selectedIndex := AllCategory, None, 0;
      zoom, pan, isDragging, dragStart, touchStart := UnitZoom, Origin, false, Origin, Origin;
    }

    /** The fields no viewer action touches besides those it names. */
    twostate predicate KeepsInput()
      reads this
    {
      selectedCategory == old(selectedCategory) && dragStart == old(dragStart) && touchStart == old(touchStart)
    }

    /** The viewer moved to index i: the image there (undefined, i.e. none, past the end), unzoomed and centred. */
    twostate predicate ShowsIndex(i: nat)
      reads this
    {
      && selectedIndex == i
      && selectedImage == (if i < |Filtered()| then Some(Filtered()[i]) else None)
      && zoom == UnitZoom && pan == Origin
      && isDragging == old(isDragging) && KeepsInput()
    }

    /** What each viewer command does to the state. */
    twostate predicate Effect(cmd: Command)
      reads this
    {
      match cmd
      case Close =>
        && selectedImage == None && zoom == UnitZoom && pan == Origin && !isDragging
        && selectedIndex == old(selectedIndex) && KeepsInput()
      case Next =>
        if |old(Filtered())| == 0 then unchanged(this)
        else ShowsIndex(NextIndex(old(selectedIndex), |old(Filtered())|))
      case Prev =>
        if |old(Filtered())| == 0 then unchanged(this)
        else ShowsIndex(PrevIndex(old(selectedIndex), |old(Filtered())|))
      case ZoomIn =>
        && zoom == ZoomedIn(old(zoom)) && pan == old(pan)
        && selectedImage == old(selectedImage) && selectedIndex == old(selectedIndex)
        && isDragging == old(isDragging) && KeepsInput()
      case ZoomOut =>
        && zoom == ZoomedOut(old(zoom)) && pan == (if zoom <= UnitZoom then Origin else old(pan))
        && selectedImage == old(selectedImage) && selectedIndex == old(selectedIndex)
        && isDragging == old(isDragging) && KeepsInput()
      case NoCommand => unchanged(this)
    }

    /** A grid cell was clicked: open the viewer on it, unzoomed and centred. */
    method HandleImageClick(image: Entry, index: nat)
      requires Valid() && index < |Filtered()| && image == Filtered()[index]
      modifies this
      ensures Valid()
      ensures selectedImage == Some(image) && selectedIndex == index && zoom == UnitZoom && pan == Origin
      ensures isDragging == old(isDragging) && KeepsInput()
    {
      selectedImage := Some(image);
      selectedIndex := index;
      zoom := UnitZoom;
      pan := Origin;
    }

    method HandleCloseModal()
      requires Valid()
      modifies this
      ensures Valid() && Effect(Close)
    {
      selectedImage := None;
      zoom := UnitZoom;
      pan := Origin;
      isDragging := false;
    }

    method HandleNextImage()
      requires Valid()
      modifies this
      ensures Valid() && Effect(Next)
    {
      var filtered := Filtered();
      if |filtered| == 0 {
        return;
      }
      var nextIndex := NextIndex(selectedIndex, |filtered|);
      selectedIndex := nextIndex;
      selectedImage := Some(filtered[nextIndex]);
      zoom := UnitZoom;
      pan := Origin;
    }

    method HandlePrevImage()
      requires Valid()
      modifies this
      ensures Valid() && Effect(Prev)
    {
      var filtered := Filtered();
      if |filtered| == 0 {
        return;
      }
      var prevIndex := PrevIndex(selectedIndex, |filtered|);
      selectedIndex := prevIndex;
      // reading past the end of the list yields undefined, which closes the viewer
      selectedImage := if prevIndex < |filtered| then Some(filtered[prevIndex]) else None;
      zoom := UnitZoom;
      pan := Origin;
    }

    /**
     * A category button was pressed while the viewer is closed. A keyboard user can
     * also reach the buttons with the viewer open. The code then changes the filter
     * and keeps the shown image and its now stale index; that case is not modelled.
     */
    method HandleCategoryChange(category: string)
      requires Valid() && selectedImage.None?
      modifies this
      ensures Valid()
      ensures selectedCategory == category
      ensures selectedImage == old(selectedImage) && selectedIndex == old(selectedIndex)
      ensures zoom == old(zoom) && pan == old(pan) && isDragging == old(isDragging)
      ensures dragStart == old(dragStart) && touchStart == old(touchStart)
    {
      if category != selectedCategory {
        selectedCategory := category;
      }
    }

    method HandleZoomIn()
      requires Valid()
      modifies this
      ensures Valid() && Effect(ZoomIn)
    {
      zoom := ZoomedIn(zoom);
    }

    method HandleZoomOut()
      requires Valid()
      modifies this
      ensures Valid() && Effect(ZoomOut)
    {
      var newZoom := ZoomedOut(zoom);
      if newZoom <= UnitZoom {
        pan := Origin;
      }
      zoom := newZoom;
    }

    /** Mouse press on the image: a drag starts only when zoomed in beyond 1. */
    method HandleImageMouseDown(pointer: Point)
      requires Valid()
      modifies this
      ensures Valid()
      ensures old(zoom) > UnitZoom ==> isDragging && dragStart == DragAnchor(pointer, old(pan))
      ensures old(zoom) <= UnitZoom ==> unchanged(this)
      ensures zoom == old(zoom) && pan == old(pan) && selectedImage == old(selectedImage)
      ensures selectedIndex == old(selectedIndex) && selectedCategory == old(selectedCategory)
      ensures touchStart == old(touchStart)
    {
      if zoom > UnitZoom {
        isDragging := true;
        dragStart := DragAnchor(pointer, pan);
      }
    }

    /** Mouse move over the viewer: pans only during a drag while zoomed in beyond 1. */
    method HandleMouseMove(pointer: Point)
      requires Valid()
      modifies this
      ensures Valid()
      ensures old(isDragging) && old(zoom) > UnitZoom ==> pan == DraggedPan(pointer, old(dragStart))
      ensures !(old(isDragging) && old(zoom) > UnitZoom) ==> pan == old(pan)
      ensures zoom == old(zoom) && isDragging == old(isDragging) && selectedImage == old(selectedImage)
      ensures selectedIndex == old(selectedIndex) && KeepsInput()
    {
      if isDragging && zoom > UnitZoom {
        pan := DraggedPan(pointer, dragStart);
      }
    }

    /** Mouse release or leave: the drag ends. */
    method HandleMouseUp()
      requires Valid()
      modifies this
      ensures Valid() && !isDragging
      ensures zoom == old(zoom) && pan == old(pan) && selectedImage == old(selectedImage)
      ensures selectedIndex == old(selectedIndex) && KeepsInput()
    {
      isDragging := false;
    }

    /** Runs the handler a command is mapped to. */
    method Perform(cmd: Command)
      requires Valid()
      modifies this
      ensures Valid() && Effect(cmd)
    {
      match cmd
      case Close => HandleCloseModal();
      case Next => HandleNextImage();
      case Prev => HandlePrevImage();
      case ZoomIn => HandleZoomIn();
      case ZoomOut => HandleZoomOut();
      case NoCommand =>
    }

    /** The document's keydown listener: ignored while the viewer is closed. */
    method HandleKeyPress(key: string)
      requires Valid()
      modifies this
      ensures Valid()
      ensures old(selectedImage).None? ==> unchanged(this)
      ensures old(selectedImage).Some? ==> Effect(KeyCommand(key))
    {
      if selectedImage.None? {
        return;
      }
      Perform(KeyCommand(key));
    }

    /** The document's wheel listener: zooms only while the viewer is open. */
    method HandleWheel(deltaY: int)
      requires Valid()
      modifies this
      ensures Valid()
      ensures old(selectedImage).None? ==> unchanged(this)
      ensures old(selectedImage).Some? ==> Effect(WheelCommand(deltaY))
    {
      if selectedImage.Some? {
        Perform(WheelCommand(deltaY));
      }
    }

    /** Double-click on the viewer's image. */
    method DoubleClick()
      requires Valid()
      modifies this
      ensures Valid() && Effect(DoubleClickCommand(old(zoom)))
    {
      Perform(DoubleClickCommand(zoom));
    }

    /** A touch begins on the viewer. */
    method HandleTouchStart(pointer: Point)
      requires Valid()
      modifies this
      ensures Valid() && touchStart == pointer
      ensures selectedImage == old(selectedImage) && selectedIndex == old(selectedIndex) && selectedCategory == old(selectedCategory)
      ensures zoom == old(zoom) && pan == old(pan) && isDragging == old(isDragging) && dragStart == old(dragStart)
    {
      touchStart := pointer;
    }

    /** A touch ends: a swipe navigates. */
    method HandleTouchEnd(pointer: Point)
      requires Valid()
      modifies this
      ensures Valid()
      ensures Effect(SwipeCommand(pointer.x - old(touchStart).x, pointer.y - old(touchStart).y))
    {
      Perform(SwipeCommand(pointer.x - touchStart.x, pointer.y - touchStart.y));
    }
  }

  /**
   * A drag that returns to its press point leaves the image where it was; the
   * viewer's image, index, zoom, category and touch origin are untouched.
   */
  method DragRoundTrip(g: Gallery, press: Point, away: Point)
    requires g.Valid() && g.zoom > UnitZoom
    modifies g
    ensures g.Valid() && g.pan == old(g.pan) && !g.isDragging
    ensures g.zoom == old(g.zoom) && g.selectedImage == old(g.selectedImage) && g.selectedIndex == old(g.selectedIndex)
    ensures g.selectedCategory == old(g.selectedCategory) && g.touchStart == old(g.touchStart)
  {
    g.HandleImageMouseDown(press);
    g.HandleMouseMove(away);
    g.HandleMouseMove(press);
    g.HandleMouseUp();
  }
}
