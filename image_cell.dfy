/**
 * One lazily loaded grid cell (Gallery.jsx GalleryImage): whether it shows the
 * loading placeholder, the error notice or the image, driven by its visibility
 * and by the image element's load and error events.
 */
module GalleryImageCell {
  import GalleryCatalog

  /** The cell's three state flags. */
  datatype Flags = Flags(isVisible: bool, isLoaded: bool, hasError: bool)

  /** What can happen to a cell: the intersection observer reports, or the image element loads or fails. */
  datatype Event = VisibilityChanged(visible: bool) | LoadSucceeded | LoadFailed

  /** The layers rendered inside the cell; `imageOpaque` is whether the image is drawn at full opacity. */
  datatype Layers = Layers(placeholder: bool, errorNotice: bool, image: bool, imageOpaque: bool)

  /** A freshly mounted cell. */
  const Initial := Flags(false, false, false)

  /** The `<img>` element exists only while the cell is visible and has not failed. */
  predicate ImageMounted(f: Flags)
  {
    f.isVisible && !f.hasError
  }

  /** The cell's markup as a function of its flags. */
  function Render(f: Flags): Layers
  {
    Layers(
      placeholder := !f.isVisible || (!f.isLoaded && !f.hasError),
      errorNotice := f.hasError && f.isVisible,
      image := ImageMounted(f),
      imageOpaque := ImageMounted(f) && f.isLoaded)
  }

  /**
   * The state after one event. The load and error handlers belong to the `<img>`
   * element, so they take effect only while it is mounted.
   */
  function Step(f: Flags, e: Event): Flags
  {
    match e
    case VisibilityChanged(v) => f.(isVisible := v)
    case LoadSucceeded => if ImageMounted(f) then f.(isLoaded := true) else f
    case LoadFailed => if ImageMounted(f) then f.(hasError := true, isLoaded := false) else f
  }

  /** The state after a sequence of events. */
  function Run(f: Flags, events: seq<Event>): Flags
    decreases |events|
  {
    if events == [] then f else Run(Step(f, events[0]), events[1..])
  }

  /** The accessible text: the entry's alt text, or a numbered fallback when it is empty. */
  function AltText(alt: string, idx: nat): string
  {
    if alt != "" then alt else "Gallery image " + GalleryCatalog.NatToString(idx + 1)
  }

  /**
   * The accessible text is never empty: a given alt text is kept, and the fallback
   * is "Gallery image " followed by the decimal digits of the 1-based position,
   * without a leading zero.
   */
  lemma AltTextChoice(alt: string, idx: nat)
    ensures AltText(alt, idx) != ""
    ensures alt != "" ==> AltText(alt, idx) == alt
    ensures alt == "" ==> var r := AltText(alt, idx);
      && |r| > 14 && r[..14] == "Gallery image "
      && (forall k :: 14 <= k < |r| ==> '0' <= r[k] <= '9') && r[14] != '0'
      && GalleryCatalog.DigitsValue(r[14..]) == idx + 1
  {
    GalleryCatalog.NatToStringRoundTrip(idx + 1);
    if alt == "" {
      var r := AltText(alt, idx);
      assert r[14..] == GalleryCatalog.NatToString(idx + 1);
    }
  }

  // ---------------------------------------------------------------------------

  /**
   * A cell always shows something; the error notice and the image are never shown
   * together; the image is opaque exactly when visible, loaded and not failed, and
   * the placeholder covers it exactly while it is still loading.
   */
  lemma RenderLayers(f: Flags)
    ensures Render(f).placeholder || Render(f).errorNotice || Render(f).image
    ensures !(Render(f).errorNotice && Render(f).image)
    ensures Render(f).imageOpaque <==> f.isVisible && f.isLoaded && !f.hasError
    ensures Render(f).image ==> (Render(f).placeholder <==> !f.isLoaded)
  {
  }

  /** No state reachable from a fresh cell is both loaded and failed. */
  lemma {:induction false} NeverLoadedAndFailed(f: Flags, events: seq<Event>)
    requires !(f.isLoaded && f.hasError)
    ensures !(Run(f, events).isLoaded && Run(f, events).hasError)
    decreases |events|
  {
    if events != [] {
      NeverLoadedAndFailed(Step(f, events[0]), events[1..]);
    }
  }

  /**
   * While the cell stays mounted, a failed load is permanent: whatever visibility,
   * load and error events follow, the cell does not show the image again and shows
   * the error notice whenever it is visible. (A cell that leaves the rendered window
   * is unmounted; when it returns it starts again from `Initial`.)
   */
  lemma {:induction false} FailureIsPermanent(f: Flags, events: seq<Event>)
    requires f.hasError
    ensures Run(f, events).hasError
    ensures !Render(Run(f, events)).image
    ensures Render(Run(f, events)).errorNotice == Run(f, events).isVisible
    decreases |events|
  {
    if events != [] {
      FailureIsPermanent(Step(f, events[0]), events[1..]);
    }
  }

  /** An image that has not become visible is neither loaded nor failed, and only the placeholder shows. */
  lemma {:induction false} InvisibleCellsStayPlaceholders(events: seq<Event>)
    requires forall k :: 0 <= k < |events| ==> events[k] != VisibilityChanged(true)
    ensures Run(Initial, events) == Initial
    ensures Render(Run(Initial, events)) == Layers(true, false, false, false)
    decreases |events|
  {
    if events != [] {
      assert Step(Initial, events[0]) == Initial;
      InvisibleCellsStayPlaceholders(events[1..]);
    }
  }

  /** Catalog entries always carry an alt text, so the numbered fallback is never used for them. */
  lemma CatalogAltTextUsed(g: GalleryCatalog.CategoryGroup, c: nat, i: nat, idx: nat)
    requires i < |g.images|
    ensures AltText(GalleryCatalog.MakeEntry(g, c, i).alt, idx) == GalleryCatalog.MakeEntry(g, c, i).alt
  {
    assert |GalleryCatalog.MakeEntry(g, c, i).alt| > 0;
  }

  /** The cell as a mounted component: its flags change through the three handlers. */
  class LazyImage {
    var isVisible: bool
    var isLoaded: bool
    var hasError: bool

    function State(): Flags
      reads this
    {
      Flags(isVisible, isLoaded, hasError)
    }

    constructor ()
      ensures State() == Initial
    {
      isVisible, isLoaded, hasError := false, false, false;
    }

    /** The intersection observer's callback: `setIsIntersecting(entry.isIntersecting)`. */
    method OnIntersection(visible: bool)
      modifies this
      ensures State() == Step(old(State()), VisibilityChanged(visible))
    {
      isVisible := visible;
    }

    /** The image's `onLoad` handler. */
    method OnLoad()
      modifies this
      ensures State() == Step(old(State()), LoadSucceeded)
    {
      if isVisible && !hasError {
        isLoaded := true;
      }
    }

    /** The image's `onError` handler. */
    method OnError()
      modifies this
      ensures State() == Step(old(State()), LoadFailed)
    {
      if isVisible && !hasError {
        hasError := true;
        isLoaded := false;
      }
    }
  }
}
