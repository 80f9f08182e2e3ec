# Portfolio site client logic, modelled in Dafny

This project models the client-side logic of a React portfolio site with three interactive parts.

**Gallery.** The image gallery is in `src/components/Gallery.jsx`:
- The catalog is built from category groups, then filtered by the selected category. The category buttons are listed from it.
- A virtualized grid renders only a window of the filtered images for the current scroll position. It is placed at a computed offset and fetches two rows ahead.
- Each lazily loaded grid cell shows one of three layers: a placeholder, an error notice or the image.
- A full-screen viewer has wrapping next/previous navigation and clamped zoom in steps of 0.25 between 0.5 and 3. It also supports panning by drag, swipes, keyboard shortcuts, the mouse wheel and double-click.

**Contact form.** The form in `src/components/Contact.jsx` has a validator, a field updater and a submit gate. The gate lets a submission go out only when every field passes its check.

**Navigation bar.** `src/components/Navbar.jsx` holds:
- The rule that picks the highlighted section for a scroll position.
- The effect of a click on a navigation item: the state change and the scroll target.
- The rules that close the mobile menu.

Files:
- `wrappers.dfy`: `Option`.
- `catalog.dfy`: module `GalleryCatalog`, covering flattening, filtering and the category list.
- `grid.dfy`: module `VirtualizedGrid`, the window arithmetic.
- `image_cell.dfy`: module `GalleryImageCell`, the lazy cell's flags and layers.
- `viewer.dfy`: module `GalleryViewer`, the `Gallery` controller class and its gesture and shortcut rules.
- `contact.dfy`: module `Contact`, the validator and the `ContactForm` class.
- `navbar.dfy`: module `Navbar`, the active-section rule and the `NavbarState` class.

Modelling decisions:
- **Zoom.** Zoom levels are integers in quarter steps. Level z stands for zoom z/4, so 0.5..3 is 2..12 and 1 is 4. Pixel quantities are integers.
- **Imperative code.** Code that mutates React state becomes classes with fields and `modifies` clauses. The loops that build the catalog, the category set and the active section become methods with loop invariants. The catalog and category loops are proved equal to reference functions, with the properties proved as lemmas about those functions. The active-section loop is proved to meet a declarative selection predicate.
- **Strings.** Strings are sequences of code points. JavaScript's `\s` and `trim()` white-space set is written out by code point. `length` is counted in UTF-16 code units.
- **DOM lookups.** They are abstracted as values:
  - the scroll container as an optional `(scrollTop, clientHeight)`, where `scrollTop` may be negative;
  - section elements as a map from id to `offsetTop`;
  - a navigation target as an optional `offsetTop`;
  - whether a click landed inside the nav as a boolean.

The functions that carry the behaviour, and the code each one stands for; the lemmas in the table state their properties:
- `GalleryCatalog.Flattened`, `FilterImages` and `Distinct`: the flattening, filtering and Set listing, Gallery.jsx:461-489.
- `VirtualizedGrid.VisibleRange`: `calculateVisibleRange`, Gallery.jsx:152-159. `Recalculate` adds the unmounted case, Gallery.jsx:146-148, and `RecalculateAll` a run of recomputations.
- `VirtualizedGrid.Slice`, `OffsetY` and `PrefetchRange`: `images.slice`, the block's translation and the prefetch bounds, Gallery.jsx:186-196.
- `GalleryImageCell.Render` and `Step`: a cell's markup, Gallery.jsx:89-110, and its observer, load and error handlers, Gallery.jsx:26-28 and 106-110.
- `GalleryViewer.KeyCommand`, `SwipeCommand`, `WheelCommand` and `DoubleClickCommand`: the keyboard switch, Gallery.jsx:576-600, the swipe test, Gallery.jsx:298-312, and the double-click and wheel bindings, Gallery.jsx:398 and 612-624.
- `GalleryViewer.NextIndex`, `PrevIndex`, `ZoomedIn` and `ZoomedOut`: the index and zoom arithmetic, Gallery.jsx:508-542.
- `Contact.Trim`, `NameMatches`, `EmailMatches` and `ValidationErrors`: `trim()`, the two regular expressions and `validate`, Contact.jsx:26-44.
- `Navbar.IsActiveFor` and `NavScrollTarget`: the active-section rule, Navbar.jsx:17-42, and the click's scroll target, Navbar.jsx:55-64.

Behaviour of the code worth noting:
- **Double-click.** A double-click on the viewer's image takes one zoom step. It zooms out by 0.25 when zoomed beyond 1 and zooms in by 0.25 otherwise, as bound at Gallery.jsx:398.
- **Window ordering.** The window `[start, end)` is non-empty while `scrollTop` lies within the content height, or overscrolls the top by at most the window's height minus one row (`VisibleRangeNonEmpty`). Past the bottom of the content, `start` can exceed `end`. The window then renders nothing, because a crossed `slice` is empty.
- **Overscroll.** A negative `scrollTop` is clamped to a window starting at 0 (Gallery.jsx:158). An overscroll of more than a window's height makes `end` negative. `slice` then counts that bound back from the end of the list (`VisibleImagesAt`).
- **Wheel.** A wheel event with `deltaY == 0` zooms out, which is the code's else branch.
- **Remounting.** The grid keys each cell by its catalog identity, Gallery.jsx:236-238. A cell that leaves the rendered window is unmounted. When it comes back it is mounted again with fresh flags, Gallery.jsx:62-63, so an image that failed is fetched again. `GalleryImageCell` models one mounted cell.
- **Column layout.** The window arithmetic assumes rows of four cells, `columns={4}` at Gallery.jsx:704. The CSS grid, Gallery.jsx:226, lays cells out four to a row only from its `lg` breakpoint up, so `VisibleRangeCovers` and the window bounds describe that layout.
- **Cleanup.** The grid's effect cleanup names an undeclared `onScroll`, Gallery.jsx:181, so running it throws a ReferenceError. It runs whenever the grid unmounts or `images.length` changes, for example on a category change that alters the count.
- **Clearing an error.** `handleChange` blanks a shown error to `""`. It does not delete the key.

## Model

| member | source | states |
|---|---|---|
| GalleryCatalog.NatToStringRoundTrip | src/components/Gallery.jsx:467 | the image number in the alt text is a non-empty string of decimal digits whose value is the number, starting with 0 only for 0 itself |
| GalleryCatalog.Flatten | src/components/Gallery.jsx:461-476 | the nested push loops produce exactly the reference flattening: each group's entries, group after group |
| GalleryCatalog.FlattenedLength | src/components/Gallery.jsx:461-476 | the catalog has as many entries as all groups have images together |
| GalleryCatalog.FlattenedAt | src/components/Gallery.jsx:463-472 | image i of group c sits at the group's offset plus i, and is the entry built from (c, i) |
| GalleryCatalog.FlattenedEntryFields | src/components/Gallery.jsx:465-472 | that entry's src is the image, its alt is `title - Image (i+1)`, category and title are the group's, identity is (c, i) |
| GalleryCatalog.FlattenedEntryOrigin | src/components/Gallery.jsx:463-472 | every entry's (categoryIndex, imageIndex) names a real group and image, the entry is built from them, and it sits at offset + imageIndex |
| GalleryCatalog.GroupOffsetMonotone | src/components/Gallery.jsx:463-464 | later groups start after all images of earlier groups |
| GalleryCatalog.FlattenedOrder | src/components/Gallery.jsx:463-464 | entries are ordered by category index, then by image index, strictly |
| GalleryCatalog.FilterAllIsIdentity | src/components/Gallery.jsx:479 | selecting 'all' shows the catalog unchanged |
| GalleryCatalog.FilterIsOrderedSelection | src/components/Gallery.jsx:480 | the filter result is the catalog read at the strictly increasing positions of the matching images, and every matching position is among them |
| GalleryCatalog.FilterOnlyCategory | src/components/Gallery.jsx:480 | every kept image has the selected category; the result is no longer than the catalog |
| GalleryCatalog.FilterImagesSound | src/components/Gallery.jsx:478-481 | for any selection, shown images are catalog images of that category (or of any for 'all') |
| GalleryCatalog.FilterAppend | src/components/Gallery.jsx:480 | filtering distributes over concatenation |
| GalleryCatalog.FilterGroupEntries | src/components/Gallery.jsx:480 | a group's entries are kept all together or not at all, depending on its label |
| GalleryCatalog.FilterSelectsGroup | src/components/Gallery.jsx:478-481 | with distinct labels, selecting group c's category shows exactly group c's entries |
| GalleryCatalog.FilterNoneOfOthers | src/components/Gallery.jsx:480 | filtering by a label no group carries keeps nothing |
| GalleryCatalog.FirstIndex | src/components/Gallery.jsx:484-487 | the position of the first occurrence, with no earlier occurrence |
| GalleryCatalog.Categories | src/components/Gallery.jsx:483-489 | the Set-filling loop yields 'all' followed by the distinct labels in first-seen order |
| GalleryCatalog.DistinctProperties | src/components/Gallery.jsx:484-488 | the Set's listing has exactly the input's elements, each once, in order of first occurrence |
| GalleryCatalog.FirstIndexPrefix | src/components/Gallery.jsx:484-487 | an element's first occurrence in a prefix is its first occurrence overall |
| GalleryCatalog.CategoriesListed | src/components/Gallery.jsx:488 | the list starts with 'all' and contains 'all' and every group label, nothing else |
| GalleryCatalog.CategoriesUnique | src/components/Gallery.jsx:488 | with no group labelled 'all', no entry of the list repeats |
| VirtualizedGrid.RecalculationsStayBounded | src/components/Gallery.jsx:146-166 | any run of recomputations on a fixed list, from a range that lies in the list and spans at most ceil(h/itemHeight)+2 rows, keeps that bound, as long as the container is never taller than h; unmounted states keep the previous range |
| VirtualizedGrid.RecalculatedFromMount | src/components/Gallery.jsx:143-166 | from the initial `{start: 0, end: 0}`, every stored range has start >= 0, end <= images.length and spans at most ceil(h/itemHeight)+2 rows |
| VirtualizedGrid.VisibleRangeBounds | src/components/Gallery.jsx:152-159 | start is max(0, floor(scrollTop/itemHeight)*columns): the row's first item, or 0 for a negative scrollTop; end <= images.length; end - start <= (ceil(clientHeight/itemHeight)+2)*columns |
| VirtualizedGrid.VisibleRangeNonEmpty | src/components/Gallery.jsx:152-159 | while scrollTop is within the content height, or above it by at most the window's height minus one row, 0 <= start < end <= images.length |
| VirtualizedGrid.NegativeEndStartsAtZero | src/components/Gallery.jsx:152-159 | a negative end occurs only with a start of 0 |
| VirtualizedGrid.VisibleRangeCovers | src/components/Gallery.jsx:152-159 | every image whose row meets the viewport is inside [start, end) |
| VirtualizedGrid.SliceAt | src/components/Gallery.jsx:187 | `slice` holds the elements between its resolved bounds (a negative bound counted from the end, both clamped), each at its own offset |
| VirtualizedGrid.OffsetAligned | src/components/Gallery.jsx:196 | the rendered block is translated to the top of the row under scrollTop, and stays at 0 while scrollTop is negative |
| VirtualizedGrid.VisibleImagesAt | src/components/Gallery.jsx:186-187 | rendered cell k is image start+k (the index given to the click handler, line 240); with end >= 0 at most (ceil(clientHeight/itemHeight)+2) rows of them; with end < 0, `slice` keeps length + end of them |
| VirtualizedGrid.PrefetchAfterWindow | src/components/Gallery.jsx:189 | the prefetched images are at most two rows, starting exactly where the rendered slice stops (at end itself when end >= 0), so none of them is rendered |
| VirtualizedGrid.SmallViewportRendersAll | src/components/Gallery.jsx:198-214 | on a narrow viewport every image is rendered |
| VirtualizedGrid.GalleryViewportRows | src/components/Gallery.jsx:220 | the 600-pixel container shows at most ceil(600/280) = 3 rows of 280 pixels |
| VirtualizedGrid.GalleryWindowAtMost20 | src/components/Gallery.jsx:701-705 | with four columns and 280-pixel rows in the 600-pixel container, the window spans at most 20 images |
| GalleryImageCell.RenderLayers | src/components/Gallery.jsx:89-110 | a cell always shows a layer; the error notice and the image never show together; the image is opaque exactly when visible, loaded and not failed |
| GalleryImageCell.NeverLoadedAndFailed | src/components/Gallery.jsx:106-110 | no event sequence makes a cell both loaded and failed |
| GalleryImageCell.FailureIsPermanent | src/components/Gallery.jsx:95-110 | while the cell stays mounted, after a failure the image does not show again, and the error notice shows exactly while visible |
| GalleryImageCell.InvisibleCellsStayPlaceholders | src/components/Gallery.jsx:89-101 | a cell that never became visible stays in its initial state and shows only the placeholder |
| GalleryImageCell.AltTextChoice | src/components/Gallery.jsx:71 | the accessible text is never empty: a given alt is kept, and the fallback is "Gallery image " followed by decimal digits, with no leading zero, whose value is idx + 1 |
| GalleryImageCell.CatalogAltTextUsed | src/components/Gallery.jsx:71 | catalog entries always have an alt, so the numbered fallback never applies to them |
| GalleryImageCell.LazyImage.constructor | src/components/Gallery.jsx:61-63 | a new cell is invisible, not loaded and not failed |
| GalleryImageCell.LazyImage.OnIntersection | src/components/Gallery.jsx:26-28 | the flags become the step of the visibility event |
| GalleryImageCell.LazyImage.OnLoad | src/components/Gallery.jsx:106 | the flags become the step of the load event, which only acts on a mounted image |
| GalleryImageCell.LazyImage.OnError | src/components/Gallery.jsx:107-110 | the flags become the step of the error event: failed and not loaded, when mounted |
| GalleryViewer.NavigationInRange | src/components/Gallery.jsx:510-519 | next and previous stay in the list, and wrap at its ends |
| GalleryViewer.NextPrevInverse | src/components/Gallery.jsx:508-524 | next and previous undo each other |
| GalleryViewer.NextTimesWraps | src/components/Gallery.jsx:510 | k next steps from i reach (i+k) mod n |
| GalleryViewer.PrevTimesWraps | src/components/Gallery.jsx:519 | k previous steps from i reach (i-k) mod n |
| GalleryViewer.PrevWrapScenario | src/components/Gallery.jsx:519 | example, not a general promise: from index 2 of 5, two steps back reach 0 and a third reaches 4 |
| GalleryViewer.ZoomStaysInRange | src/components/Gallery.jsx:532-542 | no mix of zoom actions leaves 0.5..3 |
| GalleryViewer.ZoomStepsInverse | src/components/Gallery.jsx:533-538 | a zoom in and a zoom out undo each other away from the clamped end; each end is a fixed point |
| GalleryViewer.ZoomScenario | src/components/Gallery.jsx:533-538 | example, not a general promise: three zoom-ins from 1 give 1.75; five zoom-outs from 1.75 stop at 0.5 |
| GalleryViewer.DisabledZoomIsNoOp | src/components/Gallery.jsx:421-430 | the action of a disabled zoom button would not change the zoom |
| GalleryViewer.DragFollowsPointer | src/components/Gallery.jsx:548-561 | during a drag the image moves with the pointer 1:1; back at the press point the pan is the original |
| GalleryViewer.SwipeClassification | src/components/Gallery.jsx:298-312 | a touch navigates exactly when abs(dx) > 50 and abs(dx) > abs(dy): rightwards to previous, leftwards to next |
| GalleryViewer.SwipeMirror | src/components/Gallery.jsx:305-311 | mirroring horizontally swaps previous and next; mirroring vertically changes nothing |
| GalleryViewer.SwipeScenario | src/components/Gallery.jsx:305-311 | example, not a general promise: an 80-pixel leftward swipe with 10 pixels of vertical travel goes next; with 90 it does nothing |
| GalleryViewer.KeyMapping | src/components/Gallery.jsx:576-600 | exactly Escape, ArrowRight, ArrowLeft, +, = and - act; + and = both zoom in |
| GalleryViewer.WheelAndDoubleClickOnlyZoom | src/components/Gallery.jsx:398 | wheel (bound at Gallery.jsx:612-624) and double-click only zoom; double-click zooms out exactly when zoomed beyond 1 |
| GalleryViewer.Gallery.constructor | src/components/Gallery.jsx:452-489 | initial state: 'all', viewer closed, index 0, zoom 1, no pan; catalog and categories as computed |
| GalleryViewer.Gallery.HandleImageClick | src/components/Gallery.jsx:492-498 | opens the viewer on the clicked image and index with zoom 1 and no pan |
| GalleryViewer.Gallery.HandleCloseModal | src/components/Gallery.jsx:500-506 | closes the viewer, resets zoom and pan, ends any drag |
| GalleryViewer.Gallery.HandleNextImage | src/components/Gallery.jsx:508-515 | no-op on an empty list; otherwise index (i+1) mod n, image filtered[index], zoom 1, no pan |
| GalleryViewer.Gallery.HandlePrevImage | src/components/Gallery.jsx:517-524 | no-op on an empty list; otherwise index n-1 at 0 and i-1 elsewhere, the image there, zoom 1, no pan |
| GalleryViewer.Gallery.HandleCategoryChange | src/components/Gallery.jsx:526-530 | the selected category becomes the chosen one; nothing else changes |
| GalleryViewer.Gallery.HandleZoomIn | src/components/Gallery.jsx:532-534 | zoom becomes min(z+0.25, 3); everything else is kept |
| GalleryViewer.Gallery.HandleZoomOut | src/components/Gallery.jsx:536-542 | zoom becomes max(z-0.25, 0.5); the pan resets when the result is at most 1 |
| GalleryViewer.Gallery.HandleImageMouseDown | src/components/Gallery.jsx:545-554 | beyond zoom 1 a drag starts with anchor pointer minus pan; otherwise nothing changes |
| GalleryViewer.Gallery.HandleMouseMove | src/components/Gallery.jsx:556-563 | during a drag beyond zoom 1 the pan becomes pointer minus anchor; otherwise it is kept |
| GalleryViewer.Gallery.HandleMouseUp | src/components/Gallery.jsx:566-568 | the drag ends; nothing else changes |
| GalleryViewer.Gallery.Perform | src/components/Gallery.jsx:576-600 | each command runs its handler and has that handler's effect |
| GalleryViewer.Gallery.HandleKeyPress | src/components/Gallery.jsx:573-600 | ignored while closed; otherwise the key's command takes effect |
| GalleryViewer.Gallery.HandleWheel | src/components/Gallery.jsx:612-620 | ignored while closed; otherwise up zooms in and anything else zooms out |
| GalleryViewer.Gallery.DoubleClick | src/components/Gallery.jsx:398 | zooms out one step beyond zoom 1, in one step otherwise |
| GalleryViewer.Gallery.HandleTouchStart | src/components/Gallery.jsx:293-296 | records the touch start; nothing else changes |
| GalleryViewer.Gallery.HandleTouchEnd | src/components/Gallery.jsx:298-312 | the swipe's command (previous, next or none) takes effect |
| GalleryViewer.DragRoundTrip | src/components/Gallery.jsx:545-568 | press, move away, move back and release restore the pan and end the drag; image, index, zoom, category and touch origin are unchanged |
| Contact.Validate | src/components/Contact.jsx:26-44 | the error map has an entry, with its message, exactly for each failing field |
| Contact.AtIndex | src/components/Contact.jsx:29 | the position of the first '@', or the length when there is none |
| Contact.TrimBounds | src/components/Contact.jsx:31 | trim removes white space at both ends only, and the result neither starts nor ends with white space |
| Contact.TrimEndBounds | src/components/Contact.jsx:31 | trimming the end removes a trailing run of white space |
| Contact.TrimStartBounds | src/components/Contact.jsx:31 | trimming the start removes a leading run of white space |
| Contact.TrimIdempotent | src/components/Contact.jsx:31 | trimming twice is trimming once |
| Contact.TrimUnique | src/components/Contact.jsx:31 | any split into leading space, a middle not bounded by space and trailing space gives the same middle |
| Contact.TrimIgnoresPadding | src/components/Contact.jsx:31-40 | white space added before and after a value, in any amounts, does not change its trimmed form, which is what the checks see |
| Contact.ValidNameEndsInLetters | src/components/Contact.jsx:28-31 | an accepted name begins and ends with an ASCII letter |
| Contact.EmailMatchesIffPattern | src/components/Contact.jsx:29-34 | the email computation accepts exactly a run without space or '@', '@', a run, '.', a run |
| Contact.PatternParts | src/components/Contact.jsx:29 | a string split by the pattern is accepted by the email computation |
| Contact.ErrorsPerField | src/components/Contact.jsx:31-42 | name, email, project type and message are flagged exactly when their own check fails |
| Contact.SubmissionGate | src/components/Contact.jsx:56-60 | the error map is empty exactly when every field passes |
| Contact.ProjectTypeOptions | src/components/Contact.jsx:16-24 | every listed option passes the project-type check; the empty choice does not |
| Contact.WithChangesOneField | src/components/Contact.jsx:48 | setting a field changes that field and no other |
| Contact.ContactForm.constructor | src/components/Contact.jsx:5-13 | the form starts empty, with no errors, not submitting and not submitted |
| Contact.ContactForm.HandleChange | src/components/Contact.jsx:46-52 | only the named field changes; its shown error is blanked; other errors are kept |
| Contact.ContactForm.HandleSubmit | src/components/Contact.jsx:54-62 | sends exactly when the form is valid; otherwise the errors become the new map and nothing starts |
| Contact.ContactForm.SubmissionSettled | src/components/Contact.jsx:72-81 | a success shows the thank-you and clears the form; either way submitting ends |
| Contact.ContactForm.ThankYouExpired | src/components/Contact.jsx:76 | the thank-you notice goes away; nothing else changes |
| Navbar.SelectActiveSection | src/components/Navbar.jsx:17-42 | home below 50; otherwise the first of contact, achievements, resume, gallery, about that exists with scrollY >= offsetTop - 100; else home |
| Navbar.ActiveSectionUnique | src/components/Navbar.jsx:17-42 | the rule determines one active section |
| Navbar.ActiveSectionHasElement | src/components/Navbar.jsx:29-41 | the active section is home or a listed section that has an element |
| Navbar.ContactHasPriority | src/components/Navbar.jsx:27-36 | once the contact section is reached (below the top band), it is active |
| Navbar.NavScrollTargets | src/components/Navbar.jsx:55-64 | home scrolls to 0; other items to offsetTop - 80 when the element exists, nowhere otherwise |
| Navbar.NavItemsLinkTheirSections | src/components/Navbar.jsx:7-14 | each item other than home links to the anchor of its own id; home links to '#' |
| Navbar.NavbarState.constructor | src/components/Navbar.jsx:4-5 | the menu starts closed with home active |
| Navbar.NavbarState.HandleScroll | src/components/Navbar.jsx:17-42 | the active section becomes the one the selection rule picks; the menu is kept |
| Navbar.NavbarState.HandleNavClick | src/components/Navbar.jsx:49-65 | closes the menu, activates the clicked id, and scrolls to the target |
| Navbar.NavbarState.HandleClickOutside | src/components/Navbar.jsx:68-72 | an open menu closes exactly on a click outside the nav |
| Navbar.NavbarState.ToggleMenu | src/components/Navbar.jsx:130 | the menu button flips the menu |
| Navbar.NavbarState.CloseFromBackdrop | src/components/Navbar.jsx:174 | a click on the backdrop closes the menu |

## Left out

- The intersection observer's geometry (threshold, root margin) is a browser API. Visibility is an input event.
- The grid's scroll listener, its `requestAnimationFrame` coalescing and its cleanup are left out. The cleanup names an undefined `onScroll`, Gallery.jsx:181. A recomputation is one call of `Recalculate`.
- `VirtualizedGrid.RecalculationsStayBounded` keeps the list fixed. When the list changes while the container is unmounted, the code keeps the old range, Gallery.jsx:148, which may then extend past the new list. `slice` clamps such a range.
- `VirtualizedGrid.Recalculate`: the code keeps the previous range object when the values are equal. The model does not distinguish object identity from equal values.
- The prefetch's `new Image()` loads are a side effect. Only the prefetched index range is modelled.
- The `window.innerWidth < 640` test is a boolean parameter of `RenderedRange`.
- `document.body.style.overflow`, `preventDefault`, `stopPropagation` and `window.scrollTo` are DOM side effects. Only the computed scroll target is modelled.
- Event propagation between nested elements is not modelled. For example, a click that reaches both the viewer backdrop and a button inside it.
- The browser's own constraint validation is not modelled. It comes from the `required` attributes and the email input type, Contact.jsx:139, 151, 154, 171 and 213. It can stop a submission before `handleSubmit` and `validate` run. The model starts at `handleSubmit`.
- The Formspree request is network I/O. `SubmissionSettled` takes its outcome as a parameter, and `ThankYouExpired` stands for the five-second timer.
- `GalleryViewer.Gallery.HandleCategoryChange`: its contract requires the viewer to be closed. The other case is reachable by keyboard. Nothing moves focus into the viewer, and its key handler ignores Tab and Enter, Gallery.jsx:573-600. So Shift+Tab from a grid cell, Gallery.jsx:82, reaches a category button, Gallery.jsx:681-684, and Enter changes the filter. The code then keeps the shown image and its now stale index. The model does not cover this case.
- `GalleryImageCell.FailureIsPermanent` holds for one mounted cell only. A failed cell that leaves the rendered window and returns is mounted afresh and fetched again, Gallery.jsx:62-63 and 236-238.
- React state updates are modelled as taking effect immediately and in order. Batching and stale closures are not modelled.
- Pixel values are integers. Fractional scroll positions and fractional pan arithmetic are not modelled.
- `Contact.Utf16Length` counts astral code points as two units. Lone surrogates are not representable.
- `GalleryCatalog.CategoriesUnique` assumes no group is labelled 'all'. With such a label the code lists 'all' twice.
- The hero section, the page layout and scroll flag, the animation library's setup, the entry point and all markup and styling are presentation or library calls. They are not part of this model.
