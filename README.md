# Lightbox Plus — a Dafny model

This project models the "lightbox plus" widget of a UIkit fork. The widget has two parts:

- **The trigger component** (`src/js/components/lightbox-plus.js`). It reads one gallery
  item from each toggle element and drops items that repeat a source. On a click it opens
  a panel at the clicked toggle's item, unless the mouse moved far enough between
  mousedown and mouseup to count as a swipe.
- **The panel** (`src/js/components/lightbox-plus-panel.js`):
  - it loads each slide's media lazily and preloads the neighbours after a delay;
  - it decides whether an item is an image, a video, an iframe, a YouTube video or a Vimeo
    video;
  - it attaches a pan/zoom controller to every image it shows;
  - it keeps slide swiping (`draggable`) off while the current image is zoomed in;
  - it handles the arrow, Home and End keys and the `+`/`-` keys;
  - it hides its controls again when a timer runs out.

The model is split into six modules:

| file | module | what it models |
|---|---|---|
| `util.dfy` | `Util` | `Option`; the wrap-around of positions (`getIndex`), with JavaScript's truncating `%` written out |
| `media.dfy` | `Media` | items, elements and attribute maps; the extension and YouTube/Vimeo regular expressions; classification; the elements built for each kind; every content the `itemload` handler puts into a slide |
| `gestures.dfy` | `Gestures` | the double-tap detector as a class; the choice of which dimension fills the slide |
| `zoom.dfy` | `Zoom` | pan clamping; `initZoom`'s closure state as the class `ZoomImage`, with Panzoom requests recorded as a log |
| `panel.dfy` | `Panel` | the panel as a class over an `array` of slide contents; loading, preloading, zoom attachment, the draggable state, keys, controls |
| `lightbox.dfy` | `Lightbox` | `toItem` (its loop over the eight keys), `uniqueBy`, `findIndex`, `show`/`hide`, the click/swipe decision, the toggles watcher |

**Regular expressions.** Each one is specified twice:

- as a ghost predicate saying where a match may start and end;
- as an executable leftmost search.

The search's contract states soundness, completeness and the engine's choice: the leftmost
start, and the shortest prefix for each lazy `.*?`.

**Elements** are a tag plus an attribute map. The spread `{...base, ...attrs}` is the
right-biased map union `base + attrs`.

**Time and the outside world.** Timers are pending flags with a method for the moment
they fire. Timestamps, element sizes, element events and the result of the Vimeo lookup
are parameters.

**The panel's slide lookup.** Two places in the panel look up the current slide with
`getSlide(this.index)`, which passes a number where an item is expected, so they find no
slide (see Findings):

- the draggable state, where the program's own comment
  (`src/js/components/lightbox-plus-panel.js:531`) says dragging is disabled while *the current*
  image is zoomed in, but the document's first lightbox image decides instead;
- the `+`/`-` keys, which zoom nothing.

The code as written is modelled by the functions `Panel.DraggableAsWritten` and
`Panel.KeyZoomSlideAsWritten`, each with a lemma exhibiting the difference. The `Panel.Panel`
class follows the corrected rule: its methods use `Panel.DraggableIntended` and
`Panel.KeyZoomSlide`.

## Model

| member | source | states |
|---|---|---|
| Util.Wrap | src/js/components/lightbox-plus-panel.js:447-449 | every integer position, negative ones included, wraps to a valid slide position |
| Util.WrapIsEuclideanRemainder | src/js/components/lightbox-plus-panel.js:447-449 | the wrapped position is the mathematical remainder of the position modulo the slide count |
| Media.HasExtension | src/js/components/lightbox-plus-panel.js:355 | true exactly when the source has `.` plus one of the extensions (any letter case) followed by the end or `?` |
| Media.FindYouTube | src/js/components/lightbox-plus-panel.js:389-391 | no result exactly when no position matches the YouTube pattern; otherwise the match the regex engine picks (leftmost start, shortest lazy prefixes) |
| Media.Tail | src/js/components/lightbox-plus-panel.js:390 | the trailing group is the rest of the line after at most one skipped `&` or `?`, ending at the end of the string or at a line terminator |
| Media.YouTubeCaptures | src/js/components/lightbox-plus-panel.js:390-398 | the id is the 11 word or `-` characters right after the marker (long form) or after `//youtu.be/` (short form); `-nocookie` is captured exactly when the host has it; the trailing group follows the id |
| Media.FindVimeo | src/js/components/lightbox-plus-panel.js:407 | no result exactly when nothing matches the Vimeo pattern; otherwise the leftmost match with the shortest lazy prefix |
| Media.VimeoCaptures | src/js/components/lightbox-plus-panel.js:407 | the id is the longest non-empty digit run right after the `/` that ends `vimeo.<letters>`, and the trailing group follows it |
| Media.Classify | src/js/components/lightbox-plus-panel.js:330-407 | the branch chain of `itemload`: for each kind, the item gets it exactly when that branch's test holds and every earlier branch's test fails |
| Media.Resolve | src/js/components/lightbox-plus-panel.js:326-433 | the spinner is left alone exactly when the source is missing or matches no rule; a Vimeo source waits for the size lookup; an image waits for its load event with a `once` listener exactly when it has a srcset; a video waits for `loadedmetadata` with a plain listener; an iframe item and a YouTube item are set at once; the element is the one the kind's builder makes |
| Media.ImageElement | src/js/components/lightbox-plus-panel.js:343-357 | an `<img>` whose `src`, `alt` (empty by default) and image class come from the item unless its own attributes override them; `srcset` is present exactly when requested or given by the item's attributes |
| Media.VideoElement | src/js/components/lightbox-plus-panel.js:362-371 | a `<video>` with controls, `playsinline`, the autoplay flag and the item's `src`; `poster` is present exactly when the item has one or its attributes set one; the item's attributes win |
| Media.FrameElement | src/js/components/lightbox-plus-panel.js:376-385 | an `<iframe>` with the item's `src`, `allowfullscreen` and the iframe class, unless the item's attributes override them |
| Media.MediaErrorShowsErrorIcon | src/js/components/lightbox-plus-panel.js:350-372 | an image or video whose element reports an error shows the error icon right after the spinner |
| Media.ListenerCommits | src/js/components/lightbox-plus-panel.js:349-350 | whatever the element's events, each commit is the element itself or the error icon |
| Media.ListenerCommitCount | src/js/components/lightbox-plus-panel.js:347-359 | a `once` listener commits the element at most once; a plain listener commits it once per load event |
| Media.ResponsiveImageCommittedOnce | src/js/components/lightbox-plus-panel.js:343-350 | an image with a srcset is put into its slide at most once, whatever events follow |
| Media.LaterCommits | src/js/components/lightbox-plus-panel.js:343-433 | no commit after the first is the spinner; a failed Vimeo lookup commits exactly the error icon |
| Media.ItemLoad | src/js/components/lightbox-plus-panel.js:325-434 | the spinner comes first and never again; no source gives only the spinner; a failed Vimeo lookup gives the spinner, then the error icon |
| Media.SyncContent | src/js/components/lightbox-plus-panel.js:328-404 | the slide's content when `loadItem` returns is the last synchronous commit, and never a zoomable image |
| Media.SyncCommitsArePrefix | src/js/components/lightbox-plus-panel.js:325-434 | whatever happens later, the synchronous commits come first |
| Media.YouTubeElementAttrs | src/js/components/lightbox-plus-panel.js:393-404 | a YouTube embed is an iframe with the embed URL, width 1920 and height 1080, unless the item's own attributes override them |
| Media.VimeoElementAttrs | src/js/components/lightbox-plus-panel.js:418-429 | a Vimeo embed is an iframe with the player URL and the looked-up size, unless the item's attributes override them |
| Media.YouTubeEmbed | src/js/components/lightbox-plus-panel.js:388-404 | a YouTube item shows the spinner, then the iframe built from the match the regex engine chooses |
| Media.VimeoEmbed | src/js/components/lightbox-plus-panel.js:407-429 | once the lookup answers, a Vimeo item shows the spinner, then the player iframe for its numeric id and the looked-up size |
| Media.ClassifyExamples | src/js/components/lightbox-plus-panel.js:343-356 | a `.jpg` link is an image; the same with a srcset is a responsive image; an empty source shows nothing |
| Gestures.TapAfterIsLastEvents | src/js/components/lightbox-plus-panel.js:477-497 | the detector's state depends only on the last touchstart's time and the last touchmove's finger count |
| Gestures.DoubleTapFires | src/js/components/lightbox-plus-panel.js:481-493 | a tap fires exactly when it comes more than 0 and less than the delay after the previous touchstart, and the last move had at most one finger |
| Gestures.TripleTapFiresTwice | src/js/components/lightbox-plus-panel.js:481-493 | a firing tap still records its time, so three quick taps fire on the second and the third |
| Gestures.PinchBlocksDoubleTap | src/js/components/lightbox-plus-panel.js:486-497 | after a multi-finger move, no run of taps fires |
| Gestures.DoubleTap.constructor | src/js/components/lightbox-plus-panel.js:477-479 | the detector starts with last tap time 0 and no movement |
| Gestures.DoubleTap.OnTouchStart | src/js/components/lightbox-plus-panel.js:481-493 | the touchstart listener's new state and verdict are one step of the detector |
| Gestures.DoubleTap.OnTouchMove | src/js/components/lightbox-plus-panel.js:495-497 | the touchmove listener records whether more than one finger moved |
| Gestures.FitToSlide | src/js/components/lightbox-plus-panel.js:500-520 | an image without a size is left alone; otherwise the width fills the slide exactly when the image's aspect ratio is the larger one |
| Gestures.FitNoCrop | src/js/components/lightbox-plus-panel.js:505-519 | filling one dimension never makes the other overflow the slide |
| Zoom.ClampPanToOffset | src/js/components/lightbox-plus-panel.js:606-617 | an axis narrower than the slide is centred; otherwise the offset is kept within the overhang, and an offset already inside is kept |
| Zoom.ClampIsNearest | src/js/components/lightbox-plus-panel.js:606-617 | the clamped offset is the allowed offset closest to the requested one |
| Zoom.ClampIdempotent | src/js/components/lightbox-plus-panel.js:606-617 | clamping a clamped offset changes nothing |
| Zoom.ConstrainPan | src/js/components/lightbox-plus-panel.js:619-632 | a pan is requested exactly when an axis is out of bounds, and it goes to the clamped position |
| Zoom.ConstrainPanSettles | src/js/components/lightbox-plus-panel.js:619-632 | after panning to the clamped position, a further pan end requests nothing |
| Zoom.ConstrainPanIffOutside | src/js/components/lightbox-plus-panel.js:606-632 | for an image covering the slide, nothing is requested exactly when both offsets are within the overhang |
| Zoom.ZoomImage.constructor | src/js/components/lightbox-plus-panel.js:538-548 | a new controller starts zoomed out, with panning off and no animation pending; a srcset image does not have its original source yet |
| Zoom.ZoomImage.SetOriginalSrc | src/js/components/lightbox-plus-panel.js:550-556 | the original source replaces the srcset exactly once |
| Zoom.ZoomImage.ToggleImgZoomedCls | src/js/components/lightbox-plus-panel.js:575-588 | panning is off exactly when not zoomed, swiping off exactly when zoomed |
| Zoom.ZoomImage.PanAndWait | src/js/components/lightbox-plus-panel.js:590-604 | while an animation runs, a pan request is dropped; otherwise zoom and pan are locked, the pan is requested and the unlock timer starts |
| Zoom.ZoomImage.AnimationTimerFired | src/js/components/lightbox-plus-panel.js:599-602 | the timer restores the default zoom and pan options and ends the wait |
| Zoom.ZoomImage.OnPanZoom | src/js/components/lightbox-plus-panel.js:634-651 | a scale past the threshold of 2 loads the original source, so a srcset image is upgraded exactly once and loses its srcset; a scale of at most 2 leaves the source alone; the markers follow whether the scale is above 1; a scale of at most 1 pans back to the centre |
| Zoom.ZoomImage.OnPanZoomEnd | src/js/components/lightbox-plus-panel.js:653-656 | the end of a gesture pans to the clamped position when the image is out of bounds |
| Zoom.ZoomImage.OnZoomIn | src/js/components/lightbox-plus-panel.js:563-565 | requests one zoom-in step and changes nothing else |
| Zoom.ZoomImage.OnZoomOut | src/js/components/lightbox-plus-panel.js:567-569 | requests one zoom-out step and changes nothing else |
| Zoom.ZoomImage.OnZoomReset | src/js/components/lightbox-plus-panel.js:571-573 | requests a reset without animation and changes nothing else |
| Zoom.ZoomImage.OnWheel | src/js/components/lightbox-plus-panel.js:558-561 | passes the wheel event to Panzoom and changes nothing else |
| Zoom.ZoomImage.OnTouchStart | src/js/components/lightbox-plus-panel.js:481-493 | a detected double tap on the image requests a zoom-in |
| Zoom.ZoomImage.OnTouchMove | src/js/components/lightbox-plus-panel.js:495-497 | a move only updates the detector |
| Panel.KeyUpTarget | src/js/components/lightbox-plus-panel.js:225-239 | left, right, Home and End choose previous, next, 0 and last; every other key chooses nothing |
| Panel.GetSlide | src/js/components/lightbox-plus-panel.js:456-458 | an item gives its own slide; a number gives no slide |
| Panel.FirstImage | src/js/components/lightbox-plus-panel.js:527 | the first slide from a position on that holds a lightbox image, or none |
| Panel.QueryImage | src/js/components/lightbox-plus-panel.js:527 | with a slide, the result is that slide exactly when it holds an image; without a slide, there is a result exactly when some slide holds an image, and no earlier slide holds one |
| Panel.DraggableAsWrittenFollowsFirstImage | src/js/components/lightbox-plus-panel.js:522-536 | as written, the draggable state follows the document's first lightbox image |
| Panel.DraggableAsWrittenIgnoresCurrentSlide | src/js/components/lightbox-plus-panel.js:522-536 | with two images and the second one zoomed in, the code as written keeps swiping on |
| Panel.DraggableIntendedSpec | src/js/components/lightbox-plus-panel.js:522-536 | swiping is on exactly when the draggable option is set and the current slide's image is not zoomed in |
| Panel.KeyZoomSlideAsWritten | src/js/components/lightbox-plus-panel.js:204 | as written, the `+`/`-` keys find no slide to zoom |
| Panel.KeyZoomSlide | src/js/components/lightbox-plus-panel.js:204 | corrected, the `+`/`-` keys address the current slide |
| Panel.PreloadWindowMembers | src/js/components/lightbox-plus-panel.js:281-286 | a slide is preloaded exactly when it lies at a wrapped distance `j` before or after the current one, for some `0 <= j <= preload` |
| Panel.PreloadWindowBounded | src/js/components/lightbox-plus-panel.js:281-286 | every preloaded position is a valid slide |
| Panel.PreloadWindowCoversAll | src/js/components/lightbox-plus-panel.js:281-286 | once the window is at least as wide as the gallery, every slide is preloaded |
| Panel.DefaultPreloadWindow | src/js/components/lightbox-plus-panel.js:47 | with the default preload of 1, the current slide and its two neighbours (wrapping around) are loaded |
| Panel.Panel.constructor | src/js/components/lightbox-plus-panel.js:46-90 | a new panel has one empty slide per item, is closed, and has no loads or zoom controllers |
| Panel.Panel.LoadItem | src/js/components/lightbox-plus-panel.js:439-445 | fills the wrapped position's slide only when it was empty, requests the item's load exactly then, and is a no-op otherwise |
| Panel.Panel.SetDraggableState | src/js/components/lightbox-plus-panel.js:522-536 | recomputes the draggable state from the current slide's image and changes nothing else |
| Panel.Panel.ReplaceContent | src/js/components/lightbox-plus-panel.js:451-454 | replaces one slide's content and drops that slide's zoom controller |
| Panel.Panel.AttachZoom | src/js/components/lightbox-plus-panel.js:309-320 | a zoomable image gets a fresh controller that starts zoomed out, the draggable state is recomputed, and the image is fitted to the slide |
| Panel.Panel.ScaleImgToSlide | src/js/components/lightbox-plus-panel.js:500-520 | records for one slide the size style the fit decision gives |
| Panel.Panel.LoadOrFit | src/js/components/lightbox-plus-panel.js:273-278 | an empty slide is loaded; a slide holding an image has that image fitted; anything else is left alone |
| Panel.Panel.CommitItem | src/js/components/lightbox-plus-panel.js:309-320 | through `setItem` (lines 451-454), a content the slide's own item handler commits after its spinner replaces the slide's content and its old fit; a zoomable image gets a fresh controller and a fit when zooming is enabled |
| Panel.Panel.SetError | src/js/components/lightbox-plus-panel.js:460-462 | on one of the item handler's error paths, the slide shows the error icon and loses its controller |
| Panel.Panel.OnBeforeItemShow | src/js/components/lightbox-plus-panel.js:243-260 | the first item show opens the panel and turns swiping off; later ones change nothing |
| Panel.Panel.OnItemShow | src/js/components/lightbox-plus-panel.js:263-288 | sets the caption (empty when the item has none), loads the current slide when empty or else fits its image, and schedules one preload |
| Panel.Panel.PreloadTurn | src/js/components/lightbox-plus-panel.js:282-285 | one turn of the preload loop fills the slides at `index + j` and `index - j` |
| Panel.Panel.PreloadTimerFired | src/js/components/lightbox-plus-panel.js:281-286 | fills exactly the empty slides in the preload window; a load is requested exactly for slides already requested or in the window |
| Panel.Panel.OnItemShown | src/js/components/lightbox-plus-panel.js:290-296 | recomputes the draggable state from the current slide's image |
| Panel.Panel.OnItemHidden | src/js/components/lightbox-plus-panel.js:298-307 | a hidden slide's zoom controller is reset when zooming is enabled |
| Panel.Panel.OnPanZoom | src/js/components/lightbox-plus-panel.js:634-651 | a zoom change on one slide updates that controller, and the panel's draggable state follows the current slide |
| Panel.Panel.OnKeyDown | src/js/components/lightbox-plus-panel.js:190-212 | while the panel is open and zooming is enabled, `+` and `-` zoom the current slide's image in and out; any other key leaves every controller unchanged |
| Panel.Panel.OnKeyUp | src/js/components/lightbox-plus-panel.js:215-241 | while the panel is open and draggable, the four navigation keys request a show; other keys do nothing |
| Panel.Panel.ShowControls | src/js/components/lightbox-plus-panel.js:464-469 | the controls are shown and the hide timer restarts |
| Panel.Panel.HideControls | src/js/components/lightbox-plus-panel.js:471-473 | the controls are hidden |
| Panel.Panel.ControlsTimerFired | src/js/components/lightbox-plus-panel.js:466 | when the timer runs out, the controls are hidden and no timer is pending |
| Panel.Panel.OnHide | src/js/components/lightbox-plus-panel.js:167-178 | hiding the panel hides the controls |
| Panel.Panel.OnHidden | src/js/components/lightbox-plus-panel.js:180-188 | once hidden, the panel is closed |
| Lightbox.Data | src/js/components/lightbox-plus.js:121 | the attribute of that name is preferred to its `data-` form; the result is absent exactly when neither exists |
| Lightbox.HrefReadLast | src/js/components/lightbox-plus.js:120-122 | after the eight reads, the item's source field holds the `href` attribute and every other field its own attribute |
| Lightbox.ParseOptions | src/js/components/lightbox-plus.js:124 | an absent or empty options string gives no attributes |
| Lightbox.ToItem | src/js/components/lightbox-plus.js:117-127 | the reading loop yields the item whose source is the toggle's `href` |
| Lightbox.SourceAttributeIgnored | src/js/components/lightbox-plus.js:120-122 | changing a toggle's `source` attribute never changes its item |
| Lightbox.ItemsOf | src/js/components/lightbox-plus.js:89 | one item per toggle, in document order, whose source is that toggle's `href` |
| Lightbox.UniqueBySource | src/js/components/lightbox-plus.js:89 | the same set of sources, each appearing once |
| Lightbox.FindIndexBySource | src/js/components/lightbox-plus.js:93 | the first position with that source, or -1 exactly when no item has it |
| Lightbox.UniqueKeepsFirst | src/js/components/lightbox-plus.js:89 | every kept item is the first item in the input with its source |
| Lightbox.UniqueKeepsOrder | src/js/components/lightbox-plus.js:89 | kept items appear in the order of their first occurrences |
| Lightbox.ShowAtToggle | src/js/components/lightbox-plus.js:88-100 | showing a toggle opens a valid position holding the item of the first toggle with the same source |
| Lightbox.ClickDecision | src/js/components/lightbox-plus.js:71-82 | a click throws exactly when a mouse position was never recorded |
| Lightbox.ClickFollowsDistance | src/js/components/lightbox-plus.js:72-82 | with the Euclidean distance `h`, the click opens exactly when `h` is below the threshold and is ignored exactly when `h` reaches it |
| Lightbox.ThresholdExamples | src/js/components/lightbox-plus.js:12 | a movement of exactly 10 is a swipe; one just below 10 opens; a click with no mousedown throws |
| Lightbox.WithRole | src/js/components/lightbox-plus.js:22-26 | an `<a>` toggle gets `role="button"`; every other toggle is unchanged |
| Lightbox.WithRoleKeepsItem | src/js/components/lightbox-plus.js:20-27 | marking toggles as buttons never changes the items read from them |
| Lightbox.ShowReusesPanel | src/js/components/lightbox-plus.js:96 | a show creates a panel only when there is none |
| Lightbox.Lightbox.constructor | src/js/components/lightbox-plus.js:8-16 | the component starts with no panel and no recorded positions; the swipe threshold is 10 |
| Lightbox.Lightbox.Show | src/js/components/lightbox-plus.js:88-101 | removes repeated sources, finds the position, reuses or creates the panel, and asks it to show that position |
| Lightbox.Lightbox.Hide | src/js/components/lightbox-plus.js:103-105 | asks an existing panel to hide; with no panel, does nothing |
| Lightbox.Lightbox.OnPanelHidden | src/js/components/lightbox-plus.js:98 | the panel's `hidden` event makes the component forget the panel |
| Lightbox.Lightbox.OnDisconnected | src/js/components/lightbox-plus.js:30-32 | removal from the page hides the panel |
| Lightbox.Lightbox.OnTogglesChanged | src/js/components/lightbox-plus.js:19-28 | a new toggle set hides the panel and marks every `<a>` toggle as a button |
| Lightbox.Lightbox.OnMouseDown | src/js/components/lightbox-plus.js:34-46 | records the position unless the toggle is disabled |
| Lightbox.Lightbox.OnMouseUp | src/js/components/lightbox-plus.js:48-59 | records the position unless the toggle is disabled |
| Lightbox.Lightbox.OnClick | src/js/components/lightbox-plus.js:61-84 | a click on an enabled toggle opens the panel at that toggle's item unless it was a swipe; recorded positions are kept for later clicks |

## Left out

- The host library's helpers (`data`, `uniqueBy`, `findIndex`, `getIndex`, `$`, `trigger`) are modelled by their documented behaviour. Their source is not part of this model.
- `uniqueBy` is taken to keep the first item for each source.
- The option-string parser (`parseOptions`, `src/js/api/options`) is a parameter. Only its result for an absent or empty string is modelled.
- The resize handler (`src/js/components/lightbox-plus-panel.js:133-165`) is left out. It is a throttled viewport observer, and it repeats the `getSlide(this.index)` lookup recorded under Findings.
- Throttling of the zoom-change handler (`throttleDelay`) is left out. The model handles every zoom-change event.
- Panzoom's own behaviour (scales, transforms, wheel steps, pinch) is left out. The controller only records the requests it makes, as `Zoom.PanzoomCall` values.
- CSS is left out: the cursor style and the `uk-active` classes. The fit is kept as the decision it makes (`Panel.Panel.fits`), not as style values, and the pan/swipe markers as flags.
- The Vimeo size lookup (`fetch` of the oEmbed endpoint) is a parameter: either a size or a failure. The image and video load/error events are parameters too, given as a sequence.
- `performance.now()` is the `now` parameter of the touch handlers. Element dimensions are parameters.
- The background-click, template and close-label set-up (`created`), the mixins' open/close animations, `toggleElement`, the `stack.splice`, and the slideshow's own navigation are left out. Navigation requests are recorded in `showRequests`; the panel's `show` is recorded as a call in the trigger component's log.
- `install` (registering the panel component and copying its props) is framework wiring and is left out.
- Panel.Panel.constructor: requires a non-empty item list. With no items there is no slide to load or show.
- Panel.Panel.AttachZoom: keeps only the newest controller of a slide. In the source, each `initZoom` adds its `zoom.in`, `zoom.out` and `zoom.reset` listeners to the slide itself (`src/js/components/lightbox-plus-panel.js:664-666`). The slide stays, so an earlier controller's listeners keep reacting to those events. An image committed twice by its plain load listener is one such case. The model does not capture these stale listeners.
- Zoom.ZoomImage.SetOriginalSrc: the slide's stored element does not reflect the removed `srcset`. The controller tracks it.
- Panel.SrcText approximates `attr(img, 'src')` by the committed element's `src` text.
- Media.IsZoomableImage: recognises the image class only when the `class` attribute equals it exactly. The source's `$('.uk-lightbox-plus-image')` also matches a class list that merely contains the token. An item whose own attributes replace `class` therefore differs: the source may still find its image, the model does not.
- Lightbox.Lightbox.constructor: does not run the `toggles` watcher once at start-up. Whether the watcher first fires is the framework's choice; call `OnTogglesChanged` for it.
- Lightbox.Lightbox.Show: does not model the promise returned by the panel's `show`.
- Integer and real arithmetic is unbounded. Floating-point rounding in the distance and ratio comparisons is left out. The swipe test compares squared distances, which agrees with `Math.hypot` on exact reals.

## Findings

| source | as written | input that shows it | evidently intended | confidence | as-written member | corrected member |
|---|---|---|---|---|---|---|
| src/js/components/lightbox-plus-panel.js:526 | `getSlide(lightbox.index)` passes a number where an item is expected. `items.indexOf` gives -1, so the slide is undefined, and `$` then searches the whole document. | Two image slides, the current index 1, the second image zoomed in and the first not: swiping stays on. | Swiping follows the current slide's image. | medium, not executed | Panel.DraggableAsWritten, Panel.DraggableAsWrittenIgnoresCurrentSlide | Panel.DraggableIntended, Panel.DraggableIntendedSpec, Panel.Panel.SetDraggableState |
| src/js/components/lightbox-plus-panel.js:204 | The `+`/`-` handler looks up `getSlide(this.index)` with a number, gets undefined, and triggers the zoom event on nothing. | Pressing `+` while any zoomable image is shown: no zoom happens. | `+` and `-` zoom the current slide's image. | medium, not executed | Panel.KeyZoomSlideAsWritten | Panel.KeyZoomSlide, Panel.Panel.OnKeyDown |
