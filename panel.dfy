/**
 * The lightbox panel: one slide per item, loaded on demand and preloaded around
 * the current one, the zoom controllers of the loaded images, the draggable flag
 * of the slideshow, the keyboard rules and the auto-hiding controls.
 */
module Panel {
  import opened Util
  import opened Media
  import opened Zoom
  import opened Gestures

  /** The host library's key codes. */
  const KeyLeft: int := 37
  const KeyRight: int := 39
  const KeyHome: int := 36
  const KeyEnd: int := 35

  /** The default of the `preload` option and of `delayControls`, in milliseconds. */
  const DefaultPreload: int := 1
  const DefaultDelayControls: int := 3000

  // ---------------------------------------------------------------- keyboard navigation

  /** What the keyup handler assigns to `i`: a slideshow direction name or a number. */
  datatype KeyChoice = Named(name: string) | Position(n: int)

  /** `~i`: a name is not numeric and converts to 0, so its complement is -1; a small integer `n` gives `-n - 1`. */
  function BitNot(c: KeyChoice): int {
    match c
    case Named(_) => -1
    case Position(n) => -n - 1
  }

  /** The if-chain of the keyup handler, starting from `i = -1`. */
  function ChosenForKey(keyCode: int): KeyChoice {
    if keyCode == KeyLeft then Named("previous")
    else if keyCode == KeyRight then Named("next")
    else if keyCode == KeyHome then Position(0)
    else if keyCode == KeyEnd then Named("last")
    else Position(-1)
  }

  /**
   * The target shown for a key, if any: `~i` is non-zero for every chosen target,
   * the first slide (0) included, and zero only for the initial -1.
   */
  function KeyUpTarget(keyCode: int): (r: Option<KeyChoice>)
    ensures r.Some? <==> keyCode == KeyLeft || keyCode == KeyRight || keyCode == KeyHome || keyCode == KeyEnd
    ensures keyCode == KeyLeft ==> r == Some(Named("previous"))
    ensures keyCode == KeyRight ==> r == Some(Named("next"))
    ensures keyCode == KeyHome ==> r == Some(Position(0))
    ensures keyCode == KeyEnd ==> r == Some(Named("last"))
  {
    var i := ChosenForKey(keyCode);
    if BitNot(i) != 0 then Some(i) else None
  }

  // ---------------------------------------------------------------- finding a slide and its image

  /** What `getSlide` is given: an item (known by its position) or a bare number. */
  datatype SlideArg = ItemArg(position: nat) | NumberArg(number: int)

  /** `items.indexOf(arg)`: an item's position; a number equals no item, so -1. */
  function IndexOfItem(n: nat, arg: SlideArg): int {
    match arg
    case ItemArg(p) => if p < n then p else -1
    case NumberArg(_) => -1
  }

  /** `slides[items.indexOf(arg)]`: a slide, or `undefined` outside the array. */
  function GetSlide(n: nat, arg: SlideArg): (r: Option<nat>)
    ensures r.Some? ==> r.value < n
    ensures arg.ItemArg? && arg.position < n ==> r == Some(arg.position)
    ensures arg.NumberArg? ==> r.None?
  {
    var i := IndexOfItem(n, arg);
    if 0 <= i < n then Some(i) else None
  }

  /** Slide `k` holds a lightbox image. */
  predicate ImageAt(contents: seq<Option<Element>>, k: nat) {
    k < |contents| && contents[k].Some? && IsZoomableImage(contents[k].value)
  }

  /** The first slide from `from` on that holds a lightbox image. */
  function FirstImage(contents: seq<Option<Element>>, from: nat): (r: Option<nat>)
    decreases |contents| - from
    ensures r.Some? ==> from <= r.value && ImageAt(contents, r.value)
    ensures r.Some? ==> forall k :: from <= k < r.value ==> !ImageAt(contents, k)
    ensures r.None? ==> forall k :: from <= k < |contents| ==> !ImageAt(contents, k)
  {
    if from >= |contents| then None
    else if ImageAt(contents, from) then Some(from)
    else FirstImage(contents, from + 1)
  }

  /**
   * `$('.uk-lightbox-plus-image', context)`: inside a slide, its image; with an
   * undefined context the whole document is searched, which (for the panel's own
   * images) finds the first slide holding one.
   */
  function QueryImage(contents: seq<Option<Element>>, context: Option<nat>): (r: Option<nat>)
    ensures r.Some? ==> ImageAt(contents, r.value)
    ensures context.Some? ==> (r.Some? <==> ImageAt(contents, context.value)) && (r.Some? ==> r.value == context.value)
    ensures context.None? ==> (r.Some? <==> exists k :: 0 <= k < |contents| && ImageAt(contents, k))
    ensures context.None? && r.Some? ==> forall k :: 0 <= k < r.value ==> !ImageAt(contents, k)
  {
    match context
    case None => FirstImage(contents, 0)
    case Some(k) => if ImageAt(contents, k) then Some(k) else None
  }

  /** `setDraggableState` once the image is found: the prop, turned off by a swipe-disabled image. */
  function Draggable(prop: bool, img: Option<nat>, swiped: set<nat>): bool {
    if prop then (if img.Some? then img.value !in swiped else true) else false
  }

  /** `setDraggableState` as written: `getSlide(this.index)` passes a number, so the image is looked up in the whole document. */
  function DraggableAsWritten(prop: bool, contents: seq<Option<Element>>, index: nat, swiped: set<nat>): bool {
    Draggable(prop, QueryImage(contents, GetSlide(|contents|, NumberArg(index))), swiped)
  }

  /** `setDraggableState` as intended: the image of the current slide. */
  function DraggableIntended(prop: bool, contents: seq<Option<Element>>, index: nat, swiped: set<nat>): bool {
    Draggable(prop, QueryImage(contents, GetSlide(|contents|, ItemArg(index))), swiped)
  }

  /** As written, the flag follows the first image of the panel, whatever slide is current. */
  lemma DraggableAsWrittenFollowsFirstImage(prop: bool, contents: seq<Option<Element>>, index: nat, swiped: set<nat>)
    ensures DraggableAsWritten(prop, contents, index, swiped) == Draggable(prop, FirstImage(contents, 0), swiped)
  {
  }

  /** Two image slides, the second current and zoomed in: as written the slideshow stays draggable. */
  lemma DraggableAsWrittenIgnoresCurrentSlide()
    ensures var img := Element(ImgTag, map["src" := Text("a.jpg"), "class" := Text(ImageClass)]);
            var contents := [Some(img), Some(img)];
            DraggableAsWritten(true, contents, 1, {1}) && !DraggableIntended(true, contents, 1, {1})
  {
    var img := Element(ImgTag, map["src" := Text("a.jpg"), "class" := Text(ImageClass)]);
    var contents := [Some(img), Some(img)];
    assert ImageAt(contents, 0);
    assert ImageAt(contents, 1);
  }

  /**
   * As intended, the slideshow is draggable exactly when the prop allows it and the
   * current slide does not hold a zoomed-in image; no other slide matters.
   */
  lemma DraggableIntendedSpec(prop: bool, contents: seq<Option<Element>>, index: nat, swiped: set<nat>)
    requires index < |contents|
    ensures DraggableIntended(prop, contents, index, swiped) <==> prop && !(ImageAt(contents, index) && index in swiped)
  {
  }

  /** The keydown handler as written looks for the slide of a number, which is never found: `+` and `-` reach no slide. */
  function KeyZoomSlideAsWritten(n: nat, index: nat): (r: Option<nat>)
    ensures r.None?
  {
    GetSlide(n, NumberArg(index))
  }

  /** The slide the keydown handler is meant to zoom: the current one. */
  function KeyZoomSlide(n: nat, index: nat): (r: Option<nat>)
    ensures index < n ==> r == Some(index)
  {
    GetSlide(n, ItemArg(index))
  }

  // ---------------------------------------------------------------- preloading

  /** The slides `loadItem(index + j)` and `loadItem(index - j)` reach for `0 <= j < count`. */
  function PreloadWindow(index: int, count: nat, n: nat): set<nat>
    requires n > 0
  {
    if count == 0 then {}
    else PreloadWindow(index, count - 1, n) + {Wrap(index + (count - 1), n), Wrap(index - (count - 1), n)}
  }

  /** The number of turns of `for (let j = 0; j <= preload; j++)`. */
  function PreloadCount(preload: int): nat {
    if preload >= 0 then preload + 1 else 0
  }

  /** Slide `k` is `j` steps after or before `index`, wrapping around `n` slides. */
  predicate AtDistance(k: nat, index: int, j: int, n: nat)
    requires n > 0
  {
    k == Wrap(index + j, n) || k == Wrap(index - j, n)
  }

  /** The window holds exactly the slides at distance `j < count` on either side, wrapped around. */
  lemma {:induction false} PreloadWindowMembers(index: int, count: nat, n: nat, k: nat)
    requires n > 0
    ensures k in PreloadWindow(index, count, n) <==> exists j :: 0 <= j < count && AtDistance(k, index, j, n)
  {
    if count > 0 {
      PreloadWindowMembers(index, count - 1, n, k);
      if AtDistance(k, index, count - 1, n) {
        assert 0 <= count - 1 < count;
      }
      if exists j :: 0 <= j < count && AtDistance(k, index, j, n) {
        var j :| 0 <= j < count && AtDistance(k, index, j, n);
        if j < count - 1 {
          assert exists j' :: 0 <= j' < count - 1 && AtDistance(k, index, j', n);
        }
      }
    }
  }

  /** Every window lies within the slides. */
  lemma {:induction false} PreloadWindowBounded(index: int, count: nat, n: nat)
    requires n > 0
    ensures forall k :: k in PreloadWindow(index, count, n) ==> k < n
  {
    if count > 0 {
      PreloadWindowBounded(index, count - 1, n);
    }
  }

  /** A window of at least `n` turns reaches every slide. */
  lemma PreloadWindowCoversAll(index: int, count: nat, n: nat, k: nat)
    requires n > 0 && count >= n && k < n
    ensures k in PreloadWindow(index, count, n)
  {
    var j := Wrap(k - index, n);
    WrapDistance(index, k, n);
    assert AtDistance(k, index, j, n);
    PreloadWindowMembers(index, count, n, k);
  }

  /** With the default `preload` of 1, the previous, the current and the next slide are loaded. */
  lemma DefaultPreloadWindow(index: int, n: nat)
    requires n > 0
    ensures PreloadWindow(index, PreloadCount(DefaultPreload), n) == {Wrap(index, n), Wrap(index + 1, n), Wrap(index - 1, n)}
  {
    assert PreloadWindow(index, 1, n) == {Wrap(index, n)};
  }

  // ---------------------------------------------------------------- the panel

  /**
   * The panel's state: its items and their slides (`None` while a slide has no
   * children), the options it was created with, the current index, whether it is
   * open, the slideshow's draggable flag, the caption text, the controls and their
   * timer, the preload timers not yet fired, the slides `itemload` was emitted for,
   * the zoom controller of each slide holding a lightbox image, and the slides the
   * keyboard asked the slideshow to show.
   */
  class Panel {
    const items: seq<Item>
    const slides: array<Option<Element>>
    const propDraggable: bool
    const preload: int
    const zoomImages: bool
    const videoAutoplay: bool
    /** For each slide, what the synchronous part of its `itemload` handler leaves in it. */
    const initial: seq<Element>
    var index: nat
    var isOpen: bool
    var draggable: bool
    var caption: string
    var controlsActive: bool
    var controlsTimerPending: bool
    var pendingPreloads: nat
    var loadRequests: seq<nat>
    var zooms: map<nat, ZoomImage>
    var showRequests: seq<KeyChoice>
    /** The size style `scaleImgToSlide` last left on a slide's image, for slides whose image it sized. */
    var fits: map<nat, Fit>

    /**
     * A slide has content exactly when `itemload` was emitted for it, which happens
     * at most once per slide; a zoom controller exists only for a slide holding a
     * lightbox image, and only when images are zoomable.
     */
    ghost predicate Valid()
      reads this`index, this`loadRequests, this`zooms, slides, zooms.Values
    {
      LoadsValid() && ZoomsValid()
    }

    ghost predicate LoadsValid()
      reads this`index, this`loadRequests, slides
    {
      && |items| > 0 && slides.Length == |items| && |initial| == |items| && index < |items|
      && (forall k :: 0 <= k < slides.Length ==> (slides[k].Some? <==> k in loadRequests))
      && (forall a, b :: 0 <= a < b < |loadRequests| ==> loadRequests[a] != loadRequests[b])
      && (forall a :: 0 <= a < |loadRequests| ==> loadRequests[a] < |items|)
    }

    ghost predicate ZoomsValid()
      reads this`zooms, slides, zooms.Values
    {
      forall k :: k in zooms ==>
        zoomImages && k < slides.Length && slides[k].Some? && IsZoomableImage(slides[k].value) && zooms[k].Valid()
    }

    /** The slides whose image carries the swipe-disabled marker. */
    function SwipedSlides(): set<nat>
      reads this, zooms.Values
    {
      set k | k in zooms && zooms[k].swipeDisabled
    }

    /** `s1` is `s0` with every empty slide of `w` given the content `loadItem` leaves there. */
    ghost predicate FilledFrom(s0: seq<Option<Element>>, s1: seq<Option<Element>>, w: set<nat>) {
      && |s0| == |initial| && |s1| == |initial|
      && forall k {:trigger s1[k]} :: 0 <= k < |s1| ==> s1[k] == (if s0[k].None? && k in w then Some(initial[k]) else s0[k])
    }

    /** Nothing but the slides, the load requests and the preload timers changed. */
    twostate predicate ViewKept()
      reads this
    {
      && index == old(index) && isOpen == old(isOpen) && draggable == old(draggable) && caption == old(caption)
      && controlsActive == old(controlsActive) && controlsTimerPending == old(controlsTimerPending)
      && zooms == old(zooms) && showRequests == old(showRequests) && fits == old(fits)
    }

    constructor (items: seq<Item>, propDraggable: bool, preload: int, zoomImages: bool, videoAutoplay: bool)
      requires |items| > 0
      ensures Valid() && fresh(slides)
      ensures this.items == items && this.propDraggable == propDraggable && this.preload == preload
      ensures this.zoomImages == zoomImages && this.videoAutoplay == videoAutoplay
      ensures |initial| == |items| && forall k :: 0 <= k < |items| ==> initial[k] == SyncContent(items[k], videoAutoplay)
      ensures forall k :: 0 <= k < slides.Length ==> slides[k].None?
      ensures index == 0 && !isOpen && draggable == propDraggable && caption == ""
      ensures !controlsActive && !controlsTimerPending && pendingPreloads == 0
      ensures loadRequests == [] && zooms == map[] && showRequests == [] && fits == map[]
    {
      this.items := items;
      this.propDraggable := propDraggable;
      this.preload := preload;
      this.zoomImages := zoomImages;
      this.videoAutoplay := videoAutoplay;
      initial := seq(|items|, k requires 0 <= k < |items| => SyncContent(items[k], videoAutoplay));
      slides := new Option<Element>[|items|](_ => None);
      index := 0;
      isOpen := false;
      draggable := propDraggable;
      caption := "";
      controlsActive := false;
      controlsTimerPending := false;
      pendingPreloads := 0;
      loadRequests := [];
      zooms := map[];
      showRequests := [];
      fits := map[];
    }

    /**
     * `loadItem(i)`: for the item at the wrapped position, emit `itemload` unless its
     * slide already has content. The handler's synchronous part leaves the spinner,
     * or the iframe, in the slide; a loaded slide is left exactly as it was.
     */
    method LoadItem(i: int)
      requires Valid()
      modifies this, slides
      ensures Valid() && ViewKept() && pendingPreloads == old(pendingPreloads)
      ensures FilledFrom(old(slides[..]), slides[..], {Wrap(i, |items|)})
      ensures var w := Wrap(i, |items|);
              loadRequests == old(loadRequests) + (if old(slides[w]).None? then [w] else [])
      ensures old(slides[Wrap(i, |items|)]).Some? ==> unchanged(this) && unchanged(slides)
    {
      var w := Wrap(i, |items|);
      if slides[w].None? {
        slides[w] := Some(initial[w]);
        loadRequests := loadRequests + [w];
      }
    }

    /** The slideshow's draggable flag from the current slide's image. */
    method SetDraggableState()
      requires Valid()
      modifies this
      ensures Valid() && draggable == DraggableIntended(propDraggable, slides[..], index, SwipedSlides())
      ensures index == old(index) && isOpen == old(isOpen) && caption == old(caption)
      ensures controlsActive == old(controlsActive) && controlsTimerPending == old(controlsTimerPending)
      ensures pendingPreloads == old(pendingPreloads) && loadRequests == old(loadRequests)
      ensures zooms == old(zooms) && showRequests == old(showRequests) && fits == old(fits)
    {
      var d := propDraggable;
      if d {
        var slide := GetSlide(slides.Length, ItemArg(index));
        var img := QueryImage(slides[..], slide);
        if img.Some? {
          d := !(img.value in zooms && zooms[img.value].swipeDisabled);
        }
      }
      draggable := d;
    }

    /** `html(slide, content)`: the content replaces the slide's children, and with them any zoom controller. */
    method ReplaceContent(k: nat, content: Element)
      requires Valid() && k < slides.Length && slides[k].Some?
      modifies this, slides
      ensures Valid()
      ensures slides[..] == old(slides[..])[k := Some(content)] && loadRequests == old(loadRequests)
      ensures zooms == old(zooms) - {k} && fits == old(fits) - {k}
      ensures index == old(index) && isOpen == old(isOpen) && draggable == old(draggable) && caption == old(caption)
      ensures controlsActive == old(controlsActive) && controlsTimerPending == old(controlsTimerPending)
      ensures pendingPreloads == old(pendingPreloads) && showRequests == old(showRequests)
    {
      zooms := zooms - {k};
      fits := fits - {k};
      slides[k] := Some(content);
    }

    /** `scaleImgToSlide` on slide `k`'s image, measured as `d`: the size style it leaves. */
    method ScaleImgToSlide(k: nat, d: Dims)
      requires d.imgW >= 0.0 && d.imgH >= 0.0 && d.slideW >= 0.0 && d.slideH >= 0.0
      modifies this`fits
      ensures fits == old(fits)[k := FitToSlide(d.imgW, d.imgH, d.slideW, d.slideH)]
    {
      fits := fits[k := FitToSlide(d.imgW, d.imgH, d.slideW, d.slideH)];
    }

    /**
     * `initZoom` on the image of slide `k`: a fresh controller that starts zoomed out,
     * the draggable flag, then the image is fitted to the slide as measured by `d`.
     */
    method AttachZoom(k: nat, d: Dims)
      requires Valid() && zoomImages && k < slides.Length && slides[k].Some? && IsZoomableImage(slides[k].value)
      requires d.imgW >= 0.0 && d.imgH >= 0.0 && d.slideW >= 0.0 && d.slideH >= 0.0
      modifies this
      ensures Valid() && slides[..] == old(slides[..]) && loadRequests == old(loadRequests)
      ensures k in zooms && fresh(zooms[k]) && zooms == old(zooms)[k := zooms[k]]
      ensures zooms[k].hasSrcset == ("srcset" in slides[k].value.attrs) && zooms[k].originalSrc == SrcText(slides[k].value)
      ensures zooms[k].panDisabled && !zooms[k].Zoomed() && zooms[k].calls == [] && zooms[k].upgrades == 0
      ensures draggable == DraggableIntended(propDraggable, slides[..], index, SwipedSlides())
      ensures index == old(index) && isOpen == old(isOpen) && caption == old(caption)
      ensures controlsActive == old(controlsActive) && controlsTimerPending == old(controlsTimerPending)
      ensures pendingPreloads == old(pendingPreloads) && showRequests == old(showRequests)
      ensures fits == old(fits)[k := FitToSlide(d.imgW, d.imgH, d.slideW, d.slideH)]
    {
      // `scaleImgToSlide` comes last in `initZoom`; it touches only the fit, so it is done first here.
      fits := fits[k := FitToSlide(d.imgW, d.imgH, d.slideW, d.slideH)];
      var img := slides[k].value;
      var z := new ZoomImage("srcset" in img.attrs, SrcText(img), false, false);
      zooms := zooms[k := z];
      assert ZoomsValid();
      SetDraggableState();
    }

    /**
     * `setItem` for slide `k` after its `itemload` (a load or error listener, or the
     * Vimeo lookup, committing a content), followed by `itemloaded`: a lightbox image
     * gets a zoom controller when images are zoomable. The content is one that the
     * slide's own handler commits after its spinner, for some lookup outcome and
     * some sequence of the element's events.
     */
    method CommitItem(k: nat, content: Element, d: Dims, ghost lookup: OEmbedOutcome, ghost events: seq<MediaEvent>)
      requires Valid() && k < slides.Length && slides[k].Some?
      requires d.imgW >= 0.0 && d.imgH >= 0.0 && d.slideW >= 0.0 && d.slideH >= 0.0
      requires content in ItemLoad(items[k], videoAutoplay, lookup, events)[1..]
      modifies this, slides
      ensures Valid()
      ensures slides[..] == old(slides[..])[k := Some(content)] && loadRequests == old(loadRequests)
      ensures zoomImages && IsZoomableImage(content) ==>
        && k in zooms && fresh(zooms[k]) && zooms == (old(zooms) - {k})[k := zooms[k]]
        && zooms[k].hasSrcset == ("srcset" in content.attrs) && zooms[k].originalSrc == SrcText(content)
        && zooms[k].panDisabled && !zooms[k].Zoomed() && zooms[k].calls == [] && zooms[k].upgrades == 0
        && draggable == DraggableIntended(propDraggable, slides[..], index, SwipedSlides())
        && fits == (old(fits) - {k})[k := FitToSlide(d.imgW, d.imgH, d.slideW, d.slideH)]
      ensures !(zoomImages && IsZoomableImage(content)) ==>
        zooms == old(zooms) - {k} && draggable == old(draggable) && fits == old(fits) - {k}
      ensures index == old(index) && isOpen == old(isOpen) && caption == old(caption)
      ensures controlsActive == old(controlsActive) && controlsTimerPending == old(controlsTimerPending)
      ensures pendingPreloads == old(pendingPreloads) && showRequests == old(showRequests)
    {
      ReplaceContent(k, content);
      if zoomImages && IsZoomableImage(content) {
        AttachZoom(k, d);
      }
    }

    /** `setError`: the error marker replaces the slide's children; only the handler's error paths call it. */
    method SetError(k: nat, ghost lookup: OEmbedOutcome, ghost events: seq<MediaEvent>)
      requires Valid() && k < slides.Length && slides[k].Some?
      requires ErrorIcon in ItemLoad(items[k], videoAutoplay, lookup, events)[1..]
      modifies this, slides
      ensures Valid()
      ensures slides[..] == old(slides[..])[k := Some(ErrorIcon)] && loadRequests == old(loadRequests)
      ensures zooms == old(zooms) - {k} && draggable == old(draggable) && fits == old(fits) - {k}
      ensures index == old(index) && isOpen == old(isOpen) && caption == old(caption)
      ensures controlsActive == old(controlsActive) && controlsTimerPending == old(controlsTimerPending)
      ensures pendingPreloads == old(pendingPreloads) && showRequests == old(showRequests)
    {
      CommitItem(k, ErrorIcon, Dims(0.0, 0.0, 0.0, 0.0), lookup, events);
    }

    /** `beforeitemshow` while closed: open the panel without animation and stop dragging until the slide is shown. */
    method OnBeforeItemShow()
      requires Valid()
      modifies this
      ensures Valid() && isOpen
      ensures old(isOpen) ==> unchanged(this)
      ensures !old(isOpen) ==> !draggable
      ensures index == old(index) && caption == old(caption) && pendingPreloads == old(pendingPreloads)
      ensures controlsActive == old(controlsActive) && controlsTimerPending == old(controlsTimerPending)
      ensures loadRequests == old(loadRequests) && zooms == old(zooms) && showRequests == old(showRequests) && fits == old(fits)
    {
      if !isOpen {
        draggable := false;
        isOpen := true;
      }
    }

    /**
     * `itemshow` after the slideshow made slide `i` current: show its caption, load it
     * when empty or else fit its image to the slide as measured by `d`, and schedule one
     * preload timer.
     */
    method OnItemShow(i: nat, d: Dims)
      requires Valid() && i < |items|
      requires d.imgW >= 0.0 && d.imgH >= 0.0 && d.slideW >= 0.0 && d.slideH >= 0.0
      modifies this, slides
      ensures Valid() && index == i
      ensures caption == items[i].caption.GetOr("")
      ensures FilledFrom(old(slides[..]), slides[..], {i})
      ensures loadRequests == old(loadRequests) + (if old(slides[i]).None? then [i] else [])
      ensures pendingPreloads == old(pendingPreloads) + 1
      ensures isOpen == old(isOpen) && draggable == old(draggable)
      ensures controlsActive == old(controlsActive) && controlsTimerPending == old(controlsTimerPending)
      ensures zooms == old(zooms) && showRequests == old(showRequests)
      ensures fits == if ImageAt(old(slides[..]), i) then old(fits)[i := FitToSlide(d.imgW, d.imgH, d.slideW, d.slideH)] else old(fits)
    {
      LoadOrFit(i, d);
      index := i;
      caption := items[i].caption.GetOr("");
      pendingPreloads := pendingPreloads + 1;
    }

    /** The middle of `itemshow`: an empty slide is loaded, a slide holding an image has it fitted. */
    method LoadOrFit(i: nat, d: Dims)
      requires Valid() && i < |items|
      requires d.imgW >= 0.0 && d.imgH >= 0.0 && d.slideW >= 0.0 && d.slideH >= 0.0
      modifies this, slides
      ensures Valid() && pendingPreloads == old(pendingPreloads)
      ensures FilledFrom(old(slides[..]), slides[..], {i})
      ensures loadRequests == old(loadRequests) + (if old(slides[i]).None? then [i] else [])
      ensures fits == if ImageAt(old(slides[..]), i) then old(fits)[i := FitToSlide(d.imgW, d.imgH, d.slideW, d.slideH)] else old(fits)
      ensures index == old(index) && isOpen == old(isOpen) && draggable == old(draggable) && caption == old(caption)
      ensures controlsActive == old(controlsActive) && controlsTimerPending == old(controlsTimerPending)
      ensures zooms == old(zooms) && showRequests == old(showRequests)
    {
      WrapInRange(i, |items|);
      if slides[i].None? {
        LoadItem(i);
      } else if ImageAt(slides[..], i) {
        ScaleImgToSlide(i, d);
      }
    }

    /** With content exactly on the requested slides before and after, the new requests are the filled slides. */
    lemma RequestsFollowFill(s0: seq<Option<Element>>, s1: seq<Option<Element>>, r0: seq<nat>, r1: seq<nat>, w: set<nat>)
      requires FilledFrom(s0, s1, w)
      requires forall k :: 0 <= k < |s0| ==> (s0[k].Some? <==> k in r0)
      requires forall k :: 0 <= k < |s1| ==> (s1[k].Some? <==> k in r1)
      ensures forall k :: 0 <= k < |s1| ==> (k in r1 <==> k in r0 || k in w)
    {
      assert forall k :: 0 <= k < |s1| ==> (s1[k].Some? <==> s0[k].Some? || k in w);
    }

    lemma FilledFromStep(s0: seq<Option<Element>>, s1: seq<Option<Element>>, s2: seq<Option<Element>>, w: set<nat>, v: set<nat>)
      requires FilledFrom(s0, s1, w) && FilledFrom(s1, s2, v)
      ensures FilledFrom(s0, s2, w + v)
    {
    }

    /** One turn of the preload loop: `loadItem(index + j)`, then `loadItem(index - j)`. */
    method PreloadTurn(j: nat)
      requires Valid()
      modifies this, slides
      ensures Valid() && ViewKept() && pendingPreloads == old(pendingPreloads)
      ensures FilledFrom(old(slides[..]), slides[..], {Wrap(index + j, |items|), Wrap(index - j, |items|)})
    {
      ghost var s0 := slides[..];
      LoadItem(index + j);
      ghost var s1 := slides[..];
      LoadItem(index - j);
      FilledFromStep(s0, s1, slides[..], {Wrap(index + j, |items|)}, {Wrap(index - j, |items|)});
      assert {Wrap(index + j, |items|)} + {Wrap(index - j, |items|)} == {Wrap(index + j, |items|), Wrap(index - j, |items|)};
    }

    /**
     * A preload timer fires: for every `j` from 0 to `preload`, `loadItem(index + j)`
     * and `loadItem(index - j)`, around the index current at that moment.
     */
    method PreloadTimerFired()
      requires Valid() && pendingPreloads > 0
      modifies this, slides
      ensures Valid() && ViewKept() && pendingPreloads == old(pendingPreloads) - 1
      ensures FilledFrom(old(slides[..]), slides[..], PreloadWindow(index, PreloadCount(preload), |items|))
      ensures forall k :: 0 <= k < |items| ==>
        (k in loadRequests <==> k in old(loadRequests) || k in PreloadWindow(index, PreloadCount(preload), |items|))
    {
      ghost var start := slides[..];
      ghost var done: set<nat> := {};
      var j: nat := 0;
      while j <= preload
        invariant j <= PreloadCount(preload) && done == PreloadWindow(index, j, |items|)
        invariant Valid() && ViewKept() && pendingPreloads == old(pendingPreloads)
        invariant FilledFrom(start, slides[..], done)
      {
        ghost var before := slides[..];
        PreloadTurn(j);
        FilledFromStep(start, before, slides[..], done, {Wrap(index + j, |items|), Wrap(index - j, |items|)});
        done := done + {Wrap(index + j, |items|), Wrap(index - j, |items|)};
        j := j + 1;
      }
      PreloadWindowBounded(index, PreloadCount(preload), |items|);
      ConsumePreloadTimer();
      RequestsFollowFill(start, slides[..], old(loadRequests), loadRequests, done);
    }

    method ConsumePreloadTimer()
      requires Valid() && pendingPreloads > 0
      modifies this
      ensures Valid() && ViewKept() && pendingPreloads == old(pendingPreloads) - 1 && loadRequests == old(loadRequests)
    {
      pendingPreloads := pendingPreloads - 1;
    }

    /** `itemshown`: recompute the draggable flag. */
    method OnItemShown()
      requires Valid()
      modifies this
      ensures Valid() && draggable == DraggableIntended(propDraggable, slides[..], index, SwipedSlides())
      ensures index == old(index) && isOpen == old(isOpen) && caption == old(caption)
      ensures controlsActive == old(controlsActive) && controlsTimerPending == old(controlsTimerPending)
      ensures pendingPreloads == old(pendingPreloads) && loadRequests == old(loadRequests)
      ensures zooms == old(zooms) && showRequests == old(showRequests) && fits == old(fits)
    {
      SetDraggableState();
    }

    /** `itemhidden` for slide `k`: reset its zoom when images are zoomable. */
    method OnItemHidden(k: nat)
      requires Valid()
      modifies this, if k in zooms then {zooms[k]} else {}
      ensures Valid() && unchanged(this)
      ensures zoomImages && k in zooms ==> zooms[k].calls == old(zooms[k].calls) + [Reset]
    {
      if zoomImages && k in zooms {
        zooms[k].OnZoomReset();
      }
    }

    /** A `panzoomzoom` event of slide `k`'s image: the controller reacts and the draggable flag follows its markers. */
    method OnPanZoom(k: nat, scale: real)
      requires Valid() && k in zooms
      modifies this, zooms[k]
      ensures Valid() && zooms == old(zooms)
      ensures zooms[k].hasOriginalSrc == (old(zooms[k].hasOriginalSrc) || UpgradesSource(scale))
      ensures zooms[k].Zoomed() == (scale > 1.0) && zooms[k].panDisabled == !(scale > 1.0)
      ensures zooms[k].calls == old(zooms[k].calls) +
        (if scale > 1.0 then [] else PanCalls(old(zooms[k].isWaitingForAnimation), 0.0, 0.0, Animate))
      ensures draggable == DraggableIntended(propDraggable, slides[..], index, SwipedSlides())
      ensures index == old(index) && isOpen == old(isOpen) && caption == old(caption)
      ensures controlsActive == old(controlsActive) && controlsTimerPending == old(controlsTimerPending)
      ensures pendingPreloads == old(pendingPreloads) && loadRequests == old(loadRequests)
      ensures showRequests == old(showRequests) && fits == old(fits)
    {
      zooms[k].OnPanZoom(scale);
      SetDraggableState();
    }

    /**
     * The document's keydown while open: `+` and `-` zoom the current slide's image in
     * and out (the corrected target; see `KeyZoomSlideAsWritten`).
     */
    method OnKeyDown(key: string)
      requires Valid()
      modifies if index in zooms then {zooms[index]} else {}
      ensures Valid()
      ensures var zoomed := isOpen && zoomImages && index in zooms;
              && (zoomed && key == "+" ==> zooms[index].calls == old(zooms[index].calls) + [ZoomIn])
              && (zoomed && key == "-" ==> zooms[index].calls == old(zooms[index].calls) + [ZoomOut])
              && (!zoomed || (key != "+" && key != "-") ==> index in zooms ==> unchanged(zooms[index]))
    {
      if isOpen && zoomImages {
        var slide := KeyZoomSlide(slides.Length, index);
        if slide.Some? && slide.value in zooms {
          if key == "+" {
            zooms[slide.value].OnZoomIn();
          } else if key == "-" {
            zooms[slide.value].OnZoomOut();
          }
        }
      }
    }

    /** The document's keyup while open and draggable: ask the slideshow to show the key's target. */
    method OnKeyUp(keyCode: int)
      requires Valid()
      modifies this
      ensures Valid()
      ensures showRequests == old(showRequests) +
        (if isOpen && draggable && KeyUpTarget(keyCode).Some? then [KeyUpTarget(keyCode).value] else [])
      ensures index == old(index) && isOpen == old(isOpen) && draggable == old(draggable) && caption == old(caption)
      ensures controlsActive == old(controlsActive) && controlsTimerPending == old(controlsTimerPending)
      ensures pendingPreloads == old(pendingPreloads) && loadRequests == old(loadRequests) && zooms == old(zooms) && fits == old(fits)
    {
      if isOpen && draggable {
        var i := KeyUpTarget(keyCode);
        if i.Some? {
          showRequests := showRequests + [i.value];
        }
      }
    }

    /** Mouse, touch or key activity, or `shown`: show the controls and restart their hide timer (the old one is cleared). */
    method ShowControls()
      requires Valid()
      modifies this
      ensures Valid() && controlsActive && controlsTimerPending
      ensures index == old(index) && isOpen == old(isOpen) && draggable == old(draggable) && caption == old(caption)
      ensures pendingPreloads == old(pendingPreloads) && loadRequests == old(loadRequests)
      ensures zooms == old(zooms) && showRequests == old(showRequests) && fits == old(fits)
    {
      controlsTimerPending := true;
      controlsActive := true;
    }

    method HideControls()
      requires Valid()
      modifies this
      ensures Valid() && !controlsActive && controlsTimerPending == old(controlsTimerPending)
      ensures index == old(index) && isOpen == old(isOpen) && draggable == old(draggable) && caption == old(caption)
      ensures pendingPreloads == old(pendingPreloads) && loadRequests == old(loadRequests)
      ensures zooms == old(zooms) && showRequests == old(showRequests) && fits == old(fits)
    {
      controlsActive := false;
    }

    /** The controls timer fires after `delayControls` without activity. */
    method ControlsTimerFired()
      requires Valid() && controlsTimerPending
      modifies this
      ensures Valid() && !controlsActive && !controlsTimerPending
      ensures index == old(index) && isOpen == old(isOpen) && draggable == old(draggable) && caption == old(caption)
      ensures pendingPreloads == old(pendingPreloads) && loadRequests == old(loadRequests)
      ensures zooms == old(zooms) && showRequests == old(showRequests) && fits == old(fits)
    {
      controlsTimerPending := false;
      HideControls();
    }

    /** `hide`: the controls are hidden at once; their timer is not cleared. */
    method OnHide()
      requires Valid()
      modifies this
      ensures Valid() && !controlsActive && controlsTimerPending == old(controlsTimerPending)
      ensures index == old(index) && isOpen == old(isOpen) && draggable == old(draggable) && caption == old(caption)
      ensures pendingPreloads == old(pendingPreloads) && loadRequests == old(loadRequests)
      ensures zooms == old(zooms) && showRequests == old(showRequests) && fits == old(fits)
    {
      HideControls();
    }

    /** `hidden`: the panel closes and is destroyed. */
    method OnHidden()
      requires Valid()
      modifies this
      ensures Valid() && !isOpen
      ensures index == old(index) && draggable == old(draggable) && caption == old(caption)
      ensures controlsActive == old(controlsActive) && controlsTimerPending == old(controlsTimerPending)
      ensures pendingPreloads == old(pendingPreloads) && loadRequests == old(loadRequests)
      ensures zooms == old(zooms) && showRequests == old(showRequests) && fits == old(fits)
    {
      isOpen := false;
    }
  }

  /** The `src` attribute of an element as text, empty when it is missing or not text. */
  function SrcText(el: Element): string {
    if "src" in el.attrs && el.attrs["src"].Text? then el.attrs["src"].text else ""
  }
}
