/**
 * The zoom controller the panel attaches to every loaded lightbox image: the
 * pan clamping rules, and the per-image state of `initZoom` (the one-time
 * source upgrade, the animation guard and the two zoom markers). Panzoom itself
 * is foreign: its calls are recorded in a log and its events arrive as method calls.
 */
module Zoom {
  import opened Util
  import opened Gestures

  /** The `maxScale` option given to Panzoom. */
  const MaxScale: real := 3.0

  /** Zooming in beyond this scale switches the image to its original source. */
  const OriginalImageSrcThreshold: real := 2.0

  /** The `animate` option given to Panzoom, the default of every pan. */
  const Animate: bool := true

  // ---------------------------------------------------------------- pan clamping

  function Abs(x: real): real {
    if x < 0.0 then -x else x
  }

  /** The host library's `clamp(v, lo, hi)`: `min(max(v, lo), hi)`. */
  function Clamp(v: real, lo: real, hi: real): real {
    var atLeast := if v > lo then v else lo;
    if atLeast < hi then atLeast else hi
  }

  /** How far the image may be moved from the centre along one axis: half the overhang, in unscaled units. */
  function MaxOffset(imgDim: real, slideDim: real, scale: real): real
    requires scale > 0.0
  {
    (imgDim - slideDim) / scale / 2.0
  }

  lemma MaxOffsetNonNegative(imgDim: real, slideDim: real, scale: real)
    requires scale > 0.0 && imgDim >= slideDim
    ensures MaxOffset(imgDim, slideDim, scale) >= 0.0
  {
    assert (imgDim - slideDim) / scale >= 0.0;
  }

  /**
   * One axis of `constrainPan`: an image narrower than the slide is centred; a wider
   * one may move at most half its overhang either way, and a position already
   * within that range is kept.
   */
  function ClampPanToOffset(value: real, imgDim: real, slideDim: real, scale: real): (r: real)
    requires scale > 0.0
    ensures imgDim < slideDim ==> r == 0.0
    ensures imgDim >= slideDim ==>
      -MaxOffset(imgDim, slideDim, scale) <= r <= MaxOffset(imgDim, slideDim, scale)
    ensures imgDim >= slideDim && -MaxOffset(imgDim, slideDim, scale) <= value <= MaxOffset(imgDim, slideDim, scale)
      ==> r == value
  {
    if imgDim >= slideDim then
      var m := MaxOffset(imgDim, slideDim, scale);
      MaxOffsetNonNegative(imgDim, slideDim, scale);
      Clamp(value, -m, m)
    else
      0.0
  }

  /** The clamped position is the allowed position nearest to the requested one. */
  lemma ClampIsNearest(value: real, imgDim: real, slideDim: real, scale: real, y: real)
    requires scale > 0.0 && imgDim >= slideDim
    requires -MaxOffset(imgDim, slideDim, scale) <= y <= MaxOffset(imgDim, slideDim, scale)
    ensures Abs(ClampPanToOffset(value, imgDim, slideDim, scale) - value) <= Abs(y - value)
  {
  }

  /** Clamping an already clamped position changes nothing. */
  lemma ClampIdempotent(value: real, imgDim: real, slideDim: real, scale: real)
    requires scale > 0.0
    ensures var c := ClampPanToOffset(value, imgDim, slideDim, scale);
            ClampPanToOffset(c, imgDim, slideDim, scale) == c
  {
  }

  /** The measured sizes of the image and of its slide. */
  datatype Dims = Dims(imgW: real, imgH: real, slideW: real, slideH: real)

  /**
   * `constrainPan`: the position to pan to when the pan ended outside the allowed
   * range on at least one axis, and nothing when both axes are already in range.
   */
  function ConstrainPan(scale: real, x: real, y: real, d: Dims): (r: Option<(real, real)>)
    requires scale > 0.0
    ensures r.None? <==>
      x == ClampPanToOffset(x, d.imgW, d.slideW, scale) && y == ClampPanToOffset(y, d.imgH, d.slideH, scale)
    ensures r.Some? ==>
      r.value == (ClampPanToOffset(x, d.imgW, d.slideW, scale), ClampPanToOffset(y, d.imgH, d.slideH, scale))
  {
    var cx := ClampPanToOffset(x, d.imgW, d.slideW, scale);
    var cy := ClampPanToOffset(y, d.imgH, d.slideH, scale);
    if x != cx || y != cy then Some((cx, cy)) else None
  }

  /** A corrective pan lands where a second pan end at the same scale and sizes asks for nothing. */
  lemma ConstrainPanSettles(scale: real, x: real, y: real, d: Dims)
    requires scale > 0.0
    requires ConstrainPan(scale, x, y, d).Some?
    ensures var t := ConstrainPan(scale, x, y, d).value;
            ConstrainPan(scale, t.0, t.1, d).None?
  {
    ClampIdempotent(x, d.imgW, d.slideW, scale);
    ClampIdempotent(y, d.imgH, d.slideH, scale);
  }

  /** A pan that ends inside the allowed rectangle is left alone; one outside it is corrected. */
  lemma ConstrainPanIffOutside(scale: real, x: real, y: real, d: Dims)
    requires scale > 0.0 && d.imgW >= d.slideW && d.imgH >= d.slideH
    ensures ConstrainPan(scale, x, y, d).None? <==>
      && Abs(x) <= MaxOffset(d.imgW, d.slideW, scale)
      && Abs(y) <= MaxOffset(d.imgH, d.slideH, scale)
  {
  }

  // ---------------------------------------------------------------- the per-image controller

  /** A call the controller makes on its Panzoom instance. */
  datatype PanzoomCall =
    | Pan(x: real, y: real, animate: bool)
    | SetOptions(disableZoom: bool, disablePan: bool)
    | ZoomIn
    | ZoomOut
    | ZoomWithWheel
    | Reset

  /** The calls `panAndWait` makes when no animation is running: block zooming and panning, then pan. */
  function PanCalls(waiting: bool, x: real, y: real, animate: bool): seq<PanzoomCall> {
    if waiting then [] else [SetOptions(true, true), Pan(x, y, animate)]
  }

  /**
   * `scale === maxScale || scale > originalImageSrcThreshold`. The maximum scale (3)
   * lies above the threshold (2), so the first disjunct adds no case.
   */
  predicate UpgradesSource(scale: real) {
    scale == MaxScale || scale > OriginalImageSrcThreshold
  }

  /**
   * The state one call of `initZoom` keeps for its image: whether the image came
   * with a srcset and its `src`, whether the image still has its `srcset`, the
   * animation guard and its timer, the pan-disabled and swipe-disabled markers,
   * the Panzoom defaults restored after an animation, and the calls made on Panzoom.
   */
  class ZoomImage {
    const hasSrcset: bool
    const originalSrc: string
    const defaultDisableZoom: bool
    const defaultDisablePan: bool
    const tap: DoubleTap
    var srcsetPresent: bool
    var hasOriginalSrc: bool
    var isWaitingForAnimation: bool
    var animationTimerPending: bool
    var panDisabled: bool
    var swipeDisabled: bool
    var calls: seq<PanzoomCall>
    ghost var upgrades: nat

    /**
     * The source is upgraded at most once and only for an image that had a srcset;
     * afterwards the srcset is gone. The guard is up exactly while its timer is
     * pending, and exactly one of the two markers is set.
     */
    ghost predicate Valid()
      reads this
    {
      && upgrades <= 1
      && (!hasSrcset ==> upgrades == 0)
      && (hasOriginalSrc <==> !hasSrcset || upgrades == 1)
      && (srcsetPresent <==> hasSrcset && upgrades == 0)
      && (isWaitingForAnimation <==> animationTimerPending)
      && panDisabled == !swipeDisabled
      && tap.delay == DoubleTapDelay
    }

    /** `initZoom` on an image: Panzoom is created, the image starts zoomed out, the double-tap detector is registered. */
    constructor (hasSrcset: bool, originalSrc: string, defaultDisableZoom: bool, defaultDisablePan: bool)
      ensures Valid() && fresh(tap) && tap.State() == InitialTap
      ensures this.hasSrcset == hasSrcset && this.originalSrc == originalSrc
      ensures this.defaultDisableZoom == defaultDisableZoom && this.defaultDisablePan == defaultDisablePan
      ensures hasOriginalSrc == !hasSrcset && srcsetPresent == hasSrcset && upgrades == 0
      ensures !isWaitingForAnimation && panDisabled && !swipeDisabled && calls == []
    {
      this.hasSrcset := hasSrcset;
      this.originalSrc := originalSrc;
      this.defaultDisableZoom := defaultDisableZoom;
      this.defaultDisablePan := defaultDisablePan;
      tap := new DoubleTap(DoubleTapDelay);
      srcsetPresent := hasSrcset;
      hasOriginalSrc := !hasSrcset;
      isWaitingForAnimation := false;
      animationTimerPending := false;
      panDisabled := true;
      swipeDisabled := false;
      calls := [];
      upgrades := 0;
    }

    /** Whether the image is zoomed in, as its swipe-disabled marker says. */
    predicate Zoomed()
      reads this
    {
      swipeDisabled
    }

    /** Switches to the original source and drops the srcset, once. */
    method SetOriginalSrc()
      requires Valid()
      modifies this
      ensures Valid() && hasOriginalSrc && !srcsetPresent
      ensures upgrades == old(upgrades) + (if old(hasOriginalSrc) then 0 else 1)
      ensures old(hasOriginalSrc) ==> unchanged(this)
      ensures isWaitingForAnimation == old(isWaitingForAnimation) && animationTimerPending == old(animationTimerPending)
      ensures panDisabled == old(panDisabled) && swipeDisabled == old(swipeDisabled) && calls == old(calls)
    {
      if !hasOriginalSrc {
        // The source writes back the `src` it read; that only makes the browser reload
        // the image without the srcset, so the attribute itself keeps its value.
        srcsetPresent := false;
        hasOriginalSrc := true;
        upgrades := upgrades + 1;
      }
    }

    /** Sets the pan-disabled marker when zoomed out and the swipe-disabled marker when zoomed in. */
    method ToggleImgZoomedCls(hasZoomed: bool)
      requires Valid()
      modifies this
      ensures Valid() && panDisabled == !hasZoomed && swipeDisabled == hasZoomed
      ensures hasOriginalSrc == old(hasOriginalSrc) && srcsetPresent == old(srcsetPresent) && upgrades == old(upgrades)
      ensures isWaitingForAnimation == old(isWaitingForAnimation) && animationTimerPending == old(animationTimerPending)
      ensures calls == old(calls)
    {
      panDisabled := !hasZoomed;
      swipeDisabled := hasZoomed;
    }

    /** Pans unless an earlier pan is still animating: the first request wins until the timer fires. */
    method PanAndWait(x: real, y: real, animate: bool)
      requires Valid()
      modifies this
      ensures Valid() && isWaitingForAnimation && animationTimerPending
      ensures calls == old(calls) + PanCalls(old(isWaitingForAnimation), x, y, animate)
      ensures old(isWaitingForAnimation) ==> unchanged(this)
      ensures hasOriginalSrc == old(hasOriginalSrc) && srcsetPresent == old(srcsetPresent) && upgrades == old(upgrades)
      ensures panDisabled == old(panDisabled) && swipeDisabled == old(swipeDisabled)
    {
      if !isWaitingForAnimation {
        isWaitingForAnimation := true;
        calls := calls + [SetOptions(true, true)];
        calls := calls + [Pan(x, y, animate)];
        animationTimerPending := true;
      }
    }

    /** The animation timer: lowers the guard and restores Panzoom's own zoom and pan settings. */
    method AnimationTimerFired()
      requires Valid() && animationTimerPending
      modifies this
      ensures Valid() && !isWaitingForAnimation && !animationTimerPending
      ensures calls == old(calls) + [SetOptions(defaultDisableZoom, defaultDisablePan)]
      ensures hasOriginalSrc == old(hasOriginalSrc) && srcsetPresent == old(srcsetPresent) && upgrades == old(upgrades)
      ensures panDisabled == old(panDisabled) && swipeDisabled == old(swipeDisabled)
    {
      isWaitingForAnimation := false;
      animationTimerPending := false;
      calls := calls + [SetOptions(defaultDisableZoom, defaultDisablePan)];
    }

    /**
     * A `panzoomzoom` event at `scale`: upgrade the source when zoomed far enough, set
     * the markers from `scale > 1`, and pan back to the centre when zoomed out.
     */
    method OnPanZoom(scale: real)
      requires Valid()
      modifies this
      ensures Valid()
      ensures hasOriginalSrc == (old(hasOriginalSrc) || UpgradesSource(scale))
      ensures srcsetPresent == (old(srcsetPresent) && !UpgradesSource(scale))
      ensures upgrades == old(upgrades) + (if !old(hasOriginalSrc) && UpgradesSource(scale) then 1 else 0)
      ensures scale > OriginalImageSrcThreshold ==>
        hasOriginalSrc && !srcsetPresent && upgrades == (if hasSrcset then 1 else 0)
      ensures scale <= OriginalImageSrcThreshold ==>
        hasOriginalSrc == old(hasOriginalSrc) && srcsetPresent == old(srcsetPresent) && upgrades == old(upgrades)
      ensures swipeDisabled == (scale > 1.0) && panDisabled == !(scale > 1.0)
      ensures isWaitingForAnimation == (old(isWaitingForAnimation) || !(scale > 1.0))
      ensures calls == old(calls) +
        (if scale > 1.0 then [] else PanCalls(old(isWaitingForAnimation), 0.0, 0.0, Animate))
    {
      var hasZoomed := scale > 1.0;
      if UpgradesSource(scale) {
        SetOriginalSrc();
      }
      ToggleImgZoomedCls(hasZoomed);
      if !hasZoomed {
        PanAndWait(0.0, 0.0, Animate);
      }
    }

    /** A `panzoomend` event: pan back into range when the pan ended outside it. */
    method OnPanZoomEnd(scale: real, x: real, y: real, d: Dims)
      requires Valid() && scale > 0.0
      modifies this
      ensures Valid()
      ensures var c := ConstrainPan(scale, x, y, d);
              calls == old(calls) + (if c.Some? then PanCalls(old(isWaitingForAnimation), c.value.0, c.value.1, Animate) else [])
      ensures isWaitingForAnimation == (old(isWaitingForAnimation) || ConstrainPan(scale, x, y, d).Some?)
      ensures hasOriginalSrc == old(hasOriginalSrc) && srcsetPresent == old(srcsetPresent) && upgrades == old(upgrades)
      ensures panDisabled == old(panDisabled) && swipeDisabled == old(swipeDisabled)
    {
      var c := ConstrainPan(scale, x, y, d);
      if c.Some? {
        PanAndWait(c.value.0, c.value.1, Animate);
      }
    }

    /** The `zoom.in` event of the slide, a double click or a double tap: zoom in one double step. */
    method OnZoomIn()
      requires Valid()
      modifies this
      ensures Valid() && calls == old(calls) + [ZoomIn]
      ensures hasOriginalSrc == old(hasOriginalSrc) && srcsetPresent == old(srcsetPresent) && upgrades == old(upgrades)
      ensures isWaitingForAnimation == old(isWaitingForAnimation) && animationTimerPending == old(animationTimerPending)
      ensures panDisabled == old(panDisabled) && swipeDisabled == old(swipeDisabled)
    {
      calls := calls + [ZoomIn];
    }

    /** The `zoom.out` event of the slide. */
    method OnZoomOut()
      requires Valid()
      modifies this
      ensures Valid() && calls == old(calls) + [ZoomOut]
      ensures hasOriginalSrc == old(hasOriginalSrc) && srcsetPresent == old(srcsetPresent) && upgrades == old(upgrades)
      ensures isWaitingForAnimation == old(isWaitingForAnimation) && animationTimerPending == old(animationTimerPending)
      ensures panDisabled == old(panDisabled) && swipeDisabled == old(swipeDisabled)
    {
      calls := calls + [ZoomOut];
    }

    /** The `zoom.reset` event of the slide: reset without animation. */
    method OnZoomReset()
      requires Valid()
      modifies this
      ensures Valid() && calls == old(calls) + [Reset]
      ensures hasOriginalSrc == old(hasOriginalSrc) && srcsetPresent == old(srcsetPresent) && upgrades == old(upgrades)
      ensures isWaitingForAnimation == old(isWaitingForAnimation) && animationTimerPending == old(animationTimerPending)
      ensures panDisabled == old(panDisabled) && swipeDisabled == old(swipeDisabled)
    {
      calls := calls + [Reset];
    }

    /** The `wheel` event of the image. */
    method OnWheel()
      requires Valid()
      modifies this
      ensures Valid() && calls == old(calls) + [ZoomWithWheel]
      ensures hasOriginalSrc == old(hasOriginalSrc) && srcsetPresent == old(srcsetPresent) && upgrades == old(upgrades)
      ensures isWaitingForAnimation == old(isWaitingForAnimation) && animationTimerPending == old(animationTimerPending)
      ensures panDisabled == old(panDisabled) && swipeDisabled == old(swipeDisabled)
    {
      calls := calls + [ZoomWithWheel];
    }

    /** A touchstart on the image: a double tap zooms in. */
    method OnTouchStart(now: real)
      requires Valid()
      modifies this, tap
      ensures Valid()
      ensures var step := TapStep(old(tap.State()), TouchStart(now), DoubleTapDelay);
              tap.State() == step.0 && calls == old(calls) + (if step.1 then [ZoomIn] else [])
      ensures hasOriginalSrc == old(hasOriginalSrc) && srcsetPresent == old(srcsetPresent) && upgrades == old(upgrades)
      ensures isWaitingForAnimation == old(isWaitingForAnimation) && animationTimerPending == old(animationTimerPending)
      ensures panDisabled == old(panDisabled) && swipeDisabled == old(swipeDisabled)
    {
      var fired := tap.OnTouchStart(now);
      if fired {
        OnZoomIn();
      }
    }

    /** A touchmove on the image. */
    method OnTouchMove(touches: nat)
      requires Valid()
      modifies tap
      ensures Valid()
      ensures tap.State() == TapStep(old(tap.State()), TouchMove(touches), DoubleTapDelay).0
    {
      tap.OnTouchMove(touches);
    }
  }
}
