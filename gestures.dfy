/**
 * The two small rules the panel applies to a zoomable image besides Panzoom:
 * the double-tap detector registered on the image, and the decision how the
 * image is stretched to fill its slide.
 */
module Gestures {

  // ---------------------------------------------------------------- double tap

  /** The default maximum gap, in milliseconds, between the two taps of a double tap. */
  const DoubleTapDelay: real := 300.0

  /** The detector's two variables: the time of the last touchstart and whether the last touchmove used several fingers. */
  datatype TapState = TapState(lastTapTime: real, isMoving: bool)

  /** The detector starts with a last tap at time 0 (the clock's origin) and no movement. */
  const InitialTap: TapState := TapState(0.0, false)

  /** A touch event with its timestamp, or a move with the number of touches it reports. */
  datatype TouchEvent = TouchStart(time: real) | TouchMove(touches: nat)

  /**
   * The detector's reaction to one event: its new state and whether the callback
   * runs. Every touchstart records its time, also one that fires the callback.
   */
  function TapStep(st: TapState, ev: TouchEvent, delay: real): (TapState, bool) {
    match ev
    case TouchStart(now) =>
      var tapTime := now - st.lastTapTime;
      (TapState(now, st.isMoving), tapTime < delay && tapTime > 0.0 && !st.isMoving)
    case TouchMove(n) =>
      (TapState(st.lastTapTime, n > 1), false)
  }

  /** The state after a sequence of events. */
  function TapAfter(st: TapState, evs: seq<TouchEvent>, delay: real): TapState
    decreases |evs|
  {
    if evs == [] then st else TapAfter(TapStep(st, evs[0], delay).0, evs[1..], delay)
  }

  /** For each event of a sequence, whether it runs the callback. */
  function TapRun(st: TapState, evs: seq<TouchEvent>, delay: real): (r: seq<bool>)
    ensures |r| == |evs|
    decreases |evs|
  {
    if evs == [] then []
    else [TapStep(st, evs[0], delay).1] + TapRun(TapStep(st, evs[0], delay).0, evs[1..], delay)
  }

  /** The time of the last touchstart in `evs`, or `default` when there is none. */
  function LastStartTime(evs: seq<TouchEvent>, default: real): real
    decreases |evs|
  {
    if evs == [] then default
    else if evs[|evs| - 1].TouchStart? then evs[|evs| - 1].time
    else LastStartTime(evs[..|evs| - 1], default)
  }

  /** Whether the last touchmove in `evs` reported more than one touch, or `default` when there is none. */
  function LastMoveMulti(evs: seq<TouchEvent>, default: bool): bool
    decreases |evs|
  {
    if evs == [] then default
    else if evs[|evs| - 1].TouchMove? then evs[|evs| - 1].touches > 1
    else LastMoveMulti(evs[..|evs| - 1], default)
  }

  /** The state after a run is described by the last touchstart and the last touchmove alone. */
  lemma {:induction false} TapAfterIsLastEvents(st: TapState, evs: seq<TouchEvent>, delay: real)
    ensures TapAfter(st, evs, delay).lastTapTime == LastStartTime(evs, st.lastTapTime)
    ensures TapAfter(st, evs, delay).isMoving == LastMoveMulti(evs, st.isMoving)
    decreases |evs|
  {
    if evs != [] {
      var n := |evs| - 1;
      TapAfterSnoc(st, evs[..n], evs[n], delay);
      assert evs[..n] + [evs[n]] == evs;
      TapAfterIsLastEvents(st, evs[..n], delay);
    }
  }

  lemma {:induction false} TapAfterSnoc(st: TapState, evs: seq<TouchEvent>, ev: TouchEvent, delay: real)
    ensures TapAfter(st, evs + [ev], delay) == TapStep(TapAfter(st, evs, delay), ev, delay).0
    decreases |evs|
  {
    if evs != [] {
      assert (evs + [ev])[1..] == evs[1..] + [ev];
      TapAfterSnoc(TapStep(st, evs[0], delay).0, evs[1..], ev, delay);
    } else {
      assert [ev][1..] == [];
    }
  }

  lemma {:induction false} TapRunAt(st: TapState, evs: seq<TouchEvent>, delay: real, i: nat)
    requires i < |evs|
    ensures TapRun(st, evs, delay)[i] == TapStep(TapAfter(st, evs[..i], delay), evs[i], delay).1
    decreases i
  {
    if i > 0 {
      TapRunAt(TapStep(st, evs[0], delay).0, evs[1..], delay, i - 1);
      assert evs[1..][..i - 1] == evs[..i][1..];
    }
  }

  /**
   * The callback runs on event `i` exactly when it is a touchstart that comes more
   * than 0 and less than `delay` after the previous touchstart, and the last
   * touchmove before it reported at most one touch.
   */
  lemma DoubleTapFires(st: TapState, evs: seq<TouchEvent>, delay: real, i: nat)
    requires i < |evs|
    ensures TapRun(st, evs, delay)[i] <==>
      && evs[i].TouchStart?
      && 0.0 < evs[i].time - LastStartTime(evs[..i], st.lastTapTime) < delay
      && !LastMoveMulti(evs[..i], st.isMoving)
  {
    TapRunAt(st, evs, delay, i);
    TapAfterIsLastEvents(st, evs[..i], delay);
  }

  /**
   * Because a firing tap still records its time, three quick taps fire the callback
   * on the second and on the third tap.
   */
  lemma TripleTapFiresTwice(t: real)
    requires t >= DoubleTapDelay
    ensures TapRun(InitialTap, [TouchStart(t), TouchStart(t + 100.0), TouchStart(t + 200.0)], DoubleTapDelay)
            == [false, true, true]
  {
    var evs := [TouchStart(t), TouchStart(t + 100.0), TouchStart(t + 200.0)];
    var s1 := TapState(t, false);
    var s2 := TapState(t + 100.0, false);
    assert TapRun(s2, evs[2..], DoubleTapDelay) == [true];
    assert TapRun(s1, evs[1..], DoubleTapDelay) == [true] + TapRun(s2, evs[2..], DoubleTapDelay);
  }

  /** After a multi-touch move, no run of touchstarts fires the callback. */
  lemma {:induction false} PinchBlocksDoubleTap(st: TapState, evs: seq<TouchEvent>, delay: real)
    requires st.isMoving
    requires forall i :: 0 <= i < |evs| ==> evs[i].TouchStart?
    ensures forall i :: 0 <= i < |evs| ==> !TapRun(st, evs, delay)[i]
    decreases |evs|
  {
    if evs != [] {
      var next := TapStep(st, evs[0], delay).0;
      PinchBlocksDoubleTap(next, evs[1..], delay);
      assert TapRun(st, evs, delay) == [false] + TapRun(next, evs[1..], delay);
    }
  }

  /** The detector as registered on one image: its two variables and the delay it was created with. */
  class DoubleTap {
    const delay: real
    var lastTapTime: real
    var isMoving: bool

    function State(): TapState
      reads this
    {
      TapState(lastTapTime, isMoving)
    }

    constructor (delay: real)
      ensures this.delay == delay && State() == InitialTap
    {
      this.delay := delay;
      lastTapTime := 0.0;
      isMoving := false;
    }

    /** The touchstart listener; `fired` says whether it calls the callback. */
    method OnTouchStart(now: real) returns (fired: bool)
      modifies this
      ensures (State(), fired) == TapStep(old(State()), TouchStart(now), delay)
    {
      var tapTime := now - lastTapTime;
      lastTapTime := now;
      fired := false;
      if tapTime < delay && tapTime > 0.0 {
        if !isMoving {
          fired := true;
        }
      }
    }

    /** The touchmove listener. */
    method OnTouchMove(touches: nat)
      modifies this
      ensures State() == TapStep(old(State()), TouchMove(touches), delay).0
    {
      isMoving := touches > 1;
    }
  }

  // ---------------------------------------------------------------- fitting an image to its slide

  /** Which dimension is set to 100% after both were reset to `auto`; none while the image has no size yet. */
  datatype Fit = Unsized | FullWidth | FullHeight

  /**
   * The image fills its slide along the dimension where its aspect ratio is the
   * larger one. The ratios are compared by cross-multiplication, which agrees with
   * comparing the quotients whenever the slide has a height, and, like the
   * floating-point comparison with an infinite or undefined slide ratio, picks the
   * height when the slide has none.
   */
  function FitToSlide(imgW: real, imgH: real, slideW: real, slideH: real): (f: Fit)
    requires imgW >= 0.0 && imgH >= 0.0 && slideW >= 0.0 && slideH >= 0.0
    ensures f == Unsized <==> imgW == 0.0 || imgH == 0.0
    ensures f != Unsized && slideH > 0.0 ==> (f == FullWidth <==> imgW / imgH > slideW / slideH)
    ensures f != Unsized && slideH == 0.0 ==> f == FullHeight
  {
    if imgW == 0.0 || imgH == 0.0 then Unsized
    else if imgW * slideH > slideW * imgH then
      RatioOrder(imgW, imgH, slideW, slideH);
      FullWidth
    else
      RatioOrder(imgW, imgH, slideW, slideH);
      FullHeight
  }

  lemma RatioOrder(a: real, b: real, c: real, d: real)
    requires b > 0.0 && d >= 0.0
    ensures d > 0.0 ==> (a / b > c / d <==> a * d > c * b)
  {
    if d > 0.0 {
      assert a / b - c / d == (a * d - c * b) / (b * d);
    }
  }

  /**
   * Filling one dimension never crops the other: an image stretched to the slide's
   * width keeps its height inside the slide, and one stretched to the slide's height
   * keeps its width inside the slide.
   */
  lemma FitNoCrop(imgW: real, imgH: real, slideW: real, slideH: real)
    requires imgW > 0.0 && imgH > 0.0 && slideW >= 0.0 && slideH >= 0.0
    ensures FitToSlide(imgW, imgH, slideW, slideH) == FullWidth ==> imgH * (slideW / imgW) < slideH
    ensures FitToSlide(imgW, imgH, slideW, slideH) == FullHeight ==> imgW * (slideH / imgH) <= slideW
  {
    assert imgH * (slideW / imgW) == (slideW * imgH) / imgW;
    assert imgW * (slideH / imgH) == (imgW * slideH) / imgH;
    if imgW * slideH > slideW * imgH {
      assert (slideW * imgH) / imgW < (imgW * slideH) / imgW;
    } else {
      assert (imgW * slideH) / imgH <= (slideW * imgH) / imgH;
    }
  }
}
