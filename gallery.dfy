/**
 * The image carousel `GallerySlider`: a fixed list of slides, the index of
 * the one shown, an autoplay interval that advances it, and navigation by
 * buttons, arrow keys and horizontal swipes.
 */
module Gallery {
  import opened Wrappers
  import opened Timers
  import opened JsMath

  /** Smallest horizontal displacement, in pixels, that counts as a swipe. */
  const SwipeThreshold: int := 50

  /** What an input event asks the slider to do. */
  datatype Nav = Advance | Retreat | Stay

  /** The index after `nextSlide`: one further, wrapping from the last slide to the first. */
  function NextIndex(i: int, n: int): (r: int)
    requires 0 <= i < n
    ensures 0 <= r < n
    ensures r == if i == n - 1 then 0 else i + 1
  {
    (i + 1) % n
  }

  /** The index after `prevSlide`: one back, wrapping from the first slide to the last. */
  function PrevIndex(i: int, n: int): (r: int)
    requires 0 <= i < n
    ensures 0 <= r < n
    ensures r == if i == 0 then n - 1 else i - 1
  {
    (i - 1 + n) % n
  }

  /** The index after a navigation request. */
  function Step(i: int, n: int, nav: Nav): (r: int)
    requires 0 <= i < n
    ensures 0 <= r < n
    ensures nav == Stay ==> r == i
  {
    match nav
    case Advance => NextIndex(i, n)
    case Retreat => PrevIndex(i, n)
    case Stay => i
  }

  /** The index after `k` consecutive `nextSlide`s, autoplay ticks included. */
  function Advanced(i: int, n: int, k: nat): (r: int)
    requires 0 <= i < n
    ensures 0 <= r < n
  {
    if k == 0 then i else NextIndex(Advanced(i, n, k - 1), n)
  }

  /** Within one cycle, `k` steps forward from `i` land on `i + k`, wrapping
      past the last slide back to the first. */
  lemma {:induction false} AdvancedWithinCycle(i: int, n: int, k: nat)
    requires 0 <= i < n && k <= n
    ensures Advanced(i, n, k) == if i + k < n then i + k else i + k - n
  {
    if k > 0 {
      AdvancedWithinCycle(i, n, k - 1);
    }
  }

  /** Stepping `a` then `b` times is stepping `a + b` times. */
  lemma {:induction false} AdvancedCompose(i: int, n: int, a: nat, b: nat)
    requires 0 <= i < n
    ensures Advanced(Advanced(i, n, a), n, b) == Advanced(i, n, a + b)
  {
    if b > 0 {
      AdvancedCompose(i, n, a, b - 1);
    }
  }

  /** Advancing as many times as there are slides returns to the starting
      slide, and no shorter run of advances does. */
  lemma FullCycleReturns(i: int, n: int)
    requires 0 <= i < n
    ensures Advanced(i, n, n) == i
    ensures forall k: nat :: 0 < k < n ==> Advanced(i, n, k) != i
  {
    AdvancedWithinCycle(i, n, n);
    forall k: nat | 0 < k < n
      ensures Advanced(i, n, k) != i
    {
      AdvancedWithinCycle(i, n, k);
    }
  }

  /** The slide shown is periodic in the number of advances, with period the slide count. */
  lemma AdvancedPeriodic(i: int, n: int, k: nat)
    requires 0 <= i < n
    ensures Advanced(i, n, k + n) == Advanced(i, n, k)
  {
    AdvancedCompose(i, n, n, k);
    FullCycleReturns(i, n);
    AdvancedCompose(i, n, k, n);
    FullCycleReturns(Advanced(i, n, k), n);
  }

  /** `prevSlide` undoes `nextSlide` and the other way round. */
  lemma PrevUndoesNext(i: int, n: int)
    requires 0 <= i < n
    ensures PrevIndex(NextIndex(i, n), n) == i
    ensures NextIndex(PrevIndex(i, n), n) == i
  {
  }

  /** The keydown handler: `ArrowLeft` goes back, `ArrowRight` goes on, every other key is ignored. */
  function KeyAction(key: string): (nav: Nav)
    ensures nav == Retreat <==> key == "ArrowLeft"
    ensures nav == Advance <==> key == "ArrowRight"
    ensures nav == Stay <==> key != "ArrowLeft" && key != "ArrowRight"
  {
    if key == "ArrowLeft" then Retreat
    else if key == "ArrowRight" then Advance
    else Stay
  }

  /** The touchend handler: `diff = startX - endX`; more than the threshold to
      the left advances, more than the threshold to the right goes back, and a
      displacement of at most the threshold does nothing. */
  function SwipeAction(startX: int, endX: int): (nav: Nav)
    ensures nav == Advance <==> startX - endX > SwipeThreshold
    ensures nav == Retreat <==> startX - endX < -SwipeThreshold
    ensures nav == Stay <==> -SwipeThreshold <= startX - endX <= SwipeThreshold
  {
    var diff := startX - endX;
    if Abs(diff) > SwipeThreshold then
      (if diff > 0 then Advance else Retreat)
    else Stay
  }

  class GallerySlider {
    /** The slides in document order, each recorded by whether it holds an `<img>`. */
    const hasImage: seq<bool>
    const totalSlides: nat
    /** The `aria-hidden` attribute of each slide's image; `None` until first set. */
    const ariaHidden: array<Option<bool>>
    /** The autoplay intervals this slider has armed. */
    const timers: TimerTable<()>

    var currentIndex: int
    var isPlaying: bool
    var autoPlayInterval: Option<Handle>
    /** The track's `translateX`, in percent of its width. */
    var trackOffset: int
    /** Horizontal coordinate of the last `touchstart`; never reset. */
    var startX: int

    /** The fields every method relies on. */
    ghost predicate Shape()
      reads this, timers
    {
      && totalSlides == |hasImage| == ariaHidden.Length
      && totalSlides > 0
      && 0 <= currentIndex < totalSlides
      && timers.Valid()
    }

    /** Playing exactly when an interval handle is held, and that interval is armed. */
    ghost predicate Armed()
      reads this, timers
    {
      && (isPlaying <==> autoPlayInterval.Some?)
      && Held(autoPlayInterval) <= timers.armed.Keys
    }

    /** The track shows the current slide and exactly its image is exposed. */
    ghost predicate Rendered()
      reads this, ariaHidden
    {
      && trackOffset == -currentIndex * 100
      && ariaHidden.Length == |hasImage|
      && forall i :: 0 <= i < |hasImage| && hasImage[i] ==> ariaHidden[i] == Some(i != currentIndex)
    }

    ghost predicate Valid()
      reads this, timers, ariaHidden
    {
      && Shape()
      && Armed()
      && Rendered()
    }

    /** No interval is armed but the one the slider holds a handle to. */
    ghost predicate SingleTimer()
      reads this, timers
    {
      timers.armed.Keys == Held(autoPlayInterval)
    }

    /** The constructor once its guard has passed: index 0, playing, one interval
        armed, the first slide rendered. */
    constructor (hasImage: seq<bool>)
      requires |hasImage| > 0
      ensures Valid() && SingleTimer()
      ensures fresh(timers) && fresh(ariaHidden)
      ensures this.hasImage == hasImage && totalSlides == |hasImage|
      ensures currentIndex == 0 && isPlaying && startX == 0
    {
      this.hasImage := hasImage;
      totalSlides := |hasImage|;
      ariaHidden := new Option<bool>[|hasImage|](_ => None);
      timers := new TimerTable<()>();
      currentIndex := 0;
      isPlaying := true;
      autoPlayInterval := None;
      startX := 0;
      trackOffset := 0;
      new;
      StartAutoPlay();
      UpdateSlider();
    }

    /** `updateSlider`: move the track to the current slide and set every
        slide image's `aria-hidden` to whether it is not the current one. */
    method UpdateSlider()
      requires Shape()
      modifies this`trackOffset, ariaHidden
      ensures Shape() && Rendered()
      ensures forall i :: 0 <= i < |hasImage| && !hasImage[i] ==> ariaHidden[i] == old(ariaHidden[i])
    {
      trackOffset := -currentIndex * 100;
      var index := 0;
      while index < ariaHidden.Length
        invariant 0 <= index <= ariaHidden.Length
        invariant trackOffset == -currentIndex * 100
        invariant forall i :: 0 <= i < index && hasImage[i] ==> ariaHidden[i] == Some(i != currentIndex)
        invariant forall i :: 0 <= i < ariaHidden.Length && (index <= i || !hasImage[i]) ==> ariaHidden[i] == old(ariaHidden[i])
      {
        if hasImage[index] {
          ariaHidden[index] := Some(index != currentIndex);
        }
        index := index + 1;
      }
    }

    /** `startAutoPlay`: while playing, arm a fresh interval and keep its handle
        (overwriting, not clearing, any handle held before). */
    method StartAutoPlay()
      requires Shape()
      modifies this`autoPlayInterval, timers
      ensures Shape()
      ensures old(isPlaying) ==>
                autoPlayInterval.Some? && autoPlayInterval.value > old(timers.issued)
                && timers.armed.Keys == old(timers.armed.Keys) + {autoPlayInterval.value}
      ensures !old(isPlaying) ==>
                autoPlayInterval == old(autoPlayInterval) && timers.armed == old(timers.armed)
    {
      if !isPlaying {
        return;
      }
      var h := timers.Schedule(());
      autoPlayInterval := Some(h);
    }

    /** `resetAutoPlay`: clear the held interval (keeping the stale handle) and,
        while playing, arm a fresh one. */
    method ResetAutoPlay()
      requires Shape() && Armed()
      modifies this`autoPlayInterval, timers
      ensures Shape() && Armed()
      ensures isPlaying ==> autoPlayInterval.value !in old(timers.armed)
      ensures timers.armed.Keys == old(timers.armed.Keys) - Held(old(autoPlayInterval)) + Held(autoPlayInterval)
    {
      if autoPlayInterval.Some? {
        timers.Cancel(autoPlayInterval.value);
      }
      if isPlaying {
        StartAutoPlay();
      }
    }

    /** `nextSlide`: advance with wrap-around, re-render, restart the autoplay cadence. */
    method NextSlide()
      requires Valid()
      modifies this`currentIndex, this`trackOffset, this`autoPlayInterval, timers, ariaHidden
      ensures Valid()
      ensures currentIndex == NextIndex(old(currentIndex), totalSlides)
      ensures isPlaying == old(isPlaying)
      ensures isPlaying ==> autoPlayInterval.value !in old(timers.armed)
      ensures timers.armed.Keys == old(timers.armed.Keys) - Held(old(autoPlayInterval)) + Held(autoPlayInterval)
      ensures old(SingleTimer()) ==> SingleTimer()
    {
      currentIndex := (currentIndex + 1) % totalSlides;
      UpdateSlider();
      ResetAutoPlay();
    }

    /** `prevSlide`: go back with wrap-around, re-render, restart the autoplay cadence. */
    method PrevSlide()
      requires Valid()
      modifies this`currentIndex, this`trackOffset, this`autoPlayInterval, timers, ariaHidden
      ensures Valid()
      ensures currentIndex == PrevIndex(old(currentIndex), totalSlides)
      ensures isPlaying == old(isPlaying)
      ensures isPlaying ==> autoPlayInterval.value !in old(timers.armed)
      ensures timers.armed.Keys == old(timers.armed.Keys) - Held(old(autoPlayInterval)) + Held(autoPlayInterval)
      ensures old(SingleTimer()) ==> SingleTimer()
    {
      currentIndex := (currentIndex - 1 + totalSlides) % totalSlides;
      UpdateSlider();
      ResetAutoPlay();
    }

    /** Carry out a classified input event. */
    method Navigate(nav: Nav)
      requires Valid()
      modifies this`currentIndex, this`trackOffset, this`autoPlayInterval, timers, ariaHidden
      ensures Valid()
      ensures currentIndex == Step(old(currentIndex), totalSlides, nav)
      ensures isPlaying == old(isPlaying)
      ensures nav == Stay ==>
                autoPlayInterval == old(autoPlayInterval) && timers.armed == old(timers.armed)
                && trackOffset == old(trackOffset) && ariaHidden[..] == old(ariaHidden[..])
      ensures nav != Stay ==> isPlaying ==> autoPlayInterval.value !in old(timers.armed)
      ensures nav != Stay ==>
        timers.armed.Keys == old(timers.armed.Keys) - Held(old(autoPlayInterval)) + Held(autoPlayInterval)
      ensures old(SingleTimer()) ==> SingleTimer()
    {
      match nav
      case Advance => NextSlide();
      case Retreat => PrevSlide();
      case Stay =>
    }

    /** The keydown listener. */
    method OnKeyDown(key: string)
      requires Valid()
      modifies this`currentIndex, this`trackOffset, this`autoPlayInterval, timers, ariaHidden
      ensures Valid()
      ensures currentIndex == Step(old(currentIndex), totalSlides, KeyAction(key))
      ensures isPlaying == old(isPlaying)
      ensures KeyAction(key) == Stay ==>
                autoPlayInterval == old(autoPlayInterval) && timers.armed == old(timers.armed)
                && trackOffset == old(trackOffset) && ariaHidden[..] == old(ariaHidden[..])
      ensures KeyAction(key) != Stay ==> isPlaying ==> autoPlayInterval.value !in old(timers.armed)
      ensures KeyAction(key) != Stay ==>
                timers.armed.Keys == old(timers.armed.Keys) - Held(old(autoPlayInterval)) + Held(autoPlayInterval)
      ensures old(SingleTimer()) ==> SingleTimer()
    {
      Navigate(KeyAction(key));
    }

    /** The touchstart listener: remember where the finger went down. */
    method OnTouchStart(x: int)
      modifies this`startX
      ensures startX == x
    {
      startX := x;
    }

    /** The touchend listener: classify the gesture against the last recorded
        `startX`, which stays as it was for the next gesture. */
    method OnTouchEnd(endX: int)
      requires Valid()
      modifies this`currentIndex, this`trackOffset, this`autoPlayInterval, timers, ariaHidden
      ensures Valid()
      ensures currentIndex == Step(old(currentIndex), totalSlides, SwipeAction(old(startX), endX))
      ensures startX == old(startX) && isPlaying == old(isPlaying)
      ensures SwipeAction(old(startX), endX) == Stay ==>
                autoPlayInterval == old(autoPlayInterval) && timers.armed == old(timers.armed)
                && trackOffset == old(trackOffset) && ariaHidden[..] == old(ariaHidden[..])
      ensures SwipeAction(old(startX), endX) != Stay ==> isPlaying ==> autoPlayInterval.value !in old(timers.armed)
      ensures SwipeAction(old(startX), endX) != Stay ==>
                timers.armed.Keys == old(timers.armed.Keys) - Held(old(autoPlayInterval)) + Held(autoPlayInterval)
      ensures old(SingleTimer()) ==> SingleTimer()
    {
      Navigate(SwipeAction(startX, endX));
    }

    /** An armed autoplay interval elapses: `nextSlide`, which also clears and re-arms it. */
    method OnAutoPlayTick(h: Handle)
      requires Valid() && h in timers.armed
      modifies this`currentIndex, this`trackOffset, this`autoPlayInterval, timers, ariaHidden
      ensures Valid()
      ensures currentIndex == NextIndex(old(currentIndex), totalSlides)
      ensures isPlaying == old(isPlaying)
      ensures isPlaying ==> autoPlayInterval.value !in old(timers.armed)
      ensures timers.armed.Keys == old(timers.armed.Keys) - Held(old(autoPlayInterval)) + Held(autoPlayInterval)
      ensures old(SingleTimer()) ==> SingleTimer()
    {
      NextSlide();
    }

    /** `pauseAutoPlay` (mouseenter): stop playing and clear the held interval. */
    method PauseAutoPlay()
      requires Valid()
      modifies this`isPlaying, this`autoPlayInterval, timers
      ensures Valid()
      ensures !isPlaying && autoPlayInterval == None
      ensures timers.armed.Keys == old(timers.armed.Keys) - Held(old(autoPlayInterval))
      ensures old(SingleTimer()) ==> timers.armed == map[]
    {
      isPlaying := false;
      if autoPlayInterval.Some? {
        timers.Cancel(autoPlayInterval.value);
        autoPlayInterval := None;
      }
    }

    /** `resumeAutoPlay` (mouseleave): play and arm a fresh interval, without
        clearing one that may already be armed. */
    method ResumeAutoPlay()
      requires Valid()
      modifies this`isPlaying, this`autoPlayInterval, timers
      ensures Valid()
      ensures isPlaying && autoPlayInterval.value !in old(timers.armed)
      ensures timers.armed.Keys == old(timers.armed.Keys) + {autoPlayInterval.value}
      ensures old(!isPlaying && SingleTimer()) ==> SingleTimer()
      ensures old(isPlaying) ==> old(autoPlayInterval.value) in timers.armed && |timers.armed| >= 2
    {
      isPlaying := true;
      StartAutoPlay();
      assert old(isPlaying) ==> {old(autoPlayInterval.value), autoPlayInterval.value} <= timers.armed.Keys;
    }
  }

  /** Page start-up: without a track or without slides the constructor returns
      before doing anything, so no slider is running. */
  method Mount(trackPresent: bool, hasImage: seq<bool>) returns (s: Option<GallerySlider>)
    ensures s.Some? <==> trackPresent && |hasImage| > 0
    ensures s.Some? ==>
              fresh(s.value) && s.value.Valid() && s.value.SingleTimer()
              && s.value.currentIndex == 0 && s.value.isPlaying
  {
    if !trackPresent || |hasImage| == 0 {
      return None;
    }
    var slider := new GallerySlider(hasImage);
    s := Some(slider);
  }
}
