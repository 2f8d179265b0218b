/**
 * `HeaderAutoHide`: the fixed header is shown whenever the page scrolls and,
 * outside the hero region (the first viewport height), hidden again once
 * scrolling has paused for a while. Visibility is the pair of CSS classes
 * `visible` and `hidden` on the header element.
 */
module Header {
  import opened Wrappers
  import opened Timers
  import opened JsMath

  /** Smallest scroll distance, in pixels, that is processed at all. */
  const ScrollThreshold: int := 10

  /** The branch `handleScroll` takes for a scroll sample. */
  datatype ScrollStep =
    | Ignore      // jitter: return before touching anything
    | KeepShown   // inside the hero region: show, cancel the pending hide
    | ShowThenArm // beyond it: show now, schedule a hide

  function ClassifyScroll(lastScrollY: int, currentScrollY: int, innerHeight: int): (r: ScrollStep)
    ensures r == Ignore <==> -ScrollThreshold < currentScrollY - lastScrollY < ScrollThreshold
    ensures r == KeepShown <==> r != Ignore && currentScrollY <= innerHeight
    ensures r == ShowThenArm <==> r != Ignore && currentScrollY > innerHeight
  {
    if Abs(currentScrollY - lastScrollY) < ScrollThreshold then Ignore
    else if currentScrollY <= innerHeight then KeepShown
    else ShowThenArm
  }

  class HeaderAutoHide {
    /** Pending hide timers, each with the hero height captured when it was scheduled. */
    const timers: TimerTable<int>

    var lastScrollY: int
    /** Handle of the last hide timer scheduled; kept after it fires or is cleared. */
    var hideTimeout: Option<Handle>
    /** Whether the header carries the class `visible`, and the class `hidden`. */
    var visibleClass: bool
    var hiddenClass: bool

    /** At most one hide timer is pending, and it is the one the header holds. */
    ghost predicate Valid()
      reads this, timers
    {
      timers.Valid() && timers.armed.Keys <= Held(hideTimeout)
    }

    predicate Shown()
      reads this
    {
      visibleClass && !hiddenClass
    }

    predicate Hidden()
      reads this
    {
      hiddenClass && !visibleClass
    }

    /** The two classes are never both on the header. */
    predicate Exclusive()
      reads this
    {
      !(visibleClass && hiddenClass)
    }

    /** The constructor once the header element is known to exist: it records
        the scroll offset at start-up; the classes are whatever the markup has. */
    constructor (scrollY: int, visibleClass: bool, hiddenClass: bool)
      ensures Valid() && fresh(timers) && timers.armed == map[]
      ensures lastScrollY == scrollY && hideTimeout == None
      ensures this.visibleClass == visibleClass && this.hiddenClass == hiddenClass
    {
      timers := new TimerTable<int>();
      lastScrollY := scrollY;
      hideTimeout := None;
      this.visibleClass := visibleClass;
      this.hiddenClass := hiddenClass;
    }

    /** `showHeader`: add `visible`, remove `hidden`. */
    method ShowHeader()
      modifies this`visibleClass, this`hiddenClass
      ensures Shown()
    {
      visibleClass := true;
      hiddenClass := false;
    }

    /** `hideHeader`: add `hidden`, remove `visible`. */
    method HideHeader()
      modifies this`visibleClass, this`hiddenClass
      ensures Hidden()
    {
      hiddenClass := true;
      visibleClass := false;
    }

    /** `handleScroll`, one animation frame's evaluation of the scroll offset
        `currentScrollY` with viewport height `innerHeight`. */
    method HandleScroll(currentScrollY: int, innerHeight: int)
      requires Valid()
      modifies this, timers
      ensures Valid()
      ensures ClassifyScroll(old(lastScrollY), currentScrollY, innerHeight) == Ignore ==>
                lastScrollY == old(lastScrollY) && hideTimeout == old(hideTimeout)
                && visibleClass == old(visibleClass) && hiddenClass == old(hiddenClass)
                && timers.armed == old(timers.armed)
      ensures ClassifyScroll(old(lastScrollY), currentScrollY, innerHeight) == KeepShown ==>
                Shown() && lastScrollY == currentScrollY
                && hideTimeout == old(hideTimeout) && timers.armed == map[]
      ensures ClassifyScroll(old(lastScrollY), currentScrollY, innerHeight) == ShowThenArm ==>
                Shown() && lastScrollY == currentScrollY
                && hideTimeout.Some? && hideTimeout.value !in old(timers.armed)
                && timers.armed == map[hideTimeout.value := innerHeight]
      ensures old(Exclusive()) ==> Exclusive()
    {
      if Abs(currentScrollY - lastScrollY) < ScrollThreshold {
        return;
      }
      if hideTimeout.Some? {
        timers.Cancel(hideTimeout.value);
      }
      var heroHeight := innerHeight;
      if currentScrollY <= heroHeight {
        ShowHeader();
        lastScrollY := currentScrollY;
        return;
      }
      ShowHeader();
      var h := timers.Schedule(heroHeight);
      hideTimeout := Some(h);
      lastScrollY := currentScrollY;
    }

    /** The pending hide timer fires while the page is scrolled to `scrollY`:
        hide the header if that is still beyond the hero height captured when
        the timer was scheduled. */
    method OnHideTimeout(h: Handle, scrollY: int)
      requires Valid() && h in timers.armed
      modifies this`visibleClass, this`hiddenClass, timers
      ensures Valid()
      ensures old(hideTimeout) == Some(h) && timers.armed == map[]
      ensures scrollY > old(timers.armed[h]) ==> Hidden()
      ensures scrollY <= old(timers.armed[h]) ==>
                visibleClass == old(visibleClass) && hiddenClass == old(hiddenClass)
      ensures old(Exclusive()) ==> Exclusive()
    {
      var heroHeight := timers.Fire(h);
      if scrollY > heroHeight {
        HideHeader();
      }
    }
  }

  /** Page start-up: without a header element the constructor returns early
      and no scroll listener is installed. */
  method Mount(headerPresent: bool, scrollY: int, visibleClass: bool, hiddenClass: bool)
    returns (c: Option<HeaderAutoHide>)
    ensures c.Some? <==> headerPresent
    ensures c.Some? ==> fresh(c.value) && c.value.Valid() && c.value.lastScrollY == scrollY
  {
    if !headerPresent {
      return None;
    }
    var header := new HeaderAutoHide(scrollY, visibleClass, hiddenClass);
    c := Some(header);
  }

  /** The hero region does not always show the header. A header hidden just
      below the hero height stays hidden when the page scrolls back into the
      region by less than the jitter threshold, because that sample is ignored. */
  method JitterKeepsHeaderHiddenInHero() returns (c: HeaderAutoHide)
    ensures c.Hidden() && c.lastScrollY == 1005
  {
    c := new HeaderAutoHide(0, false, false);
    c.HandleScroll(1005, 1000);
    c.OnHideTimeout(c.hideTimeout.value, 1005);
    c.HandleScroll(996, 1000);
    assert ClassifyScroll(1005, 996, 1000) == Ignore;
    // the page is at 996, inside the 1000px hero region, and the header is hidden
  }

  /** The hide timer compares against the hero height captured when it was
      scheduled, not the current viewport height: after the viewport grows
      from 1000px to 1200px the header hides at 1100, inside the new hero region. */
  method ResizeHidesHeaderInHero() returns (c: HeaderAutoHide)
    ensures c.Hidden() && c.lastScrollY == 1100
  {
    c := new HeaderAutoHide(0, false, false);
    c.HandleScroll(1100, 1000);
    // the viewport now measures 1200px; no scroll sample is processed before the timer fires
    c.OnHideTimeout(c.hideTimeout.value, 1100);
  }
}
