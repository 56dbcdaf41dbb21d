/**
 * The ES6 class `SimpleCarousel` (dist/js/simple.carousel.es6.js). The constructor runs
 * `setup`; every later entry point is an event: an interval tick, the intersection
 * observer, the page visibility, the debounced mouse enter and leave, an indicator click,
 * a placeholder click, a video's `ended`, and the three touch events.
 */
module Es6Carousel {
  import opened Wrappers
  import opened Config
  import opened Dom
  import opened Lifecycle
  import Timers
  import Indicators
  import Prefetch
  import Host

  function Abs(x: int): nat {
    if x < 0 then -x else x
  }

  /** A horizontal move must exceed this many pixels to count as a swipe. */
  const SwipeThreshold := 50

  /**
   * `touchmove`: a move counts only when it is more horizontal than vertical and longer
   * than the threshold; to the right it goes back one item, to the left forward one.
   */
  function SwipeTarget(cur: int, n: int, dx: int, dy: int): (r: Option<int>)
    requires n > 0
    ensures r.Some? <==> Abs(dx) > Abs(dy) && Abs(dx) > SwipeThreshold
    ensures r.Some? && dx > 0 ==> r.value == (cur - 1 + n) % n
    ensures r.Some? && dx < 0 ==> r.value == (cur + 1) % n
    ensures r.Some? ==> 0 <= r.value < n
  {
    if Abs(dx) > Abs(dy) then
      if dx > SwipeThreshold then Some((cur - 1 + n) % n)
      else if dx < -SwipeThreshold then Some((cur + 1) % n)
      else None
    else None
  }

  /** A swipe to the left followed by an equally long swipe to the right comes back to the same item. */
  lemma SwipeLeftThenRight(cur: int, n: int, d: int)
    requires 0 <= cur < n && d > SwipeThreshold
    ensures SwipeTarget(cur, n, -d, 0) == Some((cur + 1) % n)
    ensures SwipeTarget((cur + 1) % n, n, d, 0) == Some(cur)
  {
    var m := (cur + 1) % n;
    if cur + 1 < n {
      Prefetch.ModUnique(cur + 1, n, 0, cur + 1);
      assert m == cur + 1;
      Prefetch.ModUnique(m - 1 + n, n, 1, cur);
    } else {
      Prefetch.ModUnique(cur + 1, n, 1, 0);
      assert m == 0;
      Prefetch.ModUnique(m - 1 + n, n, 0, cur);
    }
  }

  /** A swipe to the right followed by an equally long swipe to the left comes back to the same item. */
  lemma SwipeRightThenLeft(cur: int, n: int, d: int)
    requires 0 <= cur < n && d > SwipeThreshold
    ensures SwipeTarget(cur, n, d, 0) == Some((cur - 1 + n) % n)
    ensures SwipeTarget((cur - 1 + n) % n, n, -d, 0) == Some(cur)
  {
    var m := (cur - 1 + n) % n;
    if cur > 0 {
      Prefetch.ModUnique(cur - 1 + n, n, 1, cur - 1);
      assert m == cur - 1;
      Prefetch.ModUnique(m + 1, n, 0, cur);
    } else {
      Prefetch.ModUnique(cur - 1 + n, n, 0, n - 1);
      assert m == n - 1;
      Prefetch.ModUnique(m + 1, n, 1, cur);
    }
  }

  class Carousel {
    const settings: Settings
    const totalItems: nat
    /** Whether `'IntersectionObserver' in window`. */
    const hasObserver: bool

    var phase: Phase
    var listeners: Listeners
    /** `aria-live`, `role` and `aria-label` on the carousel element. */
    var labelled: bool
    var items: seq<Item>
    var indicators: Option<seq<bool>>
    var currentIndex: int
    var isVideoPlaying: bool
    var clock: Timers.Clock
    /** The calls `settings.onSlideChange(old, new)` received, in order. */
    var slideChanges: seq<(int, int)>
    /** The touch closure's variables. */
    var startX: int
    var startY: int
    var isSwiping: bool

    ghost predicate Valid()
      reads this
    {
      && |items| == totalItems
      && Timers.Valid(clock)
      && (isVideoPlaying ==> !Timers.Running(clock))
      && (phase == Disabled <==> totalItems <= 1)
      && (phase == Disabled ==>
            listeners == NoListeners && !labelled && indicators.None? && clock == Timers.Unset && !isVideoPlaying)
      && (phase != Disabled ==> labelled && listeners.visibility && listeners.observer == hasObserver)
      && (indicators.Some? ==> indicators.value == Indicators.Activated(totalItems, currentIndex))
      && (phase == Failed ==>
            && !(0 <= currentIndex < totalItems) && !listeners.mouse && !listeners.indicatorClicks && !listeners.touch && !isVideoPlaying
            && forall j :: 0 <= j < totalItems ==> items[j].hidden)
      && (phase == Active ==>
            && 0 <= currentIndex < totalItems && OnlyVisible(items, currentIndex)
            && listeners.mouse && listeners.touch
            && (listeners.indicatorClicks <==> indicators.Some?))
    }

    /** `new SimpleCarousel(element, options)`: the marker class, settings, then `setup`. */
    constructor (doc: Host.Document, options: Options, dataset: Dataset, markup: seq<Item>, hasObserver: bool)
      requires forall j :: 0 <= j < |markup| ==> Pristine(markup[j])
      modifies doc
      ensures Valid()
      ensures doc.rootClassName == Host.WithMarker(old(doc.rootClassName))
      ensures settings == ResolveDataset(Merge(Es6Defaults, options), dataset)
      ensures totalItems == |markup| && this.hasObserver == hasObserver
      ensures currentIndex == ReparseInt(settings.startIndex).value && !isVideoPlaying && slideChanges == [] && !isSwiping
      ensures phase == Disabled ==> items == markup
      ensures phase == Failed <==> |markup| > 1 && !(0 <= currentIndex < |markup|)
      ensures phase == Failed ==> items == Marked(markup, currentIndex)
      ensures phase == Failed ==> listeners == Listeners(hasObserver, true, false, false, false)
      ensures phase == Active ==>
        items == Prefetch.SetUp(markup, currentIndex, settings.prefetchItems, Accumulate)
      ensures indicators.Some? <==> phase != Disabled && settings.generateIndicators
      ensures clock == if phase != Disabled && !hasObserver then Timers.Start(Timers.Unset) else Timers.Unset
      ensures phase == Active ==>
        listeners == Listeners(hasObserver, true, true, settings.generateIndicators, true)
    {
      doc.MarkJs();
      var s := ResolveDataset(Merge(Es6Defaults, options), dataset);
      settings := s;
      this.hasObserver := hasObserver;
      var n := |markup|;
      totalItems := n;
      var cur := ReparseInt(s.startIndex).value;
      currentIndex := cur;
      isVideoPlaying := false;
      slideChanges := [];
      startX, startY, isSwiping := 0, 0, false;
      if n <= 1 {
        phase, listeners, labelled := Disabled, NoListeners, false;
        items, indicators, clock := markup, None, Timers.Unset;
      } else {
        labelled := true;
        var strip: Option<seq<bool>> := None;
        if s.generateIndicators {
          var generated := Indicators.Generate(n);
          var lit := Indicators.Highlight(generated, cur);
          strip := Some(lit);
        }
        indicators := strip;
        if hasObserver {
          clock := Timers.Unset;
        } else {
          clock := Timers.Start(Timers.Unset);
        }
        if !(0 <= cur < n) {
          var marked := MarkVisible(markup, cur);
          phase, items, listeners := Failed, marked, Listeners(hasObserver, true, false, false, false);
        } else {
          var loaded := Prefetch.SetupItems(markup, cur, s.prefetchItems, Accumulate);
          items := loaded;
          listeners := Listeners(hasObserver, true, true, strip.Some?, true);
          phase := Active;
        }
      }
    }

    /** `startCarousel`: the previous interval is cleared before the new one is scheduled. */
    method StartCarousel()
      requires Timers.Valid(clock)
      modifies this`clock
      ensures clock == Timers.Start(old(clock))
      ensures Timers.Valid(clock) && clock.live == {old(clock).next}
    {
      clock := Timers.Start(clock);
    }

    /** `stopCarousel`: a no-op without a handle; the handle is kept. */
    method StopCarousel()
      requires Timers.Valid(clock)
      modifies this`clock
      ensures clock == Timers.Stop(old(clock))
      ensures Timers.Valid(clock) && !Timers.Running(clock)
      ensures old(clock).handle.None? ==> clock == old(clock)
    {
      clock := Timers.Stop(clock);
    }

    /** `setIndicator(index)`: without generated indicators nothing happens. */
    method SetIndicator(index: int)
      modifies this`indicators
      ensures old(indicators).None? ==> indicators.None?
      ensures old(indicators).Some? ==> indicators == Some(Indicators.Activated(|old(indicators).value|, index))
    {
      if indicators.Some? {
        var strip := Indicators.Highlight(indicators.value, index);
        indicators := Some(strip);
      }
    }

    /** `loadLazyContent(this.items[j])`; the placeholder click is bound once more. */
    method LoadLazyContent(j: int)
      requires 0 <= j < |items|
      modifies this`items
      ensures items == LoadAt(old(items), j, Accumulate)
    {
      var item := Load(items[j], Accumulate);
      items := items[j := item];
    }

    /** `prefetchItems`: loads around the current index and leaves every other field alone. */
    method PrefetchItems()
      requires |items| > 0
      modifies this`items
      ensures items == Prefetch.Prefetched(old(items), currentIndex, Prefetch.Window(settings.prefetchItems), Accumulate)
    {
      items := Prefetch.Run(items, currentIndex, settings.prefetchItems, Accumulate);
    }

    /**
     * `showItem(index)`: the callback sees the old index, the old item is hidden and the
     * new one shown, its content loaded, the indicators moved, then the index updated and
     * the neighbours prefetched.
     */
    method ShowItem(index: int)
      requires Valid() && phase == Active && 0 <= index < totalItems
      modifies this`items, this`indicators, this`currentIndex, this`slideChanges
      ensures Valid()
      ensures slideChanges == old(slideChanges) + if settings.onSlideChange then [(old(currentIndex), index)] else []
      ensures currentIndex == index
      ensures OnlyVisible(items, index)
      ensures items == Prefetch.Shown(old(items), old(currentIndex), index, settings.prefetchItems, Accumulate)
      ensures indicators == if old(indicators).Some? then Some(Indicators.Activated(totalItems, index)) else None
    {
      slideChanges := slideChanges + if settings.onSlideChange then [(currentIndex, index)] else [];
      var shown := Prefetch.ShowItems(items, currentIndex, index, settings.prefetchItems, Accumulate);
      SetIndicator(index);
      currentIndex, items := index, shown;
    }

    /**
     * `fadeToNext`: nothing while a video plays; otherwise on to `(currentIndex + 1) % totalItems`.
     * After a failed setup the callback still runs, then reading `this.items[currentIndex]` throws.
     */
    method FadeToNext() returns (threw: bool)
      requires Valid() && phase != Disabled
      modifies this`items, this`indicators, this`currentIndex, this`slideChanges
      ensures Valid()
      ensures threw <==> phase == Failed
      ensures isVideoPlaying ==>
        items == old(items) && indicators == old(indicators) && currentIndex == old(currentIndex) && slideChanges == old(slideChanges)
      ensures phase == Active && !isVideoPlaying ==>
        && currentIndex == (old(currentIndex) + 1) % totalItems
        && slideChanges == old(slideChanges) + (if settings.onSlideChange then [(old(currentIndex), currentIndex)] else [])
        && items == Prefetch.Shown(old(items), old(currentIndex), currentIndex, settings.prefetchItems, Accumulate)
        && indicators == if old(indicators).Some? then Some(Indicators.Activated(totalItems, currentIndex)) else None
      ensures phase == Failed ==>
        && items == old(items) && indicators == old(indicators) && currentIndex == old(currentIndex)
        && slideChanges == old(slideChanges)
             + if settings.onSlideChange then [(currentIndex, Prefetch.JsRem(currentIndex + 1, totalItems))] else []
    {
      threw := false;
      if isVideoPlaying {
        return;
      }
      var next := Prefetch.JsRem(currentIndex + 1, totalItems);
      if phase == Failed {
        if settings.onSlideChange {
          slideChanges := slideChanges + [(currentIndex, next)];
        }
        threw := true;
        return;
      }
      ShowItem(next);
    }

    /** An interval fires. No video can be playing while one is live, so a tick always moves on. */
    method Tick() returns (threw: bool)
      requires Valid() && phase != Disabled && Timers.Running(clock)
      modifies this`items, this`indicators, this`currentIndex, this`slideChanges
      ensures Valid()
      ensures threw <==> phase == Failed
      ensures !isVideoPlaying
      ensures phase == Active ==>
        && currentIndex == (old(currentIndex) + 1) % totalItems
        && slideChanges == old(slideChanges) + (if settings.onSlideChange then [(old(currentIndex), currentIndex)] else [])
        && items == Prefetch.Shown(old(items), old(currentIndex), currentIndex, settings.prefetchItems, Accumulate)
        && indicators == if old(indicators).Some? then Some(Indicators.Activated(totalItems, currentIndex)) else None
      ensures phase == Failed ==>
        && items == old(items) && indicators == old(indicators) && currentIndex == old(currentIndex)
        && slideChanges == old(slideChanges)
             + if settings.onSlideChange then [(currentIndex, Prefetch.JsRem(currentIndex + 1, totalItems))] else []
    {
      threw := FadeToNext();
    }

    /** `fadeToIndex(index)`, reached only from a swipe, when no video plays. */
    method FadeToIndex(index: int)
      requires Valid() && phase == Active && !isVideoPlaying && 0 <= index < totalItems
      modifies this`items, this`indicators, this`currentIndex, this`slideChanges
      ensures Valid() && currentIndex == index
      ensures slideChanges == old(slideChanges) + if settings.onSlideChange then [(old(currentIndex), index)] else []
      ensures items == Prefetch.Shown(old(items), old(currentIndex), index, settings.prefetchItems, Accumulate)
      ensures indicators == if old(indicators).Some? then Some(Indicators.Activated(totalItems, index)) else None
    {
      ShowItem(index);
    }

    /** The observer: start when visible and no video plays, stop when hidden. */
    method OnIntersection(isIntersecting: bool)
      requires Valid() && listeners.observer
      modifies this`clock
      ensures Valid()
      ensures isIntersecting && !isVideoPlaying ==> clock == Timers.Start(old(clock))
      ensures isIntersecting && isVideoPlaying ==> clock == old(clock)
      ensures !isIntersecting ==> clock == Timers.Stop(old(clock))
    {
      if isIntersecting {
        if !isVideoPlaying {
          StartCarousel();
        }
      } else {
        StopCarousel();
      }
    }

    /** `visibilitychange`: stop when the tab is hidden, start when it is shown and no video plays. */
    method OnVisibilityChange(hidden: bool)
      requires Valid() && listeners.visibility
      modifies this`clock
      ensures Valid()
      ensures hidden ==> clock == Timers.Stop(old(clock))
      ensures !hidden && !isVideoPlaying ==> clock == Timers.Start(old(clock))
      ensures !hidden && isVideoPlaying ==> clock == old(clock)
    {
      if hidden {
        StopCarousel();
      } else if !isVideoPlaying {
        StartCarousel();
      }
    }

    /** The debounced `mouseenter`. */
    method OnMouseEnter()
      requires Valid() && listeners.mouse
      modifies this`clock
      ensures Valid() && clock == Timers.Stop(old(clock))
    {
      StopCarousel();
    }

    /** The debounced `mouseleave`. */
    method OnMouseLeave()
      requires Valid() && listeners.mouse
      modifies this`clock
      ensures Valid()
      ensures !isVideoPlaying ==> clock == Timers.Start(old(clock))
      ensures isVideoPlaying ==> clock == old(clock)
    {
      if !isVideoPlaying {
        StartCarousel();
      }
    }

    /** A click on indicator `index`: ignored while a video plays; otherwise autoplay stops and a different item is shown. */
    method OnIndicatorClick(index: int)
      requires Valid() && listeners.indicatorClicks && 0 <= index < totalItems
      modifies this`clock, this`items, this`indicators, this`currentIndex, this`slideChanges
      ensures Valid()
      ensures isVideoPlaying ==>
        && clock == old(clock) && items == old(items) && indicators == old(indicators)
        && currentIndex == old(currentIndex) && slideChanges == old(slideChanges)
      ensures !isVideoPlaying ==> clock == Timers.Stop(old(clock)) && currentIndex == index
      ensures !isVideoPlaying && index != old(currentIndex) ==>
        slideChanges == old(slideChanges) + if settings.onSlideChange then [(old(currentIndex), index)] else []
      ensures !isVideoPlaying && index != old(currentIndex) ==>
        && items == Prefetch.Shown(old(items), old(currentIndex), index, settings.prefetchItems, Accumulate)
        && indicators == if old(indicators).Some? then Some(Indicators.Activated(totalItems, index)) else None
      ensures index == old(currentIndex) ==>
        items == old(items) && indicators == old(indicators) && slideChanges == old(slideChanges)
    {
      if isVideoPlaying {
        return;
      }
      StopCarousel();
      if index != currentIndex {
        ShowItem(index);
      }
    }

    /**
     * A click on the placeholder of item `j`, run once per bound listener: autoplay stops,
     * a video counts as playing, and with a source the placeholder becomes a `<video>`.
     */
    method OnPlaceholderClick(j: int)
      requires Valid() && phase == Active && 0 <= j < totalItems && items[j].media.Placeholder?
      modifies this`clock, this`isVideoPlaying, this`items
      ensures Valid()
      ensures old(items[j].media.clickHandlers) == 0 ==>
        clock == old(clock) && isVideoPlaying == old(isVideoPlaying) && items == old(items)
      ensures old(items[j].media.clickHandlers) > 0 ==>
        && clock == Timers.Stop(old(clock)) && isVideoPlaying
        && items == old(items)[j := old(items[j]).(media := TakeOver(old(items[j].media)))]
    {
      if items[j].media.clickHandlers == 0 {
        return;
      }
      StopCarousel();
      isVideoPlaying := true;
      items := items[j := items[j].(media := TakeOver(items[j].media))];
    }

    /** `ended` on the video of item `j`: the placeholder comes back, is bound again, and autoplay restarts. */
    method OnVideoEnded(j: int)
      requires Valid() && phase == Active && 0 <= j < totalItems && items[j].media.Video?
      modifies this`clock, this`isVideoPlaying, this`items
      ensures Valid() && !isVideoPlaying
      ensures clock == Timers.Start(old(clock))
      ensures items == LoadAt(old(items)[j := old(items[j]).(media := Restore(old(items[j].media)))], j, Accumulate)
      ensures items[j].media == Placeholder(old(items[j].media.videoSrc), old(items[j].media.poster), 1, 1)
    {
      isVideoPlaying := false;
      items := items[j := items[j].(media := Restore(items[j].media))];
      LoadLazyContent(j);
      StartCarousel();
    }

    /** `touchstart`: ignored while a video plays. */
    method OnTouchStart(x: int, y: int)
      requires Valid() && listeners.touch
      modifies this`startX, this`startY, this`isSwiping
      ensures Valid()
      ensures isVideoPlaying ==> startX == old(startX) && startY == old(startY) && isSwiping == old(isSwiping)
      ensures !isVideoPlaying ==> startX == x && startY == y && isSwiping
    {
      if isVideoPlaying {
        return;
      }
      startX, startY, isSwiping := x, y, true;
    }

    /** `touchmove`: a resolved swipe moves one item and ends the gesture. */
    method OnTouchMove(x: int, y: int)
      requires Valid() && listeners.touch
      modifies this`isSwiping, this`items, this`indicators, this`currentIndex, this`slideChanges
      ensures Valid()
      ensures var t := SwipeTarget(old(currentIndex), totalItems, x - startX, y - startY);
        if old(isSwiping) && !isVideoPlaying && t.Some? then
          && currentIndex == t.value && !isSwiping
          && slideChanges == old(slideChanges) + (if settings.onSlideChange then [(old(currentIndex), t.value)] else [])
          && items == Prefetch.Shown(old(items), old(currentIndex), t.value, settings.prefetchItems, Accumulate)
          && indicators == if old(indicators).Some? then Some(Indicators.Activated(totalItems, t.value)) else None
        else
          currentIndex == old(currentIndex) && isSwiping == old(isSwiping)
          && items == old(items) && indicators == old(indicators) && slideChanges == old(slideChanges)
    {
      if !isSwiping || isVideoPlaying {
        return;
      }
      var t := SwipeTarget(currentIndex, totalItems, x - startX, y - startY);
      if t.Some? {
        FadeToIndex(t.value);
        isSwiping := false;
      }
    }

    /** `touchend`. */
    method OnTouchEnd()
      requires Valid() && listeners.touch
      modifies this`isSwiping
      ensures Valid() && !isSwiping
    {
      isSwiping := false;
    }
  }

  /** A swipe to the left, then one to the right of the same length, returns to the item it started on. */
  method SwipeThereAndBack(c: Carousel)
    requires c.Valid() && c.phase == Active && !c.isVideoPlaying
    modifies c
    ensures c.Valid() && c.currentIndex == old(c.currentIndex)
  {
    ghost var start := c.currentIndex;
    SwipeLeftThenRight(start, c.totalItems, 100);
    c.OnTouchStart(300, 0);
    c.OnTouchMove(200, 0);
    c.OnTouchEnd();
    c.OnTouchStart(200, 0);
    c.OnTouchMove(300, 0);
  }
}
