/**
 * The TypeScript class `SimpleCarousel` (dist/js/simple.carousel.ts.js): options over
 * defaults with no `data-*` attributes, a static flag that injects the common CSS once,
 * and a video restore that does not bind the restored placeholder again.
 */
module TsCarousel {
  import opened Wrappers
  import opened Config
  import opened Dom
  import opened Lifecycle
  import Timers
  import Indicators
  import Prefetch

  /** The class's static side: `SimpleCarousel.isCommonCSSAdded` and the `<style>` elements `addCommonCSS` appended to the head. */
  class Statics {
    var isCommonCSSAdded: bool
    var styleElements: nat

    ghost predicate Valid()
      reads this
    {
      styleElements == if isCommonCSSAdded then 1 else 0
    }

    /** The static initializer: `static isCommonCSSAdded = false`. */
    constructor ()
      ensures Valid() && !isCommonCSSAdded && styleElements == 0
    {
      isCommonCSSAdded, styleElements := false, 0;
    }

    /** The constructor's guard: the common CSS is injected only when the flag is down, and the flag goes up. */
    method EnsureCommonCSS()
      requires Valid()
      modifies this
      ensures Valid() && isCommonCSSAdded && styleElements == 1
      ensures old(isCommonCSSAdded) ==> styleElements == old(styleElements)
    {
      if !isCommonCSSAdded {
        styleElements := styleElements + 1;
        isCommonCSSAdded := true;
      }
    }
  }

  class Carousel {
    const settings: Settings
    const totalItems: nat
    /** Whether `'IntersectionObserver' in window`. */
    const hasObserver: bool

    var phase: Phase
    var listeners: Listeners
    /** `aria-live`, `role` and `aria-label` on the carousel element. */
    var labelled: bool
    var items: seq<Item>
    var indicators: Option<seq<bool>>
    var currentIndex: int
    var isVideoPlaying: bool
    var clock: Timers.Clock
    /** The calls `settings.onSlideChange(old, new)` received, in order. */
    var slideChanges: seq<(int, int)>

    ghost predicate Valid()
      reads this
    {
      && |items| == totalItems
      && Timers.Valid(clock)
      && (isVideoPlaying ==> !Timers.Running(clock))
      && (phase == Disabled <==> totalItems <= 1)
      && (phase == Disabled ==>
            listeners == NoListeners && !labelled && indicators.None? && clock == Timers.Unset && !isVideoPlaying)
      && (phase != Disabled ==> labelled && listeners.visibility && listeners.observer == hasObserver)
      && (indicators.Some? ==> indicators.value == Indicators.Activated(totalItems, currentIndex))
      && (phase == Failed ==>
            && !(0 <= currentIndex < totalItems) && !listeners.mouse && !listeners.indicatorClicks && !listeners.touch && !isVideoPlaying
            && forall j :: 0 <= j < totalItems ==> items[j].hidden)
      && (phase == Active ==>
            && 0 <= currentIndex < totalItems && OnlyVisible(items, currentIndex)
            && listeners.mouse
            && (listeners.indicatorClicks <==> indicators.Some?))
    }

    /** `new SimpleCarousel(element, options)`: settings, the start index unclamped, the CSS guard, then `setup`. */
    constructor (statics: Statics, options: Options, markup: seq<Item>, hasObserver: bool)
      requires statics.Valid() && forall j :: 0 <= j < |markup| ==> Pristine(markup[j])
      modifies statics
      ensures Valid() && statics.Valid() && statics.isCommonCSSAdded && statics.styleElements == 1
      ensures settings == Merge(TsDefaults, options)
      ensures totalItems == |markup| && this.hasObserver == hasObserver
      ensures currentIndex == settings.startIndex && !isVideoPlaying && slideChanges == []
      ensures phase == Disabled ==> items == markup
      ensures phase == Failed <==> |markup| > 1 && !(0 <= settings.startIndex < |markup|)
      ensures phase == Failed ==> items == Marked(markup, currentIndex)
      ensures phase == Failed ==> listeners == Listeners(hasObserver, true, false, false, false)
      ensures phase == Active ==>
        items == Prefetch.SetUp(markup, currentIndex, settings.prefetchItems, Accumulate)
      ensures indicators.Some? <==> phase != Disabled && settings.generateIndicators
      ensures clock == if phase != Disabled && !hasObserver then Timers.Start(Timers.Unset) else Timers.Unset
      ensures phase == Active ==>
        listeners == Listeners(hasObserver, true, true, settings.generateIndicators, false)
    {
      statics.EnsureCommonCSS();
      var s := Merge(TsDefaults, options);
      settings := s;
      this.hasObserver := hasObserver;
      var n := |markup|;
      totalItems := n;
      var cur := s.startIndex;
      currentIndex := cur;
      isVideoPlaying := false;
      slideChanges := [];
      if n <= 1 {
        phase, listeners, labelled := Disabled, NoListeners, false;
        items, indicators, clock := markup, None, Timers.Unset;
      } else {
        labelled := true;
        var strip: Option<seq<bool>> := None;
        if s.generateIndicators {
          var generated := Indicators.Generate(n);
          var lit := Indicators.Highlight(generated, cur);
          strip := Some(lit);
        }
        indicators := strip;
        if hasObserver {
          clock := Timers.Unset;
        } else {
          clock := Timers.Start(Timers.Unset);
        }
        if !(0 <= cur < n) {
          var marked := MarkVisible(markup, cur);
          phase, items, listeners := Failed, marked, Listeners(hasObserver, true, false, false, false);
        } else {
          var loaded := Prefetch.SetupItems(markup, cur, s.prefetchItems, Accumulate);
          items := loaded;
          listeners := Listeners(hasObserver, true, true, strip.Some?, false);
          phase := Active;
        }
      }
    }

    /** `startCarousel`: the previous interval is cleared before the new one is scheduled. */
    method StartCarousel()
      requires Timers.Valid(clock)
      modifies this`clock
      ensures clock == Timers.Start(old(clock))
      ensures Timers.Valid(clock) && clock.live == {old(clock).next}
    {
      clock := Timers.Start(clock);
    }

    /** `stopCarousel`: a no-op without a handle; the handle is kept. */
    method StopCarousel()
      requires Timers.Valid(clock)
      modifies this`clock
      ensures clock == Timers.Stop(old(clock))
      ensures Timers.Valid(clock) && !Timers.Running(clock)
      ensures old(clock).handle.None? ==> clock == old(clock)
    {
      clock := Timers.Stop(clock);
    }

    /** `setIndicator(index)`: without generated indicators nothing happens. */
    method SetIndicator(index: int)
      modifies this`indicators
      ensures old(indicators).None? ==> indicators.None?
      ensures old(indicators).Some? ==> indicators == Some(Indicators.Activated(|old(indicators).value|, index))
    {
      if indicators.Some? {
        var strip := Indicators.Highlight(indicators.value, index);
        indicators := Some(strip);
      }
    }

    /** `loadLazyContent(this.items[j])`; the placeholder click is bound once more. */
    method LoadLazyContent(j: int)
      requires 0 <= j < |items|
      modifies this`items
      ensures items == LoadAt(old(items), j, Accumulate)
    {
      var item := Load(items[j], Accumulate);
      items := items[j := item];
    }

    /** `prefetchItems`: loads around the current index and leaves every other field alone. */
    method PrefetchItems()
      requires |items| > 0
      modifies this`items
      ensures items == Prefetch.Prefetched(old(items), currentIndex, Prefetch.Window(settings.prefetchItems), Accumulate)
    {
      items := Prefetch.Run(items, currentIndex, settings.prefetchItems, Accumulate);
    }

    /**
     * `showItem(index)`: the callback sees the old index, the old item is hidden and the
     * new one shown, its content loaded, the indicators moved, then the index updated and
     * the neighbours prefetched.
     */
    method ShowItem(index: int)
      requires Valid() && phase == Active && 0 <= index < totalItems
      modifies this`items, this`indicators, this`currentIndex, this`slideChanges
      ensures Valid()
      ensures slideChanges == old(slideChanges) + if settings.onSlideChange then [(old(currentIndex), index)] else []
      ensures currentIndex == index
      ensures OnlyVisible(items, index)
      ensures items == Prefetch.Shown(old(items), old(currentIndex), index, settings.prefetchItems, Accumulate)
      ensures indicators == if old(indicators).Some? then Some(Indicators.Activated(totalItems, index)) else None
    {
      slideChanges := slideChanges + if settings.onSlideChange then [(currentIndex, index)] else [];
      var shown := Prefetch.ShowItems(items, currentIndex, index, settings.prefetchItems, Accumulate);
      SetIndicator(index);
      currentIndex, items := index, shown;
    }

    /**
     * `fadeToNext`: nothing while a video plays; otherwise on to `(currentIndex + 1) % totalItems`.
     * After a failed setup the callback still runs, then reading `this.items[currentIndex]` throws.
     */
    method FadeToNext() returns (threw: bool)
      requires Valid() && phase != Disabled
      modifies this`items, this`indicators, this`currentIndex, this`slideChanges
      ensures Valid()
      ensures threw <==> phase == Failed
      ensures isVideoPlaying ==>
        items == old(items) && indicators == old(indicators) && currentIndex == old(currentIndex) && slideChanges == old(slideChanges)
      ensures phase == Active && !isVideoPlaying ==>
        && currentIndex == (old(currentIndex) + 1) % totalItems
        && slideChanges == old(slideChanges) + (if settings.onSlideChange then [(old(currentIndex), currentIndex)] else [])
        && items == Prefetch.Shown(old(items), old(currentIndex), currentIndex, settings.prefetchItems, Accumulate)
        && indicators == if old(indicators).Some? then Some(Indicators.Activated(totalItems, currentIndex)) else None
      ensures phase == Failed ==>
        && items == old(items) && indicators == old(indicators) && currentIndex == old(currentIndex)
        && slideChanges == old(slideChanges)
             + if settings.onSlideChange then [(currentIndex, Prefetch.JsRem(currentIndex + 1, totalItems))] else []
    {
      threw := false;
      if isVideoPlaying {
        return;
      }
      var next := Prefetch.JsRem(currentIndex + 1, totalItems);
      if phase == Failed {
        if settings.onSlideChange {
          slideChanges := slideChanges + [(currentIndex, next)];
        }
        threw := true;
        return;
      }
      ShowItem(next);
    }

    /** An interval fires. No video can be playing while one is live, so a tick always moves on. */
    method Tick() returns (threw: bool)
      requires Valid() && phase != Disabled && Timers.Running(clock)
      modifies this`items, this`indicators, this`currentIndex, this`slideChanges
      ensures Valid()
      ensures threw <==> phase == Failed
      ensures !isVideoPlaying
      ensures phase == Active ==>
        && currentIndex == (old(currentIndex) + 1) % totalItems
        && slideChanges == old(slideChanges) + (if settings.onSlideChange then [(old(currentIndex), currentIndex)] else [])
        && items == Prefetch.Shown(old(items), old(currentIndex), currentIndex, settings.prefetchItems, Accumulate)
        && indicators == if old(indicators).Some? then Some(Indicators.Activated(totalItems, currentIndex)) else None
      ensures phase == Failed ==>
        && items == old(items) && indicators == old(indicators) && currentIndex == old(currentIndex)
        && slideChanges == old(slideChanges)
             + if settings.onSlideChange then [(currentIndex, Prefetch.JsRem(currentIndex + 1, totalItems))] else []
    {
      threw := FadeToNext();
    }

    /** The observer: start when visible and no video plays, stop when hidden. */
    method OnIntersection(isIntersecting: bool)
      requires Valid() && listeners.observer
      modifies this`clock
      ensures Valid()
      ensures isIntersecting && !isVideoPlaying ==> clock == Timers.Start(old(clock))
      ensures isIntersecting && isVideoPlaying ==> clock == old(clock)
      ensures !isIntersecting ==> clock == Timers.Stop(old(clock))
    {
      if isIntersecting {
        if !isVideoPlaying {
          StartCarousel();
        }
      } else {
        StopCarousel();
      }
    }

    /** `visibilitychange`: stop when the tab is hidden, start when it is shown and no video plays. */
    method OnVisibilityChange(hidden: bool)
      requires Valid() && listeners.visibility
      modifies this`clock
      ensures Valid()
      ensures hidden ==> clock == Timers.Stop(old(clock))
      ensures !hidden && !isVideoPlaying ==> clock == Timers.Start(old(clock))
      ensures !hidden && isVideoPlaying ==> clock == old(clock)
    {
      if hidden {
        StopCarousel();
      } else if !isVideoPlaying {
        StartCarousel();
      }
    }

    /** The debounced `mouseenter`. */
    method OnMouseEnter()
      requires Valid() && listeners.mouse
      modifies this`clock
      ensures Valid() && clock == Timers.Stop(old(clock))
    {
      StopCarousel();
    }

    /** The debounced `mouseleave`. */
    method OnMouseLeave()
      requires Valid() && listeners.mouse
      modifies this`clock
      ensures Valid()
      ensures !isVideoPlaying ==> clock == Timers.Start(old(clock))
      ensures isVideoPlaying ==> clock == old(clock)
    {
      if !isVideoPlaying {
        StartCarousel();
      }
    }

    /** A click on indicator `index`: autoplay stops, and a different item is shown even while a video plays. */
    method OnIndicatorClick(index: int)
      requires Valid() && listeners.indicatorClicks && 0 <= index < totalItems
      modifies this`clock, this`items, this`indicators, this`currentIndex, this`slideChanges
      ensures Valid()
      ensures clock == Timers.Stop(old(clock)) && currentIndex == index
      ensures index != old(currentIndex) ==>
        slideChanges == old(slideChanges) + if settings.onSlideChange then [(old(currentIndex), index)] else []
      ensures index != old(currentIndex) ==>
        && items == Prefetch.Shown(old(items), old(currentIndex), index, settings.prefetchItems, Accumulate)
        && indicators == if old(indicators).Some? then Some(Indicators.Activated(totalItems, index)) else None
      ensures index == old(currentIndex) ==>
        items == old(items) && indicators == old(indicators) && slideChanges == old(slideChanges)
    {
      StopCarousel();
      if index != currentIndex {
        ShowItem(index);
      }
    }

    /**
     * A click on the placeholder of item `j`, run once per bound listener: autoplay stops,
     * a video counts as playing, and with a source the placeholder becomes a `<video>`.
     */
    method OnPlaceholderClick(j: int)
      requires Valid() && phase == Active && 0 <= j < totalItems && items[j].media.Placeholder?
      modifies this`clock, this`isVideoPlaying, this`items
      ensures Valid()
      ensures old(items[j].media.clickHandlers) == 0 ==>
        clock == old(clock) && isVideoPlaying == old(isVideoPlaying) && items == old(items)
      ensures old(items[j].media.clickHandlers) > 0 ==>
        && clock == Timers.Stop(old(clock)) && isVideoPlaying
        && items == old(items)[j := old(items[j]).(media := TakeOver(old(items[j].media)))]
    {
      if items[j].media.clickHandlers == 0 {
        return;
      }
      StopCarousel();
      isVideoPlaying := true;
      items := items[j := items[j].(media := TakeOver(items[j].media))];
    }

    /**
     * `ended` on the video of item `j`: a placeholder with the same source and the poster or
     * `''` comes back with one play icon and no click listener, and autoplay restarts.
     */
    method OnVideoEnded(j: int)
      requires Valid() && phase == Active && 0 <= j < totalItems && items[j].media.Video?
      modifies this`clock, this`isVideoPlaying, this`items
      ensures Valid() && !isVideoPlaying
      ensures clock == Timers.Start(old(clock))
      ensures items == old(items)[j := old(items[j]).(media := RestoreTs(old(items[j].media)))]
      ensures items[j].media.Placeholder? && items[j].media.clickHandlers == 0
    {
      isVideoPlaying := false;
      items := items[j := items[j].(media := RestoreTs(items[j].media))];
      StartCarousel();
    }
  }

  /** The restored placeholder ignores clicks until its item is loaded again, which binds one listener. */
  method ReplayNeedsReload(c: Carousel, j: int)
    requires c.Valid() && c.phase == Active && 0 <= j < c.totalItems && c.items[j].media.Video?
    modifies c
    ensures c.Valid() && !c.isVideoPlaying && c.items[j].media.Placeholder?
    ensures c.items[j].media.clickHandlers == 1
  {
    c.OnVideoEnded(j);
    c.OnPlaceholderClick(j);
    c.LoadLazyContent(j);
  }
}
