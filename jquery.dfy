/**
 * The jQuery plugin `$.fn.simpleCarousel` (dist/js/simple.carousel.jquery.js): one closure
 * per carousel element. Unlike the class builds it clamps the start index, reads
 * `data-current-index`, loads every item up front, rebinds placeholder clicks with
 * `off().on()`, pauses a playing video when the timer fires, and leaves `aria-hidden`
 * alone when an indicator is clicked.
 */
module JQueryCarousel {
  import opened Wrappers
  import opened Config
  import opened Dom
  import opened Lifecycle
  import Timers
  import Indicators
  import Prefetch
  import Host

  /**
   * The placeholder click: `if (videoSrc)` on the value jQuery's `.data('video-src')`
   * converted, so "0", "false", "null" and "NaN" start no video.
   */
  function JqTakeOver(m: Media): (r: Media)
    requires m.Placeholder?
    ensures !JqTruthy(m.videoSrc) ==> r == m
    ensures JqTruthy(m.videoSrc) ==> r.Video? && r.videoSrc == m.videoSrc && r.poster == m.poster
  {
    if JqTruthy(m.videoSrc) then Video(m.videoSrc, m.poster) else m
  }

  /** Apart from the four converted words, the plugin swaps in a video exactly when the class builds do. */
  lemma JqTakeOverAgrees(m: Media)
    requires m.Placeholder?
    requires m.videoSrc != "0" && m.videoSrc != "false" && m.videoSrc != "null" && m.videoSrc != "NaN"
    ensures JqTakeOver(m) == TakeOver(m)
  {
  }

  /** `data-video-src="0"` plays in the class builds and not in the plugin. */
  lemma ZeroSourceDoesNotPlay(poster: Option<string>)
    ensures JqTakeOver(Placeholder("0", poster, 1, 1)) == Placeholder("0", poster, 1, 1)
    ensures TakeOver(Placeholder("0", poster, 1, 1)) == Video("0", poster)
  {
  }

  /** Play, end, reload: a loaded placeholder with a source comes back exactly as it was. */
  lemma VideoRoundTrip(m: Media)
    requires m.Placeholder? && JqTruthy(m.videoSrc) && m.playIcons == 1 && m.clickHandlers == 1
    ensures LoadMedia(Restore(JqTakeOver(m)), Replace) == m
  {
  }

  /** Only item `k` is shown, and the collection is loaded once. */
  predicate Showing(items: seq<Item>, k: int) {
    0 <= k < |items| && OnlyVisible(items, k) && LoadedOnce(items)
  }

  /**
   * The items after the plugin's setup: `aria-hidden` on every item, every item loaded, then
   * the neighbours of item `cur` prefetched. Every item is then one `off().on()` load of its
   * marked markup: the prefetch after the full load changes nothing.
   */
  function SetUpAll(markup: seq<Item>, cur: int, prefetchItems: int): (r: seq<Item>)
    requires 0 <= cur < |markup|
    ensures |r| == |markup| && Showing(r, cur)
    ensures forall j :: 0 <= j < |markup| ==> r[j] == LoadItem(markup[j].(hidden := j != cur), Replace)
  {
    var loaded := LoadedAll(Marked(markup, cur), Replace);
    LoadedAllOnce(Marked(markup, cur));
    Prefetch.PrefetchedLoadedIsNoOp(loaded, cur, Prefetch.Window(prefetchItems));
    Prefetch.Prefetched(loaded, cur, Prefetch.Window(prefetchItems), Replace)
  }

  /** The item side of the plugin's setup; afterwards every placeholder holds exactly one listener. */
  method SetupItems(markup: seq<Item>, cur: int, prefetchItems: int) returns (r: seq<Item>)
    requires 0 <= cur < |markup|
    ensures r == SetUpAll(markup, cur, prefetchItems)
    ensures |r| == |markup| && Showing(r, cur)
  {
    var marked := MarkVisible(markup, cur);
    var loaded := LoadEach(marked, Replace);
    LoadedAllOnce(marked);
    Prefetch.PrefetchedKeepsLoadedOnce(loaded, cur, Prefetch.Window(prefetchItems));
    r := Prefetch.Run(loaded, cur, prefetchItems, Replace);
  }

  /**
   * What the fade-out callback of `fadeToNext` leaves of the items when it moves to item `k`.
   * On a collection loaded once, the load and the prefetch change nothing, so only
   * `aria-hidden` moves.
   */
  function ShownNext(items: seq<Item>, k: int, prefetchItems: int): (r: seq<Item>)
    requires 0 <= k < |items|
    ensures |r| == |items| && OnlyVisible(r, k)
    ensures LoadedOnce(items) ==> r == Marked(items, k) && Showing(r, k)
  {
    var fetched := Prefetch.Prefetched(LoadAt(items, k, Replace), k, Prefetch.Window(prefetchItems), Replace);
    if LoadedOnce(items) then
      SettledReplaceLoadKeeps(items[k]);
      assert LoadAt(items, k, Replace) == items;
      Prefetch.PrefetchedLoadedIsNoOp(items, k, Prefetch.Window(prefetchItems));
      MarkedKeepsLoadedOnce(items, k);
      Marked(fetched, k)
    else
      Marked(fetched, k)
  }

  /**
   * The item side of the fade-out callback in `fadeToNext`: load item `k`, prefetch around
   * it, then set `aria-hidden` so that only item `k` is shown; everything stays loaded once.
   */
  method ShowNext(items: seq<Item>, k: int, prefetchItems: int) returns (r: seq<Item>)
    requires 0 <= k < |items| && LoadedOnce(items)
    ensures r == ShownNext(items, k, prefetchItems)
    ensures |r| == |items| && Showing(r, k)
  {
    var loaded := Load(items[k], Replace);
    var it := items[k := loaded];
    LoadAtKeepsLoadedOnce(items, k);
    Prefetch.PrefetchedKeepsLoadedOnce(it, k, Prefetch.Window(prefetchItems));
    var fetched := Prefetch.Run(it, k, prefetchItems, Replace);
    MarkedKeepsLoadedOnce(fetched, k);
    r := MarkVisible(fetched, k);
  }

  class Carousel {
    const settings: Settings
    const totalItems: nat
    /** Whether `'IntersectionObserver' in window`. */
    const hasObserver: bool

    var phase: Phase
    var listeners: Listeners
    /** `aria-live`, `role` and `aria-label` on the carousel element. */
    var labelled: bool
    var items: seq<Item>
    /** The `.simpleCarouselAriaIndicator` spans inside the element, generated or already in the markup. */
    var indicators: Option<seq<bool>>
    var currentIndex: int
    var isVideoPlaying: bool
    var clock: Timers.Clock
    /** The calls `settings.onSlideChange(old, new)` received, in order. */
    var slideChanges: seq<(int, int)>
    /** The item that `aria-hidden` currently shows; indicator clicks do not move it. */
    ghost var ariaIndex: int

    ghost predicate Valid()
      reads this
    {
      && |items| == totalItems
      && Timers.Valid(clock)
      && (isVideoPlaying ==> !Timers.Running(clock))
      && phase != Failed
      && (phase == Disabled <==> totalItems <= 1)
      && (phase == Disabled ==> listeners == NoListeners && !labelled && clock == Timers.Unset && !isVideoPlaying)
      && (phase == Active ==>
            && labelled && 0 <= currentIndex < totalItems
            && Showing(items, ariaIndex)
            && listeners == Listeners(hasObserver, true, true, true, false)
            && (settings.generateIndicators ==>
                  indicators.Some? && indicators.value == Indicators.Activated(|indicators.value|, currentIndex)))
    }

    /**
     * One iteration of `this.each`: settings, the early return for one item or fewer, the
     * clamped start index, `aria-hidden`, indicators when none are in the markup, the
     * observer or an immediate start, every item loaded, then the prefetch around the start.
     * `existingStrip` is a `.simpleCarouselAriaIndicators` container already in the markup,
     * given as the active flags of its spans; loose spans outside a container are not modelled.
     */
    constructor (options: Options, dataset: JqDataset, markup: seq<Item>, hasObserver: bool,
                 existingStrip: Option<seq<bool>>)
      requires forall j :: 0 <= j < |markup| ==> Pristine(markup[j])
      ensures Valid()
      ensures settings == ResolveJQuery(Merge(JQueryDefaults, options), dataset)
      ensures totalItems == |markup| && this.hasObserver == hasObserver
      ensures !isVideoPlaying && slideChanges == []
      ensures phase == Disabled <==> |markup| <= 1
      ensures phase == Disabled ==> items == markup && indicators == existingStrip && clock == Timers.Unset
      ensures phase == Active ==>
        && currentIndex == ClampStart(settings.startIndex, |markup|) && ariaIndex == currentIndex
        && items == SetUpAll(markup, currentIndex, settings.prefetchItems)
        && clock == (if hasObserver then Timers.Unset else Timers.Start(Timers.Unset))
      ensures phase == Active && settings.generateIndicators ==>
        indicators == Some(Indicators.Activated(if existingStrip.Some? then |existingStrip.value| else |markup|,
                                                currentIndex))
      ensures phase == Active && !settings.generateIndicators ==> indicators == existingStrip
    {
      var s := ResolveJQuery(Merge(JQueryDefaults, options), dataset);
      settings := s;
      this.hasObserver := hasObserver;
      var n := |markup|;
      totalItems := n;
      isVideoPlaying := false;
      slideChanges := [];
      if n <= 1 {
        phase, listeners, labelled := Disabled, NoListeners, false;
        items, indicators, clock := markup, existingStrip, Timers.Unset;
        currentIndex, ariaIndex := 0, 0;
      } else {
        var cur := ClampStart(s.startIndex, n);
        currentIndex, ariaIndex := cur, cur;
        labelled := true;
        var strip := existingStrip;
        if s.generateIndicators && existingStrip.None? {
          var generated := Indicators.Generate(n);
          strip := Some(generated);
        }
        if hasObserver {
          clock := Timers.Unset;
        } else {
          clock := Timers.Start(Timers.Unset);
        }
        if s.generateIndicators {
          var lit := Indicators.Highlight(strip.value, cur);
          strip := Some(lit);
        }
        indicators := strip;
        var loaded := SetupItems(markup, cur, s.prefetchItems);
        items := loaded;
        listeners := Listeners(hasObserver, true, true, true, false);
        phase := Active;
      }
    }

    /** `startCarousel`: the previous interval is cleared before the new one is scheduled. */
    method StartCarousel()
      requires Timers.Valid(clock)
      modifies this`clock
      ensures clock == Timers.Start(old(clock))
      ensures Timers.Valid(clock) && clock.live == {old(clock).next}
    {
      clock := Timers.Start(clock);
    }

    /** `stopCarousel`: a no-op without a handle; the handle is kept. */
    method StopCarousel()
      requires Timers.Valid(clock)
      modifies this`clock
      ensures clock == Timers.Stop(old(clock))
      ensures Timers.Valid(clock) && !Timers.Running(clock)
      ensures old(clock).handle.None? ==> clock == old(clock)
    {
      clock := Timers.Stop(clock);
    }

    /** `setIndicator(index)`: only when indicators are enabled, and then on whatever spans the element holds. */
    method SetIndicator(index: int)
      modifies this`indicators
      ensures settings.generateIndicators && old(indicators).Some? ==>
        indicators == Some(Indicators.Activated(|old(indicators).value|, index))
      ensures !(settings.generateIndicators && old(indicators).Some?) ==> indicators == old(indicators)
    {
      if settings.generateIndicators && indicators.Some? {
        var strip := Indicators.Highlight(indicators.value, index);
        indicators := Some(strip);
      }
    }

    /** `loadLazyContent($items.eq(j))`; the placeholder click is rebound, never added. */
    method LoadLazyContent(j: int)
      requires 0 <= j < |items|
      modifies this`items
      ensures items == LoadAt(old(items), j, Replace)
    {
      var item := Load(items[j], Replace);
      items := items[j := item];
    }

    /** `prefetchItems`: `.eq` wraps the negative previous index, so the window is the symmetric one. */
    method PrefetchItems()
      requires |items| > 0
      modifies this`items
      ensures items == Prefetch.Prefetched(old(items), currentIndex, Prefetch.Window(settings.prefetchItems), Replace)
    {
      items := Prefetch.Run(items, currentIndex, settings.prefetchItems, Replace);
    }

    /**
     * `fadeToNext`: a playing video is paused and the carousel moves on anyway to
     * `(currentIndex + 1) % totalItems`.
     */
    method FadeToNext()
      requires Valid() && phase == Active
      modifies this`isVideoPlaying, this`slideChanges, this`currentIndex, this`items, this`indicators, this`ariaIndex
      ensures Valid() && !isVideoPlaying
      ensures currentIndex == (old(currentIndex) + 1) % totalItems && ariaIndex == currentIndex
      ensures slideChanges == old(slideChanges) + if settings.onSlideChange then [(old(currentIndex), currentIndex)] else []
      ensures items == ShownNext(old(items), currentIndex, settings.prefetchItems)
      ensures settings.generateIndicators ==>
        indicators == Some(Indicators.Activated(|old(indicators).value|, currentIndex))
      ensures !settings.generateIndicators ==> indicators == old(indicators)
    {
      if isVideoPlaying {
        isVideoPlaying := false;
      }
      Advance((currentIndex + 1) % totalItems);
    }

    /**
     * The rest of `fadeToNext` once no video plays: the callback sees the old index and the
     * new one, the index moves, and the fade-out callback loads the new item, moves the
     * indicators, prefetches and then sets `aria-hidden`.
     */
    method Advance(next: int)
      requires Valid() && phase == Active && !isVideoPlaying && 0 <= next < totalItems
      modifies this`slideChanges, this`currentIndex, this`items, this`indicators, this`ariaIndex
      ensures Valid() && currentIndex == next && ariaIndex == next
      ensures slideChanges == old(slideChanges) + if settings.onSlideChange then [(old(currentIndex), next)] else []
      ensures items == ShownNext(old(items), next, settings.prefetchItems)
      ensures settings.generateIndicators ==> indicators == Some(Indicators.Activated(|old(indicators).value|, next))
      ensures !settings.generateIndicators ==> indicators == old(indicators)
    {
      var shown := ShowNext(items, next, settings.prefetchItems);
      var strip := indicators;
      if settings.generateIndicators {
        var lit := Indicators.Highlight(strip.value, next);
        strip := Some(lit);
      }
      slideChanges, currentIndex, items, indicators, ariaIndex :=
        slideChanges + (if settings.onSlideChange then [(currentIndex, next)] else []), next, shown, strip, next;
    }

    /** An interval fires. No video plays while one is live, so the pause branch is never taken from here. */
    method Tick()
      requires Valid() && phase == Active && Timers.Running(clock)
      modifies this`isVideoPlaying, this`slideChanges, this`currentIndex, this`items, this`indicators, this`ariaIndex
      ensures Valid() && !old(isVideoPlaying) && !isVideoPlaying
      ensures currentIndex == (old(currentIndex) + 1) % totalItems && ariaIndex == currentIndex
      ensures slideChanges == old(slideChanges) + if settings.onSlideChange then [(old(currentIndex), currentIndex)] else []
      ensures items == ShownNext(old(items), currentIndex, settings.prefetchItems)
      ensures settings.generateIndicators ==>
        indicators == Some(Indicators.Activated(|old(indicators).value|, currentIndex))
      ensures !settings.generateIndicators ==> indicators == old(indicators)
    {
      FadeToNext();
    }

    /** The observer: start when visible and no video plays, stop when hidden. */
    method OnIntersection(isIntersecting: bool)
      requires Valid() && listeners.observer
      modifies this`clock
      ensures Valid()
      ensures isIntersecting && !isVideoPlaying ==> clock == Timers.Start(old(clock))
      ensures isIntersecting && isVideoPlaying ==> clock == old(clock)
      ensures !isIntersecting ==> clock == Timers.Stop(old(clock))
    {
      if isIntersecting {
        if !isVideoPlaying {
          StartCarousel();
        }
      } else {
        StopCarousel();
      }
    }

    /** `visibilitychange`: stop when the tab is hidden, start when it is shown and no video plays. */
    method OnVisibilityChange(hidden: bool)
      requires Valid() && listeners.visibility
      modifies this`clock
      ensures Valid()
      ensures hidden ==> clock == Timers.Stop(old(clock))
      ensures !hidden && !isVideoPlaying ==> clock == Timers.Start(old(clock))
      ensures !hidden && isVideoPlaying ==> clock == old(clock)
    {
      if hidden {
        StopCarousel();
      } else if !isVideoPlaying {
        StartCarousel();
      }
    }

    /** The debounced `mouseenter`. */
    method OnMouseEnter()
      requires Valid() && listeners.mouse
      modifies this`clock
      ensures Valid() && clock == Timers.Stop(old(clock))
    {
      StopCarousel();
    }

    /** The debounced `mouseleave`. */
    method OnMouseLeave()
      requires Valid() && listeners.mouse
      modifies this`clock
      ensures Valid()
      ensures !isVideoPlaying ==> clock == Timers.Start(old(clock))
      ensures isVideoPlaying ==> clock == old(clock)
    {
      if !isVideoPlaying {
        StartCarousel();
      }
    }

    /**
     * The delegated click on indicator `index`: autoplay stops; a different item becomes
     * current, is loaded and highlighted, and autoplay resumes unless a video plays. No
     * `onSlideChange`, no prefetch, and `aria-hidden` still shows the item it showed.
     */
    method OnIndicatorClick(index: int)
      requires Valid() && phase == Active && indicators.Some? && 0 <= index < totalItems
      modifies this`clock, this`currentIndex, this`items, this`indicators
      ensures Valid() && currentIndex == index
      ensures forall j :: 0 <= j < totalItems ==> items[j].hidden == old(items[j].hidden)
      ensures index == old(currentIndex) ==>
        clock == Timers.Stop(old(clock)) && items == old(items) && indicators == old(indicators)
      ensures index != old(currentIndex) ==>
        && items == LoadAt(old(items), index, Replace)
        && indicators == (if settings.generateIndicators
                          then Some(Indicators.Activated(|old(indicators).value|, index)) else old(indicators))
        && clock == (if isVideoPlaying then Timers.Stop(old(clock)) else Timers.Start(Timers.Stop(old(clock))))
    {
      StopCarousel();
      if index != currentIndex {
        currentIndex := index;
        LoadAtKeepsLoadedOnce(items, index);
        LoadLazyContent(index);
        SetIndicator(index);
        if !isVideoPlaying {
          StartCarousel();
        }
      }
    }

    /** A click on the placeholder of item `j`, bound exactly once: autoplay stops, a video counts as playing. */
    method OnPlaceholderClick(j: int)
      requires Valid() && phase == Active && 0 <= j < totalItems && items[j].media.Placeholder?
      modifies this`clock, this`isVideoPlaying, this`items
      ensures Valid() && isVideoPlaying
      ensures clock == Timers.Stop(old(clock))
      ensures items == old(items)[j := old(items[j]).(media := JqTakeOver(old(items[j].media)))]
    {
      StopCarousel();
      isVideoPlaying := true;
      items := items[j := items[j].(media := JqTakeOver(items[j].media))];
    }

    /**
     * `ended` on the video of item `j`: the placeholder comes back, the collection its click
     * listener captured is loaded again, and autoplay restarts. That collection is all the
     * items when the listener was bound by setup's `loadLazyContent($items)`, and item `j`
     * alone when a later load rebound it; every other item is already loaded once, so both
     * loads leave the same items.
     */
    method OnVideoEnded(j: int)
      requires Valid() && phase == Active && 0 <= j < totalItems && items[j].media.Video?
      modifies this`clock, this`isVideoPlaying, this`items
      ensures Valid() && !isVideoPlaying
      ensures clock == Timers.Start(old(clock))
      ensures items == LoadedAll(old(items)[j := old(items[j]).(media := Restore(old(items[j].media)))], Replace)
      ensures items == LoadAt(old(items)[j := old(items[j]).(media := Restore(old(items[j].media)))], j, Replace)
      ensures items[j].media == Placeholder(old(items[j].media.videoSrc), old(items[j].media.poster), 1, 1)
    {
      isVideoPlaying := false;
      items := items[j := items[j].(media := Restore(items[j].media))];
      LoadedAllMatchesLoadAt(items, j);
      LoadLazyContent(j);
      LoadSettles(items[j], Replace);
      StartCarousel();
    }
  }

  /** The plugin file, once when it is evaluated: the root gets the marker class. */
  method LoadScript(doc: Host.Document)
    modifies doc
    ensures doc.rootClassName == Host.WithMarker(old(doc.rootClassName))
  {
    doc.MarkJs();
  }

  /** However often a video is played and ends, its placeholder never holds a second listener. */
  method PlayTwice(c: Carousel, j: int)
    requires c.Valid() && c.phase == Active && 0 <= j < c.totalItems && c.items[j].media.Placeholder?
    requires JqTruthy(c.items[j].media.videoSrc)
    modifies c
    ensures c.Valid() && !c.isVideoPlaying && Timers.Running(c.clock)
    ensures c.items[j].media == Placeholder(old(c.items[j].media.videoSrc), old(c.items[j].media.poster), 1, 1)
  {
    c.OnPlaceholderClick(j);
    c.OnVideoEnded(j);
    c.OnPlaceholderClick(j);
    c.OnVideoEnded(j);
  }
}
