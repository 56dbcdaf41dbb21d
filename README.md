# simple-carousel, modelled in Dafny

simple-carousel is a small front-end component. It turns a container of
`.simpleCarouselItem` elements into an auto-advancing, accessible carousel. It ships as four
builds of the same controller under `dist/js/`:

- `simple.carousel.es6.js`: an ES6 class that also supports touch swipes;
- `simple.carousel.vanilla.js`: a UMD build with a constructor function and a prototype;
- `simple.carousel.jquery.js`: a jQuery plugin with one closure per element;
- `simple.carousel.ts.js`: a TypeScript class with a static "common CSS added" flag.

Each build resolves its settings from defaults, then the caller's options. The ES6, vanilla
and jQuery builds then read `data-*` attributes; the TypeScript build reads none. In `setup` it labels the element and sets `aria-hidden` on every item. It
generates an indicator strip and starts autoplay, either through an IntersectionObserver or
at once. It also listens for page visibility, mouse enter/leave and indicator clicks. It
lazily loads the current item (images with `data-src`, a video placeholder) and prefetches
`prefetchItems` items on each side. A click on a video placeholder swaps in a `<video>` and
stops autoplay. When the video ends, a new placeholder goes back and autoplay restarts.

The model has one module per concern:

- `Config`: JavaScript `parseInt`, the settings merge and both `data-*` readers;
- `Dom`: items, the lazy loader, `aria-hidden`, and the video takeover/restore;
- `Indicators`: the active bit of each indicator;
- `Timers`: the `timer` field and the intervals that are still live;
- `Prefetch`: the prefetch loop and its index arithmetic;
- `Host`: the `simple-carousel-js` marker on the root element;
- `Lifecycle`: how far `setup` got and which listeners it installed;
- one class per build: `Es6Carousel.Carousel`, `VanillaCarousel.Carousel`,
  `JQueryCarousel.Carousel`, `TsCarousel.Carousel`.

Each build's class holds the fields the source updates in place: `currentIndex`,
`isVideoPlaying`, the timer, the items, the indicators and the `onSlideChange` calls so far.
Each event handler is a method with its own `modifies` clause. Each class has a `Valid()`
invariant:

- no video plays while an interval is live;
- in the Active phase exactly one item is visible. In the class builds it is the current
  item. In jQuery it is the item `aria-hidden` last showed, because an indicator click moves
  `currentIndex` without touching `aria-hidden`;
- in the Failed phase of the class builds every item is hidden and the index is out of range;
- in the class builds a strip, when there is one, highlights the current item. In jQuery this
  is promised only for a generated strip;
- the installed listeners match the phase `setup` reached.

Every constructor establishes it and every handler keeps it.

The environment becomes parameters:

- whether `IntersectionObserver` exists (`hasObserver`);
- whether the tab is hidden, as `document.hidden` says (`hidden`);
- whether the element intersects (`isIntersecting`);
- touch coordinates;
- which item's placeholder or video an event comes from.

Callbacks scheduled with `fadeOut`/`fadeIn` or `debounce` run at once.

Where the builds differ from each other, or from the documentation, the model follows the
code of each build:

- Only the jQuery plugin clamps an out-of-range start index to 0. The class builds keep it.
  Their `setup` then throws on `this.items[currentIndex]` after it has installed the
  observer and the visibility listener (phase `Failed`).
- The jQuery plugin reads the start index from `data-current-index`, not `data-start-index`.
  It reads flags through jQuery's `.data` conversion, so "1" enables and "false"/"0"
  disable. Its default prefetch window is 100.
- The jQuery plugin loads every item during setup. It rebinds placeholder clicks with
  `off('click').on('click')`, so a placeholder always has one listener. The class builds
  use `addEventListener`, and every later load of an item adds one more listener.
- jQuery's `fadeToNext` pauses a playing video and moves on. The class builds do nothing
  while a video plays.
- A jQuery indicator click gives no `onSlideChange` call, no prefetch and no `aria-hidden`
  update.
- Only the ES6 build ignores indicator clicks while a video plays.
- The TypeScript `ended` handler loads the new placeholder node itself. It does not load
  the item, so the restored placeholder has no click listener until that item is loaded
  again.
- A placeholder with an empty `data-video-src` still stops autoplay and sets
  `isVideoPlaying`, and its video never ends. Only the ES6 build then keeps the flag set
  for good, because it ignores indicator clicks and swipes while a video plays. In the
  vanilla, TypeScript and jQuery builds an indicator click can still move to another item.
  When that item's video is played and ends, the flag is cleared (vanilla.js:311,
  ts.js:359, jquery.js:263). jQuery's `fadeToNext` also resets the flag (jquery.js:183), but
  that reset never runs with the flag set. The placeholder click stops the interval, and
  every restart checks that no video plays.

## Model

| member | source | states |
|---|---|---|
| Config.IsJsSpace | dist/js/simple.carousel.es6.js:31 | the white space `parseInt` skips never contains a digit or a sign; apart from the space it is a control character or lies at U+00A0 and above |
| Config.TrimStart | dist/js/simple.carousel.es6.js:31 | what `parseInt` reads is a suffix of the text: everything stripped before it is white space, and it does not start with white space |
| Config.DigitRun | dist/js/simple.carousel.es6.js:31 | `parseInt` reads the longest run of digits of the radix: every character in it is a digit and the next one is not |
| Config.ReadUnsigned | dist/js/simple.carousel.es6.js:31 | the digits after the sign, hexadecimal after `0x`: what is read is never negative, and text that does not start with a decimal digit reads as NaN |
| Config.ParseInt | dist/js/simple.carousel.es6.js:31 | after the leading white space, text that starts with neither a sign nor a decimal digit is NaN, and a negative result comes only from a leading `-` |
| Config.ParseIntMinus | dist/js/simple.carousel.es6.js:31 | a leading `-` negates the digits that follow it |
| Config.NatToDecimal | dist/js/simple.carousel.es6.js:31 | the decimal text of a number is non-empty and made of decimal digits only |
| Config.IntToDecimal | dist/js/simple.carousel.es6.js:47 | the decimal text of an integer is non-empty, starts with `-` exactly when the integer is negative, and is made of decimal digits after that |
| Config.NumberToString | dist/js/simple.carousel.es6.js:47 | the text `parseInt` receives for a Number: the decimal text below 10^21 in magnitude, otherwise the sign, the first digit, and then `.` or `e` |
| Config.ParseIntReadsDecimal | dist/js/simple.carousel.es6.js:31 | `parseInt` of the decimal text of any integer, negative ones included, gives back that integer |
| Config.ParseIntZero | dist/js/simple.carousel.es6.js:31 | `parseInt("0")` is 0, which `\|\|` then treats like NaN |
| Config.ParseIntText | dist/js/simple.carousel.es6.js:31 | `parseInt("fast")` and `parseInt("")` are NaN |
| Config.ReparseInt | dist/js/simple.carousel.es6.js:47 | `parseInt(settings.startIndex)` on a number gives the number back below 10^21 in magnitude, and from there on only its first digit, with its sign |
| Config.ReparseExponentNotation | dist/js/simple.carousel.es6.js:47 | from 10^21 on, `parseInt` of the Number's text reads only the first digit of the exponent notation, with the number's sign |
| Config.ReparseExponent | dist/js/simple.carousel.vanilla.js:75 | a start index of 10^21 becomes `currentIndex` 1 |
| Config.Merge | dist/js/simple.carousel.es6.js:13-27 | the spread of options over defaults: each option the caller gives replaces that one setting, and every other setting keeps its default |
| Config.OrElse | dist/js/simple.carousel.es6.js:31 | `parsed \|\| fallback`: a parsed non-zero number wins, while NaN and 0 fall back |
| Config.FlagAttr | dist/js/simple.carousel.es6.js:32-34 | an absent flag attribute keeps the setting; a present one enables exactly when its text is "true" |
| Config.TextAttr | dist/js/simple.carousel.es6.js:30 | a non-empty `data-theme` replaces the theme; absent or empty keeps it |
| Config.ResolveDataset | dist/js/simple.carousel.es6.js:29-41 | each of the six `data-*` attributes decides only its own setting; `lazyLoad`, `prefetchItems` and `onSlideChange` cannot be set from attributes |
| Config.ResolveWithoutAttributes | dist/js/simple.carousel.vanilla.js:57-69 | an element without `data-*` attributes leaves the merged settings exactly as they are |
| Config.DecimalIntervalOverrides | dist/js/simple.carousel.vanilla.js:59 | a `data-interval` holding the decimal text of a non-zero integer sets the interval to that integer |
| Config.DecimalStartIndexOverrides | dist/js/simple.carousel.es6.js:38 | a `data-start-index` holding the decimal text of a non-zero integer sets the start index to that integer |
| Config.AttrInt | dist/js/simple.carousel.es6.js:30 | an absent attribute parses as NaN, a present one as `parseInt` of its text, and a number comes only from a non-blank text |
| Config.ZeroOrTextFallsBack | dist/js/simple.carousel.es6.js:31 | `data-interval="0"` and `data-interval="fast"` both leave the option's interval |
| Config.FlagOverrideOnlyWhenPresent | dist/js/simple.carousel.es6.js:32-34 | only a present attribute changes `generateIndicators`, and "1" and "TRUE" both disable it |
| Config.JqTruthy | dist/js/simple.carousel.jquery.js:69 | the truthiness of jQuery's converted `.data()` value: "true" and every text starting with a non-zero digit are truthy, and every falsy text is at most five characters long |
| Config.JqFlag | dist/js/simple.carousel.jquery.js:58 | an absent attribute keeps the setting; a present one counts by the truthiness of jQuery's converted value |
| Config.ResolveJQuery | dist/js/simple.carousel.jquery.js:52-74 | the plugin's overrides: a truthy theme, logging, the parsed interval, `data-indicator`, and the start index read from `data-current-index`; nothing else |
| Config.DecimalCurrentIndexOverrides | dist/js/simple.carousel.jquery.js:74 | a `data-current-index` holding the decimal text of a non-zero integer sets the start index to that integer |
| Config.FlagReadersDisagree | dist/js/simple.carousel.jquery.js:69 | the same attribute text gives opposite flags in the two readers ("1" and "yes" enable only in the plugin) |
| Config.ClampStart | dist/js/simple.carousel.jquery.js:74-78 | the start index always names an item: an in-range index is kept, and any other index becomes 0 |
| Dom.LoadImage | dist/js/simple.carousel.es6.js:254-261 | an image without a source gets its `data-src` and loses the attribute; an image that has a source is untouched; nothing is pending afterwards |
| Dom.LoadMedia | dist/js/simple.carousel.es6.js:263-280 | a placeholder keeps its source and poster. It gets exactly one play icon when it has none and keeps the ones it has. It gains one click listener under `addEventListener`, or holds exactly one under `off().on()`. Anything else is unchanged |
| Dom.LoadItem | dist/js/simple.carousel.es6.js:253-341 | `loadLazyContent` loads every image and prepares the placeholder, leaving `aria-hidden` alone |
| Dom.LoadSettles | dist/js/simple.carousel.vanilla.js:249-335 | after a load no image is pending and a placeholder shows a play icon |
| Dom.LoadSettledKeepsContent | dist/js/simple.carousel.es6.js:256 | loading a settled item changes nothing but its listeners |
| Dom.LoadIdempotentOnContent | dist/js/simple.carousel.es6.js:253-280 | a second load resolves no image again and adds no second play icon |
| Dom.ReplaceLoadIdempotent | dist/js/simple.carousel.jquery.js:216-241 | with `off('click').on('click')` a second load is a complete no-op, listeners included |
| Dom.AccumulateLoadPilesUp | dist/js/simple.carousel.es6.js:280 | with `addEventListener` two loads bind two more click listeners |
| Dom.LoadRespectsContent | dist/js/simple.carousel.es6.js:253-280 | the content after a load depends only on the content before it |
| Dom.Load | dist/js/simple.carousel.es6.js:253-280 | the `forEach` over the images followed by the placeholder step computes exactly `LoadItem` |
| Dom.LoadedAll | dist/js/simple.carousel.jquery.js:294 | `loadLazyContent` on the whole collection loads each item once |
| Dom.LoadEach | dist/js/simple.carousel.jquery.js:294 | the `.each` loop over the collection computes exactly `LoadedAll` |
| Dom.LoadedAllOnce | dist/js/simple.carousel.jquery.js:294 | after the plugin's up-front load every item is settled and every placeholder holds exactly one listener |
| Dom.LoadAt | dist/js/simple.carousel.es6.js:135 | `loadLazyContent(this.items[j])`: item `j` becomes one load of itself and every other item stays as it was |
| Dom.LoadAtKeepsLoadedOnce | dist/js/simple.carousel.jquery.js:315 | one more `off().on()` load keeps that property |
| Dom.SettledReplaceLoadKeeps | dist/js/simple.carousel.jquery.js:216-240 | an `off().on()` load of an item that is already loaded once changes nothing, listeners included |
| Dom.LoadedAllMatchesLoadAt | dist/js/simple.carousel.jquery.js:275 | reloading the whole collection after one item's video ends does what reloading that item alone does, when every other item is loaded once |
| Dom.Marked | dist/js/simple.carousel.es6.js:92-95 | setup marks every item hidden except the current one and changes nothing else about any item; with an out-of-range index every item is hidden |
| Dom.MarkedKeepsLoadedOnce | dist/js/simple.carousel.jquery.js:202-203 | setting `aria-hidden` does not disturb loading or listeners |
| Dom.MarkVisible | dist/js/simple.carousel.es6.js:92-95 | the `forEach` loop computes exactly `Marked` |
| Dom.Reveal | dist/js/simple.carousel.es6.js:197-204 | `showItem` hides the current item and shows the target, touching no other item and no content |
| Dom.RevealMovesVisibility | dist/js/simple.carousel.es6.js:197-204 | from a state where only `from` is visible, showing `to` leaves only `to` visible, the same as marking from scratch |
| Dom.TakeOver | dist/js/simple.carousel.es6.js:288-301 | a placeholder with a source is replaced by a `<video>` carrying that source and poster; with an empty source nothing is swapped |
| Dom.Restore | dist/js/simple.carousel.es6.js:311-330 | the intended `ended` handler: a fresh placeholder with the video's source and poster, one play icon and no listener |
| Dom.RestoreAsWritten | dist/js/simple.carousel.es6.js:319 | as written, `dataset.poster = poster` stores the text "undefined" when there was no poster |
| Dom.RestoreTs | dist/js/simple.carousel.ts.js:358-375 | the TypeScript restore keeps the source, writes the poster or `''`, and adds one icon and no listener |
| Dom.TakeOverRestoreRoundTrip | dist/js/simple.carousel.es6.js:280-337 | play, end and reload bring the placeholder back with the same source and poster and one icon, holding what one bind gives a fresh node |
| Dom.RestoreAsWrittenInventsPoster | dist/js/simple.carousel.vanilla.js:317-320 | as written, a placeholder without a poster comes back with poster "undefined", which the next load shows as a background |
| Dom.RestoreAsWrittenAgreesWithPoster | dist/js/simple.carousel.es6.js:319 | whenever the placeholder had a poster, the restore as written and the corrected one agree |
| Dom.RestoreTsKeepsPosterShown | dist/js/simple.carousel.ts.js:364-368 | the TypeScript restore keeps whether a poster background is shown |
| Indicators.NoneActiveCount | dist/js/simple.carousel.es6.js:213-230 | a strip with no active bit counts zero active indicators |
| Indicators.ActivatedCount | dist/js/simple.carousel.es6.js:236-251 | after `setIndicator(index)` exactly one indicator is active when the index names one, and none otherwise |
| Indicators.Generate | dist/js/simple.carousel.es6.js:213-234 | `generateIndicators` creates one inactive indicator per item |
| Indicators.Highlight | dist/js/simple.carousel.es6.js:236-251 | the `forEach` activates exactly the indicator at the index and deactivates every other |
| Timers.Stop | dist/js/simple.carousel.es6.js:168-173 | `stopCarousel` clears the interval in the field, leaving nothing live, and keeps the handle; without a handle it is a no-op |
| Timers.Start | dist/js/simple.carousel.es6.js:162-166 | `startCarousel` leaves exactly one live interval, the new one, which is now in the field |
| Timers.AtMostOneLive | dist/js/simple.carousel.es6.js:162-173 | however start and stop interleave, at most one interval fires `fadeToNext` |
| Timers.StartReplaces | dist/js/simple.carousel.es6.js:162-164 | starting twice leaves only the second interval live |
| Timers.StopIdempotent | dist/js/simple.carousel.es6.js:168-173 | stopping twice is stopping once |
| Timers.HandleOutlivesInterval | dist/js/simple.carousel.es6.js:168-173 | after a start and a stop the field still holds a handle although nothing is live |
| Host.WithMarker | dist/js/simple.carousel.es6.js:8-10 | the root class name afterwards contains `simple-carousel-js`, and it is appended only when it was missing |
| Host.WithMarkerIdempotent | dist/js/simple.carousel.es6.js:8-10 | adding the marker twice is adding it once |
| Host.Document.constructor | dist/js/simple.carousel.es6.js:8 | the document starts with the given root class name |
| Host.Document.MarkJs | dist/js/simple.carousel.es6.js:8-10 | the root's class name becomes the marked one and contains the marker |
| Prefetch.JsRem | dist/js/simple.carousel.es6.js:416 | JavaScript's `%`: the Euclidean remainder for a non-negative dividend; for a negative one it lies in (-n, 0] and is the Euclidean remainder minus n when non-zero |
| Prefetch.EqPosition | dist/js/simple.carousel.jquery.js:289 | jQuery's `.eq(i)` counts a negative position back from the end, so every position in [-n, n) names an item |
| Prefetch.NextPrevInRange | dist/js/simple.carousel.es6.js:415-416 | the corrected indices ahead and back always name an item |
| Prefetch.PrevAsWrittenAgrees | dist/js/simple.carousel.es6.js:416 | while `currentIndex - i + totalItems >= 0` the formula as written is the wrap-around |
| Prefetch.PrevAsWrittenEscapes | dist/js/simple.carousel.vanilla.js:340 | for a step back longer than `currentIndex + totalItems`, the formula is negative (the wrap-around minus n) unless it lands on item 0 |
| Prefetch.PrevAsWrittenCounterexample | dist/js/simple.carousel.ts.js:387 | three items, window 4, at item 0: the fourth step back computes -1 where item 2 is meant |
| Prefetch.EqPositionWrapsPrev | dist/js/simple.carousel.jquery.js:287-289 | in the plugin `.eq` maps the formula as written back onto the intended item, for every step |
| Prefetch.Window | dist/js/simple.carousel.es6.js:414 | the loop runs `prefetchItems` times, and not at all for a negative count |
| Prefetch.Next | dist/js/simple.carousel.es6.js:415 | the index `i` ahead always names an item; it is `currentIndex + i` while that fits, and one period less when it wraps once |
| Prefetch.Prev | dist/js/simple.carousel.es6.js:416 | the index `i` back, as intended, always names an item; it is `currentIndex - i` while that is not negative, and one period more when it wraps once |
| Prefetch.PrevAsWritten | dist/js/simple.carousel.es6.js:416 | the formula as written lies strictly between `-totalItems` and `totalItems`, and is not negative while `currentIndex - i + totalItems` is not |
| Prefetch.TouchedIff | dist/js/simple.carousel.es6.js:414-419 | item `j` is reached exactly when its distance ahead or its distance back (going all the way round for the current item) fits the window |
| Prefetch.CurrentTouchedIff | dist/js/simple.carousel.es6.js:414-419 | the current item is loaded again exactly when the window is at least the number of items |
| Prefetch.WideWindowCoversAll | dist/js/simple.carousel.jquery.js:43 | a window of n-1 or more, such as the plugin's default of 100 on fewer items, reaches every other item |
| Prefetch.NeighbourWindow | dist/js/simple.carousel.es6.js:22 | the default window of 1 reaches exactly the two neighbours |
| Prefetch.Prefetched | dist/js/simple.carousel.es6.js:413-421 | the prefetch changes the number of items and `aria-hidden` of none |
| Prefetch.PrefetchedAt | dist/js/simple.carousel.es6.js:413-421 | after the loop, a reached item holds the content of one load (exactly one load under `off().on()`) and every other item is untouched |
| Prefetch.PrefetchedKeepsLoadedOnce | dist/js/simple.carousel.jquery.js:284-292 | the plugin's prefetch keeps every placeholder at one listener |
| Prefetch.PrefetchedLoadedIsNoOp | dist/js/simple.carousel.jquery.js:284-291 | on a collection that is already loaded once, the plugin's prefetch changes nothing |
| Prefetch.PrefetchedEverywhere | dist/js/simple.carousel.es6.js:413-421 | for every item at once: a reached item holds the content of one load, and every other item is untouched |
| Prefetch.PrefetchedContent | dist/js/simple.carousel.vanilla.js:337-345 | item by item, the content after the prefetch is a load of it exactly when its distance fits the window, and otherwise unchanged |
| Prefetch.PrefetchedStep | dist/js/simple.carousel.es6.js:414-419 | each round of the loop loads the item ahead, then the item behind |
| Prefetch.LoadPair | dist/js/simple.carousel.es6.js:417-418 | the two `loadLazyContent` calls of one round, ahead first |
| Prefetch.Run | dist/js/simple.carousel.es6.js:413-421 | the `for` loop computes exactly the window-wide prefetch, with no rounds for a window of 0 or less |
| Prefetch.SetupItems | dist/js/simple.carousel.es6.js:92-95 | setup's item side on success: mark `aria-hidden`, load the start item, prefetch; exactly the start item is visible |
| Prefetch.ShowItems | dist/js/simple.carousel.es6.js:197-210 | `showItem`'s item side: hide, show, load the target, prefetch around it; exactly the target is visible |
| Prefetch.SetUp | dist/js/simple.carousel.es6.js:135-137 | after setup exactly the start item is visible. The start item and every item the window reaches hold the content of one load of their marked markup, and every other item is its markup, hidden |
| Prefetch.Shown | dist/js/simple.carousel.es6.js:197-210 | after `showItem(to)` exactly `to` is visible. The target and every item the window reaches hold the content of one load, every other item is as before apart from `aria-hidden` |
| Es6Carousel.SwipeTarget | dist/js/simple.carousel.es6.js:386-406 | a move counts exactly when it is more horizontal than vertical and longer than 50 px; right goes back one item and left forward one, always onto an item |
| Es6Carousel.SwipeLeftThenRight | dist/js/simple.carousel.es6.js:396-403 | a swipe left then an equally long swipe right returns to the item it started on |
| Es6Carousel.SwipeRightThenLeft | dist/js/simple.carousel.es6.js:396-403 | a swipe right then an equally long swipe left returns to the item it started on |
| Es6Carousel.Carousel.constructor | dist/js/simple.carousel.es6.js:6-160 | marks the root and resolves settings; `currentIndex` is the start index read back through `parseInt`. One item or none: nothing installed and the items untouched. A `currentIndex` out of range: every item hidden and only the observer and visibility listeners installed. Otherwise: the items set up and prefetched, all five listeners, and indicators iff enabled. Autoplay starts at once exactly when there is no observer. |
| Es6Carousel.Carousel.StartCarousel | dist/js/simple.carousel.es6.js:162-166 | the previous interval is cleared, and only the new one is live |
| Es6Carousel.Carousel.StopCarousel | dist/js/simple.carousel.es6.js:168-173 | no interval is live afterwards; without a handle nothing changes |
| Es6Carousel.Carousel.SetIndicator | dist/js/simple.carousel.es6.js:236-251 | with indicators, exactly the one at the index is active; without, nothing happens |
| Es6Carousel.Carousel.LoadLazyContent | dist/js/simple.carousel.es6.js:253-341 | item `j` is loaded, binding one more placeholder listener |
| Es6Carousel.Carousel.PrefetchItems | dist/js/simple.carousel.es6.js:413-421 | the window around the current index is loaded |
| Es6Carousel.Carousel.ShowItem | dist/js/simple.carousel.es6.js:188-211 | the callback sees (old, new), exactly the new item is visible and loaded with its neighbours prefetched, the indicators follow, and the index moves |
| Es6Carousel.Carousel.FadeToNext | dist/js/simple.carousel.es6.js:175-179 | nothing happens while a video plays. Otherwise the carousel moves to `(currentIndex + 1) % totalItems`: the items become those of `showItem` from the old index and the indicators highlight the new one. After a failed setup the callback runs and then the call throws |
| Es6Carousel.Carousel.Tick | dist/js/simple.carousel.es6.js:164 | a live interval always moves to the next item, since no video plays while one is live: the index advances by one modulo the count, `onSlideChange` sees (old, new) when enabled, the items become those of `showItem` from the old index and the indicators highlight the new one; in the Failed phase nothing moves and the callback sees the current index and its JavaScript-remainder successor |
| Es6Carousel.Carousel.FadeToIndex | dist/js/simple.carousel.es6.js:181-186 | a swipe shows the given item and reports the change: the items become those of `showItem` from the old index and the indicators highlight the new one |
| Es6Carousel.Carousel.OnIntersection | dist/js/simple.carousel.es6.js:101-119 | entering view starts autoplay unless a video plays; leaving view stops it |
| Es6Carousel.Carousel.OnVisibilityChange | dist/js/simple.carousel.es6.js:125-133 | a hidden tab stops autoplay; a shown tab starts it unless a video plays |
| Es6Carousel.Carousel.OnMouseEnter | dist/js/simple.carousel.es6.js:139 | hovering stops autoplay |
| Es6Carousel.Carousel.OnMouseLeave | dist/js/simple.carousel.es6.js:140-142 | leaving restarts autoplay unless a video plays |
| Es6Carousel.Carousel.OnIndicatorClick | dist/js/simple.carousel.es6.js:144-157 | ignored entirely while a video plays. Otherwise autoplay stops and the clicked item becomes current. Only when it differs is it shown and reported: the items become those of `showItem` from the old index and the indicators highlight the new one. Otherwise the items and indicators stay |
| Es6Carousel.Carousel.OnPlaceholderClick | dist/js/simple.carousel.es6.js:280-309 | with a listener bound: autoplay stops, a video counts as playing, and the placeholder is taken over; with none, nothing happens |
| Es6Carousel.Carousel.OnVideoEnded | dist/js/simple.carousel.es6.js:311-337 | the video of the one takeover the model performs is replaced by a placeholder with the same source and poster, one icon and one fresh listener; playing ends and autoplay restarts |
| Es6Carousel.Carousel.OnTouchStart | dist/js/simple.carousel.es6.js:375-384 | records the start point and begins a swipe, unless a video plays |
| Es6Carousel.Carousel.OnTouchMove | dist/js/simple.carousel.es6.js:386-406 | a resolved swipe moves to the swipe target and ends the gesture: the items become those of `showItem` from the old index and the indicators highlight the new one. Otherwise nothing changes |
| Es6Carousel.Carousel.OnTouchEnd | dist/js/simple.carousel.es6.js:408-410 | the gesture ends |
| Es6Carousel.SwipeThereAndBack | dist/js/simple.carousel.es6.js:370-411 | touching, moving 100 px left, lifting, then moving 100 px right returns the carousel to the item it started on |
| VanillaCarousel.Carousel.constructor | dist/js/simple.carousel.vanilla.js:40-164 | as in the ES6 class, with the same second `parseInt` of the start index, without touch listeners and without marking the root |
| VanillaCarousel.Carousel.StartCarousel | dist/js/simple.carousel.vanilla.js:166-170 | the previous interval is cleared, and only the new one is live |
| VanillaCarousel.Carousel.StopCarousel | dist/js/simple.carousel.vanilla.js:172-177 | no interval is live afterwards; without a handle nothing changes |
| VanillaCarousel.Carousel.SetIndicator | dist/js/simple.carousel.vanilla.js:235-247 | with indicators, exactly the one at the index is active; without, nothing happens |
| VanillaCarousel.Carousel.LoadLazyContent | dist/js/simple.carousel.vanilla.js:249-335 | item `j` is loaded, binding one more placeholder listener |
| VanillaCarousel.Carousel.PrefetchItems | dist/js/simple.carousel.vanilla.js:337-345 | the window around the current index is loaded |
| VanillaCarousel.Carousel.ShowItem | dist/js/simple.carousel.vanilla.js:187-210 | the callback sees (old, new), exactly the new item is visible and loaded with its neighbours prefetched, the indicators follow, and the index moves |
| VanillaCarousel.Carousel.FadeToNext | dist/js/simple.carousel.vanilla.js:179-185 | nothing happens while a video plays. Otherwise the carousel moves to the next item: the items become those of `showItem` from the old index and the indicators highlight the new one. After a failed setup the call throws |
| VanillaCarousel.Carousel.Tick | dist/js/simple.carousel.vanilla.js:168 | a live interval always moves to the next item, since no video plays while one is live: the index advances by one modulo the count, `onSlideChange` sees (old, new) when enabled, the items become those of `showItem` from the old index and the indicators highlight the new one; in the Failed phase nothing moves and the callback sees the current index and its JavaScript-remainder successor |
| VanillaCarousel.Carousel.OnIntersection | dist/js/simple.carousel.vanilla.js:109-127 | entering view starts autoplay unless a video plays; leaving view stops it |
| VanillaCarousel.Carousel.OnVisibilityChange | dist/js/simple.carousel.vanilla.js:134-142 | a hidden tab stops autoplay; a shown tab starts it unless a video plays |
| VanillaCarousel.Carousel.OnMouseEnter | dist/js/simple.carousel.vanilla.js:148 | hovering stops autoplay |
| VanillaCarousel.Carousel.OnMouseLeave | dist/js/simple.carousel.vanilla.js:149-151 | leaving restarts autoplay unless a video plays |
| VanillaCarousel.Carousel.OnIndicatorClick | dist/js/simple.carousel.vanilla.js:153-163 | autoplay stops and the clicked item becomes current, even while a video plays. Only when it differs is it shown and reported: the items become those of `showItem` from the old index and the indicators highlight the new one. Otherwise the items and indicators stay |
| VanillaCarousel.Carousel.OnPlaceholderClick | dist/js/simple.carousel.vanilla.js:277-309 | with a listener bound: autoplay stops, a video counts as playing, and the placeholder is taken over |
| VanillaCarousel.Carousel.OnVideoEnded | dist/js/simple.carousel.vanilla.js:310-331 | a placeholder with the same source and poster comes back with one icon and one fresh listener; autoplay restarts |
| VanillaCarousel.LoadScript | dist/js/simple.carousel.vanilla.js:15-18 | evaluating the script marks the root once |
| TsCarousel.Statics.constructor | dist/js/simple.carousel.ts.js:29 | the static flag starts down, with no style element injected |
| TsCarousel.Statics.EnsureCommonCSS | dist/js/simple.carousel.ts.js:48-51 | the common CSS is injected exactly once, however many carousels are constructed |
| TsCarousel.Carousel.constructor | dist/js/simple.carousel.ts.js:31-54 | options are spread over the TypeScript defaults with no attribute reading. The CSS flag is raised. The setup phases are those of the ES6 class, without touch. |
| TsCarousel.Carousel.StartCarousel | dist/js/simple.carousel.ts.js:229-234 | the previous interval is cleared, and only the new one is live |
| TsCarousel.Carousel.StopCarousel | dist/js/simple.carousel.ts.js:235-240 | no interval is live afterwards |
| TsCarousel.Carousel.SetIndicator | dist/js/simple.carousel.ts.js:292-304 | with indicators, exactly the one at the index is active |
| TsCarousel.Carousel.LoadLazyContent | dist/js/simple.carousel.ts.js:306-382 | item `j` is loaded, binding one more placeholder listener |
| TsCarousel.Carousel.PrefetchItems | dist/js/simple.carousel.ts.js:384-392 | the window around the current index is loaded |
| TsCarousel.Carousel.ShowItem | dist/js/simple.carousel.ts.js:248-267 | the callback sees (old, new), exactly the new item is visible and loaded with its neighbours prefetched, the indicators follow, and the index moves |
| TsCarousel.Carousel.FadeToNext | dist/js/simple.carousel.ts.js:242-246 | nothing happens while a video plays. Otherwise the carousel moves to the next item: the items become those of `showItem` from the old index and the indicators highlight the new one. After a failed setup it throws |
| TsCarousel.Carousel.Tick | dist/js/simple.carousel.ts.js:231 | a live interval always moves to the next item, since no video plays while one is live: the index advances by one modulo the count, `onSlideChange` sees (old, new) when enabled, the items become those of `showItem` from the old index and the indicators highlight the new one; in the Failed phase nothing moves and the callback sees the current index and its JavaScript-remainder successor |
| TsCarousel.Carousel.OnIntersection | dist/js/simple.carousel.ts.js:173-191 | entering view starts autoplay unless a video plays; leaving view stops it |
| TsCarousel.Carousel.OnVisibilityChange | dist/js/simple.carousel.ts.js:197-205 | a hidden tab stops autoplay; a shown tab starts it unless a video plays |
| TsCarousel.Carousel.OnMouseEnter | dist/js/simple.carousel.ts.js:211 | hovering stops autoplay |
| TsCarousel.Carousel.OnMouseLeave | dist/js/simple.carousel.ts.js:212-214 | leaving restarts autoplay unless a video plays |
| TsCarousel.Carousel.OnIndicatorClick | dist/js/simple.carousel.ts.js:216-226 | autoplay stops and the clicked item becomes current. Only when it differs is it shown and reported: the items become those of `showItem` from the old index and the indicators highlight the new one. Otherwise the items and indicators stay |
| TsCarousel.Carousel.OnPlaceholderClick | dist/js/simple.carousel.ts.js:332-357 | with a listener bound: autoplay stops, a video counts as playing, and the placeholder is taken over |
| TsCarousel.Carousel.OnVideoEnded | dist/js/simple.carousel.ts.js:358-378 | a placeholder with the source and the poster or `''` comes back with no click listener; autoplay restarts |
| TsCarousel.ReplayNeedsReload | dist/js/simple.carousel.ts.js:376 | after a video ends, clicking the restored placeholder does nothing until its item is loaded again, which binds exactly one listener |
| JQueryCarousel.JqTakeOver | dist/js/simple.carousel.jquery.js:241-251 | the plugin swaps in a video exactly when jQuery's converted `data-video-src` is truthy |
| JQueryCarousel.JqTakeOverAgrees | dist/js/simple.carousel.jquery.js:245 | apart from "0", "false", "null" and "NaN", the plugin swaps exactly when the class builds do |
| JQueryCarousel.ZeroSourceDoesNotPlay | dist/js/simple.carousel.jquery.js:229-245 | `data-video-src="0"` plays in the class builds but not in the plugin |
| JQueryCarousel.VideoRoundTrip | dist/js/simple.carousel.jquery.js:241-277 | play, end and rebind bring a loaded placeholder back exactly as it was |
| JQueryCarousel.SetupItems | dist/js/simple.carousel.jquery.js:100-103 | setup's item side: `aria-hidden`, every item loaded, the window prefetched; exactly the start item visible and one listener per placeholder |
| JQueryCarousel.ShowNext | dist/js/simple.carousel.jquery.js:195-204 | the fade-out callback: load the next item, prefetch, then mark `aria-hidden`; exactly the next item visible, with everything still loaded once |
| JQueryCarousel.SetUpAll | dist/js/simple.carousel.jquery.js:294-298 | after the plugin's setup exactly the start item is visible, and every item is exactly one `off().on()` load of its marked markup: the prefetch after the full load changes nothing |
| JQueryCarousel.ShownNext | dist/js/simple.carousel.jquery.js:195-204 | exactly the next item is visible; on a collection loaded once only `aria-hidden` moves, since the load and the prefetch change nothing |
| JQueryCarousel.Carousel.constructor | dist/js/simple.carousel.jquery.js:48-306 | one item or none: nothing happens. Otherwise: the start index is clamped and every item loaded. Indicators are generated only when enabled and none are in the markup, and highlighted when enabled. Autoplay starts at once exactly without an observer. |
| JQueryCarousel.Carousel.StartCarousel | dist/js/simple.carousel.jquery.js:165-169 | the previous interval is cleared, and only the new one is live |
| JQueryCarousel.Carousel.StopCarousel | dist/js/simple.carousel.jquery.js:171-176 | no interval is live afterwards |
| JQueryCarousel.Carousel.SetIndicator | dist/js/simple.carousel.jquery.js:207-214 | only with indicators enabled, exactly the span at the index is active, on whatever spans the element holds |
| JQueryCarousel.Carousel.LoadLazyContent | dist/js/simple.carousel.jquery.js:216-282 | item `j` is loaded; its placeholder is rebound to exactly one listener |
| JQueryCarousel.Carousel.PrefetchItems | dist/js/simple.carousel.jquery.js:284-292 | the symmetric window around the current index is loaded, since `.eq` wraps negative indices |
| JQueryCarousel.Carousel.FadeToNext | dist/js/simple.carousel.jquery.js:178-205 | a playing video is paused, and the carousel moves on anyway: the callback sees (old, new), the index moves, only the new item is visible, and the indicators follow |
| JQueryCarousel.Carousel.Advance | dist/js/simple.carousel.jquery.js:186-204 | with no video playing, the report, index move, load, prefetch, highlight and `aria-hidden` of one step |
| JQueryCarousel.Carousel.Tick | dist/js/simple.carousel.jquery.js:167 | a live interval never finds a playing video and always moves to the next item: the index advances by one modulo the count and `aria-hidden` follows it, `onSlideChange` sees (old, new) when enabled, the items become `ShownNext` of the new index, and the generated indicators highlight it while a strip not generated is untouched |
| JQueryCarousel.Carousel.OnIntersection | dist/js/simple.carousel.jquery.js:130-147 | entering view starts autoplay unless a video plays; leaving view stops it |
| JQueryCarousel.Carousel.OnVisibilityChange | dist/js/simple.carousel.jquery.js:155-163 | a hidden tab stops autoplay; a shown tab starts it unless a video plays |
| JQueryCarousel.Carousel.OnMouseEnter | dist/js/simple.carousel.jquery.js:300-302 | hovering stops autoplay |
| JQueryCarousel.Carousel.OnMouseLeave | dist/js/simple.carousel.jquery.js:304-306 | leaving restarts autoplay unless a video plays |
| JQueryCarousel.Carousel.OnIndicatorClick | dist/js/simple.carousel.jquery.js:308-323 | autoplay stops. A different item becomes current, is loaded and highlighted, and autoplay resumes unless a video plays. No report and no prefetch, and `aria-hidden` is unchanged. |
| JQueryCarousel.Carousel.OnPlaceholderClick | dist/js/simple.carousel.jquery.js:241-260 | autoplay stops, a video counts as playing, and a truthy source is swapped for a video |
| JQueryCarousel.Carousel.OnVideoEnded | dist/js/simple.carousel.jquery.js:262-277 | the placeholder comes back with one icon and exactly one listener, the captured collection is reloaded, which leaves the same items as reloading item `j` alone, and autoplay restarts |
| JQueryCarousel.LoadScript | dist/js/simple.carousel.jquery.js:7-10 | evaluating the plugin file marks the root once |
| JQueryCarousel.PlayTwice | dist/js/simple.carousel.jquery.js:241-277 | however often a video is played and ends, its placeholder never gains a second listener, and autoplay runs again afterwards |

## Left out

- Styling: element ids, theme classes, `display`, fades, indicator colours and sizes, the
  injected CSS text and `addCustomVideoControls` (the pause button). They do not affect
  the modelled state.
- Timing: `setInterval` periods, `debounce` delays and `fadeOut`/`fadeIn` durations.
  Callbacks run at once, so two events racing inside a debounce or fade window are not
  modelled.
- Video playback itself (`load`, `play`, the promise's failure), `trackSlideChange`,
  `trackIndicatorClick`, `trackVideoPlay`, the log functions and `generateUniqueId`'s random
  number. They are I/O, analytics or randomness with no effect on the carousel's state.
- The `stopVideo` branch of ES6 `fadeToIndex` (181-184). It is reached only from a swipe,
  and a swipe never happens while a video plays, so `FadeToIndex` requires that no video
  plays. `this.stopVideo` (es6.js:183) is defined nowhere in the ES6 build, so that branch
  would throw if it were ever reached.
- Piled-up placeholder listeners fire once each. The model performs one takeover per click.
  The extra `<video>` elements that later listeners create off-document are not modelled.
  What those copies then do differs per build:
- Es6Carousel.Carousel.OnVideoEnded: with k >= 2 piled-up listeners, each extra video binds
  its own `ended` (simple.carousel.es6.js:311). When one ends it reloads its item (line 333),
  which adds click listeners to whatever placeholder the item holds, and it restarts
  autoplay (line 336), even while the visible video still plays. So the restored
  placeholder can hold more than one listener, and autoplay can run during playback. The
  model's single restore with one fresh listener does not capture this.
- TsCarousel.Carousel.OnVideoEnded: an extra video's `ended` (simple.carousel.ts.js:358-378)
  restarts autoplay without binding any placeholder, so autoplay can likewise restart while
  the visible video plays.
- VanillaCarousel.Carousel.OnVideoEnded: an extra video is never in the document, so
  `addCustomVideoControls` throws on its `parentNode` (simple.carousel.vanilla.js:351)
  before its `ended` is bound (line 310). The extra copies stop autoplay and set
  `isVideoPlaying` a second time (lines 278-279), which the model's one takeover already
  does, and no extra `ended` ever runs.
- An item is modelled with at most one video placeholder, as `querySelector` finds in the
  class builds.
- An image with an empty `src` attribute. `Dom.Image` treats `src == ""` as "no source
  yet", which matches an absent attribute. The class builds test the reflected URL
  (`!img.src`, es6.js:256, vanilla.js:253, ts.js:309), and an empty attribute reflects as
  the page's URL, so they would never load that image. jQuery tests the attribute itself
  (`!$img.attr('src')`, jquery.js:220), which is "", so it loads it.
- Loose `.simpleCarouselAriaIndicator` spans outside a `.simpleCarouselAriaIndicators`
  container. `JQueryCarousel.Carousel.constructor`'s `existingStrip` stands for a container
  already in the markup (jquery.js:105), and the strip `setIndicator` finds (jquery.js:209)
  is taken to be that container's spans.
- jQuery's `.data` conversion is modelled only as truthiness (`Config.JqTruthy`).
  JSON-looking values are not modelled.
- Indicator `data-index` values: `OnIndicatorClick` takes an index that names an item. A
  pre-existing jQuery strip with a missing or out-of-range `data-index` is not modelled.
- After a failed setup in the class builds, the constructor's exception reaches the caller.
  The model keeps the half-built object, because its observer and visibility listeners keep
  acting on it.
- Es6Carousel.Carousel.PrefetchItems, VanillaCarousel.Carousel.PrefetchItems and
  TsCarousel.Carousel.PrefetchItems use the corrected step back. As written, a window wider
  than `currentIndex + totalItems` throws on `this.items[-1]` (see Findings).
- Es6Carousel.Carousel.constructor, VanillaCarousel.Carousel.constructor and
  TsCarousel.Carousel.constructor reach the items through `Prefetch.SetUp`, and
  Es6Carousel.Carousel.ShowItem, VanillaCarousel.Carousel.ShowItem and
  TsCarousel.Carousel.ShowItem through `Prefetch.Shown`; both use the corrected step back.
  FadeToNext, Tick, FadeToIndex, OnIndicatorClick and OnTouchMove of the three classes reach
  the items through `ShowItem`, so they share the corrected step.
  As written, such a wide window makes setup throw in its prefetch
  (simple.carousel.es6.js:418, vanilla.js:342, ts.js:389). That happens after the observer
  and visibility listeners (es6.js:137) and before the mouse, indicator and touch listeners
  (es6.js:139-159, 375-408), which are then never bound. A `showItem` that throws there has
  already moved `currentIndex` and the indicator (es6.js:207-209) and leaves the rest of the
  prefetch undone. The model sets up and shows every item as the corrected loop does.
- Es6Carousel.Carousel.constructor and VanillaCarousel.Carousel.constructor: Numbers are
  modelled as unbounded integers, so a start index above 2^53 is kept exact where a double
  would round it. Non-integer start indices given as options are not modelled.
- Es6Carousel.Carousel.OnVideoEnded and VanillaCarousel.Carousel.OnVideoEnded restore the
  poster as intended. As written, a missing poster comes back as "undefined" (see
  Findings). JQueryCarousel.Carousel.OnVideoEnded does the same for its concatenated
  `data-poster`.
- The jQuery plugin's `if (!$)` guard and the UMD wrapper's module detection. These are
  loading concerns.
- JQueryCarousel.Carousel.constructor: for one item or none the plugin returns before it
  computes an index, and the model then sets `currentIndex` to 0, which nothing reads.

## Findings

| source | as written | input that shows it | evidently intended | confidence | as-written member | corrected member |
|---|---|---|---|---|---|---|
| dist/js/simple.carousel.es6.js:416 | `(currentIndex - i + totalItems) % totalItems` with JavaScript's truncating `%` (the same line is vanilla.js:340 and ts.js:387) | three items, `currentIndex` 0, `prefetchItems` 4: step 4 computes -1, and `this.items[-1]` is undefined, so `loadLazyContent` throws | the item `i` steps back, wrapping around (item 2 here) | not executed | Prefetch.PrevAsWrittenCounterexample | Prefetch.PrefetchedContent |
| dist/js/simple.carousel.es6.js:319 | `newPlaceholder.dataset.poster = poster` (also vanilla.js:317, and jquery.js:267 by concatenation) | a placeholder without `data-poster`: after the video ends the new placeholder has `data-poster="undefined"`, and the next load sets `background-image: url(undefined)` | the placeholder comes back as it was, with no poster | not executed | Dom.RestoreAsWrittenInventsPoster | Dom.TakeOverRestoreRoundTrip |
