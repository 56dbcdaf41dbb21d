/**
 * The items of a carousel as values: their lazy images, their video slot and their
 * `aria-hidden` state; the lazy loader; and the placeholder-to-video-to-placeholder swap.
 */
module Dom {
  import opened Wrappers

  /** An `img[data-src]` inside an item; `src == ""` is an image with no `src` attribute (an empty attribute is not modelled). */
  datatype Image = Image(src: string, dataSrc: Option<string>)

  /**
   * The video slot of an item: nothing, a `.simpleCarouselItemVideo[data-video-src]`
   * placeholder, or the `<video>` that replaced it. A placeholder carries its
   * `data-video-src`, its `data-poster`, the number of play icons inside it and the
   * number of click listeners bound to it.
   */
  datatype Media =
    | NoVideo
    | Placeholder(videoSrc: string, poster: Option<string>, playIcons: nat, clickHandlers: nat)
    | Video(videoSrc: string, poster: Option<string>)

  /** An item: its lazy images, its video slot, and whether it is `aria-hidden`. */
  datatype Item = Item(images: seq<Image>, media: Media, hidden: bool)

  /** How a load binds the placeholder click: `addEventListener` piles up, `off('click').on('click')` replaces. */
  datatype BindPolicy = Accumulate | Replace

  /** Markup as the page serves it: no listener bound and no video swapped in yet. */
  predicate Pristine(it: Item) {
    && !it.media.Video?
    && (it.media.Placeholder? ==> it.media.clickHandlers == 0)
  }

  // ---------------------------------------------------------------------------
  // The lazy loader
  // ---------------------------------------------------------------------------

  /** An image still waiting for its source. */
  predicate Pending(img: Image) {
    img.dataSrc.Some? && img.src == ""
  }

  /** `if (!img.src) { img.src = img.dataset.src; img.removeAttribute('data-src') }` */
  function LoadImage(img: Image): (r: Image)
    ensures !Pending(r)
    ensures !Pending(img) ==> r == img
    ensures Pending(img) ==> r.src == img.dataSrc.value && r.dataSrc.None?
  {
    if Pending(img) then Image(img.dataSrc.value, None) else img
  }

  /** The number of click listeners on a placeholder after one more bind. */
  function Bound(handlers: nat, p: BindPolicy): nat {
    match p
    case Accumulate => handlers + 1
    case Replace => 1
  }

  /** The placeholder part of a load: one play icon at least, and the click listener bound. */
  function LoadMedia(m: Media, p: BindPolicy): (r: Media)
    ensures !m.Placeholder? ==> r == m
    ensures m.Placeholder? ==> r.Placeholder? && r.videoSrc == m.videoSrc && r.poster == m.poster
    ensures m.Placeholder? ==> r.playIcons >= 1 && (m.playIcons > 0 ==> r.playIcons == m.playIcons)
    ensures m.Placeholder? && m.playIcons == 0 ==> r.playIcons == 1
    ensures m.Placeholder? ==> r.clickHandlers == Bound(m.clickHandlers, p)
  {
    match m
    case Placeholder(src, poster, icons, handlers) =>
      Placeholder(src, poster, if icons == 0 then 1 else icons, Bound(handlers, p))
    case _ => m
  }

  /** `loadLazyContent(item)`: every pending image gets its source, then the placeholder is prepared. */
  function LoadItem(it: Item, p: BindPolicy): (r: Item)
    ensures |r.images| == |it.images| && r.hidden == it.hidden
    ensures forall j :: 0 <= j < |it.images| ==> r.images[j] == LoadImage(it.images[j])
    ensures r.media == LoadMedia(it.media, p)
  {
    Item(seq(|it.images|, j requires 0 <= j < |it.images| => LoadImage(it.images[j])),
         LoadMedia(it.media, p), it.hidden)
  }

  /** Nothing left to load: no pending image, and a placeholder shows a play icon. */
  predicate Settled(it: Item) {
    && (forall j :: 0 <= j < |it.images| ==> !Pending(it.images[j]))
    && (it.media.Placeholder? ==> it.media.playIcons >= 1)
  }

  /** The item without its listeners: what a second load must leave as it is. */
  function Content(it: Item): Item {
    if it.media.Placeholder? then it.(media := it.media.(clickHandlers := 0)) else it
  }

  lemma LoadSettles(it: Item, p: BindPolicy)
    ensures Settled(LoadItem(it, p))
  {
  }

  /** A load starting from a settled item changes nothing but the listeners. */
  lemma {:induction false} LoadSettledKeepsContent(it: Item, p: BindPolicy)
    requires Settled(it)
    ensures Content(LoadItem(it, p)) == Content(it)
  {
    var r := LoadItem(it, p);
    assert r.images == it.images by {
      forall j | 0 <= j < |it.images| ensures r.images[j] == it.images[j] {
        assert !Pending(it.images[j]);
      }
    }
  }

  /** Loading twice resolves no image again and adds no second play icon. */
  lemma LoadIdempotentOnContent(it: Item, p: BindPolicy)
    ensures Content(LoadItem(LoadItem(it, p), p)) == Content(LoadItem(it, p))
  {
    LoadSettles(it, p);
    LoadSettledKeepsContent(LoadItem(it, p), p);
  }

  /** With `off().on()` a second load is a no-op, listeners included. */
  lemma ReplaceLoadIdempotent(it: Item)
    ensures LoadItem(LoadItem(it, Replace), Replace) == LoadItem(it, Replace)
  {
    LoadIdempotentOnContent(it, Replace);
  }

  /** With `addEventListener` every load binds one more click listener. */
  lemma AccumulateLoadPilesUp(it: Item)
    requires it.media.Placeholder?
    ensures LoadItem(LoadItem(it, Accumulate), Accumulate).media.clickHandlers == it.media.clickHandlers + 2
  {
  }

  /** What a load produces depends only on the content it starts from, for the content. */
  lemma {:induction false} LoadRespectsContent(a: Item, b: Item, p: BindPolicy)
    requires Content(a) == Content(b)
    ensures Content(LoadItem(a, p)) == Content(LoadItem(b, p))
  {
    assert a.images == b.images && a.hidden == b.hidden;
    assert LoadItem(a, p).images == LoadItem(b, p).images;
  }

  /** The item list with item `j` loaded. */
  function LoadAt(items: seq<Item>, j: int, p: BindPolicy): (r: seq<Item>)
    requires 0 <= j < |items|
    ensures |r| == |items| && r[j] == LoadItem(items[j], p)
    ensures forall i :: 0 <= i < |items| && i != j ==> r[i] == items[i]
  {
    items[j := LoadItem(items[j], p)]
  }

  /** The `forEach` over an item's lazy images, then the placeholder. */
  method Load(it: Item, p: BindPolicy) returns (r: Item)
    ensures r == LoadItem(it, p)
  {
    var images := it.images;
    var i := 0;
    while i < |images|
      invariant 0 <= i <= |images| == |it.images|
      invariant forall j :: 0 <= j < i ==> images[j] == LoadImage(it.images[j])
      invariant forall j :: i <= j < |images| ==> images[j] == it.images[j]
    {
      images := images[i := LoadImage(images[i])];
      i := i + 1;
    }
    r := Item(images, LoadMedia(it.media, p), it.hidden);
  }

  /** `loadLazyContent($items)` on a whole collection: every item loaded once. */
  function LoadedAll(items: seq<Item>, p: BindPolicy): (r: seq<Item>)
    ensures |r| == |items|
    ensures forall j :: 0 <= j < |items| ==> r[j] == LoadItem(items[j], p)
  {
    seq(|items|, j requires 0 <= j < |items| => LoadItem(items[j], p))
  }

  /** The `.each` over every item of the collection. */
  method LoadEach(items: seq<Item>, p: BindPolicy) returns (r: seq<Item>)
    ensures r == LoadedAll(items, p)
  {
    r := items;
    var i := 0;
    while i < |r|
      invariant 0 <= i <= |r| == |items|
      invariant forall j :: 0 <= j < i ==> r[j] == LoadItem(items[j], p)
      invariant forall j :: i <= j < |r| ==> r[j] == items[j]
    {
      var it := Load(r[i], p);
      r := r[i := it];
      i := i + 1;
    }
  }

  /** Every item loaded, and every placeholder carrying exactly one click listener. */
  predicate LoadedOnce(items: seq<Item>) {
    forall j :: 0 <= j < |items| ==>
      Settled(items[j]) && (items[j].media.Placeholder? ==> items[j].media.clickHandlers == 1)
  }

  /** Loading a collection with `off().on()` leaves it loaded once, listeners included. */
  lemma LoadedAllOnce(items: seq<Item>)
    ensures LoadedOnce(LoadedAll(items, Replace))
  {
    forall j | 0 <= j < |items| ensures Settled(LoadItem(items[j], Replace)) {
      LoadSettles(items[j], Replace);
    }
  }

  /** One more `off().on()` load keeps a collection loaded once. */
  lemma LoadAtKeepsLoadedOnce(items: seq<Item>, j: int)
    requires 0 <= j < |items| && LoadedOnce(items)
    ensures LoadedOnce(LoadAt(items, j, Replace))
  {
    LoadSettles(items[j], Replace);
  }

  /** An `off().on()` load of an item that is already loaded once changes nothing. */
  lemma SettledReplaceLoadKeeps(it: Item)
    requires Settled(it) && (it.media.Placeholder? ==> it.media.clickHandlers == 1)
    ensures LoadItem(it, Replace) == it
  {
    LoadSettledKeepsContent(it, Replace);
    var r := LoadItem(it, Replace);
    assert r.images == Content(r).images == Content(it).images == it.images;
  }

  /**
   * Loading a whole collection in which only item `j` is not loaded once does what loading
   * item `j` alone does.
   */
  lemma LoadedAllMatchesLoadAt(items: seq<Item>, j: int)
    requires 0 <= j < |items|
    requires forall i :: 0 <= i < |items| && i != j ==>
      Settled(items[i]) && (items[i].media.Placeholder? ==> items[i].media.clickHandlers == 1)
    ensures LoadedAll(items, Replace) == LoadAt(items, j, Replace)
  {
    forall i | 0 <= i < |items| && i != j ensures LoadItem(items[i], Replace) == items[i] {
      SettledReplaceLoadKeeps(items[i]);
    }
  }

  // ---------------------------------------------------------------------------
  // Visibility (aria-hidden)
  // ---------------------------------------------------------------------------

  /** Exactly item `k` is not `aria-hidden`. */
  predicate OnlyVisible(items: seq<Item>, k: int) {
    forall j :: 0 <= j < |items| ==> (items[j].hidden <==> j != k)
  }

  /** Every item marked: hidden unless it is item `k`. */
  function Marked(items: seq<Item>, k: int): (r: seq<Item>)
    ensures |r| == |items|
    ensures forall j :: 0 <= j < |items| ==> r[j] == items[j].(hidden := j != k)
    ensures forall j :: 0 <= j < |items| ==> Content(r[j]) == Content(items[j]).(hidden := j != k)
    ensures 0 <= k < |items| ==> OnlyVisible(r, k)
    ensures !(0 <= k < |items|) ==> forall j :: 0 <= j < |r| ==> r[j].hidden
  {
    seq(|items|, j requires 0 <= j < |items| => items[j].(hidden := j != k))
  }

  /** Setting `aria-hidden` leaves a collection loaded once. */
  lemma MarkedKeepsLoadedOnce(items: seq<Item>, k: int)
    requires LoadedOnce(items)
    ensures LoadedOnce(Marked(items, k))
  {
  }

  /** The `forEach` of `setup()` that sets `aria-hidden` on every item. */
  method MarkVisible(items: seq<Item>, k: int) returns (r: seq<Item>)
    ensures r == Marked(items, k)
  {
    r := items;
    var i := 0;
    while i < |r|
      invariant 0 <= i <= |r| == |items|
      invariant forall j :: 0 <= j < i ==> r[j] == items[j].(hidden := j != k)
      invariant forall j :: i <= j < |r| ==> r[j] == items[j]
    {
      r := r[i := r[i].(hidden := i != k)];
      i := i + 1;
    }
  }

  /** `showItem`: hide and mark the current item, then show and mark the target. */
  function Reveal(items: seq<Item>, from: int, to: int): (r: seq<Item>)
    requires 0 <= from < |items| && 0 <= to < |items|
    ensures |r| == |items| && !r[to].hidden && (from != to ==> r[from].hidden)
    ensures forall j :: 0 <= j < |items| && j != from && j != to ==> r[j] == items[j]
    ensures forall j :: 0 <= j < |items| ==> r[j].images == items[j].images && r[j].media == items[j].media
  {
    items[from := items[from].(hidden := true)][to := items[to].(hidden := false)]
  }

  /** Starting from "only `from` visible", revealing `to` leaves only `to` visible. */
  lemma RevealMovesVisibility(items: seq<Item>, from: int, to: int)
    requires 0 <= from < |items| && 0 <= to < |items|
    requires OnlyVisible(items, from)
    ensures OnlyVisible(Reveal(items, from, to), to)
    ensures Reveal(items, from, to) == Marked(items, to)
  {
    var r := Reveal(items, from, to);
    var m := Marked(items, to);
    forall j | 0 <= j < |items| ensures r[j] == m[j] {
      assert items[j].hidden <==> j != from;
    }
  }

  // ---------------------------------------------------------------------------
  // Video takeover and restore
  // ---------------------------------------------------------------------------

  /**
   * The placeholder click: with a `data-video-src` the placeholder is replaced by a
   * `<video>` carrying its source and poster; with an empty one nothing is swapped.
   */
  function TakeOver(m: Media): (r: Media)
    requires m.Placeholder?
    ensures m.videoSrc == "" ==> r == m
    ensures m.videoSrc != "" ==> r.Video? && r.videoSrc == m.videoSrc && r.poster == m.poster
  {
    if m.videoSrc != "" then Video(m.videoSrc, m.poster) else m
  }

  /** The `ended` handler: a new placeholder from the captured source and poster, with one play icon and no listener yet. */
  function Restore(m: Media): (r: Media)
    requires m.Video?
    ensures r.Placeholder? && r.videoSrc == m.videoSrc && r.poster == m.poster
    ensures r.playIcons == 1 && r.clickHandlers == 0
  {
    Placeholder(m.videoSrc, m.poster, 1, 0)
  }

  /** What `element.dataset.poster = poster` stores: `String(undefined)` is "undefined". */
  function PosterAttribute(poster: Option<string>): string {
    if poster.Some? then poster.value else "undefined"
  }

  /** The `ended` handler of the ES6, UMD and jQuery builds as written. */
  function RestoreAsWritten(m: Media): (r: Media)
    requires m.Video?
    ensures r.Placeholder? && r.videoSrc == m.videoSrc && r.poster == Some(PosterAttribute(m.poster))
  {
    Placeholder(m.videoSrc, Some(PosterAttribute(m.poster)), 1, 0)
  }

  /** The TypeScript `ended` handler: `dataset.poster = poster || ''`. */
  function RestoreTs(m: Media): (r: Media)
    requires m.Video?
    ensures r.Placeholder? && r.videoSrc == m.videoSrc && r.playIcons == 1 && r.clickHandlers == 0
    ensures m.poster.Some? ==> r.poster == m.poster
    ensures m.poster.None? ==> r.poster == Some("")
  {
    Placeholder(m.videoSrc, Some(m.poster.GetOr("")), 1, 0)
  }

  /** `if (poster)`: a poster background is applied. */
  predicate PosterShown(poster: Option<string>) {
    poster.Some? && poster.value != ""
  }

  /**
   * Play then end then re-load: the placeholder comes back with the same source and
   * poster, one play icon, and exactly the listeners one bind gives a fresh node.
   */
  lemma TakeOverRestoreRoundTrip(m: Media, p: BindPolicy)
    requires m.Placeholder? && m.videoSrc != "" && m.playIcons <= 1
    ensures LoadMedia(Restore(TakeOver(m)), p) == Placeholder(m.videoSrc, m.poster, 1, Bound(0, p))
    ensures LoadMedia(m, p).playIcons == 1
  {
  }

  /** As written, a placeholder without `data-poster` comes back with the poster "undefined". */
  lemma RestoreAsWrittenInventsPoster(m: Media)
    requires m.Placeholder? && m.videoSrc != "" && m.poster.None?
    ensures RestoreAsWritten(TakeOver(m)).poster == Some("undefined") != m.poster
    ensures PosterShown(RestoreAsWritten(TakeOver(m)).poster) && !PosterShown(m.poster)
  {
  }

  /** As written and corrected agree whenever the placeholder had a poster. */
  lemma RestoreAsWrittenAgreesWithPoster(m: Media)
    requires m.Video? && m.poster.Some?
    ensures RestoreAsWritten(m) == Restore(m)
  {
  }

  /** The TypeScript restore keeps whether a poster background is shown. */
  lemma RestoreTsKeepsPosterShown(m: Media)
    requires m.Placeholder? && m.videoSrc != ""
    ensures PosterShown(RestoreTs(TakeOver(m)).poster) == PosterShown(m.poster)
    ensures RestoreTs(TakeOver(m)).videoSrc == m.videoSrc
  {
  }
}
