/**
 * `prefetchItems`: around the current index, the items `k` steps ahead and `k` steps
 * back are loaded for `k = 1..prefetchItems`, the step ahead first. Also the index
 * arithmetic this needs, with JavaScript's `%` written out.
 */
module Prefetch {
  import opened Dom

  // ---------------------------------------------------------------------------
  // Arithmetic
  // ---------------------------------------------------------------------------

  /** Euclidean remainders are unique: `a == q * n + r` with `0 <= r < n` fixes `a % n`. */
  lemma ModUnique(a: int, n: int, q: int, r: int)
    requires n > 0 && 0 <= r < n && a == q * n + r
    ensures a % n == r
  {
    var q0 := a / n;
    if q0 < q {
      MulSign(q - q0, n);
    } else if q0 > q {
      MulSign(q0 - q, n);
    }
  }

  /** The remainder of a number at most one period outside `0..n`. */
  lemma ModNear(a: int, n: int)
    requires n > 0
    ensures 0 <= a < n ==> a % n == a
    ensures n <= a < 2 * n ==> a % n == a - n
    ensures -n <= a < 0 ==> a % n == a + n
  {
    if 0 <= a < n {
      ModUnique(a, n, 0, a);
    } else if n <= a < 2 * n {
      ModUnique(a, n, 1, a - n);
    } else if -n <= a < 0 {
      ModUnique(a, n, -1, a + n);
    }
  }

  /** A product with a positive factor has the sign of the other factor, and at least its size. */
  lemma MulSign(m: int, n: int)
    requires n > 0
    ensures m >= 1 ==> m * n >= n
    ensures m <= -1 ==> m * n <= -n
  {
  }

  /** JavaScript's `%` on integers: it truncates, so the remainder has the sign of the dividend. */
  function JsRem(a: int, n: int): (r: int)
    requires n > 0
    ensures a >= 0 ==> r == a % n
    ensures a < 0 ==> -n < r <= 0 && (r == 0 <==> a % n == 0) && (r < 0 ==> r + n == a % n)
  {
    if a >= 0 then a % n
    else
      NegativeRemainder(a, n);
      -((-a) % n)
  }

  /** The Euclidean remainder of a negative number, from the remainder of its negation. */
  lemma NegativeRemainder(a: int, n: int)
    requires n > 0 && a < 0
    ensures (-a) % n == 0 ==> a % n == 0
    ensures (-a) % n != 0 ==> a % n == n - (-a) % n
  {
    var m := (-a) % n;
    assert -a == ((-a) / n) * n + m;
    if m != 0 {
      ModUnique(a, n, -((-a) / n) - 1, n - m);
    } else {
      ModUnique(a, n, -((-a) / n), 0);
    }
  }

  /** jQuery's `.eq(i)`: a negative position counts back from the end. */
  function EqPosition(i: int, n: int): (r: int)
    requires -n <= i < n
    ensures 0 <= r < n || n <= 0
    ensures i >= 0 ==> r == i
    ensures i < 0 ==> r == i + n
  {
    if i < 0 then i + n else i
  }

  /** The iterations of `for (i = 1; i <= prefetchItems; i++)`. */
  function Window(prefetchItems: int): (r: nat)
    ensures prefetchItems >= 0 ==> r == prefetchItems
    ensures prefetchItems < 0 ==> r == 0
  {
    if prefetchItems > 0 then prefetchItems else 0
  }

  /** `(currentIndex + k) % totalItems`; the dividend is never negative, so both `%` agree. */
  function Next(cur: int, k: int, n: int): (r: int)
    requires n > 0
    ensures 0 <= r < n
    ensures 0 <= cur + k < n ==> r == cur + k
    ensures n <= cur + k < 2 * n ==> r == cur + k - n
  {
    ModNear(cur + k, n);
    (cur + k) % n
  }

  /** The item `k` steps back, wrapping around. */
  function Prev(cur: int, k: int, n: int): (r: int)
    requires n > 0
    ensures 0 <= r < n
    ensures 0 <= cur - k < n ==> r == cur - k
    ensures -n <= cur - k < 0 ==> r == cur - k + n
  {
    ModNear(cur - k, n);
    (cur - k) % n
  }

  /** `(currentIndex - k + totalItems) % totalItems` as written, with JavaScript's `%`: it can be negative. */
  function PrevAsWritten(cur: int, k: int, n: int): (r: int)
    requires n > 0
    ensures -n < r < n
    ensures cur - k + n >= 0 ==> 0 <= r
  {
    JsRem(cur - k + n, n)
  }

  /** Both positions always name an item. */
  lemma NextPrevInRange(cur: int, k: int, n: int)
    requires n > 0
    ensures 0 <= Next(cur, k, n) < n && 0 <= Prev(cur, k, n) < n
  {
  }

  /** While the step back is at most `currentIndex + totalItems`, the formula as written is the wrap-around. */
  lemma PrevAsWrittenAgrees(cur: int, k: int, n: int)
    requires n > 0 && cur - k + n >= 0
    ensures PrevAsWritten(cur, k, n) == Prev(cur, k, n)
  {
    var a := cur - k;
    assert a == (a / n) * n + a % n;
    ModUnique(a + n, n, a / n + 1, a % n);
  }

  /** A longer step back makes the formula as written negative whenever it does not land on item 0. */
  lemma PrevAsWrittenEscapes(cur: int, k: int, n: int)
    requires n > 0 && 0 <= cur < n && k > cur + n && Prev(cur, k, n) != 0
    ensures PrevAsWritten(cur, k, n) < 0
    ensures PrevAsWritten(cur, k, n) == Prev(cur, k, n) - n
  {
    var a := cur - k;
    assert a == (a / n) * n + a % n;
    ModUnique(a + n, n, a / n + 1, a % n);
  }

  /** Three items, a window of 4, at item 0: the fourth step back computes index -1. */
  lemma PrevAsWrittenCounterexample()
    ensures PrevAsWritten(0, 4, 3) == -1
    ensures Prev(0, 4, 3) == 2
  {
    PrevAsWrittenEscapes(0, 4, 3);
  }

  /** jQuery looks the index up with `.eq()`, which wraps the negative results back onto the right item. */
  lemma EqPositionWrapsPrev(cur: int, k: int, n: int)
    requires n > 0
    ensures EqPosition(PrevAsWritten(cur, k, n), n) == Prev(cur, k, n)
  {
    var a := cur - k;
    assert a == (a / n) * n + a % n;
    ModUnique(a + n, n, a / n + 1, a % n);
  }

  // ---------------------------------------------------------------------------
  // Which items a window reaches
  // ---------------------------------------------------------------------------

  /** Some step `k` in `1..w` ahead of or back from `cur` lands on item `j`. */
  predicate Touched(cur: int, j: int, n: int, w: nat)
    requires n > 0
  {
    exists k :: 1 <= k <= w && (Next(cur, k, n) == j || Prev(cur, k, n) == j)
  }

  /** The first step `k >= 1` at distance `d` lands when `k` is `d`, or `n` when `d` is 0. */
  predicate Reached(d: int, w: int, n: int) {
    if d == 0 then n <= w else d <= w
  }

  /** A step ahead that lands on `j` is at least the distance from `cur` to `j`. */
  lemma NextHit(cur: int, j: int, n: int, k: int)
    requires n > 0 && 0 <= j < n && k >= 1 && Next(cur, k, n) == j
    ensures Reached((j - cur) % n, k, n)
  {
    var q := (cur + k) / n;
    var p := (j - cur) / n;
    var d := (j - cur) % n;
    assert cur + k == q * n + j;
    assert j - cur == p * n + d;
    assert k == (q + p) * n + d;
    MulSign(q + p, n);
  }

  /** A step back that lands on `j` is at least the distance from `j` back to `cur`. */
  lemma PrevHit(cur: int, j: int, n: int, k: int)
    requires n > 0 && 0 <= j < n && k >= 1 && Prev(cur, k, n) == j
    ensures Reached((cur - j) % n, k, n)
  {
    var q := (cur - k) / n;
    var p := (cur - j) / n;
    var e := (cur - j) % n;
    assert cur - k == q * n + j;
    assert cur - j == p * n + e;
    assert k == (p - q) * n + e;
    MulSign(p - q, n);
  }

  /** The shortest step ahead onto `j`. */
  lemma NextFirst(cur: int, j: int, n: int)
    requires n > 0 && 0 <= j < n
    ensures var d := (j - cur) % n; Next(cur, if d == 0 then n else d, n) == j
  {
    var p := (j - cur) / n;
    var d := (j - cur) % n;
    assert j - cur == p * n + d;
    if d == 0 {
      ModUnique(cur + n, n, 1 - p, j);
    } else {
      ModUnique(cur + d, n, -p, j);
    }
  }

  /** The shortest step back onto `j`. */
  lemma PrevFirst(cur: int, j: int, n: int)
    requires n > 0 && 0 <= j < n
    ensures var e := (cur - j) % n; Prev(cur, if e == 0 then n else e, n) == j
  {
    var p := (cur - j) / n;
    var e := (cur - j) % n;
    assert cur - j == p * n + e;
    if e == 0 {
      ModUnique(cur - n, n, p - 1, j);
    } else {
      ModUnique(cur - e, n, p, j);
    }
  }

  /** Item `j` is reached exactly when its distance ahead or its distance back fits the window. */
  lemma TouchedIff(cur: int, j: int, n: int, w: nat)
    requires n > 0 && 0 <= j < n
    ensures Touched(cur, j, n, w) <==> Reached((j - cur) % n, w, n) || Reached((cur - j) % n, w, n)
  {
    var d, e := (j - cur) % n, (cur - j) % n;
    if Touched(cur, j, n, w) {
      var k :| 1 <= k <= w && (Next(cur, k, n) == j || Prev(cur, k, n) == j);
      if Next(cur, k, n) == j {
        NextHit(cur, j, n, k);
      } else {
        PrevHit(cur, j, n, k);
      }
    }
    if Reached(d, w, n) {
      NextFirst(cur, j, n);
      var k := if d == 0 then n else d;
      assert 1 <= k <= w && Next(cur, k, n) == j;
    }
    if Reached(e, w, n) {
      PrevFirst(cur, j, n);
      var k := if e == 0 then n else e;
      assert 1 <= k <= w && Prev(cur, k, n) == j;
    }
  }

  /** The current item is itself reloaded only when the window goes all the way round. */
  lemma CurrentTouchedIff(cur: int, n: int, w: nat)
    requires n > 0 && 0 <= cur < n
    ensures Touched(cur, cur, n, w) <==> n <= w
  {
    TouchedIff(cur, cur, n, w);
  }

  /** A window of `n - 1` reaches every other item. */
  lemma WideWindowCoversAll(cur: int, j: int, n: int, w: nat)
    requires n > 0 && 0 <= cur < n && 0 <= j < n && j != cur && w >= n - 1
    ensures Touched(cur, j, n, w)
  {
    var d := (j - cur) % n;
    if d == 0 {
      var p := (j - cur) / n;
      assert j - cur == p * n;
      MulSign(p, n);
    }
    NextFirst(cur, j, n);
    assert 1 <= d <= w && Next(cur, d, n) == j;
  }

  /** The default window of 1 reaches exactly the two neighbours. */
  lemma NeighbourWindow(cur: int, j: int, n: int)
    requires n > 0
    ensures Touched(cur, j, n, 1) <==> j == Next(cur, 1, n) || j == Prev(cur, 1, n)
  {
    if j == Next(cur, 1, n) || j == Prev(cur, 1, n) {
      assert 1 <= 1 <= 1 && (Next(cur, 1, n) == j || Prev(cur, 1, n) == j);
    }
  }

  // ---------------------------------------------------------------------------
  // The prefetch loop
  // ---------------------------------------------------------------------------

  /** The items after `w` rounds of the prefetch loop around `cur`. */
  function Prefetched(items: seq<Item>, cur: int, w: nat, p: BindPolicy): (r: seq<Item>)
    requires |items| > 0
    ensures |r| == |items|
    ensures forall j :: 0 <= j < |items| ==> r[j].hidden == items[j].hidden
  {
    if w == 0 then items
    else
      var before := Prefetched(items, cur, w - 1, p);
      var n := |items|;
      LoadAt(LoadAt(before, Next(cur, w, n), p), Prev(cur, w, n), p)
  }

  /** Loading what is already a load of `y` gives the content a single load of `y` gives. */
  lemma ReloadKeepsContent(x: Item, y: Item, p: BindPolicy)
    requires Content(x) == Content(LoadItem(y, p))
    ensures Content(LoadItem(x, p)) == Content(LoadItem(y, p))
  {
    LoadRespectsContent(x, LoadItem(y, p), p);
    LoadIdempotentOnContent(y, p);
  }

  /** Widening the window by one step reaches exactly the two items of the new step as well. */
  lemma TouchedStep(cur: int, j: int, n: int, w: nat)
    requires n > 0 && w >= 1
    ensures Touched(cur, j, n, w) <==> Touched(cur, j, n, w - 1) || Next(cur, w, n) == j || Prev(cur, w, n) == j
  {
    if Touched(cur, j, n, w) && !Touched(cur, j, n, w - 1) {
      var k :| 1 <= k <= w && (Next(cur, k, n) == j || Prev(cur, k, n) == j);
      assert k == w;
    }
    if Touched(cur, j, n, w - 1) {
      var k :| 1 <= k <= w - 1 && (Next(cur, k, n) == j || Prev(cur, k, n) == j);
      assert 1 <= k <= w;
    }
    if Next(cur, w, n) == j || Prev(cur, w, n) == j {
      assert 1 <= w <= w && (Next(cur, w, n) == j || Prev(cur, w, n) == j);
    }
  }

  /**
   * After the loop, an item the window reaches holds the content of one load of it, and
   * every other item is exactly as it was; with `off().on()` binding a reached item is
   * exactly one load of it, listeners included.
   */
  lemma {:induction false} PrefetchedAt(items: seq<Item>, cur: int, w: nat, p: BindPolicy, j: int)
    requires |items| > 0 && 0 <= j < |items|
    ensures Touched(cur, j, |items|, w) ==> Content(Prefetched(items, cur, w, p)[j]) == Content(LoadItem(items[j], p))
    ensures Touched(cur, j, |items|, w) && p == Replace ==> Prefetched(items, cur, w, p)[j] == LoadItem(items[j], p)
    ensures !Touched(cur, j, |items|, w) ==> Prefetched(items, cur, w, p)[j] == items[j]
  {
    var n := |items|;
    if w > 0 {
      PrefetchedAt(items, cur, w - 1, p, j);
      var b := Prefetched(items, cur, w - 1, p);
      var a, z := Next(cur, w, n), Prev(cur, w, n);
      var mid := LoadAt(b, a, p);
      var r := LoadAt(mid, z, p);
      assert r == Prefetched(items, cur, w, p);
      var before := Touched(cur, j, n, w - 1);
      TouchedStep(cur, j, n, w);
      if a == j {
        if before { ReloadKeepsContent(b[j], items[j], p); }
        if p == Replace && before { ReplaceLoadIdempotent(items[j]); }
        if z == j {
          LoadSettles(mid[j], p);
          ReloadKeepsContent(mid[j], items[j], p);
          if p == Replace { ReplaceLoadIdempotent(items[j]); }
        }
      } else if z == j {
        if before { ReloadKeepsContent(b[j], items[j], p); }
        if p == Replace && before { ReplaceLoadIdempotent(items[j]); }
      }
    }
  }

  /** The `off().on()` prefetch keeps a collection loaded once. */
  lemma PrefetchedKeepsLoadedOnce(items: seq<Item>, cur: int, w: nat)
    requires |items| > 0 && LoadedOnce(items)
    ensures LoadedOnce(Prefetched(items, cur, w, Replace))
  {
    var r := Prefetched(items, cur, w, Replace);
    forall j | 0 <= j < |items|
      ensures Settled(r[j]) && (r[j].media.Placeholder? ==> r[j].media.clickHandlers == 1)
    {
      PrefetchedAt(items, cur, w, Replace, j);
      LoadSettles(items[j], Replace);
    }
  }

  /** On a collection already loaded once, the `off().on()` prefetch changes nothing. */
  lemma PrefetchedLoadedIsNoOp(items: seq<Item>, cur: int, w: nat)
    requires |items| > 0 && LoadedOnce(items)
    ensures Prefetched(items, cur, w, Replace) == items
  {
    forall j | 0 <= j < |items| ensures Prefetched(items, cur, w, Replace)[j] == items[j] {
      PrefetchedAt(items, cur, w, Replace, j);
      SettledReplaceLoadKeeps(items[j]);
    }
  }

  /** An item is loaded by the prefetch exactly when its distance ahead or back fits the window. */
  lemma PrefetchedContent(items: seq<Item>, cur: int, w: nat, p: BindPolicy, j: int)
    requires |items| > 0 && 0 <= j < |items|
    ensures var d, e := (j - cur) % |items|, (cur - j) % |items|;
      Content(Prefetched(items, cur, w, p)[j])
        == if Reached(d, w, |items|) || Reached(e, w, |items|) then Content(LoadItem(items[j], p)) else Content(items[j])
  {
    PrefetchedAt(items, cur, w, p, j);
    TouchedIff(cur, j, |items|, w);
  }

  /** `PrefetchedAt` for every item at once. */
  lemma PrefetchedEverywhere(items: seq<Item>, cur: int, w: nat, p: BindPolicy)
    requires |items| > 0
    ensures forall j :: 0 <= j < |items| && Touched(cur, j, |items|, w) ==>
      Content(Prefetched(items, cur, w, p)[j]) == Content(LoadItem(items[j], p))
    ensures forall j :: 0 <= j < |items| && !Touched(cur, j, |items|, w) ==>
      Prefetched(items, cur, w, p)[j] == items[j]
  {
    forall j | 0 <= j < |items|
      ensures Touched(cur, j, |items|, w) ==> Content(Prefetched(items, cur, w, p)[j]) == Content(LoadItem(items[j], p))
      ensures !Touched(cur, j, |items|, w) ==> Prefetched(items, cur, w, p)[j] == items[j]
    {
      PrefetchedAt(items, cur, w, p, j);
    }
  }

  /** One more round of the loop loads the item `w` ahead, then the item `w` back. */
  lemma PrefetchedStep(items: seq<Item>, cur: int, w: nat, p: BindPolicy)
    requires |items| > 0 && w >= 1
    ensures Prefetched(items, cur, w, p)
      == LoadAt(LoadAt(Prefetched(items, cur, w - 1, p), Next(cur, w, |items|), p), Prev(cur, w, |items|), p)
  {
  }

  /** One round of the prefetch loop: `loadLazyContent` on the item ahead, then on the item behind. */
  method LoadPair(items: seq<Item>, ahead: int, back: int, p: BindPolicy) returns (r: seq<Item>)
    requires 0 <= ahead < |items| && 0 <= back < |items|
    ensures r == LoadAt(LoadAt(items, ahead, p), back, p)
  {
    var loaded := Load(items[ahead], p);
    r := items[ahead := loaded];
    loaded := Load(r[back], p);
    r := r[back := loaded];
  }

  /** The prefetch loop: for each step, load the item ahead, then the item behind. */
  method Run(items: seq<Item>, cur: int, prefetchItems: int, p: BindPolicy) returns (r: seq<Item>)
    requires |items| > 0
    ensures r == Prefetched(items, cur, Window(prefetchItems), p)
  {
    var n := |items|;
    r := items;
    var i := 1;
    while i <= prefetchItems
      invariant 1 <= i <= Window(prefetchItems) + 1
      invariant r == Prefetched(items, cur, i - 1, p)
    {
      r := LoadPair(r, Next(cur, i, n), Prev(cur, i, n), p);
      PrefetchedStep(items, cur, i, p);
      i := i + 1;
    }
    assert i - 1 == Window(prefetchItems);
  }

  // ---------------------------------------------------------------------------
  // The item side of setup and of showItem in the class builds
  // ---------------------------------------------------------------------------

  /** The items after setup on its success path: `aria-hidden` on every item, the start item loaded, its neighbours prefetched. */
  function SetUp(markup: seq<Item>, cur: int, prefetchItems: int, p: BindPolicy): (r: seq<Item>)
    requires 0 <= cur < |markup|
    ensures |r| == |markup| && OnlyVisible(r, cur)
    ensures forall j :: 0 <= j < |markup| && (j == cur || Touched(cur, j, |markup|, Window(prefetchItems))) ==>
      Content(r[j]) == Content(LoadItem(markup[j].(hidden := j != cur), p))
    ensures forall j :: 0 <= j < |markup| && j != cur && !Touched(cur, j, |markup|, Window(prefetchItems)) ==>
      r[j] == markup[j].(hidden := true)
  {
    var first := LoadAt(Marked(markup, cur), cur, p);
    PrefetchedEverywhere(first, cur, Window(prefetchItems), p);
    LoadIdempotentOnContent(markup[cur].(hidden := false), p);
    Prefetched(first, cur, Window(prefetchItems), p)
  }

  /** The items after `showItem(to)` from item `from`: the old item hidden, the new one shown and loaded, its neighbours prefetched. */
  function Shown(items: seq<Item>, from: int, to: int, prefetchItems: int, p: BindPolicy): (r: seq<Item>)
    requires 0 <= from < |items| && 0 <= to < |items|
    ensures |r| == |items|
    ensures OnlyVisible(items, from) ==> OnlyVisible(r, to)
    ensures forall j :: 0 <= j < |items| && (j == to || Touched(to, j, |items|, Window(prefetchItems))) ==>
      Content(r[j]) == Content(LoadItem(Reveal(items, from, to)[j], p))
    ensures forall j :: 0 <= j < |items| && j != to && !Touched(to, j, |items|, Window(prefetchItems)) ==>
      r[j] == Reveal(items, from, to)[j]
  {
    var first := LoadAt(Reveal(items, from, to), to, p);
    PrefetchedEverywhere(first, to, Window(prefetchItems), p);
    LoadIdempotentOnContent(Reveal(items, from, to)[to], p);
    if OnlyVisible(items, from) then
      RevealMovesVisibility(items, from, to);
      Prefetched(first, to, Window(prefetchItems), p)
    else
      Prefetched(first, to, Window(prefetchItems), p)
  }

  /** The item side of setup on its success path. */
  method SetupItems(markup: seq<Item>, cur: int, prefetchItems: int, p: BindPolicy) returns (r: seq<Item>)
    requires 0 <= cur < |markup|
    ensures r == SetUp(markup, cur, prefetchItems, p)
    ensures |r| == |markup| && OnlyVisible(r, cur)
  {
    var marked := MarkVisible(markup, cur);
    var first := Load(marked[cur], p);
    r := Run(marked[cur := first], cur, prefetchItems, p);
  }

  /** `showItem(index)` on the items: hide the current one, show and load the next, prefetch around it. */
  method ShowItems(items: seq<Item>, from: int, to: int, prefetchItems: int, p: BindPolicy) returns (r: seq<Item>)
    requires 0 <= from < |items| && 0 <= to < |items| && OnlyVisible(items, from)
    ensures r == Shown(items, from, to, prefetchItems, p)
    ensures |r| == |items| && OnlyVisible(r, to)
  {
    RevealMovesVisibility(items, from, to);
    var revealed := Reveal(items, from, to);
    var loaded := Load(revealed[to], p);
    r := Run(revealed[to := loaded], to, prefetchItems, p);
  }
}
