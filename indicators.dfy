/**
 * The indicator strip: one `span.simpleCarouselAriaIndicator` per item, each either
 * active (active colour, scale 1.2) or inactive. Only that bit is modelled.
 */
module Indicators {

  /** `count` indicators where exactly the one at position `index` is active. */
  function Activated(count: nat, index: int): seq<bool> {
    seq(count, j => j == index)
  }

  /** How many indicators are active. */
  function ActiveCount(s: seq<bool>): nat {
    if s == [] then 0 else ActiveCount(s[..|s| - 1]) + (if s[|s| - 1] then 1 else 0)
  }

  /** Nothing is active in a strip with no active bit. */
  lemma {:induction false} NoneActiveCount(s: seq<bool>)
    requires forall j :: 0 <= j < |s| ==> !s[j]
    ensures ActiveCount(s) == 0
  {
    if s != [] {
      NoneActiveCount(s[..|s| - 1]);
    }
  }

  /** After activating position `index`, exactly one indicator is active when `index` names one, and none otherwise. */
  lemma {:induction false} ActivatedCount(count: nat, index: int)
    ensures ActiveCount(Activated(count, index)) == (if 0 <= index < count then 1 else 0)
  {
    if count > 0 {
      var s := Activated(count, index);
      assert s[..count - 1] == Activated(count - 1, index);
      ActivatedCount(count - 1, index);
    }
  }

  /** `generateIndicators`: the counting loop that appends one inactive indicator per item. */
  method Generate(count: nat) returns (r: seq<bool>)
    ensures |r| == count
    ensures forall j :: 0 <= j < count ==> !r[j]
    ensures ActiveCount(r) == 0
  {
    r := [];
    var i := 0;
    while i < count
      invariant 0 <= i <= count && |r| == i
      invariant forall j :: 0 <= j < i ==> !r[j]
    {
      r := r + [false];
      i := i + 1;
    }
    NoneActiveCount(r);
  }

  /** `setIndicator(index)`: the `forEach` that activates position `index` and deactivates every other. */
  method Highlight(strip: seq<bool>, index: int) returns (r: seq<bool>)
    ensures r == Activated(|strip|, index)
  {
    r := strip;
    var i := 0;
    while i < |r|
      invariant 0 <= i <= |r| == |strip|
      invariant forall j :: 0 <= j < i ==> r[j] == (j == index)
    {
      r := r[i := i == index];
      i := i + 1;
    }
  }
}
