/**
 * Page-wide state the carousels touch besides their own element: the class list of
 * `document.documentElement`, which gets the marker `simple-carousel-js` once.
 */
module Host {

  const Marker := "simple-carousel-js"

  /** `needle` occurs in `haystack` at position `i`. */
  predicate OccursAt(haystack: string, needle: string, i: int) {
    0 <= i <= |haystack| - |needle| && haystack[i..i + |needle|] == needle
  }

  /** `haystack.indexOf(needle) !== -1`. */
  predicate Contains(haystack: string, needle: string) {
    exists i :: 0 <= i <= |haystack| && OccursAt(haystack, needle, i)
  }

  /**
   * `if (className.indexOf('simple-carousel-js') === -1) className += ' simple-carousel-js'`:
   * afterwards the marker is there, and a class name that had it already is left alone.
   */
  function WithMarker(className: string): (r: string)
    ensures Contains(r, Marker)
    ensures Contains(className, Marker) ==> r == className
    ensures !Contains(className, Marker) ==> r == className + " " + Marker
  {
    if Contains(className, Marker) then className
    else
      var r := className + " " + Marker;
      assert OccursAt(r, Marker, |className| + 1);
      r
  }

  /** Marking twice is marking once. */
  lemma WithMarkerIdempotent(className: string)
    ensures WithMarker(WithMarker(className)) == WithMarker(className)
  {
  }

  /** The page document, reduced to the class name of its root element. */
  class Document {
    var rootClassName: string

    constructor (className: string)
      ensures rootClassName == className
    {
      rootClassName := className;
    }

    /** The marker step, run by the ES6 constructor and once by the UMD and jQuery scripts when they load. */
    method MarkJs()
      modifies this
      ensures rootClassName == WithMarker(old(rootClassName))
      ensures Contains(rootClassName, Marker)
    {
      rootClassName := WithMarker(rootClassName);
    }
  }
}
