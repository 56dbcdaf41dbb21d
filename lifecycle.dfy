/** Where a carousel's `setup` got to, and the listeners it installed on the way. */
module Lifecycle {

  /**
   * `Disabled`: one item or none, so `setup` returned at once. `Failed`: the start index
   * names no item, so `loadLazyContent(this.items[this.currentIndex])` threw inside `setup`
   * after the observer and the visibility listener were installed; those keep the object
   * reachable. `Active`: `setup` ran to its end.
   */
  datatype Phase = Disabled | Active | Failed

  /**
   * Which of the listeners `setup` installs are attached: the intersection observer,
   * `visibilitychange`, `mouseenter`/`mouseleave`, the indicator clicks and the touch events.
   */
  datatype Listeners = Listeners(observer: bool, visibility: bool, mouse: bool, indicatorClicks: bool, touch: bool)

  /** Nothing attached. */
  const NoListeners := Listeners(false, false, false, false, false)
}
