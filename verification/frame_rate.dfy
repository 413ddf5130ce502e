/** The short frame-rate sample `measureFPS` (script.js): count animation
    frames until the window has elapsed, then report whether the rate was
    below 40 frames per second. Times are integer milliseconds. */
module FrameRate {
  import opened Wrappers

  /** The window `initPerformanceMode` asks `measureFPS` for. */
  const InitWindow: int := 800

  /** Frames per second below which the page counts as low-performance. */
  const MinFps: nat := 40

  /** `frames / (elapsed / 1000) < 40` in integers. A zero elapsed time makes
      the rate infinite (not low) and a negative one makes it negative (low). */
  predicate LowFrameRate(frames: nat, elapsed: int) {
    if elapsed > 0 then frames * 1000 < MinFps * elapsed else elapsed < 0
  }

  /** Frame `k` is the first animation frame whose timestamp is at least
      `window` after `start`: the one at which `step` stops re-arming. */
  predicate FirstExpiry(stamps: seq<int>, start: int, window: int, k: int) {
    && 0 <= k < |stamps|
    && stamps[k] - start >= window
    && forall j :: 0 <= j < k ==> stamps[j] - start < window
  }

  /** The `step` callback run over the timestamps of the animation frames the
      browser delivers, with `frames` already counted: `None` while the
      window has not elapsed, else the verdict. */
  function Sample(start: int, window: int, frames: nat, stamps: seq<int>): (r: Option<bool>)
    ensures r.Some? <==> exists k :: 0 <= k < |stamps| && stamps[k] - start >= window
    ensures forall k :: FirstExpiry(stamps, start, window, k) ==>
              r == Some(LowFrameRate(frames + k + 1, stamps[k] - start))
    decreases |stamps|
  {
    if |stamps| == 0 then None
    else if stamps[0] - start < window then
      var r := Sample(start, window, frames + 1, stamps[1..]);
      assert forall k :: FirstExpiry(stamps, start, window, k) ==> k > 0 && FirstExpiry(stamps[1..], start, window, k - 1);
      r
    else Some(LowFrameRate(frames + 1, stamps[0] - start))
  }

  /** `measureFPS(window)` started at `start`: with reduced motion preferred
      it resolves `false` at once and never looks at a frame. */
  function MeasureFps(prefersReduced: bool, window: int, start: int, stamps: seq<int>): (r: Option<bool>)
    ensures prefersReduced ==> r == Some(false)
    ensures !prefersReduced ==>
              forall k :: FirstExpiry(stamps, start, window, k) ==> r == Some(LowFrameRate(k + 1, stamps[k] - start))
    ensures !prefersReduced ==> (r.Some? <==> exists k :: 0 <= k < |stamps| && stamps[k] - start >= window)
  {
    if prefersReduced then Some(false) else Sample(start, window, 0, stamps)
  }
}
