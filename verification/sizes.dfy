/**
 * `Utils/Sizes.js`: the viewport watcher.  The window's readings
 * (`innerWidth`, `innerHeight`, `devicePixelRatio`) are parameters; each
 * window 'resize' notification recomputes the state from them and triggers
 * 'resize'.  There is no debounce.
 */
module Sizes {

  /** The ceiling `Math.min(window.devicePixelRatio, 2)` applies. */
  const MaxPixelRatio: real := 2.0
  const ResizeEvent := "resize"

  /** What the window reports when it is read. */
  datatype Window = Window(innerWidth: int, innerHeight: int, devicePixelRatio: real)

  datatype Viewport = Viewport(width: int, height: int, pixelRatio: real)

  /** `Math.min(devicePixelRatio, 2)`. */
  function ClampPixelRatio(dpr: real): (r: real)
    ensures r <= MaxPixelRatio && r <= dpr
    ensures r == dpr || r == MaxPixelRatio
  {
    if dpr < MaxPixelRatio then dpr else MaxPixelRatio
  }

  /** The state read from the window, by the constructor and by every notification. */
  function Read(w: Window): (v: Viewport)
    ensures v.width == w.innerWidth && v.height == w.innerHeight
    ensures v.pixelRatio <= MaxPixelRatio
    ensures w.devicePixelRatio <= MaxPixelRatio ==> v.pixelRatio == w.devicePixelRatio
    ensures w.devicePixelRatio > MaxPixelRatio ==> v.pixelRatio == MaxPixelRatio
  {
    Viewport(w.innerWidth, w.innerHeight, ClampPixelRatio(w.devicePixelRatio))
  }

  /**
   * The window 'resize' listener: the new state (read from the window alone,
   * whatever the old one was) and the events triggered after it is stored.
   */
  function OnResize(v: Viewport, w: Window): (r: (Viewport, seq<string>))
    ensures r.0 == Read(w)
    ensures r.1 == [ResizeEvent]
  {
    (Read(w), [ResizeEvent])
  }

  /** A run of notifications: the final state and every event triggered, in order. */
  function Notify(v: Viewport, ws: seq<Window>): (r: (Viewport, seq<string>))
    ensures |r.1| == |ws|
    ensures ws == [] ==> r.0 == v
    decreases |ws|
  {
    if ws == [] then (v, [])
    else
      var (v1, events) := OnResize(v, ws[0]);
      var (v2, more) := Notify(v1, ws[1..]);
      (v2, events + more)
  }

  /**
   * n notifications trigger 'resize' exactly n times, and the state reflects
   * the last notification with its pixel ratio clamped.
   */
  lemma {:induction false} EveryNotificationTriggers(v: Viewport, ws: seq<Window>)
    ensures |Notify(v, ws).1| == |ws|
    ensures forall k :: 0 <= k < |ws| ==> Notify(v, ws).1[k] == ResizeEvent
    ensures |ws| > 0 ==> Notify(v, ws).0 == Read(ws[|ws| - 1])
    ensures v.pixelRatio <= MaxPixelRatio ==> Notify(v, ws).0.pixelRatio <= MaxPixelRatio
    decreases |ws|
  {
    if ws != [] {
      var v1 := OnResize(v, ws[0]).0;
      EveryNotificationTriggers(v1, ws[1..]);
      assert Notify(v, ws).1 == [ResizeEvent] + Notify(v1, ws[1..]).1;
      if |ws| > 1 {
        assert ws[1..][|ws| - 2] == ws[|ws| - 1];
      }
    }
  }
}
