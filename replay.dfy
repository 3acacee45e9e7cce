/** The replay button shown after a game over and the press-then-release
    gesture that starts a new game. */
module Replay {
  import opened Geometry
  import opened Input

  /** A left-button press whose point lies on the button. */
  predicate PressInside(button: Rect, e: Event) {
    e.MouseButtonDown? && e.button == 1 && ContainsPoint(button, e.pos)
  }

  /** A left-button release whose point lies on the button. */
  predicate ReleaseInside(button: Rect, e: Event) {
    e.MouseButtonUp? && e.button == 1 && ContainsPoint(button, e.pos)
  }

  /** The button's `mouse_down_flag` after a frame's events, and whether
      they asked for a new game. */
  datatype Gesture = Gesture(armed: bool, replay: bool)

  /** The event loop of the game-over branch of `Game.start`: a press on the
      button arms it, a release on the armed button replays and ends the
      loop, after which `ReplayButton.reset` disarms the button. */
  function ScanClicks(button: Rect, armed: bool, events: seq<Event>): (g: Gesture)
    ensures g.replay ==> !g.armed
    ensures !g.replay ==> (g.armed <==> armed || exists i :: 0 <= i < |events| && PressInside(button, events[i]))
    decreases |events|
  {
    if events == [] then Gesture(armed, false)
    else if PressInside(button, events[0]) then ScanClicks(button, true, events[1..])
    else if ReleaseInside(button, events[0]) && armed then Gesture(false, true)
    else
      var g := ScanClicks(button, armed, events[1..]);
      assert forall i :: 0 <= i < |events[1..]| ==> events[1..][i] == events[i + 1];
      g
  }

  /** The button was armed on entry or pressed before the `j`-th event. */
  predicate PressedBefore(button: Rect, armed: bool, events: seq<Event>, j: int)
    requires 0 <= j <= |events|
  {
    armed || exists i :: 0 <= i < j && PressInside(button, events[i])
  }

  /** Some release on the button follows a press on it (or an armed entry). */
  predicate ReleasedAfterPress(button: Rect, armed: bool, events: seq<Event>) {
    exists j :: 0 <= j < |events| && ReleaseInside(button, events[j]) && PressedBefore(button, armed, events, j)
  }

  /** The frame replays exactly when a release on the button follows a
      press on it. */
  lemma {:induction false} ReplayIffPressThenRelease(button: Rect, armed: bool, events: seq<Event>)
    ensures ScanClicks(button, armed, events).replay <==> ReleasedAfterPress(button, armed, events)
    decreases |events|
  {
    if events != [] {
      var rest := events[1..];
      assert forall i :: 0 <= i < |rest| ==> rest[i] == events[i + 1];
      if PressInside(button, events[0]) {
        ReplayIffPressThenRelease(button, true, rest);
        if ReleasedAfterPress(button, true, rest) {
          var j :| 0 <= j < |rest| && ReleaseInside(button, rest[j]) && PressedBefore(button, true, rest, j);
          assert PressedBefore(button, armed, events, j + 1);
        }
        if ReleasedAfterPress(button, armed, events) {
          var j :| 0 <= j < |events| && ReleaseInside(button, events[j]) && PressedBefore(button, armed, events, j);
          assert j > 0 && PressedBefore(button, true, rest, j - 1);
        }
      } else if ReleaseInside(button, events[0]) && armed {
        assert PressedBefore(button, armed, events, 0);
      } else {
        ReplayIffPressThenRelease(button, armed, rest);
        if ReleasedAfterPress(button, armed, rest) {
          var j :| 0 <= j < |rest| && ReleaseInside(button, rest[j]) && PressedBefore(button, armed, rest, j);
          if !armed {
            var i :| 0 <= i < j && PressInside(button, rest[i]);
            assert PressInside(button, events[i + 1]);
          }
          assert PressedBefore(button, armed, events, j + 1);
        }
        if ReleasedAfterPress(button, armed, events) {
          var j :| 0 <= j < |events| && ReleaseInside(button, events[j]) && PressedBefore(button, armed, events, j);
          assert j > 0;
          if !armed {
            var i :| 0 <= i < j && PressInside(button, events[i]);
            assert i > 0 && PressInside(button, rest[i - 1]);
          }
          assert PressedBefore(button, armed, rest, j - 1);
        }
      }
    }
  }

  /** `ReplayButton`: its rectangle (placed by the rendered label's size) and
      its `mouse_down_flag`. */
  class ReplayButton {
    const rect: Rect
    var mouseDownFlag: bool

    /** `ReplayButton.__init__` */
    constructor (r: Rect)
      ensures rect == r && !mouseDownFlag
    {
      rect := r;
      mouseDownFlag := false;
    }

    /** `ReplayButton.reset`, without the label image it redraws. */
    method Reset()
      modifies this
      ensures !mouseDownFlag
    {
      mouseDownFlag := false;
    }
  }
}
