/**
 Pointer tracking of the particle-text canvas.

 The canvas keeps one pointer position that the per-frame step reads. It
 starts at an off-canvas sentinel, follows mouse and touch movement, and goes
 back to the sentinel when the mouse leaves the window or a touch ends.
 */
module Pointer {

  const OFF_CANVAS: real := -9999.0

  datatype Point = Point(x: real, y: real)

  const Sentinel: Point := Point(OFF_CANVAS, OFF_CANVAS)

  /** The window events the canvas listens to for the pointer. */
  datatype Event =
    | MouseMove(clientX: real, clientY: real)
    | MouseLeave
    | TouchMove(touches: seq<Point>)
    | TouchEnd

  /** An event that puts the pointer back at the sentinel (`onLeave`). */
  predicate IsReset(e: Event) {
    e.MouseLeave? || e.TouchEnd?
  }

  /** The position an event carries, if it carries one. */
  predicate Carries(e: Event, p: Point) {
    (e.MouseMove? && p == Point(e.clientX, e.clientY))
    || (e.TouchMove? && |e.touches| > 0 && p == e.touches[0])
  }

  /**
   `onMove`, `onLeave` and `onTouch`. A touch-move with no touch point makes
   the handler throw before it assigns anything, so the pointer is unchanged.
   */
  function Handle(p: Point, e: Event): (q: Point)
    ensures IsReset(e) ==> q == Sentinel
    ensures !IsReset(e) ==> Carries(e, q) || (q == p && e.TouchMove? && |e.touches| == 0)
  {
    match e
    case MouseMove(cx, cy) => Point(cx, cy)
    case MouseLeave => Sentinel
    case TouchMove(ts) => if |ts| > 0 then ts[0] else p
    case TouchEnd => Sentinel
  }

  /** The pointer after handling `events` in order, starting from `p`. */
  function Run(p: Point, events: seq<Event>): Point
    decreases |events|
  {
    if events == [] then p
    else Handle(Run(p, events[..|events| - 1]), events[|events| - 1])
  }

  /** The pointer after the given events, from mount on. */
  function Track(events: seq<Event>): Point {
    Run(Sentinel, events)
  }

  lemma {:induction false} RunAppend(p: Point, a: seq<Event>, b: seq<Event>)
    ensures Run(p, a + b) == Run(Run(p, a), b)
    decreases |b|
  {
    if b == [] {
      assert a + b == a;
    } else {
      var b' := b[..|b| - 1];
      assert (a + b)[..|a + b| - 1] == a + b';
      assert (a + b)[|a + b| - 1] == b[|b| - 1];
      RunAppend(p, a, b');
    }
  }

  /**
   The tracked pointer is the sentinel or a position carried by one of the
   events: it never makes up coordinates.
   */
  lemma {:induction false} TrackProvenance(events: seq<Event>)
    ensures Track(events) == Sentinel ||
      exists i :: 0 <= i < |events| && Carries(events[i], Track(events))
    decreases |events|
  {
    if events != [] {
      var init := events[..|events| - 1];
      var last := events[|events| - 1];
      TrackProvenance(init);
      if Track(events) != Sentinel {
        if Carries(last, Track(events)) {
          assert Carries(events[|events| - 1], Track(events));
        } else {
          assert Track(events) == Track(init);
          var i :| 0 <= i < |init| && Carries(init[i], Track(init));
          assert events[i] == init[i];
        }
      }
    }
  }

  /** After a mouse-leave or touch-end, earlier movement has no influence at all. */
  lemma ResetForgetsHistory(before: seq<Event>, reset: Event, after: seq<Event>)
    requires IsReset(reset)
    ensures Track(before + [reset] + after) == Track(after)
  {
    RunAppend(Sentinel, before + [reset], after);
    RunAppend(Sentinel, before, [reset]);
    assert Run(Run(Sentinel, before), [reset]) == Sentinel;
  }

  /** The last mouse-move decides the pointer when only pointer-less touch-moves follow it. */
  lemma {:induction false} LastMoveWins(before: seq<Event>, x: real, y: real, after: seq<Event>)
    requires forall i :: 0 <= i < |after| ==> after[i].TouchMove? && after[i].touches == []
    ensures Track(before + [MouseMove(x, y)] + after) == Point(x, y)
    decreases |after|
  {
    if after == [] {
      assert before + [MouseMove(x, y)] + after == before + [MouseMove(x, y)];
      assert (before + [MouseMove(x, y)])[..|before|] == before;
    } else {
      var all := before + [MouseMove(x, y)] + after;
      var after' := after[..|after| - 1];
      assert all[..|all| - 1] == before + [MouseMove(x, y)] + after';
      LastMoveWins(before, x, y, after');
    }
  }
}
