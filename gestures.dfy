/** The touch handlers of `initializeMobileGestures` (script.js:455-523): a
    touch records where and when it started, a mostly vertical move of more
    than 10 px marks it as a scroll, and the end of a quick, long enough
    touch that was not a scroll is read as a swipe in one of four
    directions. Coordinates and times are whole numbers here. */
module Gestures {

  function Abs(n: int): nat {
    if n < 0 then -n else n
  }

  /** The swipe a touch end reports: which of `handleSwipeRight`, `Left`,
      `Down` and `Up` it calls, or none. */
  datatype Swipe = SwipeRight | SwipeLeft | SwipeDown | SwipeUp | NoSwipe

  const MinSwipeDistance := 50
  const MaxSwipeTime := 300
  const ScrollThreshold := 10

  /** The swipe for a movement of `(dx, dy)` pixels that took `dt` ms. */
  function SwipeOf(dx: int, dy: int, dt: int): (r: Swipe)
    ensures r == SwipeRight <==> dt < MaxSwipeTime && dx > MinSwipeDistance && dx > Abs(dy)
    ensures r == SwipeLeft <==> dt < MaxSwipeTime && -dx > MinSwipeDistance && -dx > Abs(dy)
    ensures r == SwipeDown <==> dt < MaxSwipeTime && dy > MinSwipeDistance && dy > Abs(dx)
    ensures r == SwipeUp <==> dt < MaxSwipeTime && -dy > MinSwipeDistance && -dy > Abs(dx)
  {
    if dt >= MaxSwipeTime then NoSwipe
    else if Abs(dx) > Abs(dy) && Abs(dx) > MinSwipeDistance then
      (if dx > 0 then SwipeRight else SwipeLeft)
    else if Abs(dy) > Abs(dx) && Abs(dy) > MinSwipeDistance then
      (if dy > 0 then SwipeDown else SwipeUp)
    else NoSwipe
  }

  /** A movement as long across as down is no swipe, however long. */
  lemma DiagonalIsNoSwipe(dx: int, dy: int, dt: int)
    requires Abs(dx) == Abs(dy)
    ensures SwipeOf(dx, dy, dt) == NoSwipe
  {
  }

  /** Mirroring the movement left to right swaps the horizontal swipes and
      keeps the others. */
  lemma MirrorSwapsLeftAndRight(dx: int, dy: int, dt: int)
    ensures SwipeOf(-dx, dy, dt) ==
      match SwipeOf(dx, dy, dt)
      case SwipeRight => SwipeLeft
      case SwipeLeft => SwipeRight
      case other => other
  {
  }

  /** Exchanging the axes exchanges right with down and left with up. */
  lemma TransposeSwapsAxes(dx: int, dy: int, dt: int)
    ensures SwipeOf(dy, dx, dt) ==
      match SwipeOf(dx, dy, dt)
      case SwipeRight => SwipeDown
      case SwipeDown => SwipeRight
      case SwipeLeft => SwipeUp
      case SwipeUp => SwipeLeft
      case NoSwipe => NoSwipe
  {
  }

  /** The closure state of `initializeMobileGestures`. */
  class SwipeTracker {
    var startX: int
    var startY: int
    var startTime: int
    var isScrolling: bool

    constructor ()
      ensures startX == 0 && startY == 0 && startTime == 0 && !isScrolling
    {
      startX := 0;
      startY := 0;
      startTime := 0;
      isScrolling := false;
    }

    /** `touchstart` at `(x, y)` at time `now`. */
    method TouchStart(x: int, y: int, now: int)
      modifies this
      ensures startX == x && startY == y && startTime == now && !isScrolling
    {
      startX := x;
      startY := y;
      startTime := now;
      isScrolling := false;
    }

    /** `touchmove` to `(x, y)`: ignored while a start coordinate is 0 (the
        handler tests them for truthiness); otherwise a move more vertical
        than horizontal by over 10 px marks the touch as a scroll. The flag is
        never cleared here. */
    method TouchMove(x: int, y: int)
      modifies this`isScrolling
      ensures isScrolling <==> (old(isScrolling) ||
        (startX != 0 && startY != 0 &&
         Abs(y - startY) > Abs(x - startX) && Abs(y - startY) > ScrollThreshold))
    {
      if startX == 0 || startY == 0 {
        return;
      }
      var deltaX := x - startX;
      var deltaY := y - startY;
      if Abs(deltaY) > Abs(deltaX) && Abs(deltaY) > ScrollThreshold {
        isScrolling := true;
      }
    }

    /** `touchend` at `(x, y)` at time `now`; `fired` lists the swipe
        handlers called, in order. Without a start or after a scroll it
        returns at once and leaves everything as it was; otherwise the two
        tests of the source run one after the other and the start values are
        reset to 0 (the scroll flag is left alone). */
    method TouchEnd(x: int, y: int, now: int) returns (fired: seq<Swipe>)
      modifies this`startX, this`startY, this`startTime
      ensures old(startX) == 0 || old(startY) == 0 || isScrolling ==>
        fired == [] && startX == old(startX) && startY == old(startY) && startTime == old(startTime)
      ensures !(old(startX) == 0 || old(startY) == 0 || isScrolling) ==>
        && startX == 0 && startY == 0 && startTime == 0
        && fired == Fired(SwipeOf(x - old(startX), y - old(startY), now - old(startTime)))
      ensures |fired| <= 1 && NoSwipe !in fired
    {
      fired := [];
      if startX == 0 || startY == 0 || isScrolling {
        return;
      }
      var deltaX := x - startX;
      var deltaY := y - startY;
      var deltaTime := now - startTime;
      if deltaTime < MaxSwipeTime {
        if Abs(deltaX) > Abs(deltaY) && Abs(deltaX) > MinSwipeDistance {
          if deltaX > 0 {
            fired := fired + [SwipeRight];
          } else {
            fired := fired + [SwipeLeft];
          }
        }
        if Abs(deltaY) > Abs(deltaX) && Abs(deltaY) > MinSwipeDistance {
          if deltaY > 0 {
            fired := fired + [SwipeDown];
          } else {
            fired := fired + [SwipeUp];
          }
        }
      }
      startX := 0;
      startY := 0;
      startTime := 0;
    }
  }

  /** The handler calls a swipe makes: one call, or none for `NoSwipe`. */
  function Fired(s: Swipe): (calls: seq<Swipe>)
    ensures |calls| <= 1 && NoSwipe !in calls
    ensures s != NoSwipe ==> calls == [s]
    ensures s == NoSwipe ==> calls == []
  {
    if s == NoSwipe then [] else [s]
  }
}
