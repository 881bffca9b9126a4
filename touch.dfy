/** The per-task touch handling on touch devices: a touch counts as a tap, and toggles the
    task, only when it neither moved like a scroll nor lasted too long. Times are
    milliseconds and positions pixels, both supplied with each event. */
module Touch {
  /** The tap test of the `touchend` listener. */
  predicate IsTap(scrolling: bool, duration: int, dy: nat) {
    !scrolling && duration < 500 && dy < 20
  }

  function Abs(x: int): nat {
    if x < 0 then -x else x
  }

  /** The closure state one task's three touch listeners share. */
  class TouchTracker {
    var startY: int
    var startTime: int
    var scrolling: bool
    /** The pending 500 ms timeout that ends the scroll, and when it is due. */
    var timerArmed: bool
    var timerDue: int
    /** The latest time any event carried; events arrive in time order. */
    ghost var now: int
    /** Whether the finger went more than 15 px from where this touch started. */
    ghost var movedFar: bool

    /** A touch that moved far is still marked as scrolling, with the timeout that ends the
        mark due no sooner than 500 ms after the touch began, or 500 ms have passed. */
    ghost predicate Valid()
      reads this
    {
      && startTime <= now
      && (timerArmed ==> scrolling && timerDue >= startTime + 500)
      && (movedFar ==> (scrolling && timerArmed) || now >= startTime + 500)
    }

    constructor ()
      ensures Valid() && !scrolling && !timerArmed && !movedFar
    {
      startY, startTime, scrolling := 0, 0, false;
      timerArmed, timerDue := false, 0;
      now, movedFar := 0, false;
    }

    /** `touchstart`: record where and when, clear the scroll mark and its timeout. */
    method TouchStart(t: int, y: int)
      requires Valid() && t >= now
      modifies this
      ensures Valid()
      ensures startY == y && startTime == t && now == t
      ensures !scrolling && !timerArmed && !movedFar
    {
      startY, startTime, scrolling := y, t, false;
      timerArmed := false;
      now, movedFar := t, false;
    }

    /** `touchmove`: more than 15 px from the start marks the touch as scrolling and
        (re)arms the timeout that clears the mark 500 ms later. */
    method TouchMove(t: int, y: int)
      requires Valid() && t >= now
      modifies this
      ensures Valid() && now == t
      ensures startY == old(startY) && startTime == old(startTime)
      ensures Abs(y - startY) > 15 ==> scrolling && timerArmed && timerDue == t + 500 && movedFar
      ensures Abs(y - startY) <= 15 ==>
        scrolling == old(scrolling) && timerArmed == old(timerArmed) && timerDue == old(timerDue) && movedFar == old(movedFar)
    {
      if Abs(y - startY) > 15 {
        scrolling := true;
        timerArmed, timerDue := true, t + 500;
        movedFar := true;
      }
      now := t;
    }

    /** The timeout firing at its due time clears the scroll mark. */
    method TimerFires(t: int)
      requires Valid() && timerArmed && t >= now && t >= timerDue
      modifies this
      ensures Valid() && now == t && !scrolling && !timerArmed
      ensures startY == old(startY) && startTime == old(startTime) && movedFar == old(movedFar)
    {
      scrolling, timerArmed := false, false;
      now := t;
    }

    /** `touchend`: whether the touch is handled as a tap. A touch that went more than 15 px
        from its start is never a tap, even when it ends back near where it began. */
    method TouchEnd(t: int, y: int) returns (tap: bool)
      requires Valid() && t >= now
      ensures tap == IsTap(scrolling, t - startTime, Abs(y - startY))
      ensures movedFar ==> !tap
    {
      tap := !scrolling && t - startTime < 500 && Abs(y - startY) < 20;
    }
  }
}
