/** The Pomodoro countdown of the date popover: a target length in minutes
    that the minus and plus buttons move in steps of 5 between 5 and 120, a
    remaining number of seconds that a one-second timer counts down, and the
    start/pause button. The wall clock and the calendar are left out. */
module Pomodoro {
  import opened Common
  import opened Text

  /** `POMODORO_STEP_MINUTES`, `POMODORO_MIN_MINUTES`, `POMODORO_MAX_MINUTES`. */
  const StepMinutes: nat := 5
  const MinMinutes: nat := 5
  const MaxMinutes: nat := 120

  /** The length the popover starts with. */
  const InitialMinutes: nat := 25

  const StartIcon := "media-playback-start-symbolic"
  const PauseIcon := "media-playback-pause-symbolic"

  // ---------------------------------------------------------------------
  // The countdown as a value
  // ---------------------------------------------------------------------

  /** The three fields of `PomodoroState` that the handlers compute with. */
  datatype Countdown = Countdown(target: nat, remaining: nat, running: bool)

  /** The target stays within its bounds on the step grid, and the countdown
      never holds more than the target. */
  predicate Bounded(c: Countdown) {
    MinMinutes <= c.target <= MaxMinutes && c.target % StepMinutes == 0
    && c.remaining <= c.target * 60
  }

  /** `PomodoroState::new(m)` */
  function Fresh(minutes: nat): (c: Countdown)
    ensures c.target == minutes && c.remaining == minutes * 60 && !c.running
    ensures MinMinutes <= minutes <= MaxMinutes && minutes % StepMinutes == 0 ==> Bounded(c)
  {
    Countdown(minutes, minutes * 60, false)
  }

  /** The minus button: only while stopped and above the minimum; the target
      drops by one step (not below the minimum) and the countdown restarts
      from it. */
  function Decreased(c: Countdown): (r: Countdown)
    ensures r.running == c.running
    ensures c.running || c.target <= MinMinutes ==> r == c
    ensures !c.running && c.target > MinMinutes ==>
      r.target == Max(c.target - StepMinutes, MinMinutes) && r.target < c.target
      && r.remaining == r.target * 60
  {
    if !c.running && c.target > MinMinutes then
      var t := Max(c.target - StepMinutes, MinMinutes);
      Countdown(t, t * 60, c.running)
    else c
  }

  /** The plus button, the mirror image of the minus button. */
  function Increased(c: Countdown): (r: Countdown)
    ensures r.running == c.running
    ensures c.running || c.target >= MaxMinutes ==> r == c
    ensures !c.running && c.target < MaxMinutes ==>
      r.target == Min(c.target + StepMinutes, MaxMinutes) && r.target > c.target
      && r.remaining == r.target * 60
  {
    if !c.running && c.target < MaxMinutes then
      var t := Min(c.target + StepMinutes, MaxMinutes);
      Countdown(t, t * 60, c.running)
    else c
  }

  /** The start/pause button: a running countdown pauses where it is; a
      stopped one starts, from the full target when it had reached zero. */
  function Toggled(c: Countdown): (r: Countdown)
    ensures r.running == !c.running && r.target == c.target
    ensures c.running ==> r.remaining == c.remaining
    ensures !c.running ==> r.remaining == (if c.remaining == 0 then c.target * 60 else c.remaining)
  {
    if c.running then c.(running := false)
    else
      var remaining := if c.remaining == 0 then c.target * 60 else c.remaining;
      Countdown(c.target, remaining, true)
  }

  /** One second of a running countdown: a second less, or, at zero, the
      countdown stops. */
  function Ticked(c: Countdown): (r: Countdown)
    requires c.running
    ensures r.target == c.target
    ensures c.remaining > 0 ==> r.running && r.remaining == c.remaining - 1
    ensures c.remaining == 0 ==> !r.running && r.remaining == 0
  {
    if c.remaining > 0 then c.(remaining := c.remaining - 1)
    else c.(running := false)
  }

  /** Closing the popover stops a running countdown where it is. */
  function Stopped(c: Countdown): (r: Countdown)
    ensures !r.running && r.target == c.target && r.remaining == c.remaining
  {
    c.(running := false)
  }

  /** The minus button keeps the countdown bounded. */
  lemma DecreaseKeepsBounds(c: Countdown)
    requires Bounded(c)
    ensures Bounded(Decreased(c))
  {
    if !c.running && c.target > MinMinutes {
      assert c.target >= MinMinutes + StepMinutes;
    }
  }

  /** The plus button keeps the countdown bounded. */
  lemma IncreaseKeepsBounds(c: Countdown)
    requires Bounded(c)
    ensures Bounded(Increased(c))
  {
    if !c.running && c.target < MaxMinutes {
      assert c.target + StepMinutes <= MaxMinutes;
    }
  }

  /** The start/pause button, a tick and closing the popover keep the
      countdown bounded. */
  lemma OtherStepsKeepBounds(c: Countdown)
    requires Bounded(c)
    ensures Bounded(Toggled(c)) && Bounded(Stopped(c))
    ensures c.running ==> Bounded(Ticked(c))
  {
  }

  /** `n` ticks of the timer, as long as the countdown runs. */
  function TickedTimes(c: Countdown, n: nat): Countdown
    decreases n
  {
    if n == 0 || !c.running then c else TickedTimes(Ticked(c), n - 1)
  }

  /** Once started, the countdown stops after its remaining seconds and one
      more tick, at zero, with the target untouched. */
  lemma {:induction false} CountdownStops(c: Countdown)
    requires c.running
    ensures var r := TickedTimes(c, c.remaining + 1);
      !r.running && r.remaining == 0 && r.target == c.target
    decreases c.remaining
  {
    if c.remaining > 0 {
      CountdownStops(Ticked(c));
    }
  }

  /** A running countdown is still running after fewer ticks than it has seconds. */
  lemma {:induction false} CountdownRunsUntilZero(c: Countdown, n: nat)
    requires c.running && n <= c.remaining
    ensures TickedTimes(c, n).running && TickedTimes(c, n).remaining == c.remaining - n
    decreases n
  {
    if n > 0 {
      CountdownRunsUntilZero(Ticked(c), n - 1);
    }
  }

  // ---------------------------------------------------------------------
  // The label
  // ---------------------------------------------------------------------

  /** `format_time`: minutes and seconds, each printed with at least two digits. */
  function FormatTime(remaining: nat): (s: string)
    ensures |s| >= 5
  {
    Pad2(remaining / 60) + ":" + Pad2(remaining % 60)
  }

  /** The label can be read back: the part before the colon counts minutes,
      the two digits after it seconds, and together they give the remaining
      seconds. */
  lemma FormatTimeReadsBack(remaining: nat)
    ensures SplitOnce(FormatTime(remaining), ':') == Some((Pad2(remaining / 60), Pad2(remaining % 60)))
    ensures DigitsValue(Pad2(remaining / 60)) * 60 + DigitsValue(Pad2(remaining % 60)) == remaining
  {
    var m := Pad2(remaining / 60);
    var sec := Pad2(remaining % 60);
    Pad2Value(remaining / 60);
    Pad2Value(remaining % 60);
    assert ':' !in m by {
      forall i | 0 <= i < |m| ensures m[i] != ':' { assert IsDigit(m[i]); }
    }
    assert m + ":" + sec == m + [':'] + sec;
    SplitOnceAt(m, ':', sec);
  }

  /** The seconds always take two characters, and below 100 minutes the
      whole label is five characters long ("MM:SS"). */
  lemma FormatTimeWidth(remaining: nat)
    ensures |Pad2(remaining % 60)| == 2
    ensures remaining < 6000 ==> |FormatTime(remaining)| == 5
  {
    Pad2Length(remaining % 60);
    if remaining < 6000 {
      Pad2Length(remaining / 60);
    }
  }

  // ---------------------------------------------------------------------
  // The widget
  // ---------------------------------------------------------------------

  /** `PomodoroState` together with what its handlers show: the countdown
      label, the icon of the start/pause button and whether the minus and
      plus buttons are sensitive. `timerArmed` stands for the one-second
      countdown source held in `timer_source_id`; `raised` records that the
      popover was popped up when a countdown finished. */
  class PomodoroState {
    var target: nat
    var remaining: nat
    var running: bool
    var timerArmed: bool
    var labelText: string
    var icon: string
    var adjustable: bool
    var raised: bool

    function Snapshot(): Countdown
      reads this
    {
      Countdown(target, remaining, running)
    }

    /** The label shows the countdown, the countdown source exists exactly
        while it runs, and the buttons follow. */
    predicate Valid()
      reads this
    {
      Bounded(Snapshot()) && timerArmed == running && labelText == FormatTime(remaining)
      && adjustable == !running && icon == (if running then PauseIcon else StartIcon)
    }

    /** `PomodoroState::new(25)` and the initial label. */
    constructor()
      ensures Valid()
      ensures Snapshot() == Fresh(InitialMinutes) && !raised
    {
      target := InitialMinutes;
      remaining := InitialMinutes * 60;
      running := false;
      timerArmed := false;
      labelText := FormatTime(InitialMinutes * 60);
      icon := StartIcon;
      adjustable := true;
      raised := false;
    }

    /** `reset_time` */
    method ResetTime()
      modifies this
      ensures remaining == target * 60
      ensures target == old(target) && running == old(running) && timerArmed == old(timerArmed)
      ensures labelText == old(labelText) && icon == old(icon) && adjustable == old(adjustable) && raised == old(raised)
    {
      remaining := target * 60;
    }

    /** The minus button. */
    method Decrease()
      requires Valid()
      modifies this
      ensures Valid()
      ensures Snapshot() == Decreased(old(Snapshot())) && raised == old(raised)
    {
      DecreaseKeepsBounds(Snapshot());
      if !running && target > MinMinutes {
        target := Max(target - StepMinutes, MinMinutes);
        ResetTime();
        labelText := FormatTime(remaining);
      }
    }

    /** The plus button. */
    method Increase()
      requires Valid()
      modifies this
      ensures Valid()
      ensures Snapshot() == Increased(old(Snapshot())) && raised == old(raised)
    {
      IncreaseKeepsBounds(Snapshot());
      if !running && target < MaxMinutes {
        target := Min(target + StepMinutes, MaxMinutes);
        ResetTime();
        labelText := FormatTime(remaining);
      }
    }

    /** The start/pause button; it does nothing once the popover is gone. */
    method StartPause(popoverAlive: bool)
      requires Valid()
      modifies this
      ensures Valid()
      ensures popoverAlive ==> Snapshot() == Toggled(old(Snapshot()))
      ensures !popoverAlive ==> Snapshot() == old(Snapshot())
      ensures raised == old(raised)
    {
      if !popoverAlive {
        return;
      }
      OtherStepsKeepBounds(Snapshot());
      if running {
        running := false;
        timerArmed := false;
        icon := StartIcon;
        adjustable := true;
      } else {
        if remaining == 0 {
          ResetTime();
          labelText := FormatTime(remaining);
        }
        running := true;
        icon := PauseIcon;
        adjustable := false;
        timerArmed := true;
      }
    }

    /** The countdown source fires; when the countdown is no longer running
        the closure only ends the source. */
    method Tick(popoverAlive: bool)
      requires Valid()
      modifies this
      ensures Valid()
      ensures old(running) ==> Snapshot() == Ticked(old(Snapshot()))
      ensures !old(running) ==> Snapshot() == old(Snapshot())
      ensures raised == (old(raised) || (old(running) && old(remaining) == 0 && popoverAlive))
    {
      if !running {
        return;
      }
      OtherStepsKeepBounds(Snapshot());
      if remaining > 0 {
        remaining := remaining - 1;
        labelText := FormatTime(remaining);
      } else {
        running := false;
        timerArmed := false;
        icon := StartIcon;
        adjustable := true;
        if popoverAlive {
          raised := true;
        }
      }
    }

    /** The popover was closed: a running countdown stops and its source is
        removed; the remaining time stays. */
    method PopoverClosed()
      requires Valid()
      modifies this
      ensures Valid()
      ensures Snapshot() == Stopped(old(Snapshot())) && raised == old(raised)
    {
      OtherStepsKeepBounds(Snapshot());
      if running {
        running := false;
        timerArmed := false;
        icon := StartIcon;
        adjustable := true;
      }
    }
  }
}
