/** One notification popup: the choice of its close-timer duration, the
    hover enter/leave rules, the shared `is_closing` latch of its buttons,
    its closing and its vertical position. The window itself is abstract: a
    height that GTK allocates and a flag saying that destruction was
    requested. Commands to the manager go to the `sent` outbox. */
module NotificationPopup {
  import opened Common
  import opened Notifications

  /** `DEFAULT_TIMEOUT` and `CRITICAL_TIMEOUT`, in milliseconds. */
  const DefaultTimeoutMs: nat := 5000
  const CriticalTimeoutMs: nat := 10000

  /** What a popup asks of the manager. */
  datatype PopupCommand = Close(id: nat) | ActionInvoked(id: nat, key: string)

  /** The corner of the screen the popups stack from. */
  datatype NotificationPosition = TopLeft | TopRight | BottomLeft | BottomRight

  /** The layer-shell edge whose margin carries the vertical position. */
  datatype Edge = Top | Bottom

  function PositionEdge(p: NotificationPosition): (e: Edge)
    ensures e == Top <==> p == TopLeft || p == TopRight
    ensures e == Bottom <==> p == BottomLeft || p == BottomRight
  {
    match p
    case TopLeft => Top
    case TopRight => Top
    case BottomLeft => Bottom
    case BottomRight => Bottom
  }

  // ---------------------------------------------------------------------
  // Actions
  // ---------------------------------------------------------------------

  /** A button made from one (key, label) pair of the action list. */
  datatype ActionButton = ActionButton(key: string, caption: string)

  /** `actions.chunks_exact(2)`: one button per complete pair, in order; an
      odd trailing element makes no button. */
  function ActionButtons(actions: seq<string>): (bs: seq<ActionButton>)
    ensures |bs| == |actions| / 2
    ensures forall i :: 0 <= i < |bs| ==> bs[i] == ActionButton(actions[2 * i], actions[2 * i + 1])
    decreases |actions|
  {
    if |actions| < 2 then []
    else
      var rest := ActionButtons(actions[2..]);
      assert forall i :: 0 <= i < |rest| ==> actions[2..][2 * i] == actions[2 * (i + 1)];
      [ActionButton(actions[0], actions[1])] + rest
  }

  /** The action list a sequence of buttons was made from. */
  function Flatten(bs: seq<ActionButton>): seq<string> {
    if bs == [] then [] else [bs[0].key, bs[0].caption] + Flatten(bs[1..])
  }

  /** Flattening the buttons gives the action list without its odd trailing
      element. */
  lemma {:induction false} FlattenActionButtons(actions: seq<string>)
    ensures Flatten(ActionButtons(actions)) == actions[..|actions| / 2 * 2]
    decreases |actions|
  {
    if |actions| >= 2 {
      FlattenActionButtons(actions[2..]);
      var bs := ActionButtons(actions);
      assert bs[1..] == ActionButtons(actions[2..]);
      assert actions[..|actions| / 2 * 2] == actions[..2] + actions[2..][..|actions[2..]| / 2 * 2];
    }
  }

  // ---------------------------------------------------------------------
  // Timer durations
  // ---------------------------------------------------------------------

  /** The duration `reset_close_timer` arms, in milliseconds, by
      `expire_timeout`: 0 never expires; -1 is the server default (none for a
      resident notification, 10 s for a critical one, 5 s otherwise); a
      positive value is taken as is; any other negative value gives 5 s. */
  function CloseTimerDuration(expireTimeout: int, urgency: Urgency, resident: bool): (d: Option<nat>)
    ensures d.None? <==> expireTimeout == 0 || (expireTimeout == -1 && resident)
    ensures d.Some? ==> d.value > 0
    ensures expireTimeout > 0 ==> d == Some(expireTimeout)
    ensures expireTimeout < -1 ==> d == Some(DefaultTimeoutMs)
    ensures expireTimeout == -1 && !resident ==>
      d == Some(if urgency == Critical then CriticalTimeoutMs else DefaultTimeoutMs)
  {
    if expireTimeout == 0 then None
    else if expireTimeout == -1 then
      if resident then None
      else Some(if urgency == Critical then CriticalTimeoutMs else DefaultTimeoutMs)
    else if expireTimeout > 0 then Some(expireTimeout)
    else Some(DefaultTimeoutMs)
  }

  /** The duration the leave handler arms; it ignores
      `expire_timeout`. */
  function LeaveDuration(urgency: Urgency, resident: bool): (d: Option<nat>)
    ensures d.None? <==> resident
  {
    if resident then None
    else if urgency == Critical then Some(CriticalTimeoutMs)
    else Some(DefaultTimeoutMs)
  }

  /** Leaving the popup re-arms the server default, whatever the sender asked
      for, so a popup with an explicit timeout gets a default one after a hover. */
  lemma {:induction false} LeaveUsesServerDefault(expireTimeout: int, urgency: Urgency, resident: bool)
    ensures LeaveDuration(urgency, resident) == CloseTimerDuration(-1, urgency, resident)
    ensures expireTimeout == 0 && !resident ==>
      CloseTimerDuration(expireTimeout, urgency, resident).None? && LeaveDuration(urgency, resident).Some?
  {
  }

  // ---------------------------------------------------------------------
  // The popup
  // ---------------------------------------------------------------------

  class Popup {
    const id: nat
    const urgency: Urgency
    const resident: bool
    const edge: Edge
    const buttons: seq<ActionButton>

    /** The latch shared by the close button, the action buttons and `close_popup`. */
    var isClosing: bool
    /** The `close_timer_source_id` slot, holding the duration of the timer it names. */
    var timer: Option<nat>
    /** How many close-timer sources of this popup are alive in the main loop. */
    ghost var liveTimers: nat
    var verticalPosition: int
    /** The height GTK allocated to the window. */
    var height: nat
    /** Whether the window was asked to go away. */
    var destroyRequested: bool
    /** The commands sent to the manager, oldest first. */
    var sent: seq<PopupCommand>

    /** At most one close timer is alive, a live one is in the slot, and a
        window asked to go away is closing. */
    ghost predicate Valid()
      reads this
    {
      liveTimers <= 1 && (liveTimers == 1 ==> timer.Some?) && (destroyRequested ==> isClosing)
    }

    /** Everything about the popup but its position. */
    ghost function Status(): (bool, Option<nat>, nat, seq<PopupCommand>, bool, nat)
      reads this
    {
      (isClosing, timer, liveTimers, sent, destroyRequested, height)
    }

    /** `NotificationPopup::new`: placed at `initialPosition` on the edge of
        the configured corner, one button per action pair, the close timer
        armed by `reset_close_timer`. */
    constructor(n: Notification, initialPosition: int, position: NotificationPosition)
      ensures Valid()
      ensures id == n.id && urgency == n.urgency && resident == n.resident
      ensures edge == PositionEdge(position) && buttons == ActionButtons(n.actions)
      ensures !isClosing && !destroyRequested && sent == [] && height == 0
      ensures verticalPosition == initialPosition
      ensures timer == CloseTimerDuration(n.expireTimeout, n.urgency, n.resident)
      ensures liveTimers == (if timer.Some? then 1 else 0)
    {
      id := n.id;
      urgency := n.urgency;
      resident := n.resident;
      edge := PositionEdge(position);
      buttons := ActionButtons(n.actions);
      isClosing := false;
      timer := None;
      liveTimers := 0;
      verticalPosition := initialPosition;
      height := 0;
      destroyRequested := false;
      sent := [];
      new;
      ResetCloseTimer(n.expireTimeout);
    }

    /** `reset_close_timer`: the old timer is removed before the new one is
        armed, so one at most is ever alive. */
    method ResetCloseTimer(expireTimeout: int)
      requires Valid()
      modifies this
      ensures Valid()
      ensures timer == CloseTimerDuration(expireTimeout, urgency, resident)
      ensures liveTimers == (if timer.Some? then 1 else 0)
      ensures isClosing == old(isClosing) && sent == old(sent) && destroyRequested == old(destroyRequested)
      ensures verticalPosition == old(verticalPosition) && height == old(height)
    {
      if timer.Some? {
        timer := None;
        liveTimers := 0;
      }
      var d := CloseTimerDuration(expireTimeout, urgency, resident);
      if d.Some? {
        timer := d;
        liveTimers := liveTimers + 1;
      }
    }

    /** The cursor entered: the timer is taken out and removed; nothing is sent. */
    method HoverEnter()
      requires Valid()
      modifies this
      ensures Valid()
      ensures timer == None && liveTimers == 0
      ensures isClosing == old(isClosing) && sent == old(sent) && destroyRequested == old(destroyRequested)
      ensures verticalPosition == old(verticalPosition) && height == old(height)
    {
      if timer.Some? {
        timer := None;
        liveTimers := 0;
      }
    }

    /** The cursor left: nothing while closing or while a timer is in the
        slot; otherwise the server-default timer is armed. */
    method HoverLeave()
      requires Valid()
      modifies this
      ensures Valid()
      ensures old(isClosing) || old(timer).Some? ==>
        timer == old(timer) && liveTimers == old(liveTimers)
      ensures !old(isClosing) && old(timer).None? ==>
        timer == LeaveDuration(urgency, resident) && liveTimers == (if timer.Some? then 1 else 0)
      ensures isClosing == old(isClosing) && sent == old(sent) && destroyRequested == old(destroyRequested)
      ensures verticalPosition == old(verticalPosition) && height == old(height)
    {
      if isClosing {
        return;
      }
      if timer.None? {
        var d := LeaveDuration(urgency, resident);
        if d.Some? {
          timer := d;
          liveTimers := liveTimers + 1;
        }
      }
    }

    /** The live close timer fired: while closing it does nothing; otherwise
        it empties the slot and sends one `Close`. It never sets the latch. */
    method TimerFires()
      requires Valid() && liveTimers == 1
      modifies this
      ensures Valid()
      ensures liveTimers == 0
      ensures old(isClosing) ==> timer == old(timer) && sent == old(sent)
      ensures !old(isClosing) ==> timer == None && sent == old(sent) + [Close(id)]
      ensures isClosing == old(isClosing) && destroyRequested == old(destroyRequested)
      ensures verticalPosition == old(verticalPosition) && height == old(height)
    {
      liveTimers := 0;
      if isClosing {
        return;
      }
      timer := None;
      sent := sent + [Close(id)];
    }

    /** The close button: the first click on any button sets the latch and
        sends `Close`; later clicks send nothing. The timer is left alone. */
    method ClickClose()
      requires Valid()
      modifies this
      ensures Valid()
      ensures isClosing
      ensures !old(isClosing) ==> sent == old(sent) + [Close(id)]
      ensures old(isClosing) ==> sent == old(sent)
      ensures timer == old(timer) && liveTimers == old(liveTimers) && destroyRequested == old(destroyRequested)
      ensures verticalPosition == old(verticalPosition) && height == old(height)
    {
      if isClosing {
        return;
      }
      isClosing := true;
      sent := sent + [Close(id)];
    }

    /** The button of the `i`-th action pair: the same latch, and it sends
        `ActionInvoked` with that pair's key. */
    method ClickAction(i: nat)
      requires Valid() && i < |buttons|
      modifies this
      ensures Valid()
      ensures isClosing
      ensures !old(isClosing) ==> sent == old(sent) + [ActionInvoked(id, buttons[i].key)]
      ensures old(isClosing) ==> sent == old(sent)
      ensures timer == old(timer) && liveTimers == old(liveTimers) && destroyRequested == old(destroyRequested)
      ensures verticalPosition == old(verticalPosition) && height == old(height)
    {
      if isClosing {
        return;
      }
      isClosing := true;
      sent := sent + [ActionInvoked(id, buttons[i].key)];
    }

    /** `close_popup` as written: it does nothing when the latch is already
        set, which is also the case after any button click. */
    method ClosePopupAsWritten()
      requires Valid()
      modifies this
      ensures Valid()
      ensures old(isClosing) ==>
        timer == old(timer) && liveTimers == old(liveTimers) && destroyRequested == old(destroyRequested)
      ensures !old(isClosing) ==> timer == None && liveTimers == 0 && destroyRequested
      ensures isClosing && sent == old(sent)
      ensures verticalPosition == old(verticalPosition) && height == old(height)
    {
      if isClosing {
        return;
      }
      isClosing := true;
      if timer.Some? {
        timer := None;
        liveTimers := 0;
      }
      destroyRequested := true;
    }

    /** `close_popup` guarded by what it is meant to prevent, a second
        destruction: the window of a popup whose button was clicked is still
        destroyed, and the timer is gone afterwards in every case. */
    method ClosePopup()
      requires Valid()
      modifies this
      ensures Valid()
      ensures isClosing && destroyRequested
      ensures !old(destroyRequested) ==> timer == None && liveTimers == 0
      ensures old(destroyRequested) ==> timer == old(timer) && liveTimers == old(liveTimers)
      ensures sent == old(sent)
      ensures verticalPosition == old(verticalPosition) && height == old(height)
    {
      if destroyRequested {
        return;
      }
      isClosing := true;
      if timer.Some? {
        timer := None;
        liveTimers := 0;
      }
      destroyRequested := true;
    }

    /** `set_vertical_position`: the margin on the popup's edge becomes `position`. */
    method SetVerticalPosition(position: int)
      modifies this
      ensures verticalPosition == position
      ensures Status() == old(Status())
    {
      if verticalPosition != position {
        verticalPosition := position;
      }
    }

    /** GTK allocated a height to the window. */
    method Allocate(h: nat)
      modifies this
      ensures height == h
      ensures isClosing == old(isClosing) && timer == old(timer) && liveTimers == old(liveTimers)
      ensures sent == old(sent) && destroyRequested == old(destroyRequested)
      ensures verticalPosition == old(verticalPosition)
    {
      height := h;
    }

    /** `Drop`: the timer is taken out and removed; the window is not touched. */
    method Drop()
      requires Valid()
      modifies this
      ensures Valid()
      ensures timer == None && liveTimers == 0
      ensures isClosing == old(isClosing) && sent == old(sent) && destroyRequested == old(destroyRequested)
      ensures verticalPosition == old(verticalPosition) && height == old(height)
    {
      if timer.Some? {
        timer := None;
        liveTimers := 0;
      }
    }
  }

  /** As written, a popup dismissed with its close button sends `Close` but
      its window is never destroyed: the manager's `close_popup` finds the
      latch the button set and returns at once. */
  method CloseButtonKeepsWindowAsWritten(p: Popup)
    requires p.Valid() && !p.isClosing && !p.destroyRequested
    modifies p
    ensures p.sent == old(p.sent) + [Close(p.id)]
    ensures !p.destroyRequested
  {
    p.ClickClose();
    p.ClosePopupAsWritten();
  }

  /** With the corrected guard the same sequence destroys the window and
      leaves no timer behind. */
  method CloseButtonDestroysWindow(p: Popup)
    requires p.Valid() && !p.isClosing && !p.destroyRequested
    modifies p
    ensures p.sent == old(p.sent) + [Close(p.id)]
    ensures p.destroyRequested && p.timer == None && p.liveTimers == 0
  {
    p.ClickClose();
    p.ClosePopup();
  }
}
