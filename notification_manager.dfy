/** The popup manager: a map from notification id to popup, the order in
    which the popups are stacked, and the layout pass that places them. It
    consumes the notifications the server forwards and the commands the
    popups send, one event at a time, and asks the server to emit the
    matching signals. */
module NotificationManager {
  import opened Common
  import opened Notifications
  import opened NotificationServer
  import opened NotificationPopup

  /** `BASE_MARGIN_TOP` and `SPACING`. */
  const BaseMarginTop: int := 20
  const Spacing: nat := 10

  // ---------------------------------------------------------------------
  // The stacking order
  // ---------------------------------------------------------------------

  predicate NoDuplicates(s: seq<nat>) {
    forall i, j :: 0 <= i < j < |s| ==> s[i] != s[j]
  }

  /** `a` comes before `b` in `s`. */
  predicate Before(s: seq<nat>, a: nat, b: nat) {
    exists i, j :: 0 <= i < j < |s| && s[i] == a && s[j] == b
  }

  /** `Vec::retain(|&x| x != id)`: the order without `id`. */
  function Without(s: seq<nat>, id: nat): (r: seq<nat>)
    ensures forall x :: x in r <==> x in s && x != id
    ensures NoDuplicates(s) ==> NoDuplicates(r)
  {
    if s == [] then []
    else
      var rest := Without(s[1..], id);
      if s[0] == id then rest
      else
        assert NoDuplicates(s) ==> s[0] !in s[1..];
        [s[0]] + rest
  }

  lemma {:induction false} BeforeCons(h: nat, t: seq<nat>, a: nat, b: nat)
    ensures Before([h] + t, a, b) <==> (h == a && b in t) || Before(t, a, b)
  {
    var s := [h] + t;
    if Before(s, a, b) {
      var i, j :| 0 <= i < j < |s| && s[i] == a && s[j] == b;
      if i > 0 {
        assert t[i - 1] == a && t[j - 1] == b;
      } else {
        assert t[j - 1] == b;
      }
    }
    if h == a && b in t {
      var j :| 0 <= j < |t| && t[j] == b;
      assert s[0] == a && s[j + 1] == b;
    }
    if Before(t, a, b) {
      var i, j :| 0 <= i < j < |t| && t[i] == a && t[j] == b;
      assert s[i + 1] == a && s[j + 1] == b;
    }
  }

  /** `retain` keeps the relative order of the ids it keeps. */
  lemma {:induction false} WithoutKeepsOrder(s: seq<nat>, id: nat, a: nat, b: nat)
    requires a != id && b != id
    ensures Before(Without(s, id), a, b) <==> Before(s, a, b)
    decreases |s|
  {
    if s != [] {
      WithoutKeepsOrder(s[1..], id, a, b);
      BeforeCons(s[0], s[1..], a, b);
      assert s == [s[0]] + s[1..];
      if s[0] != id {
        BeforeCons(s[0], Without(s[1..], id), a, b);
      }
    }
  }

  /** `push` keeps the relative order of what was there. */
  lemma {:induction false} AppendKeepsOrder(s: seq<nat>, id: nat, a: nat, b: nat)
    requires a != id && b != id
    ensures Before(s + [id], a, b) <==> Before(s, a, b)
  {
    var t := s + [id];
    if Before(t, a, b) {
      var i, j :| 0 <= i < j < |t| && t[i] == a && t[j] == b;
      assert j < |s|;
      assert s[i] == a && s[j] == b;
    }
    if Before(s, a, b) {
      var i, j :| 0 <= i < j < |s| && s[i] == a && s[j] == b;
      assert t[i] == a && t[j] == b;
    }
  }

  /** The order after `display_notification` of a notification with id `id`
      replacing `rid`: both removed, then `id` appended. */
  function DisplayOrder(order: seq<nat>, id: nat, rid: nat): (r: seq<nat>)
    ensures NoDuplicates(order) ==> NoDuplicates(r)
    ensures |r| > 0 && r[|r| - 1] == id
    ensures rid != 0 && rid != id ==> rid !in r
    ensures forall x :: x in r <==> x == id || (x in order && (rid == 0 || x != rid))
  {
    var kept := if rid != 0 then Without(order, rid) else order;
    var r := Without(kept, id) + [id];
    assert NoDuplicates(order) ==> NoDuplicates(r) by {
      if NoDuplicates(order) {
        assert NoDuplicates(Without(kept, id)) && id !in Without(kept, id);
        forall i, j | 0 <= i < j < |r| ensures r[i] != r[j] {
          if j == |r| - 1 { assert r[i] in Without(kept, id); }
        }
      }
    }
    r
  }

  /** All other ids keep their relative order. */
  lemma {:induction false} DisplayKeepsOrder(order: seq<nat>, id: nat, rid: nat, a: nat, b: nat)
    requires a != id && b != id && (rid == 0 || (a != rid && b != rid))
    ensures Before(DisplayOrder(order, id, rid), a, b) <==> Before(order, a, b)
  {
    var kept := if rid != 0 then Without(order, rid) else order;
    if rid != 0 {
      WithoutKeepsOrder(order, rid, a, b);
    }
    WithoutKeepsOrder(kept, id, a, b);
    AppendKeepsOrder(Without(kept, id), id, a, b);
  }

  /** Closing removes the id and keeps the order of the rest. */
  lemma {:induction false} CloseKeepsOrder(order: seq<nat>, id: nat, a: nat, b: nat)
    requires a != id && b != id
    ensures Before(Without(order, id), a, b) <==> Before(order, a, b)
    ensures id !in Without(order, id)
  {
    WithoutKeepsOrder(order, id, a, b);
  }

  // ---------------------------------------------------------------------
  // Layout
  // ---------------------------------------------------------------------

  /** The room one popup takes: its height, at least 1, and the spacing. */
  function Advance(height: nat): (r: nat)
    ensures r >= height + Spacing && r >= 1 + Spacing
  {
    (if height < 1 then 1 else height) + Spacing
  }

  /** The room the popups `ids` take, stacked; an id without a popup takes none. */
  function StackHeight(ids: seq<nat>, heights: map<nat, nat>): nat {
    if ids == [] then 0
    else
      var last := ids[|ids| - 1];
      StackHeight(ids[..|ids| - 1], heights) + (if last in heights then Advance(heights[last]) else 0)
  }

  /** The position the layout pass gives to the `k`-th popup of the order. */
  function SlotPosition(ids: seq<nat>, heights: map<nat, nat>, k: nat): int
    requires k <= |ids|
  {
    BaseMarginTop + StackHeight(ids[..k], heights)
  }

  /** The positions the layout pass hands out, walking `ids` from `top`. */
  function Slots(ids: seq<nat>, heights: map<nat, nat>, top: int): (r: seq<int>)
    ensures |r| == |ids|
    ensures ids != [] ==> r[0] == top
  {
    if ids == [] then []
    else [top] + Slots(ids[1..], heights, top + (if ids[0] in heights then Advance(heights[ids[0]]) else 0))
  }

  /** The walk gives the `k`-th popup the base margin plus the room of all
      the popups before it. */
  lemma {:induction false} SlotsAreStackHeights(ids: seq<nat>, heights: map<nat, nat>, top: int, k: nat)
    requires k < |ids|
    ensures Slots(ids, heights, top)[k] == top + StackHeight(ids[..k], heights)
    decreases k
  {
    if k > 0 {
      var step := if ids[0] in heights then Advance(heights[ids[0]]) else 0;
      SlotsAreStackHeights(ids[1..], heights, top + step, k - 1);
      StackHeightOfCons(ids[..k], heights);
      assert ids[..k][1..] == ids[1..][..k - 1];
    }
  }

  /** One step of the layout walk. */
  lemma SlotsWalk(ids: seq<nat>, heights: map<nat, nat>, i: nat, y: int, placed: seq<int>, slots: seq<int>)
    requires i < |ids| && placed + Slots(ids[i..], heights, y) == slots
    ensures (placed + [y]) + Slots(ids[i + 1..], heights, y + (if ids[i] in heights then Advance(heights[ids[i]]) else 0)) == slots
  {
    assert ids[i..][1..] == ids[i + 1..];
  }

  /** Consecutive slots are one popup's room apart. */
  lemma {:induction false} SlotsStep(ids: seq<nat>, heights: map<nat, nat>, top: int, i: nat)
    requires i + 1 < |ids|
    ensures Slots(ids, heights, top)[i + 1] ==
      Slots(ids, heights, top)[i] + (if ids[i] in heights then Advance(heights[ids[i]]) else 0)
  {
    SlotsAreStackHeights(ids, heights, top, i);
    SlotsAreStackHeights(ids, heights, top, i + 1);
    assert ids[..i + 1][..i] == ids[..i];
  }

  lemma {:induction false} StackHeightOfCons(ids: seq<nat>, heights: map<nat, nat>)
    requires ids != []
    ensures StackHeight(ids, heights) ==
      (if ids[0] in heights then Advance(heights[ids[0]]) else 0) + StackHeight(ids[1..], heights)
    decreases |ids|
  {
    if |ids| > 1 {
      var init := ids[..|ids| - 1];
      StackHeightOfCons(init, heights);
      assert init[1..] == ids[1..][..|ids[1..]| - 1];
    }
  }

  lemma {:induction false} StackHeightMonotone(ids: seq<nat>, heights: map<nat, nat>, k: nat, l: nat)
    requires k <= l <= |ids|
    ensures StackHeight(ids[..k], heights) <= StackHeight(ids[..l], heights)
    decreases l - k
  {
    if k < l {
      StackHeightMonotone(ids, heights, k, l - 1);
      assert ids[..l][..l - 1] == ids[..l - 1];
    }
  }

  /** Positions strictly increase along the order, by at least the height of
      each popup plus the spacing, and the first popup sits at the base margin. */
  lemma {:induction false} PositionsIncrease(ids: seq<nat>, heights: map<nat, nat>, k: nat, l: nat)
    requires k < l <= |ids|
    requires ids[k] in heights
    ensures SlotPosition(ids, heights, k) + Advance(heights[ids[k]]) <= SlotPosition(ids, heights, l)
    ensures SlotPosition(ids, heights, 0) == BaseMarginTop
  {
    assert ids[..0] == [];
    StackHeightMonotone(ids, heights, k + 1, l);
    assert ids[..k + 1][..k] == ids[..k];
  }

  // ---------------------------------------------------------------------
  // The manager
  // ---------------------------------------------------------------------

  /** One message taken off the manager's two channels. */
  datatype Event = Deliver(n: Notification) | Command(cmd: PopupCommand)

  /** The stacking order after one event: a delivered notification goes
      through `DisplayOrder`, a command removes its id. */
  function NextOrder(order: seq<nat>, e: Event): (r: seq<nat>)
    ensures NoDuplicates(order) ==> NoDuplicates(r)
  {
    match e
    case Deliver(n) => DisplayOrder(order, n.id, n.replacesId)
    case Command(c) => Without(order, c.id)
  }

  /** The stacking order after each event in turn. */
  function OrderAfter(order: seq<nat>, events: seq<Event>): seq<nat>
    decreases |events|
  {
    if events == [] then order
    else
      var next := NextOrder(order, events[0]);
      OrderAfter(next, events[1..])
  }

  /** No event sequence puts an id in the order twice. */
  lemma {:induction false} OrderAfterNoDuplicates(order: seq<nat>, events: seq<Event>)
    requires NoDuplicates(order)
    ensures NoDuplicates(OrderAfter(order, events))
    decreases |events|
  {
    if events != [] {
      var next := NextOrder(order, events[0]);
      OrderAfterNoDuplicates(next, events[1..]);
    }
  }

  /** Every id on screen was there at the start or came with a delivered
      notification. */
  lemma {:induction false} OrderAfterComesFrom(order: seq<nat>, events: seq<Event>, x: nat)
    requires x in OrderAfter(order, events)
    ensures x in order || exists i :: 0 <= i < |events| && events[i].Deliver? && events[i].n.id == x
    decreases |events|
  {
    if events != [] {
      var next := NextOrder(order, events[0]);
      OrderAfterComesFrom(next, events[1..], x);
      if x !in next {
        var i :| 0 <= i < |events[1..]| && events[1..][i].Deliver? && events[1..][i].n.id == x;
        assert events[i + 1] == events[1..][i];
      } else if x !in order {
        assert events[0].Deliver? && events[0].n.id == x;
      }
    }
  }

  /** A command for an id takes it off the screen until it is delivered again. */
  lemma {:induction false} CommandRemoves(order: seq<nat>, events: seq<Event>, c: PopupCommand)
    requires forall i :: 0 <= i < |events| && events[i].Deliver? ==> events[i].n.id != c.id
    ensures c.id !in OrderAfter(order, [Command(c)] + events)
  {
    var later := ([Command(c)] + events)[1..];
    assert later == events;
    if c.id in OrderAfter(Without(order, c.id), events) {
      OrderAfterComesFrom(Without(order, c.id), events, c.id);
    }
  }

  /** Nothing of the popup changed but, perhaps, its position. */
  twostate predicate KeptState(p: Popup)
    reads p
  {
    p.Status() == old(p.Status())
  }

  /** Nothing of the popup changed at all. */
  twostate predicate Untouched(p: Popup)
    reads p
  {
    p.Status() == old(p.Status()) && p.verticalPosition == old(p.verticalPosition)
  }

  /** `order` lists each key of `popups` exactly once, and each popup is
      filed under its own id. */
  ghost predicate IndexedBy(popups: map<nat, Popup>, order: seq<nat>) {
    NoDuplicates(order)
    && (forall k :: k in popups <==> k in order)
    && (forall k :: k in popups ==> popups[k].id == k)
  }

  /** Removing an id from both keeps them indexed. */
  lemma IndexedWithout(popups: map<nat, Popup>, order: seq<nat>, id: nat)
    requires IndexedBy(popups, order)
    ensures IndexedBy(popups - {id}, Without(order, id))
  {
  }

  /** Filing a popup under its own id and appending the id keeps them indexed. */
  lemma IndexedWith(popups: map<nat, Popup>, order: seq<nat>, p: Popup)
    requires IndexedBy(popups, order) && p.id !in popups
    ensures IndexedBy(popups[p.id := p], order + [p.id])
  {
    var r := order + [p.id];
    forall i, j | 0 <= i < j < |r| ensures r[i] != r[j] {
      if j == |r| - 1 { assert r[i] in order; }
    }
  }

  /** The popups filed before position `i` of the order are not the one at `i`. */
  lemma EarlierPopupsDiffer(m: Manager, i: nat)
    requires m.Indexed() && i < |m.order|
    ensures forall k :: 0 <= k < i ==> m.popups[m.order[k]] != m.popups[m.order[i]]
  {
    forall k | 0 <= k < i ensures m.popups[m.order[k]] != m.popups[m.order[i]] {
      assert m.popups[m.order[k]].id == m.order[k] != m.order[i];
    }
  }

  /** Each popup but the one filed under `id` is a different object. */
  lemma OthersDiffer(m: Manager, id: nat)
    requires m.Indexed() && id in m.popups
    ensures forall k :: k in m.popups && k != id ==> m.popups[k] != m.popups[id]
  {
  }

  /** Popups that kept their state keep their validity and their heights. */
  twostate lemma KeptPopups(m: Manager)
    requires old(m.Valid()) && unchanged(m)
    requires forall k :: k in m.popups ==> KeptState(m.popups[k])
    ensures m.Valid() && m.Heights() == old(m.Heights())
  {
    forall k | k in m.popups ensures m.popups[k].Valid() {
      assert KeptState(m.popups[k]);
    }
  }

  class Manager {
    const server: Server
    /** The configured corner, handed to every new popup. */
    const position: NotificationPosition
    var popups: map<nat, Popup>
    var order: seq<nat>
    /** The objects the manager may change: the popups it holds. */
    ghost function Repr(): set<Popup>
      reads this
    {
      popups.Values
    }

    /** The order lists each popup exactly once, and each popup is filed
        under its own id (so different ids hold different popups). */
    ghost predicate Indexed()
      reads this
    {
      IndexedBy(popups, order)
    }

    ghost predicate Valid()
      reads this, Repr()
    {
      Indexed() && (forall k :: k in popups ==> popups[k].Valid())
    }

    /** The allocated height of each popup, by id. */
    ghost function Heights(): map<nat, nat>
      reads this, Repr()
    {
      map k | k in popups :: popups[k].height
    }

    /** Every popup sits where the layout pass puts it. */
    ghost predicate LaidOut()
      reads this, Repr()
    {
      var slots := Slots(order, Heights(), BaseMarginTop);
      forall k :: 0 <= k < |order| && order[k] in popups ==>
        popups[order[k]].verticalPosition == slots[k]
    }

    constructor(server: Server, position: NotificationPosition)
      ensures Valid() && LaidOut()
      ensures this.server == server && this.position == position
      ensures popups == map[] && order == []
    {
      this.server := server;
      this.position := position;
      popups := map[];
      order := [];
    }

    /** The layout pass: walking the order from the base margin, each popup
        is moved to the running offset, which then grows by its height (at
        least 1) and the spacing. */
    method Layout()
      requires Valid()
      modifies Repr()
      ensures Valid() && LaidOut()
      ensures forall k :: k in popups ==> KeptState(popups[k])
    {
      ghost var heights := Heights();
      ghost var slots := Slots(order, heights, BaseMarginTop);
      var y := BaseMarginTop;
      var i := 0;
      while i < |order|
        invariant 0 <= i <= |order|
        invariant i < |order| ==> y == slots[i]
        invariant forall k :: k in popups ==> KeptState(popups[k])
        invariant forall k :: 0 <= k < i ==> popups[order[k]].verticalPosition == slots[k]
      {
        var pid := order[i];
        var p := popups[pid];
        EarlierPopupsDiffer(this, i);
        p.SetVerticalPosition(y);
        if i + 1 < |order| {
          SlotsStep(order, heights, BaseMarginTop, i);
        }
        y := y + Advance(p.height);
        i := i + 1;
      }
      KeptPopups(this);
    }

    /** `popups.remove(&id)` and `popup_order.retain(|&x| x != id)`. With
        `close` the removed popup is first closed with `close_popup` as
        written, which does nothing once the popup's closing latch is set;
        either way it is dropped, which removes its timer. */
    method Remove(id: nat, close: bool)
      requires Valid()
      modifies this, Repr()
      ensures Valid()
      ensures popups == old(popups) - {id} && order == Without(old(order), id)
      ensures Repr() <= old(Repr())
      ensures id in old(popups) ==>
        var p := old(popups)[id];
        p.timer == None && p.liveTimers == 0 && p.sent == old(p.sent)
        && (close ==> p.isClosing)
        && (!close ==> p.isClosing == old(p.isClosing))
        && (close && !old(p.isClosing) ==> p.destroyRequested)
        && (!close || old(p.isClosing) ==> p.destroyRequested == old(p.destroyRequested))
        && p !in Repr()
      ensures forall k :: k in popups ==> Untouched(popups[k])
    {
      if id in popups {
        var p := popups[id];
        OthersDiffer(this, id);
        if close {
          p.ClosePopupAsWritten();
        }
        p.Drop();
      }
      IndexedWithout(popups, order, id);
      popups := popups - {id};
      order := Without(order, id);
    }

    /** `display_notification`: the popups of `replaces_id` (when not 0) and
        of the id itself are taken out and dropped without being closed, a
        new popup is filed under the id and appended to the order, and the
        layout pass runs once its window is realized. */
    method Display(n: Notification)
      requires Valid()
      modifies this, Repr()
      ensures Valid() && LaidOut()
      ensures order == DisplayOrder(old(order), n.id, n.replacesId)
      ensures n.id in popups && fresh(popups[n.id])
      ensures var p := popups[n.id];
        p.id == n.id && p.urgency == n.urgency && p.buttons == ActionButtons(n.actions)
        && p.edge == PositionEdge(position) && p.resident == n.resident
        && !p.isClosing && !p.destroyRequested && p.sent == []
        && p.timer == CloseTimerDuration(n.expireTimeout, n.urgency, n.resident)
      ensures forall k :: k in popups && k != n.id ==>
        k in old(popups) && popups[k] == old(popups[k]) && KeptState(popups[k])
      ensures n.replacesId != 0 && n.replacesId != n.id && n.replacesId in old(popups) ==>
        var q := old(popups)[n.replacesId];
        q.timer == None && q.destroyRequested == old(q.destroyRequested) && q.sent == old(q.sent)
      ensures n.id in old(popups) ==>
        var q := old(popups)[n.id];
        q.timer == None && q.isClosing == old(q.isClosing)
        && q.destroyRequested == old(q.destroyRequested) && q.sent == old(q.sent)
      ensures fresh(Repr() - old(Repr()))
    {
      Replace(n);
      Layout();
    }

    /** Everything `display_notification` does before the layout pass. */
    method Replace(n: Notification)
      requires Valid()
      modifies this, Repr()
      ensures Valid()
      ensures order == DisplayOrder(old(order), n.id, n.replacesId)
      ensures n.id in popups && fresh(popups[n.id])
      ensures var p := popups[n.id];
        p.id == n.id && p.urgency == n.urgency && p.buttons == ActionButtons(n.actions)
        && p.edge == PositionEdge(position) && p.resident == n.resident
        && p.verticalPosition == BaseMarginTop
        && !p.isClosing && !p.destroyRequested && p.sent == []
        && p.timer == CloseTimerDuration(n.expireTimeout, n.urgency, n.resident)
      ensures forall k :: k in popups && k != n.id ==>
        k in old(popups) && popups[k] == old(popups[k]) && Untouched(popups[k])
      ensures n.replacesId != 0 && n.replacesId != n.id && n.replacesId in old(popups) ==>
        var q := old(popups)[n.replacesId];
        q.timer == None && q.destroyRequested == old(q.destroyRequested) && q.sent == old(q.sent)
        && q !in Repr()
      ensures n.id in old(popups) ==>
        var q := old(popups)[n.id];
        q.timer == None && q.isClosing == old(q.isClosing)
        && q.destroyRequested == old(q.destroyRequested) && q.sent == old(q.sent)
        && q !in Repr()
      ensures fresh(Repr() - old(Repr()))
    {
      Evict(n.id, n.replacesId);
      var p := new Popup(n, BaseMarginTop, position);
      Insert(p);
    }

    /** The popups of `rid` (when not 0) and of `id` are taken out and
        dropped without being closed. */
    method Evict(id: nat, rid: nat)
      requires Valid()
      modifies this, Repr()
      ensures Valid()
      ensures popups == old(popups) - (if rid != 0 then {rid, id} else {id})
      ensures order == Without(if rid != 0 then Without(old(order), rid) else old(order), id)
      ensures Repr() <= old(Repr())
      ensures rid != 0 && rid != id && rid in old(popups) ==>
        var q := old(popups)[rid];
        q.timer == None && q.isClosing == old(q.isClosing)
        && q.destroyRequested == old(q.destroyRequested) && q.sent == old(q.sent)
        && q !in Repr()
      ensures id in old(popups) ==>
        var q := old(popups)[id];
        q.timer == None && q.isClosing == old(q.isClosing)
        && q.destroyRequested == old(q.destroyRequested) && q.sent == old(q.sent)
        && q !in Repr()
      ensures forall k :: k in popups ==> Untouched(popups[k])
    {
      if rid != 0 {
        Remove(rid, false);
      }
      Remove(id, false);
    }

    /** `popups.insert(id, popup)` and `popup_order.push(id)` for a popup
        whose id is not filed yet. */
    method Insert(p: Popup)
      requires Valid() && p.Valid() && p.id !in popups
      modifies this
      ensures Valid()
      ensures popups == old(popups)[p.id := p] && order == old(order) + [p.id]
      ensures Repr() <= old(Repr()) + {p}
    {
      IndexedWith(popups, order, p);
      popups := popups[p.id := p];
      order := order + [p.id];
    }

    /** `handle_popup_command`: the popup is taken out, closed (its window
        destroyed only when its closing latch was still clear) and dropped,
        the server is asked for `NotificationClosed` with reason 1 (or, for
        an action, for `ActionInvoked` and then `NotificationClosed` with
        reason 2), and the layout pass runs. The signals are emitted only
        over a live connection; their results are ignored. */
    method HandleCommand(cmd: PopupCommand)
      requires Valid()
      modifies this, Repr(), server
      ensures Valid() && LaidOut()
      ensures popups == old(popups) - {cmd.id} && order == Without(old(order), cmd.id)
      ensures cmd.id in old(popups) ==>
        var p := old(popups)[cmd.id];
        p.isClosing && p.timer == None && p.sent == old(p.sent)
        && (!old(p.isClosing) ==> p.destroyRequested)
        && (old(p.isClosing) ==> p.destroyRequested == old(p.destroyRequested))
      ensures forall k :: k in popups ==> KeptState(popups[k])
      ensures var signals := match cmd
          case Close(id) => [NotificationClosed(id, ReasonDismissed)]
          case ActionInvoked(id, key) =>
            [Signal.ActionInvoked(id, key), NotificationClosed(id, ReasonActionInvoked)];
        server.emitted == old(server.emitted) + (if old(server.connected) then signals else [])
      ensures server.nextId == old(server.nextId) && server.active == old(server.active)
      ensures server.connected == old(server.connected) && server.forwarded == old(server.forwarded)
      ensures server.receiverAlive == old(server.receiverAlive)
    {
      Dismiss(cmd);
      Layout();
    }

    /** Everything `handle_popup_command` does before the layout pass. */
    method Dismiss(cmd: PopupCommand)
      requires Valid()
      modifies this, Repr(), server
      ensures Valid()
      ensures popups == old(popups) - {cmd.id} && order == Without(old(order), cmd.id)
      ensures cmd.id in old(popups) ==>
        var p := old(popups)[cmd.id];
        p.isClosing && p.timer == None && p.sent == old(p.sent)
        && (!old(p.isClosing) ==> p.destroyRequested)
        && (old(p.isClosing) ==> p.destroyRequested == old(p.destroyRequested))
      ensures forall k :: k in popups ==> Untouched(popups[k])
      ensures var signals := match cmd
          case Close(id) => [NotificationClosed(id, ReasonDismissed)]
          case ActionInvoked(id, key) =>
            [Signal.ActionInvoked(id, key), NotificationClosed(id, ReasonActionInvoked)];
        server.emitted == old(server.emitted) + (if old(server.connected) then signals else [])
      ensures server.nextId == old(server.nextId) && server.active == old(server.active)
      ensures server.connected == old(server.connected) && server.forwarded == old(server.forwarded)
      ensures server.receiverAlive == old(server.receiverAlive)
    {
      match cmd {
        case Close(id) =>
          Remove(id, true);
          var _ := server.EmitNotificationClosed(id, ReasonDismissed);
        case ActionInvoked(id, key) =>
          var _ := server.EmitActionInvoked(id, key);
          var _ := server.EmitNotificationClosed(id, ReasonActionInvoked);
          Remove(id, true);
      }
    }

    /** One turn of the `select!` loop of `run`. */
    method Handle(e: Event)
      requires Valid()
      modifies this, Repr(), server
      ensures Valid() && LaidOut()
      ensures order == NextOrder(old(order), e)
      ensures fresh(Repr() - old(Repr()))
    {
      match e {
        case Deliver(n) => Display(n);
        case Command(c) => HandleCommand(c);
      }
    }

    /** `run`: the events are handled one at a time, in the order they are
        taken off the channels. */
    method Run(events: seq<Event>)
      requires Valid()
      modifies this, Repr(), server
      ensures Valid()
      ensures events != [] ==> LaidOut()
      ensures order == OrderAfter(old(order), events)
      ensures fresh(Repr() - old(Repr()))
    {
      var i := 0;
      assert events[0..] == events;
      while i < |events|
        invariant 0 <= i <= |events|
        invariant Valid() && (i > 0 ==> LaidOut())
        invariant OrderAfter(old(order), events) == OrderAfter(order, events[i..])
        invariant fresh(Repr() - old(Repr()))
      {
        assert events[i..][1..] == events[i + 1..];
        Handle(events[i]);
        i := i + 1;
      }
    }
  }
}
