/** The server side of the org.freedesktop.Notifications interface
    (Desktop Notifications Specification 1.2, "D-Bus Protocol"): id
    allocation, hint defaults, the set of active notifications and the two
    signals. The bus connection is a flag, signals go to an outbox and the
    channel to the popup manager is a queue. */
module NotificationServer {
  import opened Common
  import opened Notifications

  /** A signal on the bus: `NotificationClosed(id, reason)` or
      `ActionInvoked(id, action_key)`. */
  datatype Signal = NotificationClosed(id: nat, reason: nat) | ActionInvoked(id: nat, key: string)

  /** The reason codes of `NotificationClosed` used by this server. */
  const ReasonDismissed: nat := 1
  const ReasonActionInvoked: nat := 2
  const ReasonClosedByCall: nat := 3

  const NoConnection: string := "No D-Bus connection"

  // ---------------------------------------------------------------------
  // Hints
  // ---------------------------------------------------------------------

  /** The hints that survive `try_to_owned`, under the same keys. */
  function OwnedHints(hints: map<string, Value>): (owned: map<string, OwnedValue>)
    ensures forall k :: k in owned <==> k in hints && TryToOwned(hints[k]).Some?
    ensures forall k :: k in owned ==> owned[k].inner == hints[k]
  {
    map k | k in hints && TryToOwned(hints[k]).Some? :: TryToOwned(hints[k]).value
  }

  /** The `urgency` hint, `Normal` when missing or not a valid byte. */
  function UrgencyHint(owned: map<string, OwnedValue>): (u: Urgency)
    ensures "urgency" in owned && UrgencyFromOwned(owned["urgency"]).Ok? ==>
      u == UrgencyFromOwned(owned["urgency"]).value
    ensures !("urgency" in owned && UrgencyFromOwned(owned["urgency"]).Ok?) ==> u == Normal
  {
    if "urgency" in owned then
      match UrgencyFromOwned(owned["urgency"])
      case Ok(u) => u
      case Err(_) => Normal
    else Normal
  }

  /** The `image-path` hint, kept only when it is a string. */
  function ImagePathHint(owned: map<string, OwnedValue>): (p: Option<string>)
    ensures p.Some? <==> "image-path" in owned && owned["image-path"].inner.Str?
    ensures p.Some? ==> p.value == owned["image-path"].inner.text
  {
    if "image-path" in owned && owned["image-path"].inner.Str? then Some(owned["image-path"].inner.text)
    else None
  }

  /** The `resident` hint, `false` when missing or not a boolean. */
  function ResidentHint(owned: map<string, OwnedValue>): (b: bool)
    ensures b <==> "resident" in owned && owned["resident"].inner == Boolean(true)
  {
    if "resident" in owned && owned["resident"].inner.Boolean? then owned["resident"].inner.flag
    else false
  }

  /** A missing or undecodable hint falls back to urgency Normal, no image
      path and not resident. */
  lemma {:induction false} HintDefaults(hints: map<string, Value>)
    ensures "urgency" !in hints || !hints["urgency"].Byte? || hints["urgency"].byte > 2 ==>
      UrgencyHint(OwnedHints(hints)) == Normal
    ensures "image-path" !in hints || !hints["image-path"].Str? ==> ImagePathHint(OwnedHints(hints)) == None
    ensures "resident" !in hints || !hints["resident"].Boolean? ==> !ResidentHint(OwnedHints(hints))
  {
    var owned := OwnedHints(hints);
    if "urgency" in owned {
      assert owned["urgency"].inner == hints["urgency"];
    }
  }

  /** A hint of the right type is taken as given. */
  lemma {:induction false} HintsTaken(hints: map<string, Value>)
    ensures "urgency" in hints && hints["urgency"].Byte? && hints["urgency"].byte <= 2 ==>
      Discriminant(UrgencyHint(OwnedHints(hints))) == hints["urgency"].byte
    ensures "image-path" in hints && hints["image-path"].Str? ==>
      ImagePathHint(OwnedHints(hints)) == Some(hints["image-path"].text)
    ensures "resident" in hints && hints["resident"].Boolean? ==>
      ResidentHint(OwnedHints(hints)) == hints["resident"].flag
  {
    var owned := OwnedHints(hints);
    if "urgency" in hints && hints["urgency"].Byte? {
      assert TryToOwned(hints["urgency"]).Some?;
      assert owned["urgency"].inner == hints["urgency"];
    }
    if "image-path" in hints && hints["image-path"].Str? {
      assert TryToOwned(hints["image-path"]).Some?;
    }
    if "resident" in hints && hints["resident"].Boolean? {
      assert TryToOwned(hints["resident"]).Some?;
    }
  }

  // ---------------------------------------------------------------------
  // Fixed answers
  // ---------------------------------------------------------------------

  /** The capability names the Desktop Notifications Specification defines. */
  predicate StandardCapability(c: string) {
    c in {"action-icons", "actions", "body", "body-hyperlinks", "body-images",
          "body-markup", "icon-multi", "icon-static", "persistence", "sound"}
  }

  /** `GetCapabilities`: five standard capabilities, each once, and not both
      of the mutually exclusive icon capabilities. */
  function Capabilities(): (caps: seq<string>)
    ensures |caps| == 5
    ensures forall i :: 0 <= i < |caps| ==> StandardCapability(caps[i])
    ensures forall i, j :: 0 <= i < j < |caps| ==> caps[i] != caps[j]
    ensures !("icon-static" in caps && "icon-multi" in caps)
    ensures "body" in caps && "actions" in caps && "persistence" in caps && "body-markup" in caps
    ensures "icon-static" in caps
  {
    ["body", "actions", "persistence", "icon-static", "body-markup"]
  }

  /** `GetServerInformation`: name and version come from the package
      metadata; the vendor and the specification version are fixed. */
  function ServerInformation(packageName: string, packageVersion: string): (info: (string, string, string, string))
    ensures info.0 == packageName && info.2 == packageVersion
    ensures info.1 == "Kaneru Project" && info.3 == "1.2"
  {
    (packageName, "Kaneru Project", packageVersion, "1.2")
  }

  // ---------------------------------------------------------------------
  // The server object
  // ---------------------------------------------------------------------

  class Server {
    /** The process-wide id counter (an `AtomicU32` starting at 1). */
    var nextId: nat
    /** The notifications announced and not yet closed by a call. */
    var active: map<nat, Notification>
    /** Whether the bus connection has been set. */
    var connected: bool
    /** The signals emitted on the bus, oldest first. */
    var emitted: seq<Signal>
    /** Whether the manager still holds the receiving end of the channel. */
    var receiverAlive: bool
    /** The notifications handed to the manager, oldest first. */
    var forwarded: seq<Notification>

    ghost predicate Valid()
      reads this
    {
      nextId >= 1 && (forall id :: id in active ==> active[id].id == id)
    }

    constructor()
      ensures Valid()
      ensures nextId == 1 && active == map[] && !connected && emitted == []
      ensures receiverAlive && forwarded == []
    {
      nextId := 1;
      active := map[];
      connected := false;
      emitted := [];
      receiverAlive := true;
      forwarded := [];
    }

    /** `set_connection` */
    method SetConnection()
      modifies this
      ensures connected
      ensures nextId == old(nextId) && active == old(active) && emitted == old(emitted)
      ensures receiverAlive == old(receiverAlive) && forwarded == old(forwarded)
    {
      connected := true;
    }

    /** The manager dropped its receiver. */
    method CloseReceiver()
      modifies this
      ensures !receiverAlive
      ensures nextId == old(nextId) && active == old(active) && emitted == old(emitted)
      ensures connected == old(connected) && forwarded == old(forwarded)
    {
      receiverAlive := false;
    }

    /** `emit_notification_closed`: fails without a connection and then
        emits nothing. */
    method EmitNotificationClosed(id: nat, reason: nat) returns (r: Result<(), string>)
      modifies this
      ensures old(connected) ==> r.Ok? && emitted == old(emitted) + [NotificationClosed(id, reason)]
      ensures !old(connected) ==> r == Err(NoConnection) && emitted == old(emitted)
      ensures nextId == old(nextId) && active == old(active) && connected == old(connected)
      ensures receiverAlive == old(receiverAlive) && forwarded == old(forwarded)
    {
      if connected {
        emitted := emitted + [NotificationClosed(id, reason)];
        r := Ok(());
      } else {
        r := Err(NoConnection);
      }
    }

    /** `emit_action_invoked`: fails without a connection and then emits
        nothing. */
    method EmitActionInvoked(id: nat, key: string) returns (r: Result<(), string>)
      modifies this
      ensures old(connected) ==> r.Ok? && emitted == old(emitted) + [ActionInvoked(id, key)]
      ensures !old(connected) ==> r == Err(NoConnection) && emitted == old(emitted)
      ensures nextId == old(nextId) && active == old(active) && connected == old(connected)
      ensures receiverAlive == old(receiverAlive) && forwarded == old(forwarded)
    {
      if connected {
        emitted := emitted + [ActionInvoked(id, key)];
        r := Ok(());
      } else {
        r := Err(NoConnection);
      }
    }

    /** `Notify`: a fresh id when `replacesId` is 0, otherwise the replaced
        id; the record is built with the hint defaults, stored as active
        under its id and queued once for display. The call never fails. */
    method Notify(
      appName: string, replacesId: nat, appIcon: string, summary: string, body: string,
      actions: seq<string>, hints: map<string, Value>, expireTimeout: int)
      returns (r: Result<nat, string>)
      requires Valid()
      modifies this
      ensures Valid()
      ensures r.Ok?
      ensures replacesId == 0 ==> r.value == old(nextId) && nextId == old(nextId) + 1
      ensures replacesId != 0 ==> r.value == replacesId && nextId == old(nextId)
      ensures var owned := OwnedHints(hints);
        var n := NewNotification(r.value, appName, replacesId, appIcon, summary, body, actions,
                                 expireTimeout, UrgencyHint(owned), ImagePathHint(owned), ResidentHint(owned));
        active == old(active)[r.value := n] &&
        forwarded == old(forwarded) + (if old(receiverAlive) then [n] else [])
      ensures connected == old(connected) && emitted == old(emitted) && receiverAlive == old(receiverAlive)
    {
      var id: nat;
      if replacesId == 0 {
        id := nextId;
        nextId := nextId + 1;
      } else {
        id := replacesId;
      }
      var owned := OwnedHints(hints);
      var n := NewNotification(id, appName, replacesId, appIcon, summary, body, actions,
                               expireTimeout, UrgencyHint(owned), ImagePathHint(owned), ResidentHint(owned));
      active := active[id := n];
      if receiverAlive {
        forwarded := forwarded + [n];
      }
      r := Ok(id);
    }

    /** `CloseNotification`: an active id is removed and announced closed
        with reason 3 (when a connection exists); an unknown id changes
        nothing. The call always succeeds. */
    method CloseNotification(id: nat) returns (r: Result<(), string>)
      requires Valid()
      modifies this
      ensures Valid()
      ensures r.Ok?
      ensures active == old(active) - {id}
      ensures id in old(active) && old(connected) ==>
        emitted == old(emitted) + [NotificationClosed(id, ReasonClosedByCall)]
      ensures id !in old(active) || !old(connected) ==> emitted == old(emitted)
      ensures nextId == old(nextId) && connected == old(connected)
      ensures receiverAlive == old(receiverAlive) && forwarded == old(forwarded)
    {
      var removed := id in active;
      active := active - {id};
      if removed {
        var _ := EmitNotificationClosed(id, ReasonClosedByCall);
      }
      r := Ok(());
    }
  }

  /** Successive fresh ids are consecutive: two calls with `replacesId` 0
      return the counter and the next number, and closing in between does
      not reset the counter. */
  method FreshIdsIncrease(s: Server, hints: map<string, Value>) returns (first: nat, second: nat)
    requires s.Valid()
    modifies s
    ensures second == first + 1
    ensures first == old(s.nextId) && s.nextId == second + 1
  {
    var r1 := s.Notify("a", 0, "", "one", "", [], hints, -1);
    var _ := s.CloseNotification(r1.value);
    var r2 := s.Notify("a", 0, "", "two", "", [], hints, -1);
    first, second := r1.value, r2.value;
  }

  /** `CloseNotification` is idempotent: the second call on the same id
      emits nothing and leaves the active set as the first left it. */
  method CloseTwice(s: Server, id: nat)
    requires s.Valid()
    modifies s
    ensures s.active == old(s.active) - {id}
    ensures s.emitted == old(s.emitted) +
      (if id in old(s.active) && old(s.connected) then [NotificationClosed(id, ReasonClosedByCall)] else [])
  {
    var _ := s.CloseNotification(id);
    ghost var between := s.emitted;
    var _ := s.CloseNotification(id);
    assert s.emitted == between;
  }
}
