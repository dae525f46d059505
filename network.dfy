/** The decisions of `src/utils/network.rs` once the NetworkManager D-Bus
    proxies are replaced by the values they return: the Wi-Fi icons, the
    construction and ordering of the access-point list, the Wi-Fi details
    record and the airplane-mode flag. */
module Network {
  import opened Common

  // ---------------------------------------------------------------------
  // Icons
  // ---------------------------------------------------------------------

  const OfflineIcon := "network-wireless-offline-symbolic"
  const DisabledIcon := "network-wireless-disabled-symbolic"

  /** The signal icons, from no signal to an excellent one. */
  const SignalIcons: seq<string> := [
    "network-wireless-signal-none-symbolic",
    "network-wireless-signal-weak-symbolic",
    "network-wireless-signal-ok-symbolic",
    "network-wireless-signal-good-symbolic",
    "network-wireless-signal-excellent-symbolic"]

  /** `get_wifi_signal_icon_name` */
  function SignalIconName(strength: u8): (r: string)
    ensures r in SignalIcons
    ensures strength > 100 || strength < 20 ==> r == SignalIcons[0]
  {
    if 80 <= strength <= 100 then "network-wireless-signal-excellent-symbolic"
    else if 60 <= strength <= 79 then "network-wireless-signal-good-symbolic"
    else if 40 <= strength <= 59 then "network-wireless-signal-ok-symbolic"
    else if 20 <= strength <= 39 then "network-wireless-signal-weak-symbolic"
    else "network-wireless-signal-none-symbolic"
  }

  /** How many of the marks 20, 40, 60 and 80 a strength of at most 100
      reaches; a strength above 100 counts as no signal. */
  function SignalLevel(strength: u8): (n: nat)
    ensures n < |SignalIcons|
  {
    if strength > 100 then 0
    else
      (if strength >= 20 then 1 else 0) + (if strength >= 40 then 1 else 0)
      + (if strength >= 60 then 1 else 0) + (if strength >= 80 then 1 else 0)
  }

  /** The signal icon is the one of the marks reached. */
  lemma SignalIconOfLevel(strength: u8)
    ensures SignalIconName(strength) == SignalIcons[SignalLevel(strength)]
  {
  }

  /** Up to 100, a stronger signal never shows a weaker icon. */
  lemma SignalLevelMonotone(a: u8, b: u8)
    requires a <= b <= 100
    ensures SignalLevel(a) <= SignalLevel(b)
  {
  }

  /** `get_wifi_icon_name` */
  function WifiIconName(connected: bool, strength: Option<u8>): (r: string)
    ensures !connected ==> r == OfflineIcon
    ensures connected && strength.Some? ==> r == SignalIconName(strength.value)
    ensures connected && strength.None? ==> r == "network-wireless-signal-none-symbolic"
  {
    if !connected then OfflineIcon
    else match strength
      case Some(s) => SignalIconName(s)
      case None => "network-wireless-signal-none-symbolic"
  }

  /** The offline icon is shown exactly when there is no connection. */
  lemma OfflineIffDisconnected(connected: bool, strength: Option<u8>)
    ensures WifiIconName(connected, strength) == OfflineIcon <==> !connected
  {
    if connected {
      var r := WifiIconName(connected, strength);
      var level := if strength.Some? then SignalLevel(strength.value) else 0;
      if strength.Some? {
        SignalIconOfLevel(strength.value);
      }
      assert r == SignalIcons[level];
      assert r[17] == 's' && OfflineIcon[17] == 'o';
    }
  }

  // ---------------------------------------------------------------------
  // Access points
  // ---------------------------------------------------------------------

  /** `AccessPointInfo`; object paths are strings. */
  datatype AccessPointInfo = AccessPointInfo(
    path: string, ssid: Option<string>, strength: u8, iconName: string, isActive: bool)

  /** What the proxy of one access point reports: its strength and its SSID,
      `None` when the SSID bytes are not UTF-8. */
  datatype ScannedAp = ScannedAp(path: string, strength: u8, ssid: Option<string>)

  /** The record `get_access_points` builds for one access point: it is
      active exactly when its path is the device's active access point. */
  function InfoOf(ap: ScannedAp, activePath: Option<string>): (info: AccessPointInfo)
    ensures info.isActive <==> activePath == Some(ap.path)
    ensures info.path == ap.path && info.ssid == ap.ssid && info.strength == ap.strength
    ensures info.iconName == SignalIconName(ap.strength)
  {
    AccessPointInfo(ap.path, ap.ssid, ap.strength, SignalIconName(ap.strength), activePath == Some(ap.path))
  }

  datatype Ordering = Less | Equal | Greater {
    function Reverse(): Ordering {
      match this
      case Less => Greater
      case Equal => Equal
      case Greater => Less
    }

    /** `Ordering::then_with` */
    function ThenWith(next: Ordering): Ordering {
      if this == Equal then next else this
    }
  }

  /** `bool::cmp`: false before true. */
  function CmpBool(a: bool, b: bool): Ordering {
    if a == b then Equal else if !a then Less else Greater
  }

  function CmpInt(a: int, b: int): Ordering {
    if a < b then Less else if a == b then Equal else Greater
  }

  /** `str::cmp`: lexicographic by code point, which is the order of the
      UTF-8 bytes. */
  function CmpString(x: string, y: string): Ordering {
    if x == [] && y == [] then Equal
    else if x == [] then Less
    else if y == [] then Greater
    else if x[0] < y[0] then Less
    else if x[0] > y[0] then Greater
    else CmpString(x[1..], y[1..])
  }

  /** `Option<String>::cmp`: `None` before any `Some`. */
  function CmpSsid(a: Option<string>, b: Option<string>): Ordering {
    match (a, b)
    case (None, None) => Equal
    case (None, Some(_)) => Less
    case (Some(_), None) => Greater
    case (Some(x), Some(y)) => CmpString(x, y)
  }

  /** The comparator of `sort_unstable_by` in `get_access_points`: active
      first, then stronger first, then by SSID. */
  function CompareAps(a: AccessPointInfo, b: AccessPointInfo): (r: Ordering)
    ensures a.isActive != b.isActive ==> (r == Less <==> a.isActive) && r != Equal
    ensures a.isActive == b.isActive && a.strength != b.strength ==>
      (r == Less <==> a.strength > b.strength) && r != Equal
    ensures a.isActive == b.isActive && a.strength == b.strength ==> r == CmpSsid(a.ssid, b.ssid)
    ensures r == Equal <==> a.isActive == b.isActive && a.strength == b.strength && a.ssid == b.ssid
  {
    if a.ssid.Some? && b.ssid.Some? then
      CmpStringEqual(a.ssid.value, b.ssid.value);
      CompareKeys(a, b)
    else CompareKeys(a, b)
  }

  /** The comparison itself: activity, then strength, then SSID. */
  function CompareKeys(a: AccessPointInfo, b: AccessPointInfo): Ordering {
    CmpBool(b.isActive, a.isActive)
      .ThenWith(CmpInt(b.strength, a.strength))
      .ThenWith(CmpSsid(a.ssid, b.ssid))
  }

  /** `a` may come before `b` in the sorted list. */
  predicate Le(a: AccessPointInfo, b: AccessPointInfo) {
    CompareAps(a, b) != Greater
  }

  predicate SortedAps(s: seq<AccessPointInfo>) {
    forall i, j :: 0 <= i < j < |s| ==> Le(s[i], s[j])
  }

  /** What the order means: active access points first; among equally
      active ones the stronger first; among those the SSIDs ascending, with
      a missing SSID first. */
  lemma LeMeans(a: AccessPointInfo, b: AccessPointInfo)
    requires Le(a, b)
    ensures b.isActive ==> a.isActive
    ensures a.isActive == b.isActive ==> a.strength >= b.strength
    ensures a.isActive == b.isActive && a.strength == b.strength ==>
      CmpSsid(a.ssid, b.ssid) != Greater && (a.ssid.Some? ==> b.ssid.Some?)
  {
  }

  /** Two strings compare equal exactly when they are the same. */
  lemma {:induction false} CmpStringEqual(x: string, y: string)
    ensures CmpString(x, y) == Equal <==> x == y
    decreases |x|
  {
    if x != [] && y != [] && x[0] == y[0] {
      CmpStringEqual(x[1..], y[1..]);
      assert x == [x[0]] + x[1..] && y == [y[0]] + y[1..];
    }
  }

  lemma {:induction false} CmpStringReverse(x: string, y: string)
    ensures CmpString(y, x) == CmpString(x, y).Reverse()
    decreases |x|
  {
    if x != [] && y != [] && x[0] == y[0] {
      CmpStringReverse(x[1..], y[1..]);
    }
  }

  lemma {:induction false} CmpStringTransitive(x: string, y: string, z: string)
    requires CmpString(x, y) != Greater && CmpString(y, z) != Greater
    ensures CmpString(x, z) != Greater
    decreases |x|
  {
    if x != [] && y != [] && z != [] && x[0] == y[0] == z[0] {
      CmpStringTransitive(x[1..], y[1..], z[1..]);
    }
  }

  /** Any two access points are ordered one way or the other. */
  lemma LeTotal(a: AccessPointInfo, b: AccessPointInfo)
    ensures Le(a, b) || Le(b, a)
  {
    if a.ssid.Some? && b.ssid.Some? {
      CmpStringReverse(a.ssid.value, b.ssid.value);
    }
  }

  lemma LeTransitive(a: AccessPointInfo, b: AccessPointInfo, c: AccessPointInfo)
    requires Le(a, b) && Le(b, c)
    ensures Le(a, c)
  {
    if a.isActive == b.isActive == c.isActive && a.strength == b.strength == c.strength
       && a.ssid.Some? && b.ssid.Some? && c.ssid.Some? {
      CmpStringTransitive(a.ssid.value, b.ssid.value, c.ssid.value);
    }
  }

  /** `sort_unstable_by` with the comparator above, by insertion: the array
      ends sorted and holds the same access points. */
  method SortAccessPoints(a: array<AccessPointInfo>)
    modifies a
    ensures SortedAps(a[..])
    ensures multiset(a[..]) == old(multiset(a[..]))
  {
    var i := 0;
    while i < a.Length
      invariant 0 <= i <= a.Length
      invariant SortedAps(a[..i])
      invariant multiset(a[..]) == old(multiset(a[..]))
    {
      Insert(a, i);
      i := i + 1;
    }
  }

  /** Moves `a[i]` left into the sorted prefix `a[..i]`. */
  method Insert(a: array<AccessPointInfo>, i: nat)
    requires i < a.Length && SortedAps(a[..i])
    modifies a
    ensures SortedAps(a[..i + 1])
    ensures a[i + 1..] == old(a[i + 1..])
    ensures multiset(a[..]) == old(multiset(a[..]))
  {
    var j := i;
    InsertingStart(a[..], i);
    while j > 0 && CompareAps(a[j - 1], a[j]) == Greater
      invariant 0 <= j <= i
      invariant Inserting(a[..], i, j)
      invariant a[i + 1..] == old(a[i + 1..])
      invariant multiset(a[..]) == old(multiset(a[..]))
    {
      ghost var s := a[..];
      InsertingStep(s, i, j);
      a[j - 1], a[j] := a[j], a[j - 1];
      assert a[..] == s[j - 1 := s[j]][j := s[j - 1]];
      j := j - 1;
    }
    InsertingDone(a[..], i, j);
  }

  /** While `a[i]` moves left to position `j`: everything but position `j`
      in `a[..i + 1]` is sorted, and the moving element is below everything
      to its right. */
  predicate Inserting(s: seq<AccessPointInfo>, i: nat, j: nat)
    requires j <= i < |s|
  {
    && (forall k, l :: 0 <= k < l <= i && k != j && l != j ==> Le(s[k], s[l]))
    && (forall l :: j < l <= i ==> Le(s[j], s[l]))
  }

  lemma InsertingStart(s: seq<AccessPointInfo>, i: nat)
    requires i < |s| && SortedAps(s[..i])
    ensures Inserting(s, i, i)
  {
    assert forall k :: 0 <= k < i ==> s[..i][k] == s[k];
  }

  lemma InsertingStep(s: seq<AccessPointInfo>, i: nat, j: nat)
    requires 0 < j <= i < |s| && Inserting(s, i, j) && CompareAps(s[j - 1], s[j]) == Greater
    ensures Inserting(s[j - 1 := s[j]][j := s[j - 1]], i, j - 1)
  {
    LeTotal(s[j - 1], s[j]);
  }

  lemma InsertingDone(s: seq<AccessPointInfo>, i: nat, j: nat)
    requires j <= i < |s| && Inserting(s, i, j)
    requires j > 0 ==> CompareAps(s[j - 1], s[j]) != Greater
    ensures SortedAps(s[..i + 1])
  {
    forall k | 0 <= k < j - 1
      ensures Le(s[k], s[j])
    {
      LeTransitive(s[k], s[j - 1], s[j]);
    }
  }

  /** `get_access_points` once the device has listed `scanned` and reported
      `activePath`: one record per access point, sorted. */
  method GetAccessPoints(scanned: seq<ScannedAp>, activePath: Option<string>)
    returns (aps: seq<AccessPointInfo>)
    ensures multiset(aps) == multiset(InfosOf(scanned, activePath))
    ensures SortedAps(aps)
    ensures forall x :: x in aps ==> (x.isActive <==> activePath == Some(x.path))
  {
    var infos := BuildInfos(scanned, activePath);
    var a := new AccessPointInfo[|infos|](n requires 0 <= n < |infos| => infos[n]);
    assert a[..] == infos;
    SortAccessPoints(a);
    aps := a[..];
    assert forall x :: x in aps ==> x in multiset(infos);
  }

  /** The loop of `get_access_points` that pushes one record per scanned
      access point. */
  method BuildInfos(scanned: seq<ScannedAp>, activePath: Option<string>)
    returns (infos: seq<AccessPointInfo>)
    ensures infos == InfosOf(scanned, activePath)
  {
    infos := [];
    var k := 0;
    while k < |scanned|
      invariant 0 <= k <= |scanned| && |infos| == k
      invariant forall n :: 0 <= n < k ==> infos[n] == InfoOf(scanned[n], activePath)
    {
      infos := infos + [InfoOf(scanned[k], activePath)];
      k := k + 1;
    }
  }

  /** The records of the scanned access points, in scan order. */
  function InfosOf(scanned: seq<ScannedAp>, activePath: Option<string>): (r: seq<AccessPointInfo>)
    ensures |r| == |scanned|
    ensures forall x :: x in r ==> (x.isActive <==> activePath == Some(x.path))
  {
    seq(|scanned|, n requires 0 <= n < |scanned| => InfoOf(scanned[n], activePath))
  }

  // ---------------------------------------------------------------------
  // Wi-Fi details and airplane mode
  // ---------------------------------------------------------------------

  /** `NM_STATE_CONNECTED_GLOBAL` */
  const ConnectedGlobal := 70

  /** The values of NetworkManager's `NMState`. */
  predicate IsNmState(state: nat) {
    state in {0, 10, 20, 30, 40, 50, 60, 70}
  }

  datatype NetworkError = InvalidEnumValue(state: nat) | Utf8

  /** `WifiDetails`; `Default` gives the record `NoDetails`. */
  datatype WifiDetails = WifiDetails(
    enabled: bool,
    isConnected: bool,
    ssid: Option<string>,
    strength: Option<u8>,
    frequency: Option<nat>,
    bitrate: Option<nat>,
    iconName: string,
    devicePath: Option<string>)

  const NoDetails := WifiDetails(false, false, None, None, None, None, "", None)

  /** What the active access point's proxy reports; `ssid` is `None` when
      its bytes are not UTF-8. */
  datatype ApProperties = ApProperties(ssid: Option<string>, strength: u8, frequency: nat, bitrate: nat)

  /** `get_wifi_details` once NetworkManager has reported its state, the
      hardware and software switches, the Wi-Fi device (if one was found),
      the device's active access point (`None` when the property could not
      be read) and that access point's properties. */
  method GetWifiDetails(nmState: nat, hardwareEnabled: bool, wirelessEnabled: bool,
                        device: Option<string>, activeAp: Option<string>, ap: ApProperties)
    returns (r: Result<WifiDetails, NetworkError>)
    ensures !IsNmState(nmState) <==> r == Err(InvalidEnumValue(nmState))
    ensures r.Ok? && !r.value.enabled <==> IsNmState(nmState) && !(hardwareEnabled && wirelessEnabled)
    ensures r.Ok? && !r.value.enabled ==> r.value == NoDetails.(iconName := DisabledIcon)
    ensures r.Ok? && r.value.enabled ==> r.value.iconName == WifiIconName(r.value.isConnected, r.value.strength)
    ensures r.Ok? && r.value.isConnected <==>
      IsNmState(nmState) && hardwareEnabled && wirelessEnabled && device.Some?
      && nmState >= ConnectedGlobal && activeAp.Some? && activeAp.value != "/" && ap.ssid.Some?
    ensures r.Ok? && r.value.ssid.Some? ==> r.value.ssid == ap.ssid && r.value.strength == Some(ap.strength)
    ensures r == Err(Utf8) <==>
      IsNmState(nmState) && hardwareEnabled && wirelessEnabled && device.Some?
      && activeAp.Some? && activeAp.value != "/" && ap.ssid.None?
  {
    if !IsNmState(nmState) {
      return Err(InvalidEnumValue(nmState));
    }
    if !hardwareEnabled || !wirelessEnabled {
      return Ok(NoDetails.(iconName := DisabledIcon));
    }
    if device.None? {
      return Ok(NoDetails.(enabled := true, iconName := OfflineIcon));
    }
    var isConnected := nmState >= ConnectedGlobal;
    var details := NoDetails.(enabled := true, isConnected := isConnected, devicePath := device);
    if activeAp.Some? {
      if activeAp.value != "/" {
        if ap.ssid.None? {
          return Err(Utf8);
        }
        details := details.(ssid := ap.ssid, strength := Some(ap.strength),
                            frequency := Some(ap.frequency), bitrate := Some(ap.bitrate));
      } else {
        details := details.(isConnected := false);
      }
    } else {
      details := details.(isConnected := false);
    }
    details := details.(iconName := WifiIconName(details.isConnected, details.strength));
    return Ok(details);
  }

  /** `get_airplane_mode_state`: on exactly when both radios are off. */
  function AirplaneMode(wirelessEnabled: bool, wwanEnabled: bool): (r: bool)
    ensures r ==> !wirelessEnabled && !wwanEnabled
    ensures wirelessEnabled || wwanEnabled || r
  {
    !wirelessEnabled && !wwanEnabled
  }

  /** The values `set_airplane_mode` writes to `WirelessEnabled` and
      `WwanEnabled`. */
  function AirplaneWrites(enabled: bool): (r: (bool, bool))
    ensures AirplaneMode(r.0, r.1) == enabled
  {
    (!enabled, !enabled)
  }
}
