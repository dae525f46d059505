/** The pure logic of `src/utils/battery.rs`: power-profile names, the list
    of available profiles, the battery icon and status texts, and the
    conservation-mode file format. The `powerprofilesctl` and `sudo`
    processes, the battery crate and the sysfs reads are replaced by their
    outputs, passed in as values. */
module Battery {
  import opened Common
  import opened Text

  // ---------------------------------------------------------------------
  // Errors
  // ---------------------------------------------------------------------

  /** The variants of `BatteryUtilError` that the modelled functions
      produce. */
  datatype BatteryError =
    | Io
    | ParseError(message: string)
    | SysfsNotFound(path: string)
    | PermissionDenied(path: string)

  // ---------------------------------------------------------------------
  // Power profiles
  // ---------------------------------------------------------------------

  datatype PowerProfile = PowerSaver | Balanced | Performance | Unknown(name: string)

  predicate IsKnown(p: PowerProfile) { !p.Unknown? }

  const KnownNames: set<string> := {"power-saver", "balanced", "performance"}

  /** `impl Display for PowerProfile` */
  function Display(p: PowerProfile): (r: string)
    ensures IsKnown(p) ==> r in KnownNames
  {
    match p
    case PowerSaver => "power-saver"
    case Balanced => "balanced"
    case Performance => "performance"
    case Unknown(s) => s
  }

  /** `impl FromStr for PowerProfile`: it never fails, and printing what it
      parsed gives back the trimmed input. */
  function FromStr(s: string): (r: Result<PowerProfile, BatteryError>)
    ensures r.Ok?
    ensures Display(r.value) == Trim(s)
    ensures IsKnown(r.value) <==> Trim(s) in KnownNames
  {
    Ok(ProfileNamed(Trim(s)))
  }

  /** The `match` of `from_str` on the trimmed text. */
  function ProfileNamed(t: string): (p: PowerProfile)
    ensures Display(p) == t
    ensures IsKnown(p) <==> t in KnownNames
  {
    if t == "power-saver" then PowerSaver
    else if t == "balanced" then Balanced
    else if t == "performance" then Performance
    else PowerProfile.Unknown(t)
  }

  /** Printing then parsing gives the profile back exactly for the three
      known profiles and for unknown names that are already trimmed and
      are not one of the known names. */
  lemma ParseDisplay(p: PowerProfile)
    ensures FromStr(Display(p)) == Ok(p)
      <==> (p.Unknown? ==> Trim(p.name) == p.name && p.name !in KnownNames)
  {
    if IsKnown(p) {
      ParseDisplayKnown(p);
    } else {
      ParseUnknown(p.name);
    }
  }

  lemma ParseDisplayKnown(p: PowerProfile)
    requires IsKnown(p)
    ensures FromStr(Display(p)) == Ok(p)
  {
    var s := Display(p);
    assert !IsWhitespace(s[0]) && !IsWhitespace(s[|s| - 1]);
    TrimOfTrimmed(s);
    KnownNamesDiffer(p);
  }

  /** Each known name picks its own profile. */
  lemma KnownNamesDiffer(p: PowerProfile)
    requires IsKnown(p)
    ensures ProfileNamed(Display(p)) == p
  {
    assert |"balanced"| != |"power-saver"| && |"performance"| != |"balanced"|;
    assert "performance"[2] != "power-saver"[2];
  }

  lemma ParseUnknown(t: string)
    ensures FromStr(t) == Ok(PowerProfile.Unknown(t)) <==> Trim(t) == t && t !in KnownNames
  {
    var r := FromStr(t).value;
    if r == PowerProfile.Unknown(t) {
      assert Display(r) == t;
    }
  }

  /** The key of the `sort_by_key` that orders the available profiles. */
  function Rank(p: PowerProfile): (k: nat)
    ensures k <= 3
    ensures IsKnown(p) <==> k < 3
  {
    match p
    case PowerSaver => 0
    case Balanced => 1
    case Performance => 2
    case Unknown(_) => 3
  }

  /** Two known profiles of the same rank are the same profile. */
  lemma RankIdentifiesKnown(p: PowerProfile, q: PowerProfile)
    requires IsKnown(p) && IsKnown(q) && Rank(p) == Rank(q)
    ensures p == q
  {
  }

  predicate RankSorted(s: seq<PowerProfile>) {
    forall i, j :: 0 <= i < j < |s| ==> Rank(s[i]) <= Rank(s[j])
  }

  /** The profiles of `ps` whose key is `k`, in their order in `ps`. */
  function WithRank(ps: seq<PowerProfile>, k: nat): (r: seq<PowerProfile>)
    ensures forall i :: 0 <= i < |r| ==> Rank(r[i]) == k
  {
    if ps == [] then []
    else (if Rank(ps[0]) == k then [ps[0]] else []) + WithRank(ps[1..], k)
  }

  /** The stable sort by `Rank` of `sort_by_key`: since the key has four
      values, sorting stably is taking the elements of each key in turn. */
  function SortByRank(ps: seq<PowerProfile>): (r: seq<PowerProfile>)
    ensures multiset(r) == multiset(ps)
    ensures RankSorted(r)
  {
    var a, b, c, d := WithRank(ps, 0), WithRank(ps, 1), WithRank(ps, 2), WithRank(ps, 3);
    RankPartition(ps);
    ConcatSorted(a, b, 0);
    ConcatSorted(a + b, c, 1);
    ConcatSorted(a + b + c, d, 2);
    a + b + c + d
  }

  /** Every element lands in the part of its key. */
  lemma RankPartition(ps: seq<PowerProfile>)
    ensures multiset(ps) == multiset(WithRank(ps, 0)) + multiset(WithRank(ps, 1))
      + multiset(WithRank(ps, 2)) + multiset(WithRank(ps, 3))
  {
    WithRankCounts(ps, 0);
    WithRankCounts(ps, 1);
    WithRankCounts(ps, 2);
    WithRankCounts(ps, 3);
  }

  /** The part of key `k` holds each profile of that key as often as `ps`
      does, and nothing else. */
  lemma {:induction false} WithRankCounts(ps: seq<PowerProfile>, k: nat)
    ensures forall x :: multiset(WithRank(ps, k))[x] == if Rank(x) == k then multiset(ps)[x] else 0
  {
    if ps != [] {
      WithRankCounts(ps[1..], k);
      assert ps == [ps[0]] + ps[1..];
    }
  }

  /** A sorted part whose keys are at most `k` followed by a part whose keys
      are all `k + 1` is sorted. */
  lemma ConcatSorted(a: seq<PowerProfile>, b: seq<PowerProfile>, k: nat)
    requires RankSorted(a) && forall i :: 0 <= i < |a| ==> Rank(a[i]) <= k
    requires forall i :: 0 <= i < |b| ==> Rank(b[i]) == k + 1
    ensures RankSorted(a + b)
    ensures forall i :: 0 <= i < |a + b| ==> Rank((a + b)[i]) <= k + 1
  {
  }

  /** Two positions holding the same profile make it occur twice. */
  lemma RepeatedTwice(s: seq<PowerProfile>, i: nat, j: nat)
    requires i < j < |s| && s[i] == s[j]
    ensures multiset(s)[s[i]] >= 2
  {
    assert s == s[..j] + [s[j]] + s[j + 1..];
    assert s[i] in multiset(s[..j]);
  }

  /** `get_available_power_profiles` once `powerprofilesctl list` has printed
      `listing`: each known profile whose name occurs in the listing, once,
      in the order power-saver, balanced, performance. */
  method AvailableProfiles(listing: string) returns (profiles: seq<PowerProfile>)
    ensures forall p :: IsKnown(p) ==> (p in profiles <==> Contains(listing, Display(p)))
    ensures forall p :: p in profiles ==> IsKnown(p)
    ensures forall i, j :: 0 <= i < j < |profiles| ==> Rank(profiles[i]) < Rank(profiles[j])
  {
    profiles := CollectProfiles(listing);
    SortKeepsDistinctKnown(profiles);
    profiles := SortByRank(profiles);
  }

  /** The pushes of `get_available_power_profiles`, each guarded by the
      `seen` set: the known profiles named in the listing, each once. */
  method CollectProfiles(listing: string) returns (profiles: seq<PowerProfile>)
    ensures forall p :: IsKnown(p) ==> (p in profiles <==> Contains(listing, Display(p)))
    ensures forall p :: p in profiles ==> IsKnown(p)
    ensures forall x :: multiset(profiles)[x] <= 1
  {
    profiles := [];
    var seen: set<PowerProfile> := {};
    if Contains(listing, "power-saver") {
      var inserted := PowerSaver !in seen;
      seen := seen + {PowerSaver};
      if inserted {
        profiles := profiles + [PowerSaver];
      }
    }
    if Contains(listing, "balanced") {
      var inserted := Balanced !in seen;
      seen := seen + {Balanced};
      if inserted {
        profiles := profiles + [Balanced];
      }
    }
    if Contains(listing, "performance") {
      var inserted := Performance !in seen;
      seen := seen + {Performance};
      if inserted {
        profiles := profiles + [Performance];
      }
    }
    assert profiles == Named(listing, PowerSaver) + Named(listing, Balanced) + Named(listing, Performance);
    NamedOnce(listing);
  }

  /** The profile alone when the listing names it, else nothing. */
  function Named(listing: string, p: PowerProfile): (r: seq<PowerProfile>)
    ensures p in r <==> Contains(listing, Display(p))
    ensures |r| <= 1 && forall q :: q in r ==> q == p
  {
    if Contains(listing, Display(p)) then [p] else []
  }

  lemma NamedOnce(listing: string)
    ensures var ps := Named(listing, PowerSaver) + Named(listing, Balanced) + Named(listing, Performance);
      && (forall p :: IsKnown(p) ==> (p in ps <==> Contains(listing, Display(p))))
      && (forall p :: p in ps ==> IsKnown(p))
      && forall x :: multiset(ps)[x] <= 1
  {
    assert forall p :: IsKnown(p) ==> p == PowerSaver || p == Balanced || p == Performance;
  }

  /** Sorting distinct known profiles keeps them, once each, with strictly
      increasing keys. */
  lemma SortKeepsDistinctKnown(ps: seq<PowerProfile>)
    requires forall x :: multiset(ps)[x] <= 1
    requires forall x :: x in ps ==> IsKnown(x)
    ensures var r := SortByRank(ps);
      && (forall x :: x in r <==> x in ps)
      && forall i, j :: 0 <= i < j < |r| ==> Rank(r[i]) < Rank(r[j])
  {
    var r := SortByRank(ps);
    assert forall x :: x in r <==> x in multiset(ps);
    forall i, j | 0 <= i < j < |r|
      ensures Rank(r[i]) < Rank(r[j])
    {
      if Rank(r[i]) == Rank(r[j]) {
        assert r[i] in multiset(ps) && r[j] in multiset(ps);
        RankIdentifiesKnown(r[i], r[j]);
        RepeatedTwice(r, i, j);
      }
    }
  }

  // ---------------------------------------------------------------------
  // Battery icon
  // ---------------------------------------------------------------------

  /** `battery::State`. */
  datatype BatteryState = Unknown | Charging | Discharging | Empty | Full

  const MissingIcon := "battery-missing-symbolic"

  /** `p.round() as u8`, from the rounded percentage: Rust's float-to-integer
      cast saturates at both ends. */
  function AsU8(rounded: int): (r: u8)
    ensures 0 <= rounded < 0x100 ==> r == rounded
  {
    if rounded < 0 then 0 else if rounded > 255 then 255 else rounded
  }

  /** `get_icon_name`, fed the rounded percentage. */
  function IconName(percentage: Option<int>, state: Option<BatteryState>): (r: Option<string>)
    ensures r.Some?
    ensures percentage.None? || state.None? ==> r == Some(MissingIcon)
  {
    match (state, percentage)
    case (Some(s), Some(p)) =>
      var pct := AsU8(p);
      var icon := match s
        case Charging =>
          if pct <= 10 then "battery-caution-charging-symbolic"
          else if pct <= 30 then "battery-low-charging-symbolic"
          else if pct <= 95 then "battery-good-charging-symbolic"
          else "battery-full-charging-symbolic"
        case Discharging =>
          if pct <= 10 then "battery-caution-symbolic"
          else if pct <= 30 then "battery-low-symbolic"
          else if pct <= 95 then "battery-good-symbolic"
          else "battery-full-symbolic"
        case Full => "battery-full-charged-symbolic"
        case Empty => "battery-empty-symbolic"
        case Unknown =>
          if pct <= 10 then "battery-caution-symbolic"
          else if pct <= 30 then "battery-low-symbolic"
          else if pct <= 95 then "battery-good-symbolic"
          else "battery-full-symbolic";
      Some(icon)
    case _ => Some(MissingIcon)
  }

  /** The icons of the four charge levels, from the lowest, when not
      charging and when charging. */
  const LevelIcons: seq<string> :=
    ["battery-caution-symbolic", "battery-low-symbolic", "battery-good-symbolic", "battery-full-symbolic"]
  const ChargingLevelIcons: seq<string> :=
    ["battery-caution-charging-symbolic", "battery-low-charging-symbolic",
     "battery-good-charging-symbolic", "battery-full-charging-symbolic"]

  /** How many of the thresholds 10 %, 30 % and 95 % the charge exceeds. */
  function ThresholdsPassed(pct: int): (n: nat)
    ensures n < 4
  {
    (if pct > 10 then 1 else 0) + (if pct > 30 then 1 else 0) + (if pct > 95 then 1 else 0)
  }

  /** While charging, discharging or in an unknown state, the icon is the
      level icon of the number of thresholds passed, the charging one while
      charging; the unknown state looks like discharging. */
  lemma IconOfLevel(p: int, s: BatteryState)
    requires s == Charging || s == Discharging || s == BatteryState.Unknown
    ensures IconName(Some(p), Some(s))
      == Some((if s == Charging then ChargingLevelIcons else LevelIcons)[ThresholdsPassed(AsU8(p))])
  {
  }

  /** More charge never shows a lower level. */
  lemma LevelMonotone(p: int, q: int)
    requires p <= q
    ensures ThresholdsPassed(AsU8(p)) <= ThresholdsPassed(AsU8(q))
  {
  }

  /** Full and Empty ignore the percentage. */
  lemma FullAndEmptyIgnorePercentage(p: int, q: int)
    ensures IconName(Some(p), Some(Full)) == IconName(Some(q), Some(Full)) == Some("battery-full-charged-symbolic")
    ensures IconName(Some(p), Some(Empty)) == IconName(Some(q), Some(Empty)) == Some("battery-empty-symbolic")
  {
  }

  // ---------------------------------------------------------------------
  // Status texts
  // ---------------------------------------------------------------------

  /** The fields of `BatteryDetails` that the status texts read, with the
      durations in whole seconds (`Duration::as_secs`). */
  datatype BatteryDetails = BatteryDetails(
    percentage: Option<int>,
    state: Option<BatteryState>,
    timeToFull: Option<nat>,
    timeToEmpty: Option<nat>,
    cycleCount: Option<nat>,
    iconName: Option<string>)

  /** `format_time_option`: "Hh MMm" from one hour on, "Mm" below, and the
      empty text exactly when there is no duration. */
  function FormatTimeOption(duration: Option<nat>): (r: string)
    ensures r == [] <==> duration.None?
    ensures duration.Some? ==> r[|r| - 1] == 'm'
  {
    match duration
    case None => ""
    case Some(total) =>
      var hours := total / 3600;
      var minutes := (total % 3600) / 60;
      if hours > 0 then Decimal(hours) + "h " + Pad2(minutes) + "m"
      else Decimal(minutes) + "m"
  }

  /** The text reads back as whole hours and minutes: the hours before the
      'h', the minutes as two digits after it, and together they are the
      duration rounded down to the minute. */
  lemma FormatTimeOptionReadsBack(total: nat)
    ensures var h, m := total / 3600, (total % 3600) / 60;
      && m < 60
      && h * 3600 + m * 60 <= total < h * 3600 + m * 60 + 60
      && (h > 0 ==>
            SplitOnce(FormatTimeOption(Some(total)), 'h') == Some((Decimal(h), " " + Pad2(m) + "m"))
            && DigitsValue(Decimal(h)) == h && AllDigits(Pad2(m)) && DigitsValue(Pad2(m)) == m
            && |Pad2(m)| == 2)
      && (h == 0 ==> FormatTimeOption(Some(total)) == Decimal(m) + "m" && DigitsValue(Decimal(m)) == m)
  {
    var h, m := total / 3600, (total % 3600) / 60;
    if h > 0 {
      HoursAndMinutes(h, m);
    } else {
      DecimalValue(m);
    }
  }

  /** "Hh MMm" cuts at its first 'h' into the hours and the padded minutes,
      both of which read back. */
  lemma HoursAndMinutes(h: nat, m: nat)
    requires m < 60
    ensures SplitOnce(Decimal(h) + "h " + Pad2(m) + "m", 'h') == Some((Decimal(h), " " + Pad2(m) + "m"))
    ensures DigitsValue(Decimal(h)) == h && AllDigits(Pad2(m)) && DigitsValue(Pad2(m)) == m
    ensures |Pad2(m)| == 2
  {
    DecimalValue(h);
    Pad2Value(m);
    var d := Decimal(h);
    var rest := " " + Pad2(m) + "m";
    assert 'h' !in d by {
      forall i | 0 <= i < |d| ensures d[i] != 'h' { assert IsDigit(d[i]); }
    }
    assert d + "h " + Pad2(m) + "m" == d + ['h'] + rest;
    SplitOnceAt(d, 'h', rest);
    Pad2Length(m);
  }

  /** `format_charge_status`: a bare "Charging" or "Discharging" appears
      exactly when the matching time is unknown. */
  function FormatChargeStatus(details: BatteryDetails): (r: string)
    ensures details.state == Some(Charging) ==> (r == "Charging" <==> details.timeToFull.None?)
    ensures details.state == Some(Charging) && details.timeToFull.Some? ==>
      r == "Charging (" + FormatTimeOption(details.timeToFull) + ")"
    ensures details.state == Some(Discharging) ==> (r == "Discharging" <==> details.timeToEmpty.None?)
    ensures details.state == Some(Discharging) && details.timeToEmpty.Some? ==>
      r == FormatTimeOption(details.timeToEmpty) + " remaining"
    ensures details.state == Some(Full) ==> r == "Fully Charged"
    ensures details.state == Some(Empty) ==> r == "Empty"
    ensures details.state == Some(BatteryState.Unknown) ==> r == "Calculating..."
    ensures details.state.None? ==> r == "State N/A"
  {
    match details.state
    case Some(Charging) =>
      var t := FormatTimeOption(details.timeToFull);
      if t == [] then "Charging" else "Charging (" + t + ")"
    case Some(Discharging) =>
      var t := FormatTimeOption(details.timeToEmpty);
      if t == [] then "Discharging" else t + " remaining"
    case Some(Full) => "Fully Charged"
    case Some(Empty) => "Empty"
    case Some(Unknown) => "Calculating..."
    case None => "State N/A"
  }

  /** The status text tells the battery state: two details with the same
      text have the same state. */
  lemma ChargeStatusShowsState(a: BatteryDetails, b: BatteryDetails)
    requires FormatChargeStatus(a) == FormatChargeStatus(b)
    ensures a.state == b.state
  {
    ChargeStatusLead(a);
    ChargeStatusLead(b);
  }

  /** The first characters of the status text, by state: a time left while
      discharging starts with a digit. */
  lemma ChargeStatusLead(d: BatteryDetails)
    ensures var r := FormatChargeStatus(d);
      && |r| >= 2
      && (d.state == Some(Charging) ==> r[0] == 'C' && r[1] == 'h')
      && (d.state == Some(Discharging) ==> r[0] == 'D' || IsDigit(r[0]))
      && (d.state == Some(Full) ==> r[0] == 'F')
      && (d.state == Some(Empty) ==> r[0] == 'E')
      && (d.state == Some(BatteryState.Unknown) ==> r[0] == 'C' && r[1] == 'a')
      && (d.state.None? ==> r[0] == 'S')
  {
    if d.state == Some(Discharging) && d.timeToEmpty.Some? {
      var total := d.timeToEmpty.value;
      var t := FormatTimeOption(d.timeToEmpty);
      var h, m := total / 3600, (total % 3600) / 60;
      if h > 0 {
        assert t == Decimal(h) + "h " + Pad2(m) + "m";
        assert t[0] == Decimal(h)[0];
      } else {
        assert t == Decimal(m) + "m";
        assert t[0] == Decimal(m)[0];
      }
      assert (t + " remaining")[0] == t[0];
    }
  }

  // ---------------------------------------------------------------------
  // Conservation mode
  // ---------------------------------------------------------------------

  const ConservationModePath := "/sys/devices/pci0000:00/0000:00:14.3/PNP0C09:00/VPC2004:00/conservation_mode"

  /** What reading the conservation-mode file gave. */
  datatype SysfsRead = Missing | Read(content: string) | Denied | Failed

  /** `get_conservation_mode`: the trimmed content must parse as the `u8`
      1 (on) or 0 (off). */
  function ConservationMode(file: SysfsRead): (r: Result<bool, BatteryError>)
    ensures r.Ok? <==> file.Read? && ParseU8(Trim(file.content)) in {Some(0), Some(1)}
    ensures r.Ok? ==> (r.value <==> ParseU8(Trim(file.content)) == Some(1))
    ensures r == Err(SysfsNotFound(ConservationModePath)) <==> file.Missing?
    ensures r == Err(PermissionDenied(ConservationModePath)) <==> file.Denied?
  {
    match file
    case Missing => Err(SysfsNotFound(ConservationModePath))
    case Read(content) =>
      (match ParseU8(Trim(content))
       case Some(1) => Ok(true)
       case Some(0) => Ok(false)
       case _ => Err(ParseError("Unexpected content in " + ConservationModePath + ": " + content)))
    case Denied => Err(PermissionDenied(ConservationModePath))
    case Failed => Err(Io)
  }

  /** The value `set_conservation_mode` writes: `echo` prints "1" or "0"
      and a newline. */
  function Written(enabled: bool): (r: string)
    ensures |r| == 2 && r[1] == '\n'
  {
    (if enabled then "1" else "0") + "\n"
  }

  /** Reading back what `set_conservation_mode` wrote gives the same
      setting. */
  lemma ConservationModeReadsWritten(enabled: bool)
    ensures ConservationMode(Read(Written(enabled))) == Ok(enabled)
  {
    WrittenDigit(enabled);
  }

  /** The trimmed content is the digit written. */
  lemma WrittenDigit(enabled: bool)
    ensures ParseU8(Trim(Written(enabled))) == Some(if enabled then 1 else 0)
  {
    var w := Written(enabled);
    var d := if enabled then 1 else 0;
    TrimLineOfOneChar(w);
    assert w[..1] == Decimal(d);
    ParseU8Decimal(d);
  }

  /** One non-blank character and a newline trim to that character. */
  lemma TrimLineOfOneChar(w: string)
    requires |w| == 2 && !IsWhitespace(w[0]) && w[1] == '\n'
    ensures Trim(w) == w[..1]
  {
    assert TrimStart(w) == w;
    assert TrimEnd(w) == TrimEnd(w[..1]);
    assert TrimEnd(w[..1]) == w[..1];
  }
}
