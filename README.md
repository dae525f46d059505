# kaneru-bar core, modelled in Dafny

kaneru-bar is a GTK status bar for the niri Wayland compositor. This project
models the parts of it that decide things, and proves what they promise.

**Notifications** (modules `Notifications`, `UrgencySerdeHelper`,
`Persistence`, `NotificationServer`, `NotificationPopup`,
`NotificationManager`):

- the notification record and the decoding of its urgency byte;
- the `org.freedesktop.Notifications` server: id allocation, hint defaults,
  the active set, capabilities and signals;
- the popup of one notification: its close timer, hover rules, the
  `is_closing` latch of its buttons, closing and position;
- the manager: it keeps popups by id with a stacking order and lays them out
  from the top of the screen.

**Other helpers:**

- `Pomodoro`: the Pomodoro countdown of the date popover.
- `Battery`: battery icon and status texts, power-profile names, the list of
  available profiles, and the conservation-mode file.
- `Network`: Wi-Fi icons, access-point ordering, Wi-Fi details and airplane
  mode.
- `Apps`: desktop-entry parsing, `Exec` cleaning, application registration,
  lookup and fuzzy matching.
- `Distro`: `os-release` parsing and the distribution icon choice.
- `ActiveClient`: the focused-window labels.

`Text` models the few Rust `str` operations these use (trim, split, replace,
lower-casing, decimal printing and parsing). `Common` holds `Option`,
`Result` and the integer types.

How the code's form is kept:

- Objects whose fields change become classes:
  - the server;
  - a popup;
  - the manager;
  - the Pomodoro state;
  - the resolver;
  - the active-client widget.
- Loops become methods proved against a specification function.
- Pure code becomes functions with lemmas.
- Everything that talks to the outside is a parameter, not a call: D-Bus,
  GTK, sysfs, files and child processes. This includes the result of a proxy
  call, the content of a file, and the height GTK allocated to a window.

Where the code departs from the protocol or from its own documented
intent, the model follows the code:

- `CloseNotification` on the server removes the id and emits the signal. It
  does not tell the manager, so the popup stays on screen.
- A replaced notification's popup is dropped (its timer removed) without
  `close_popup`.
- The manager closes a popup with `close_popup` as written. A popup whose
  close or action button was clicked has already set its closing latch, so
  its window is not destroyed there; only dropping it removes the timer (see
  "## Findings").
- Handing a notification to the manager fails only when the manager's
  receiver is gone. A full channel waits.

## Model

| member | source | states |
|---|---|---|
| Notifications.Discriminant | src/utils/notification.rs:5-11 | the wire byte of each urgency is at most 2 |
| Notifications.TryToOwned | src/utils/notification_server.rs:85-90 | copying a hint value fails exactly for a descriptor that cannot be duplicated, and otherwise keeps the value |
| Notifications.UrgencyOfByte | src/utils/notification.rs:18-23 | a byte decodes exactly when it is at most 2, and to the level whose discriminant it is |
| Notifications.UrgencyFromOwned | src/utils/notification.rs:13-25 | an owned value decodes exactly when it is a byte at most 2; every other value gives `IncorrectType` |
| Notifications.UrgencyFromValue | src/utils/notification.rs:27-39 | a borrowed value decodes exactly when it is a byte at most 2, to the level of that discriminant |
| Notifications.DecodeDiscriminant | src/utils/notification.rs:5-23 | decoding the wire byte of any level gives that level back, through either decoder |
| Notifications.DecodersAgree | src/utils/notification.rs:13-39 | the owned and the borrowed decoders agree on every value |
| Notifications.NewNotification | src/utils/notification.rs:59-85 | every argument lands unchanged in the field of the same name |
| UrgencySerdeHelper.Serialize | src/utils/notification.rs:92-97 | a level is stored as one of the three names Low, Normal, Critical |
| UrgencySerdeHelper.Deserialize | src/utils/notification.rs:99-105 | reading fails exactly for a string that is not one of the three names |
| UrgencySerdeHelper.DeserializeSerialize | src/utils/notification.rs:88-106 | what is stored reads back as the same level |
| UrgencySerdeHelper.SerializeDeserialize | src/utils/notification.rs:88-106 | a name that reads back as a level is exactly that level's stored name |
| Persistence.SerdeDiscriminant | src/utils/persistence.rs:76-81 | the stored twin's discriminants are 0, 1 and 2 |
| Persistence.FromUrgency | src/utils/persistence.rs:83-91 | the conversion keeps the discriminant |
| Persistence.ToUrgency | src/utils/persistence.rs:93-101 | the back conversion keeps the discriminant |
| Persistence.UrgencyRoundTrip | src/utils/persistence.rs:83-101 | Urgency to UrgencySerde and back is the identity |
| Persistence.SerdeRoundTrip | src/utils/persistence.rs:83-101 | UrgencySerde to Urgency and back is the identity |
| Persistence.ConversionsMatchDiscriminants | src/utils/persistence.rs:76-101 | both conversions pair a level with exactly the twin of the same discriminant |
| Persistence.VariantName | src/utils/persistence.rs:76-81 | each stored variant has a non-empty name |
| Persistence.ParseVariantName | src/utils/persistence.rs:76-81 | a name parses exactly when it is one of the three, to the variant printed that way |
| Persistence.VariantNameRoundTrip | src/utils/persistence.rs:76-81 | printing a variant and parsing it gives it back |
| Persistence.LoadNotifications | src/utils/persistence.rs:63-74 | no cache directory is an error; a missing file or one holding only whitespace gives the empty list; an unreadable file is an error |
| NotificationServer.OwnedHints | src/utils/notification_server.rs:85-90 | exactly the hints that can be copied are kept, under the same keys and with the same values |
| NotificationServer.UrgencyHint | src/utils/notification_server.rs:92-95 | the decoded `urgency` hint when there is one that decodes, and Normal otherwise |
| NotificationServer.ImagePathHint | src/utils/notification_server.rs:97-99 | the `image-path` hint is kept exactly when it is a string, with that text |
| NotificationServer.ResidentHint | src/utils/notification_server.rs:101-104 | resident exactly when the `resident` hint is the boolean true |
| NotificationServer.HintDefaults | src/utils/notification_server.rs:92-104 | a missing or mistyped hint gives urgency Normal, no image path and not resident |
| NotificationServer.HintsTaken | src/utils/notification_server.rs:92-104 | a hint of the right type is taken as given |
| NotificationServer.Capabilities | src/utils/notification_server.rs:139-147 | exactly five distinct standard capabilities: body, actions, persistence, icon-static and body-markup, so never both icon-static and icon-multi |
| NotificationServer.ServerInformation | src/utils/notification_server.rs:150-157 | name and version are the package's; the vendor is "Kaneru Project" and the specification version "1.2" |
| NotificationServer.Server.constructor | src/utils/notification_server.rs:11-27 | the counter starts at 1, with nothing active, no connection and nothing emitted or forwarded |
| NotificationServer.Server.SetConnection | src/utils/notification_server.rs:29-32 | the connection is set and nothing else changes |
| NotificationServer.Server.CloseReceiver | src/utils/notification_server.rs:125-125 | the manager's end of the channel is gone and nothing else changes |
| NotificationServer.Server.EmitNotificationClosed | src/utils/notification_server.rs:34-47 | without a connection it fails and emits nothing; with one it emits exactly `NotificationClosed(id, reason)` |
| NotificationServer.Server.EmitActionInvoked | src/utils/notification_server.rs:49-62 | without a connection it fails and emits nothing; with one it emits exactly `ActionInvoked(id, key)` |
| NotificationServer.Server.Notify | src/utils/notification_server.rs:68-127 | always Ok: a fresh id (the counter, then bumped by one) when `replaces_id` is 0, otherwise `replaces_id` with the counter untouched; the recorded notification carries the hint values; it is handed to the manager while the receiver lives |
| NotificationServer.Server.CloseNotification | src/utils/notification_server.rs:130-136 | always Ok; the id leaves the active set, and `NotificationClosed(id, 3)` is emitted only when it was active and a connection is set |
| NotificationServer.FreshIdsIncrease | src/utils/notification_server.rs:79-83 | two fresh notifications get consecutive ids, the first being the counter, even with a close in between |
| NotificationServer.CloseTwice | src/utils/notification_server.rs:130-136 | closing the same id twice leaves exactly what one close leaves: the id inactive, and one `NotificationClosed(id, 3)` only when it was active over a connection |
| NotificationPopup.PositionEdge | src/windows/notification_popup.rs:51-85 | the top corners stack on the top edge and the bottom corners on the bottom edge |
| NotificationPopup.ActionButtons | src/windows/notification_popup.rs:201-229 | one button per complete (key, label) pair, in order; an odd trailing element makes none |
| NotificationPopup.FlattenActionButtons | src/windows/notification_popup.rs:201-229 | the buttons give back the action list without its odd trailing element |
| NotificationPopup.CloseTimerDuration | src/windows/notification_popup.rs:396-411 | no timer for 0, or for -1 on a resident notification; 10 s (critical) or 5 s for -1 otherwise; a positive timeout as given; 5 s for any other negative value |
| NotificationPopup.LeaveDuration | src/windows/notification_popup.rs:299-306 | leaving arms nothing exactly for a resident notification |
| NotificationPopup.LeaveUsesServerDefault | src/windows/notification_popup.rs:289-322 | leaving arms the server default whatever `expire_timeout` asked, so a never-expiring popup gets a timer after a hover |
| NotificationPopup.Popup.constructor | src/windows/notification_popup.rs:33-327 | the popup starts open, not closing, on its corner's edge at the given position, one button per action pair, its timer armed as `reset_close_timer` chooses |
| NotificationPopup.Popup.ResetCloseTimer | src/windows/notification_popup.rs:391-431 | the old timer is removed before the new one is armed, so at most one is alive, and its duration is the chosen one |
| NotificationPopup.Popup.HoverEnter | src/windows/notification_popup.rs:276-280 | entering removes the timer and sends nothing |
| NotificationPopup.Popup.HoverLeave | src/windows/notification_popup.rs:289-322 | leaving does nothing while closing or while a timer is set; otherwise it arms the leave duration |
| NotificationPopup.Popup.TimerFires | src/windows/notification_popup.rs:419-428 | while closing, a firing timer does nothing; otherwise it empties the slot and sends exactly one `Close(id)`; it never sets the latch |
| NotificationPopup.Popup.ClickClose | src/windows/notification_popup.rs:131-145 | the first click on any button sets the latch and sends `Close(id)`; later clicks send nothing |
| NotificationPopup.Popup.ClickAction | src/windows/notification_popup.rs:212-226 | the same latch; the first click sends `ActionInvoked(id, key)` for that button's key |
| NotificationPopup.Popup.ClosePopupAsWritten | src/windows/notification_popup.rs:340-388 | as written: nothing when the latch is set; otherwise it sets it, removes the timer and destroys the window |
| NotificationPopup.Popup.ClosePopup | src/windows/notification_popup.rs:340-388 | corrected guard: the window is always destroyed afterwards, and a first close removes the timer |
| NotificationPopup.Popup.Allocate | src/utils/notification_manager.rs:60-60 | the height GTK allocated to the window is recorded, and nothing else changes |
| NotificationPopup.Popup.SetVerticalPosition | src/windows/notification_popup.rs:333-338 | the margin on the popup's edge becomes the position; nothing else changes |
| NotificationPopup.Popup.Drop | src/windows/notification_popup.rs:434-440 | dropping removes the timer and leaves the window and latch alone |
| NotificationPopup.CloseButtonKeepsWindowAsWritten | src/windows/notification_popup.rs:340-345 | as written, a close-button click followed by the manager's `close_popup` sends `Close` and never destroys the window |
| NotificationPopup.CloseButtonDestroysWindow | src/windows/notification_popup.rs:340-388 | with the corrected guard the same sequence destroys the window and leaves no timer |
| NotificationManager.Without | src/utils/notification_manager.rs:41-44 | `retain` keeps exactly the other ids and keeps them distinct |
| NotificationManager.WithoutKeepsOrder | src/utils/notification_manager.rs:75-75 | `retain` keeps the relative order of the ids it keeps |
| NotificationManager.AppendKeepsOrder | src/utils/notification_manager.rs:49-49 | `push` keeps the relative order of what was there |
| NotificationManager.DisplayOrder | src/utils/notification_manager.rs:39-49 | after a display the order has no duplicates, ends with the new id, holds the old ids but the replaced one, and a replaced id different from the new one is gone |
| NotificationManager.DisplayKeepsOrder | src/utils/notification_manager.rs:39-49 | every other id keeps its relative order across a display |
| NotificationManager.CloseKeepsOrder | src/utils/notification_manager.rs:73-75 | a command removes its id and keeps the order of the rest |
| NotificationManager.Advance | src/utils/notification_manager.rs:99-100 | each popup takes its height (at least 1) plus the 10-pixel spacing |
| NotificationManager.Slots | src/utils/notification_manager.rs:93-103 | one position per id, the first at the top |
| NotificationManager.SlotsAreStackHeights | src/utils/notification_manager.rs:93-103 | the k-th popup sits at the base margin plus the room of all popups before it |
| NotificationManager.SlotsStep | src/utils/notification_manager.rs:96-101 | consecutive positions differ by one popup's room |
| NotificationManager.StackHeightMonotone | src/utils/notification_manager.rs:93-103 | a longer prefix of the order takes at least as much room |
| NotificationManager.PositionsIncrease | src/utils/notification_manager.rs:8-9 | positions start at 20 and strictly increase along the order, by at least a popup's room |
| NotificationManager.NextOrder | src/utils/notification_manager.rs:111-117 | one event keeps the order free of duplicates |
| NotificationManager.OrderAfterNoDuplicates | src/utils/notification_manager.rs:106-118 | no sequence of events puts an id in the order twice |
| NotificationManager.OrderAfterComesFrom | src/utils/notification_manager.rs:106-118 | every id on screen was there at the start or came with a delivered notification |
| NotificationManager.CommandRemoves | src/utils/notification_manager.rs:70-89 | a command takes its id off the screen until it is delivered again |
| NotificationManager.Manager.constructor | src/utils/notification_manager.rs:20-32 | no popups and an empty order |
| NotificationManager.Manager.Layout | src/utils/notification_manager.rs:93-103 | every popup ends at the position the layout walk gives its place in the order; nothing else of any popup changes |
| NotificationManager.Manager.Remove | src/utils/notification_manager.rs:73-75 | the id leaves the map and the order; with `close` the popup is closed as written (latched, and its window destroyed only when the latch was clear before), otherwise its latch and window are untouched; dropped either way, so its timer is gone; the other popups are untouched |
| NotificationManager.Manager.Display | src/utils/notification_manager.rs:34-68 | the replaced and same-id popups are dropped unclosed: a popup already filed under the new id loses its timer but keeps its closing latch, its destroy request and its signal flag; a fresh popup for the notification, resident when it is, is filed under its id and appended; all popups are then laid out |
| NotificationManager.Manager.Replace | src/utils/notification_manager.rs:34-49 | display before the layout pass: the order is the display order; the new popup is fresh, configured from the notification (residency included) and placed at the top margin; a popup already filed under the new id loses its timer, keeps its latch, destroy request and signal flag, and leaves the manager; the other popups are untouched |
| NotificationManager.Manager.Evict | src/utils/notification_manager.rs:39-44 | the popups of the replaced id (when not 0) and of the id leave the map and the order unclosed: each loses its timer and keeps its latch, destroy request and signal flag; the other popups are untouched |
| NotificationManager.Manager.Insert | src/utils/notification_manager.rs:48-49 | a popup not filed yet is filed under its id and appended to the order |
| NotificationManager.Manager.HandleCommand | src/utils/notification_manager.rs:70-104 | the popup is taken out, closed as written and dropped: its timer is gone, and its window is destroyed exactly when its closing latch was clear (a button click leaves it standing); over a connection, `Close` emits `NotificationClosed(id, 1)`, and an action emits `ActionInvoked` then `NotificationClosed(id, 2)`; the rest are laid out |
| NotificationManager.Manager.Dismiss | src/utils/notification_manager.rs:70-91 | the command's effect before the layout pass: removal, the as-written close (window destroyed only when the latch was clear) and the signals in order |
| NotificationManager.Manager.Handle | src/utils/notification_manager.rs:111-117 | one event moves the order by `NextOrder` and leaves every popup laid out |
| NotificationManager.Manager.Run | src/utils/notification_manager.rs:106-118 | the events are handled in turn; the order is `OrderAfter` of them and the manager stays consistent |
| Pomodoro.Fresh | src/windows/date.rs:22-29 | a new countdown holds the minutes as target, their seconds as remaining, and is stopped |
| Pomodoro.Decreased | src/windows/date.rs:132-140 | only while stopped above 5 minutes: the target drops by 5 (not below 5) and the countdown restarts from it |
| Pomodoro.Increased | src/windows/date.rs:144-152 | only while stopped below 120 minutes: the target grows by 5 (not above 120) and the countdown restarts from it |
| Pomodoro.Toggled | src/windows/date.rs:160-215 | running pauses where it is; stopped starts, from the full target when it had reached zero |
| Pomodoro.Ticked | src/windows/date.rs:190-212 | a running countdown loses one second, or stops at zero |
| Pomodoro.Stopped | src/windows/date.rs:221-232 | closing the popover stops the countdown and keeps the remaining time |
| Pomodoro.DecreaseKeepsBounds | src/windows/date.rs:132-140 | the minus button keeps 5 ≤ target ≤ 120 on the 5-minute grid and remaining ≤ target·60 |
| Pomodoro.IncreaseKeepsBounds | src/windows/date.rs:144-152 | the plus button keeps the same bounds |
| Pomodoro.OtherStepsKeepBounds | src/windows/date.rs:160-232 | start/pause, a tick and closing keep the same bounds |
| Pomodoro.CountdownStops | src/windows/date.rs:190-212 | a started countdown stops, at zero, after its remaining seconds and one more tick |
| Pomodoro.CountdownRunsUntilZero | src/windows/date.rs:190-212 | it keeps running through fewer ticks than it has seconds, one second less each |
| Pomodoro.FormatTime | src/windows/date.rs:31-35 | the label is at least five characters |
| Pomodoro.FormatTimeReadsBack | src/windows/date.rs:31-35 | the label splits at its colon into minutes and seconds that give back the remaining seconds |
| Pomodoro.FormatTimeWidth | src/windows/date.rs:31-35 | the seconds take two digits, and below 100 minutes the label is "MM:SS" |
| Pomodoro.PomodoroState.constructor | src/windows/date.rs:60-73 | a stopped 25-minute countdown with its label shown |
| Pomodoro.PomodoroState.ResetTime | src/windows/date.rs:37-39 | the remaining time becomes the full target and nothing else changes |
| Pomodoro.PomodoroState.Decrease | src/windows/date.rs:132-140 | the minus-button handler acts as `Decreased` and keeps the label, icon and buttons in step |
| Pomodoro.PomodoroState.Increase | src/windows/date.rs:144-152 | the plus-button handler acts as `Increased` and keeps the display in step |
| Pomodoro.PomodoroState.StartPause | src/windows/date.rs:160-215 | with the popover alive it acts as `Toggled` and the timer exists exactly while running; otherwise nothing changes |
| Pomodoro.PomodoroState.Tick | src/windows/date.rs:190-212 | acts as `Ticked` while running, does nothing otherwise, and pops the popover up exactly when a running countdown ends with the popover alive |
| Pomodoro.PomodoroState.PopoverClosed | src/windows/date.rs:221-232 | acts as `Stopped`: the timer is removed and the remaining time stays |
| Battery.Display | src/utils/battery.rs:107-116 | a known profile prints as one of the three known names |
| Battery.FromStr | src/utils/battery.rs:118-129 | parsing never fails; the result prints as the trimmed input, and is known exactly when that is a known name |
| Battery.ProfileNamed | src/utils/battery.rs:122-127 | the match on the trimmed text prints back as that text |
| Battery.ParseDisplay | src/utils/battery.rs:107-128 | printing then parsing gives the profile back exactly for the three known profiles and for unknown names that are trimmed and not a known name |
| Battery.ParseDisplayKnown | src/utils/battery.rs:107-128 | printing then parsing gives each known profile back |
| Battery.KnownNamesDiffer | src/utils/battery.rs:122-127 | each known name selects its own profile |
| Battery.ParseUnknown | src/utils/battery.rs:118-128 | a text parses to `Unknown` of itself exactly when it is trimmed and not a known name |
| Battery.Rank | src/utils/battery.rs:299-304 | the sort key is below 3 exactly for known profiles |
| Battery.RankIdentifiesKnown | src/utils/battery.rs:299-304 | two known profiles with the same key are the same |
| Battery.WithRank | src/utils/battery.rs:299-304 | the part of the list with a given key holds only that key |
| Battery.SortByRank | src/utils/battery.rs:299-304 | the key sort is a permutation, sorted by key |
| Battery.WithRankCounts | src/utils/battery.rs:299-304 | each key's part holds each profile of that key as often as the list |
| Battery.AvailableProfiles | src/utils/battery.rs:276-306 | a known profile is listed exactly when the listing names it; only known profiles, each once, strictly in the order power-saver, balanced, performance |
| Battery.CollectProfiles | src/utils/battery.rs:280-297 | the guarded pushes give each named known profile exactly once |
| Battery.Named | src/utils/battery.rs:280-297 | one guarded push: the profile exactly when the listing names it, and at most once |
| Battery.SortKeepsDistinctKnown | src/utils/battery.rs:299-305 | sorting distinct known profiles keeps them with strictly increasing keys |
| Battery.AsU8 | src/utils/battery.rs:179-179 | a rounded percentage within a byte is kept as is |
| Battery.IconName | src/utils/battery.rs:176-208 | there is always an icon; without a percentage or a state it is battery-missing |
| Battery.ThresholdsPassed | src/utils/battery.rs:181-186 | a charge passes at most three of the thresholds |
| Battery.IconOfLevel | src/utils/battery.rs:179-200 | when charging, discharging or unknown, the icon is the one of the thresholds passed, with "-charging" while charging |
| Battery.LevelMonotone | src/utils/battery.rs:179-200 | more charge never shows a lower level |
| Battery.FullAndEmptyIgnorePercentage | src/utils/battery.rs:193-194 | Full and Empty give their icons whatever the percentage |
| Battery.FormatTimeOption | src/utils/battery.rs:353-367 | empty exactly for no duration; otherwise it ends in 'm' |
| Battery.FormatTimeOptionReadsBack | src/utils/battery.rs:353-367 | the text reads back as whole hours and minutes, the minutes below 60, with "Hh MMm" from one hour on and "Mm" below |
| Battery.HoursAndMinutes | src/utils/battery.rs:359-360 | "Hh MMm" cuts at its first 'h' into the hours and the two-digit minutes |
| Battery.FormatChargeStatus | src/utils/battery.rs:369-393 | Charging gives "Charging" without a time and "Charging (t)" with one; Discharging gives "Discharging" without a time and "t remaining" with one, t being the formatted time; Full, Empty and Unknown give "Fully Charged", "Empty" and "Calculating...", and no state "State N/A" |
| Battery.ChargeStatusShowsState | src/utils/battery.rs:369-393 | two details with the same status text have the same state |
| Battery.ConservationMode | src/utils/battery.rs:308-329 | Ok exactly when the trimmed content parses as 0 or 1, true for 1; a missing file and a denied read give their own errors |
| Battery.Written | src/utils/battery.rs:331-333 | `echo` writes one character and a line feed |
| Battery.ConservationModeReadsWritten | src/utils/battery.rs:308-351 | reading back what was written gives the same setting |
| Battery.WrittenDigit | src/utils/battery.rs:331-333 | the trimmed written text is the digit 1 or 0 |
| Network.SignalLevel | src/utils/network.rs:408-417 | a strength reaches one of five icon levels |
| Network.SignalIconName | src/utils/network.rs:408-417 | the icon is one of the five signal icons, and the no-signal one below 20 and above 100 |
| Network.SignalIconOfLevel | src/utils/network.rs:408-417 | the signal icon is the one of the marks 20, 40, 60, 80 reached, and none above 100 |
| Network.SignalLevelMonotone | src/utils/network.rs:408-417 | up to 100 a stronger signal never shows a weaker icon |
| Network.WifiIconName | src/utils/network.rs:398-406 | offline when not connected; connected with a strength, that strength's icon; connected without one, the no-signal icon |
| Network.OfflineIffDisconnected | src/utils/network.rs:398-406 | the offline icon shows exactly when not connected |
| Network.InfoOf | src/utils/network.rs:320-330 | an access point is active exactly when its path is the device's active one; its fields and icon are carried over |
| Network.CompareAps | src/utils/network.rs:334-339 | an active point comes before an inactive one; among equally active ones the stronger comes first; otherwise the SSIDs decide; equal exactly for the same activity, strength and SSID |
| Network.CmpStringEqual | src/utils/network.rs:337-337 | two SSIDs compare equal exactly when they are the same |
| Network.LeMeans | src/utils/network.rs:334-339 | in the sorted list active points come first, then stronger ones, then SSIDs ascending with none first |
| Network.LeTotal | src/utils/network.rs:334-339 | any two access points are ordered one way or the other |
| Network.LeTransitive | src/utils/network.rs:334-339 | the order is transitive |
| Network.SortAccessPoints | src/utils/network.rs:334-339 | the array ends sorted by the comparator and is a permutation of what it held |
| Network.Insert | src/utils/network.rs:334-339 | one insertion step extends the sorted prefix by one and permutes the array |
| Network.GetAccessPoints | src/utils/network.rs:294-342 | the result is a sorted permutation of the records of the scanned points, each active exactly when its path is the active one |
| Network.BuildInfos | src/utils/network.rs:306-332 | the loop builds one record per scanned point, in scan order |
| Network.InfosOf | src/utils/network.rs:306-332 | one record per scanned point, each active exactly when its path is the active one |
| Network.GetWifiDetails | src/utils/network.rs:165-261 | an invalid state is an error; Wi-Fi off gives the disabled defaults; connected exactly when the state is at least 70 and an active access point other than "/" was read; an active access point other than "/" whose SSID is not UTF-8 is the `Utf8` error and nothing else is; the icon follows the connection and strength |
| Network.AirplaneMode | src/utils/network.rs:360-373 | airplane mode is on exactly when both the Wi-Fi and the mobile radios are off |
| Network.AirplaneWrites | src/utils/network.rs:360-395 | after writing both radios, the airplane state reads back as the requested one |
| Apps.DropFieldCodes | src/utils/app_resolver.rs:22-24 | the words that are not field codes are kept, each once per occurrence and in their order, and no other word |
| Apps.DropNoFieldCodes | src/utils/app_resolver.rs:22-24 | words without field codes are all kept, in order |
| Apps.CleanExec | src/utils/app_resolver.rs:20-27 | the tokens are non-empty and free of whitespace, and are the command line's words not starting with '%', in order and with their repetitions |
| Apps.CleanExecOfJoin | src/utils/app_resolver.rs:20-27 | words joined by spaces, none a field code, come back unchanged |
| Apps.StripFileCodesDeletes | src/utils/app_resolver.rs:191-194 | removing the field codes makes the line no longer and brings in no new character; a line without '%' is unchanged |
| Apps.StripLaunchArgumentsDeletes | src/utils/app_resolver.rs:191-197 | removing the field codes and browser flags makes the line no longer and brings in no new character; a line without '%' and '-' is unchanged |
| Apps.ExtractCommandName | src/utils/app_resolver.rs:190-211 | the command name holds no '/' and no whitespace; its value on given lines is stated by `ExtractPlainCommand` and `ExtractCommandNameDropsFileCode` |
| Apps.CommandName | src/utils/app_resolver.rs:200-210 | the last '/'-segment of the first word of any string, or the empty name when it has no word; it holds no '/' and no whitespace |
| Apps.ReplaceAbsent | src/utils/app_resolver.rs:191-198 | `replace` leaves a string without the pattern unchanged |
| Apps.ExtractPlainCommand | src/utils/app_resolver.rs:190-211 | on a command line without the removed patterns, the name is the last path segment of its first word, or empty for a blank line |
| Apps.ExtractCommandNameDropsFileCode | src/utils/app_resolver.rs:190-211 | a one-word command followed by a space and a file field code names the last path segment of that word |
| Apps.StripTrailingFileCode | src/utils/app_resolver.rs:191-194 | the field codes' removal keeps the command and the space before a trailing code |
| Apps.Lines | src/utils/app_resolver.rs:106-106 | no line holds a line feed |
| Apps.LinesJoin | src/utils/app_resolver.rs:106-106 | the lines joined by line feeds give the content back, up to one final line feed |
| Apps.Classify | src/utils/app_resolver.rs:109-146 | a line is the entry header exactly when it is "[Desktop Entry]"; every payload is well formed |
| Apps.ExecValue | src/utils/app_resolver.rs:129-136 | the cleaned `Exec=` value is trimmed and no longer than the value, and a value without '%' is only trimmed |
| Apps.ExecValueDropsFileCode | src/utils/app_resolver.rs:129-136 | a trimmed command without '%' followed by a space and a file field code gives the command back |
| Apps.KeywordsOf | src/utils/app_resolver.rs:141-141 | the non-blank pieces, each trimmed and lower-cased, in order, one keyword per such piece and no other |
| Apps.NormalKeyword | src/utils/app_resolver.rs:141-141 | the piece with a blank prefix and suffix cut off, lower-cased; empty exactly for a blank piece, a keyword otherwise |
| Apps.KeywordList | src/utils/app_resolver.rs:140-141 | the `;`-separated pieces of the value, normalised, with the blank ones dropped, in order |
| Apps.KeywordListOfTerminated | src/utils/app_resolver.rs:140-141 | keywords written with a `;` after each read back as the same list |
| Apps.KeywordsOfAppend | src/utils/app_resolver.rs:141-141 | normalising two runs of pieces is normalising each |
| Apps.KeywordsOfKeywords | src/utils/app_resolver.rs:141-141 | keywords pass a second normalisation unchanged |
| Apps.KindsOf | src/utils/app_resolver.rs:106-107 | one well-formed classification per line |
| Apps.Finish | src/utils/app_resolver.rs:149-164 | an entry is kept exactly when shown, of type Application, and with a name and a command; it carries the file stem, the scanned name, the scanned command cleaned of field codes and trimmed, the scanned generic name, the scanned icon or else application-x-executable, and the scanned keywords split and normalised or else none |
| Apps.ScanWellScanned | src/utils/app_resolver.rs:106-147 | the loop only collects well-formed values |
| Apps.ParseDesktopEntry | src/utils/app_resolver.rs:93-165 | every parsed application has a non-empty icon, unlocalised names, a trimmed command, keywords, and the file stem as id; its field values are those `Apps.Finish` takes from the scan |
| Apps.MinimalEntryParses | src/utils/app_resolver.rs:93-165 | a file of the entry header, `Type=Application`, a name and a command parses to that application, with the default icon, no generic name and no keywords |
| Apps.ScanFromAppend | src/utils/app_resolver.rs:106-147 | scanning in two parts is scanning the whole |
| Apps.OutsideEntryIgnored | src/utils/app_resolver.rs:117-119 | outside the entry group nothing changes until its header returns |
| Apps.OtherGroupIgnored | src/utils/app_resolver.rs:112-119 | lines after another group header do not count until the entry header returns |
| Apps.NoEntryNoApp | src/utils/app_resolver.rs:106-151 | a file without a `[Desktop Entry]` header gives no application |
| Apps.ClassifyKeywords | src/utils/app_resolver.rs:140-141 | a `Keywords=` line is classified as one, whatever its value |
| Apps.LastKeywordsWin | src/utils/app_resolver.rs:140-141 | a later `Keywords=` line in the entry replaces the earlier list |
| Apps.ParseDesktopFile | src/utils/app_resolver.rs:93-165 | the parsing loop and the checks compute `ParseDesktopEntry` |
| Apps.ScanLines | src/utils/app_resolver.rs:106-147 | the loop computes the scan of the trimmed, classified lines |
| Apps.ReadLine | src/utils/app_resolver.rs:107-146 | the loop body is one step of the scan |
| Apps.Words | src/utils/app_resolver.rs:292-294 | the words are non-empty runs of letters and digits |
| Apps.PrefixMatches | src/utils/app_resolver.rs:296-306 | the count of matching query words is at most their number |
| Apps.PrefixMatchesExtremes | src/utils/app_resolver.rs:296-317 | the count is the number of query words exactly when every one matches, and 0 exactly when none does |
| Apps.WordScore | src/utils/app_resolver.rs:292-323 | the word-overlap tier lies in 0..50 |
| Apps.ScaledShare | src/utils/app_resolver.rs:319-320 | a share scaled to 50 is at most 50, and 50 for all of it |
| Apps.WordScoreFull | src/utils/app_resolver.rs:292-323 | when every query word starts a word of the key, the tier is 50 |
| Apps.Normalized | src/utils/app_resolver.rs:280-282 | the normalised string has no '-', '_' or ' ', and keeps every other character |
| Apps.NormalizedByReplace | src/utils/app_resolver.rs:280-282 | it is the three `replace` calls in order |
| Apps.LooseScore | src/utils/app_resolver.rs:280-323 | the tiers after the substring tests are 65, 55 or within 0..50 |
| Apps.MatchScore | src/utils/app_resolver.rs:263-324 | the score lies in 0..100: 100 exactly for the key itself, at least 90 exactly for a prefix, at least 70 exactly for a substring; below 55 it is the word tier, at most 50 |
| Apps.CountPrefixMatches | src/utils/app_resolver.rs:296-306 | the nested loop counts the query words that start some word |
| Apps.CalculateMatchScore | src/utils/app_resolver.rs:263-324 | the method computes `MatchScore` |
| Apps.AddAbsent | src/utils/app_resolver.rs:176-187 | keys already present keep their entry; each missing key maps to the application |
| Apps.NameScore | src/utils/app_resolver.rs:238-244 | the best of the name, desktop-id, command and generic-name scores lies in 0..100 |
| Apps.NameScoreCovers | src/utils/app_resolver.rs:238-244 | it is at least each of the four scores and equal to one of them, or 0 |
| Apps.KeywordScore | src/utils/app_resolver.rs:246-248 | the running best never decreases, stays within 100, and covers every keyword's score |
| Apps.AppScore | src/utils/app_resolver.rs:236-248 | an application's score lies in 0..100 and covers its name score |
| Apps.KeywordScoreAttained | src/utils/app_resolver.rs:246-248 | the running best is the start or some keyword's score |
| Apps.AppScoreTop | src/utils/app_resolver.rs:236-248 | the score is 100 exactly when the query is the lower-cased name, desktop id, command, generic name, or a keyword |
| Apps.ScoreNames | src/utils/app_resolver.rs:236-244 | the first four score updates compute `NameScore` |
| Apps.ScoreApp | src/utils/app_resolver.rs:236-248 | the score of one application is `AppScore` |
| Apps.ScoreKeywords | src/utils/app_resolver.rs:246-248 | the keyword loop computes `KeywordScore` |
| Apps.AppResolver.constructor | src/utils/app_resolver.rs:37-42 | three empty lookup tables |
| Apps.AppResolver.RegisterApp | src/utils/app_resolver.rs:167-188 | name, command and desktop-id keys are overwritten; generic-name and keyword keys are added only when absent; every key stays tied to its application |
| Apps.AppResolver.AddNames | src/utils/app_resolver.rs:176-187 | each key still free is mapped to the application, and the other tables are untouched |
| Apps.ExtraNameKeysCover | src/utils/app_resolver.rs:176-187 | the keys added when absent are the lower-cased generic name, if any, followed by the keywords in order, and nothing else |
| Apps.ExecKeyShape | src/utils/app_resolver.rs:169-169 | the command key is the command name lower-cased: as long, with no '/', whitespace or upper-case letter |
| Apps.AppResolver.ResolveByDesktopId | src/utils/app_resolver.rs:16-18 | found exactly when the lower-cased id is a key, giving that entry, whose own id lower-cases to the query |
| Apps.AppResolver.FuzzySearch | src/utils/app_resolver.rs:231-261 | an application of the table with the highest score when that score exceeds 30, and nothing otherwise |
| Apps.AppResolver.Resolve | src/utils/app_resolver.rs:213-229 | the lower-cased query is looked up in the name, command and desktop-id tables in turn, and only then fuzzily |
| Apps.RegisteredNamesValid | src/utils/app_resolver.rs:168-187 | registration keeps every name key tied to its application |
| Apps.ScoreFor | src/utils/app_resolver.rs:236-248 | the score function of a query gives each application's `AppScore` |
| Apps.ScanStep | src/utils/app_resolver.rs:250-253 | one visited application keeps the best so far, replaced only by a higher score |
| Apps.ScanDone | src/utils/app_resolver.rs:256-260 | after every application, the best one is answered when its score exceeds 30 |
| Distro.CleanValue | src/utils/distro.rs:54-58 | the trimmed value is stripped of quotes; the result has no single quote at either end, and is no longer |
| Distro.CleanValueSlice | src/utils/distro.rs:54-58 | the cleaned value is the trimmed value with runs of quotes cut from its two ends and nothing else |
| Distro.Classify | src/utils/distro.rs:46-63 | blank and '#' lines are skipped; a remaining line without '=' is malformed and carries the line; an assignment has as key the trimmed text before the first '=' and as value the cleaned text after it |
| Distro.EffectOf | src/utils/distro.rs:46-63 | an unreadable item is a read error, and a line is classified after trimming |
| Distro.EffectsOf | src/utils/distro.rs:46-64 | one effect per item, in order |
| Distro.Apply | src/utils/distro.rs:46-64 | a skipped or assigned line keeps the parse going; the others stop it |
| Distro.OsRelease | src/utils/distro.rs:41-67 | a file that cannot be opened is an I/O error |
| Distro.Run | src/utils/distro.rs:46-64 | the lines parse exactly when every one is skipped or an assignment |
| Distro.RunFailsAtFirst | src/utils/distro.rs:61-63 | a failed parse reports the first line that was neither |
| Distro.AssignedKeys | src/utils/distro.rs:53-60 | exactly the keys some line assigns are present |
| Distro.LastAssignmentWins | src/utils/distro.rs:60-60 | each key holds the value of the last line that assigns it |
| Distro.AssignmentReadsBack | src/utils/distro.rs:53-60 | a line `KEY=value` with a clean key and value reads back as that assignment |
| Distro.AssignmentLine | src/utils/distro.rs:53-60 | a line `KEY=raw` with a clean key assigns the cleaned raw text to the key |
| Distro.QuotedAssignmentReadsBack | src/utils/distro.rs:53-60 | a value written in double quotes reads back without them |
| Distro.ParseOsRelease | src/utils/distro.rs:41-67 | the loop computes `OsRelease`, stopping at the first error |
| Distro.RunStops | src/utils/distro.rs:61-63 | once a prefix fails, the whole fails with the same error |
| Distro.ReadItem | src/utils/distro.rs:47-63 | the loop body applies one item's effect |
| Distro.IconFromVars | src/utils/distro.rs:77-88 | a non-empty LOGO, else a non-empty ID, else nothing |
| Distro.DistroIconName | src/utils/distro.rs:69-89 | a missing file gives no icon, other errors pass through, otherwise the LOGO-then-ID choice |
| ActiveClient.TruncateText | src/widgets/active_client.rs:55-63 | a text of at most `max` characters is unchanged; a longer one keeps its first `max` characters followed by "…" |
| ActiveClient.TruncateIdempotent | src/widgets/active_client.rs:55-63 | shortening twice is shortening once |
| ActiveClient.TruncateInTimer | src/widgets/active_client.rs:101-109 | the timer's inline truncation is `truncate_text` on every text |
| ActiveClient.ShownFor | src/widgets/active_client.rs:65-85 | visible exactly for a successful query; an error shows ""/"Error"; no window shows "niri"/"Desktop"; a window shows its truncated app id and title, missing ones as "" |
| ActiveClient.ShownWindowBounded | src/widgets/active_client.rs:65-85 | a shown window's labels are at most one character over the maximum, and a missing app id or title shows as "" |
| ActiveClient.ShownStable | src/widgets/active_client.rs:65-85 | a window whose app id and title are the labels already shown is shown unchanged |
| ActiveClient.ActiveClientWidget.constructor | src/widgets/active_client.rs:18-53 | the labels start from the first query's answer |
| ActiveClient.ActiveClientWidget.UpdateLabels | src/widgets/active_client.rs:65-85 | the labels and visibility become `ShownFor` the answer |
| ActiveClient.ActiveClientWidget.TimerTick | src/widgets/active_client.rs:92-132 | one timer run shows the same as `update_labels` and the timer continues |
| Text.Trim | src/utils/distro.rs:47-47 | the result has no whitespace at either end, and it is empty exactly for a blank string |
| Text.TrimSlice | src/utils/distro.rs:47-47 | `trim` cuts only whitespace: the result is the input between a blank prefix and a blank suffix |
| Text.TrimAvoids | src/utils/distro.rs:47-47 | a character absent from the input is absent from its trim |
| Text.TrimOfTrimmed | src/utils/distro.rs:47-47 | a string without whitespace at either end is its own trim |
| Text.SplitWhitespace | src/utils/app_resolver.rs:21-21 | `split_whitespace` gives non-empty words without whitespace |
| Text.TokensOfJoin | src/utils/app_resolver.rs:21-21 | words joined by a separator split back into the same words |
| Text.TokensOfTrim | src/utils/app_resolver.rs:200-202 | trimming does not change the words of a string |
| Text.SplitOnce | src/utils/distro.rs:53-53 | `split_once` fails exactly when the character is absent, and otherwise cuts at its first occurrence |
| Text.Split | src/utils/app_resolver.rs:141-141 | `split` gives at least one piece, none holding the separator |
| Text.JoinSplit | src/utils/app_resolver.rs:141-141 | the pieces joined by the separator give the string back |
| Text.LastSegment | src/utils/app_resolver.rs:206-209 | the last '/'-segment holds no '/' and ends the string, right after a '/' when shorter |
| Text.TrimMatches | src/utils/distro.rs:57-58 | `trim_matches` neither starts nor ends with the character |
| Text.TrimMatchesSlice | src/utils/distro.rs:57-58 | `trim_matches` cuts only the character: the result is the input between two runs of it |
| Text.TrimMatchesEnclosed | src/utils/distro.rs:57-58 | a text not starting or ending with the character, enclosed in it, is given back |
| Text.Lower | src/utils/app_resolver.rs:168-170 | lower-casing works character by character and keeps the length |
| Text.ReplaceCharIsWithout | src/utils/app_resolver.rs:280-282 | replacing a one-character pattern by nothing removes that character |
| Text.ReplaceAll | src/utils/app_resolver.rs:191-197 | `replace` brings in no character that is in neither the string nor the replacement |
| Text.ReplaceAllShrinks | src/utils/app_resolver.rs:191-197 | a replacement no longer than the pattern never lengthens the string, and a string where the pattern cannot start is unchanged |
| Text.DecimalValue | src/utils/battery.rs:360-362 | a number printed in decimal reads back as itself |
| Text.Decimal | src/utils/battery.rs:360-362 | a number prints as a non-empty run of digits with no leading zero except for 0 itself |
| Text.Pad2Value | src/windows/date.rs:34-34 | `{:02}` prints digits that read back as the number |
| Text.Pad2 | src/windows/date.rs:34-34 | `{:02}` prints at least two characters |
| Text.ParseU8Decimal | src/utils/battery.rs:316-316 | every byte printed in decimal, with or without '+', parses back |
| Text.ParseU8 | src/utils/battery.rs:316-316 | an accepted text is an optional '+' followed by decimal digits only |

## Left out

- GTK: widget trees, CSS classes, layer-shell anchors, revealer animations, label rendering and the motion controller. Destruction is a flag, and a window's height is a number GTK provides.
- The 1-second forced-destroy fallback of `close_popup` (src/windows/notification_popup.rs:379-387): a timer that only repeats a destruction already requested.
- The zbus interface macro, the session connection and the bus name request (`run_server_task`); tokio channels, `spawn_local`, `select!`, `Mutex` and `Rc<RefCell>` sharing. Events are handled one at a time, and signals go to an outbox.
- NotificationServer.Capabilities: the contract fixes the five names but not the order in which they are listed.
- NotificationServer.Server.Notify: the `AtomicU32` counter is unbounded here; its wrap-around after 2^32 ids is not modelled.
- NotificationManager.Manager.Run: a laid-out screen is promised only after at least one event, since no layout pass runs before the first.
- The configured popup corner: `NotificationPosition` is not defined in src/utils/config.rs, and the manager calls `NotificationPopup::new` with one argument fewer than it takes. The corner is a parameter of the manager.
- `save_notifications`, `get_notifications_path` and JSON encoding are file I/O. `load_notifications` is modelled only up to the decoding of a non-blank file.
- The wall clock and the calendar of the date popover.
- Floating point: battery percentage, voltage, power and `parse_duration`. The icon takes an integer rounded percentage, and the time texts take whole seconds.
- The `_ =>` arms of `get_icon_name` and `format_charge_status` (battery-missing, "Calculating..."): they cover states the `battery` crate may add to its non-exhaustive `State`; the model has only the five states it defines.
- `powerprofilesctl`, `sudo` and sysfs access: the profile listing, the file content and the outcome of a read are parameters, and setting a profile or the conservation mode is left out.
- NetworkManager proxy errors: every proxy call is assumed to succeed; only the decisions on their answers are modelled. Connecting and scanning are left out.
- The scan of the application directories in `AppResolver::new` and the read of each desktop file: the parser takes the file content and stem.
- Network.SortAccessPoints: an insertion sort stands for `sort_unstable_by`; both sort by the same comparator, so equal elements may end in either order.
- Apps.AppResolver.FuzzySearch: `HashMap` iteration order is unspecified, so among equally scored applications the model does not fix the winner.
- Apps.Lines: `str::lines` also strips a carriage return before a line feed; the model keeps it, and the trim that follows removes it.
- Apps.MatchScore: `to_lowercase`, `is_alphanumeric` and `is_whitespace` on letters are restricted to ASCII letters and digits; Unicode case folding is not modelled. The `i32` arithmetic of the word tier cannot overflow for realistic word counts and is unbounded here.
- Apps.ExtractCommandName: its value is stated for command lines without the removed patterns and for one word followed by a file field code; where a removal joins or splits words (as in `a--incognitob`) the name is computed as written but not characterised.
- Distro.CleanValue: a double quote enclosed in single quotes stays, as the code strips double quotes before single ones: `'"x"'` cleans to `"x"`. The contract therefore speaks only of single quotes at the ends.
- Distro.CleanValueSlice: states that only quotes are cut from the two ends of the trimmed value, not that double quotes go before single ones; that order is in `Distro.CleanValue` itself.
- Text.ParseU8: the contract states only the shape of the accepted text; the values of the texts that matter follow from `Text.ParseU8Decimal`.
- The `Display` texts of `DistroInfoError` and `PersistenceError`, the niri socket query (its answer is a parameter), and the `eprintln!` logging.
- The shown files do not compile together: `main.rs` passes six arguments to `run_manager_task`, which takes five, and `persistence.rs` imports an undeclared module. Each file is modelled as written.

## Findings

| source | as written | input that shows it | evidently intended | confidence | as-written member | corrected member |
|---|---|---|---|---|---|---|
| src/windows/notification_popup.rs:340-345 | `close_popup` returns at once when `is_closing` is set, but the close and action buttons (lines 131-145, 212-226) set that latch before sending their command, so the manager's `close_popup` after `Close(id)` or `ActionInvoked` returns without destroying the window | a popup whose close button is clicked: it sends `Close(id)`, and the manager removes it and calls `close_popup`, which finds the latch set | the window is destroyed and its timer removed after the manager handles the command, guarding only against a second destruction | not executed | NotificationPopup.CloseButtonKeepsWindowAsWritten | NotificationPopup.CloseButtonDestroysWindow |
