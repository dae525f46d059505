/** The focused-window widget of the bar: two labels, the application id and
    the window title of the focused window, shortened to a maximum number of
    characters, and the visibility of their container. The compositor query
    is a parameter: each update receives its answer. */
module ActiveClient {
  import opened Common

  /** What the compositor reports about the focused window; either field may
      be missing. */
  datatype Window = Window(appId: Option<string>, title: Option<string>)

  /** A failed compositor query; its details are not shown. */
  datatype NiriError = NiriError

  /** The answer of `niri::get_focused_window`: a window, no window, or an
      error. */
  type FocusQuery = Result<Option<Window>, NiriError>

  /** The character appended to a shortened text. */
  const Ellipsis: char := '\U{2026}'

  /** `truncate_text`: a text of more than `max` characters keeps its first
      `max` characters, followed by an ellipsis; a shorter one is unchanged. */
  function TruncateText(text: string, max: nat): (r: string)
    ensures |r| <= max + 1 && |r| <= |text| + 1
    ensures |text| <= max ==> r == text
    ensures |text| > max ==> |r| == max + 1 && r[..max] == text[..max] && r[max] == Ellipsis
  {
    if |text| > max then text[..max] + [Ellipsis] else text
  }

  /** Shortening a shortened text changes nothing. */
  lemma TruncateIdempotent(text: string, max: nat)
    ensures TruncateText(TruncateText(text, max), max) == TruncateText(text, max)
  {
    if |text| > max {
      var r := text[..max] + [Ellipsis];
      assert r[..max] == text[..max];
    }
  }

  /** The closure of the update timer shortens its texts by the same rule as
      `truncate_text`, written out again over a captured maximum. */
  function TruncateInTimer(maxLen: nat): (truncate: string -> string)
    ensures forall text :: truncate(text) == TruncateText(text, maxLen)
  {
    text => if |text| > maxLen then text[..maxLen] + [Ellipsis] else text
  }

  /** What the widget shows: the two label texts and whether the container
      is visible. */
  datatype Shown = Shown(appId: string, title: string, visible: bool)

  /** The labels of `update_labels` for one compositor answer. */
  function ShownFor(info: FocusQuery, max: nat): (s: Shown)
    ensures s.visible <==> info.Ok?
    ensures info.Err? ==> s == Shown("", "Error", false)
    ensures info == Ok(None) ==> s == Shown("niri", "Desktop", true)
    ensures info.Ok? && info.value.Some? ==>
      && s.appId == TruncateText(info.value.value.appId.GetOr(""), max)
      && s.title == TruncateText(info.value.value.title.GetOr(""), max)
  {
    match info
    case Ok(Some(window)) =>
      Shown(TruncateText(window.appId.GetOr(""), max), TruncateText(window.title.GetOr(""), max), true)
    case Ok(None) => Shown("niri", "Desktop", true)
    case Err(_) => Shown("", "Error", false)
  }

  /** A shown window never takes more than `max` characters and an ellipsis
      per label, and a window without an id or title shows an empty label. */
  lemma ShownWindowBounded(window: Window, max: nat)
    ensures var s := ShownFor(Ok(Some(window)), max);
      |s.appId| <= max + 1 && |s.title| <= max + 1
      && (window.appId.None? ==> s.appId == "")
      && (window.title.None? ==> s.title == "")
  {
  }

  /** Showing the same answer twice is the same as showing it once. */
  lemma ShownStable(info: FocusQuery, max: nat)
    ensures info.Ok? && info.value.Some? ==>
      var s := ShownFor(info, max);
      ShownFor(Ok(Some(Window(Some(s.appId), Some(s.title)))), max) == s
  {
    if info.Ok? && info.value.Some? {
      TruncateIdempotent(info.value.value.appId.GetOr(""), max);
      TruncateIdempotent(info.value.value.title.GetOr(""), max);
    }
  }

  /** `ActiveClientWidget`: the two labels, the container's visibility and
      the maximum text length. */
  class ActiveClientWidget {
    var appIdText: string
    var titleText: string
    var visible: bool
    const maxTextLength: nat

    function Current(): Shown
      reads this
    {
      Shown(appIdText, titleText, visible)
    }

    /** `ActiveClientWidget::new`: the labels start from a first compositor
        query; the update timer is left to `TimerTick`. */
    constructor(maxTextLength: nat, first: FocusQuery)
      ensures this.maxTextLength == maxTextLength
      ensures Current() == ShownFor(first, maxTextLength)
    {
      this.maxTextLength := maxTextLength;
      new;
      UpdateLabels(first);
    }

    /** `update_labels` */
    method UpdateLabels(info: FocusQuery)
      modifies this
      ensures Current() == ShownFor(info, maxTextLength)
    {
      match info
      case Ok(Some(window)) =>
        var appId := window.appId.GetOr("");
        var title := window.title.GetOr("");
        appIdText := TruncateText(appId, maxTextLength);
        titleText := TruncateText(title, maxTextLength);
        visible := true;
      case Ok(None) =>
        appIdText := "niri";
        titleText := "Desktop";
        visible := true;
      case Err(_) =>
        appIdText := "";
        titleText := "Error";
        visible := false;
    }

    /** One run of the update timer: the same table as `update_labels`, with
        the closure's own truncation; the timer always continues. */
    method TimerTick(info: FocusQuery) returns (continueTimer: bool)
      modifies this
      ensures Current() == ShownFor(info, maxTextLength)
      ensures continueTimer
    {
      var truncate := TruncateInTimer(maxTextLength);
      match info {
        case Ok(Some(window)) =>
          var appId := window.appId.GetOr("");
          var title := window.title.GetOr("");
          appIdText := truncate(appId);
          titleText := truncate(title);
          visible := true;
        case Ok(None) =>
          appIdText := "niri";
          titleText := "Desktop";
          visible := true;
        case Err(_) =>
          appIdText := "";
          titleText := "Error";
          visible := false;
      }
      continueTimer := true;
    }
  }
}
