/** The distribution logo lookup: the `os-release(5)` file read as
    `KEY=value` lines, and the icon name chosen from it. */
module Distro {
  import opened Common
  import opened Text

  /** `DistroInfoError`: a failure to read the file, or a line that is not
      an assignment (carried trimmed). */
  datatype DistroInfoError = Io | ParseError(line: string)

  /** One item of the line iterator: a line, or a read error. */
  datatype LineRead = Read(text: string) | ReadFailed

  /** `/etc/os-release` as the program finds it: not there, there but not
      openable, or opened with its sequence of lines. */
  datatype OsReleaseFile = Absent | Unopenable | Opened(lines: seq<LineRead>)

  /** What one item of the line iterator does to the variables. */
  datatype LineEffect =
    | Skip
    | Assign(key: string, value: string)
    | Malformed(line: string)
    | Unreadable

  /** A value with neither a single quote at either end. */
  predicate Unquoted(v: string) {
    v != [] ==> v[0] != '\'' && v[|v| - 1] != '\''
  }

  /** Every character of `s` is a double or a single quote. */
  predicate IsQuotes(s: string) {
    forall k :: 0 <= k < |s| ==> s[k] == '"' || s[k] == '\''
  }

  /** The value part of an assignment: trimmed, then stripped of double
      quotes at both ends, then of single quotes. What is left is the part
      of the trimmed value between two runs of quotes. */
  function CleanValue(v: string): (r: string)
    ensures Unquoted(r) && |r| <= |v|
  {
    TrimMatches(TrimMatches(Trim(v), '"'), '\'')
  }

  /** Cleaning cuts only quotes: the value is the part of the trimmed text
      between two runs of quotes. */
  lemma CleanValueSlice(v: string)
    ensures var t := Trim(v);
      exists i, j :: 0 <= i <= j <= |t| && CleanValue(v) == t[i..j] && IsQuotes(t[..i]) && IsQuotes(t[j..])
  {
    UnquoteSlice(Trim(v));
  }

  lemma UnquoteSlice(t: string)
    ensures exists i, j :: (0 <= i <= j <= |t| && TrimMatches(TrimMatches(t, '"'), '\'') == t[i..j]
      && IsQuotes(t[..i]) && IsQuotes(t[j..]))
  {
    var u := TrimMatches(t, '"');
    var i1, j1 := TrimMatchesBounds(t, '"');
    var r := TrimMatches(u, '\'');
    var i2, j2 := TrimMatchesBounds(u, '\'');
    var i, j := QuoteRuns(t, u, r, i1, j1, i2, j2);
  }

  /** Cutting runs of double quotes and then runs of single quotes from a
      text cuts runs of quotes. */
  lemma QuoteRuns(t: string, u: string, r: string, i1: nat, j1: nat, i2: nat, j2: nat) returns (i: nat, j: nat)
    requires i1 <= j1 <= |t| && u == t[i1..j1] && i2 <= j2 <= |u| && r == u[i2..j2]
    requires forall k :: 0 <= k < i1 ==> t[k] == '"'
    requires forall k :: j1 <= k < |t| ==> t[k] == '"'
    requires forall k :: 0 <= k < i2 ==> u[k] == '\''
    requires forall k :: j2 <= k < |u| ==> u[k] == '\''
    ensures i <= j <= |t| && r == t[i..j] && IsQuotes(t[..i]) && IsQuotes(t[j..])
  {
    i, j := i1 + i2, i1 + j2;
    forall k | 0 <= k < i ensures t[..i][k] == '"' || t[..i][k] == '\'' {
      if k >= i1 { assert t[k] == u[k - i1]; }
    }
    forall k | 0 <= k < |t| - j ensures t[j..][k] == '"' || t[j..][k] == '\'' {
      if j + k < j1 { assert t[j + k] == u[j2 + k]; }
    }
    forall k | 0 <= k < |r| ensures r[k] == t[i + k] {
      assert r[k] == u[i2 + k] == t[i1 + i2 + k];
    }
    assert r == t[i..j];
  }

  /** One trimmed line of the loop of `parse_os_release`: empty and '#'
      lines are skipped, a line is cut at its first '=' into a trimmed key
      and a cleaned value, and a line with no '=' is an error carrying it. */
  function Classify(line: string): (e: LineEffect)
    ensures !e.Unreadable?
    ensures e.Skip? <==> line == [] || line[0] == '#'
    ensures e.Malformed? <==> !e.Skip? && '=' !in line
    ensures e.Malformed? ==> e.line == line
    ensures e.Assign? ==> IsTrimmed(e.key) && '=' !in e.key && Unquoted(e.value)
    ensures e.Assign? ==> exists i :: (0 <= i < |line| && line[i] == '=' && '=' !in line[..i]
      && e.key == Trim(line[..i]) && e.value == CleanValue(line[i + 1..]))
  {
    if line == [] || line[0] == '#' then Skip
    else
      var parts := SplitOnce(line, '=');
      if parts.None? then Malformed(line)
      else
        TrimAvoids(parts.value.0, '=');
        var i := |parts.value.0|;
        assert line[i] == '=' && line[..i] == parts.value.0 && line[i + 1..] == parts.value.1;
        Assign(Trim(parts.value.0), CleanValue(parts.value.1))
  }

  /** The effect of one item: a read error, or the trimmed line classified. */
  function EffectOf(item: LineRead): (e: LineEffect)
    ensures e.Unreadable? <==> item.ReadFailed?
  {
    match item
    case ReadFailed => Unreadable
    case Read(text) => Classify(Trim(text))
  }

  /** The effects of the items, one for one. */
  function EffectsOf(lines: seq<LineRead>): (r: seq<LineEffect>)
    ensures |r| == |lines|
    ensures forall i :: 0 <= i < |lines| ==> r[i] == EffectOf(lines[i])
  {
    seq(|lines|, i requires 0 <= i < |lines| => EffectOf(lines[i]))
  }

  /** The variables after one more effect. */
  function Apply(vars: map<string, string>, e: LineEffect): (r: Result<map<string, string>, DistroInfoError>)
    ensures r.Ok? <==> e.Skip? || e.Assign?
  {
    match e
    case Skip => Ok(vars)
    case Assign(key, value) => Ok(vars[key := value])
    case Malformed(line) => Err(ParseError(line))
    case Unreadable => Err(Io)
  }

  /** The variables of a sequence of effects, or the error of the first one
      that is a read error or a malformed line. */
  function Run(effects: seq<LineEffect>): (r: Result<map<string, string>, DistroInfoError>)
    ensures r.Ok? <==> forall i :: 0 <= i < |effects| ==> Accepted(effects[i])
  {
    if effects == [] then Ok(map[])
    else
      var init := effects[..|effects| - 1];
      assert forall i :: 0 <= i < |init| ==> init[i] == effects[i];
      match Run(init)
      case Err(e) => Err(e)
      case Ok(vars) => Apply(vars, effects[|effects| - 1])
  }

  /** `parse_os_release`: opening fails for a missing or unopenable file. */
  function OsRelease(file: OsReleaseFile): (r: Result<map<string, string>, DistroInfoError>)
    ensures !file.Opened? ==> r == Err(Io)
  {
    match file
    case Opened(lines) => Run(EffectsOf(lines))
    case _ => Err(Io)
  }

  /** An effect the loop gets past. */
  predicate Accepted(e: LineEffect) {
    e.Skip? || e.Assign?
  }

  /** The error an effect that is not accepted stops the loop with. */
  function Rejection(e: LineEffect): DistroInfoError
    requires !Accepted(e)
  {
    if e.Unreadable? then Io else ParseError(e.line)
  }

  /** A failed parse reports the first line that is not accepted. */
  lemma {:induction false} RunFailsAtFirst(effects: seq<LineEffect>)
    requires Run(effects).Err?
    ensures exists i :: (0 <= i < |effects| && !Accepted(effects[i])
      && (forall j :: 0 <= j < i ==> Accepted(effects[j]))
      && Run(effects).error == Rejection(effects[i]))
  {
    var n := |effects| - 1;
    var init := effects[..n];
    assert forall i :: 0 <= i < n ==> init[i] == effects[i];
    if Run(init).Err? {
      RunFailsAtFirst(init);
      var i :| 0 <= i < n && !Accepted(init[i]) && (forall j :: 0 <= j < i ==> Accepted(init[j]))
        && Run(init).error == Rejection(init[i]);
      assert Run(effects).error == Run(init).error;
      assert !Accepted(effects[i]) && forall j :: 0 <= j < i ==> Accepted(effects[j]);
    } else {
      assert !Accepted(effects[n]);
      assert forall j :: 0 <= j < n ==> Accepted(effects[j]);
    }
  }

  /** The effect `e` assigns `key`. */
  predicate Assigns(e: LineEffect, key: string) {
    e.Assign? && e.key == key
  }

  /** Exactly the keys some line assigns are present. */
  lemma {:induction false} AssignedKeys(effects: seq<LineEffect>, key: string)
    requires Run(effects).Ok?
    ensures key in Run(effects).value <==> exists i :: 0 <= i < |effects| && Assigns(effects[i], key)
  {
    if effects != [] {
      var n := |effects| - 1;
      var init := effects[..n];
      assert forall i :: 0 <= i < n ==> init[i] == effects[i];
      AssignedKeys(init, key);
      assert key in Run(effects).value <==> key in Run(init).value || Assigns(effects[n], key);
    }
  }

  /** A key holds the value of the last line that assigns it. */
  lemma {:induction false} LastAssignmentWins(effects: seq<LineEffect>, key: string)
    requires Run(effects).Ok? && key in Run(effects).value
    ensures exists i :: (0 <= i < |effects| && Assigns(effects[i], key)
      && effects[i].value == Run(effects).value[key]
      && forall j :: i < j < |effects| ==> !Assigns(effects[j], key))
  {
    var n := |effects| - 1;
    if Assigns(effects[n], key) {
      assert Run(effects).value[key] == effects[n].value;
    } else {
      var init := effects[..n];
      assert forall i :: 0 <= i < n ==> init[i] == effects[i];
      var vars := Run(init).value;
      assert Run(effects).value == vars || Run(effects).value == vars[effects[n].key := effects[n].value];
      LastAssignmentWins(init, key);
    }
  }

  /** A line written `KEY=raw`, for a trimmed key without '=' that does not
      start a comment and a raw value that does not end in whitespace, is
      the assignment of the cleaned raw value to the key. */
  lemma AssignmentLine(key: string, raw: string)
    requires key != [] && key[0] != '#' && IsTrimmed(key) && '=' !in key
    requires raw != [] ==> !IsWhitespace(raw[|raw| - 1])
    ensures EffectOf(Read(key + "=" + raw)) == Assign(key, CleanValue(raw))
  {
    var line := key + "=" + raw;
    assert line == key + ['='] + raw;
    assert line[0] == key[0];
    assert line[|line| - 1] == if raw == [] then '=' else raw[|raw| - 1];
    TrimOfTrimmed(line);
    SplitOnceAt(key, '=', raw);
    TrimOfTrimmed(key);
  }

  /** A line written `KEY=value`, for a key as above and a trimmed value
      without quotes at its ends, reads back as that assignment. */
  lemma AssignmentReadsBack(key: string, value: string)
    requires key != [] && key[0] != '#' && IsTrimmed(key) && '=' !in key
    requires IsTrimmed(value) && Unquoted(value)
    requires value != [] ==> value[0] != '"' && value[|value| - 1] != '"'
    ensures EffectOf(Read(key + "=" + value)) == Assign(key, value)
  {
    AssignmentLine(key, value);
    TrimOfTrimmed(value);
    TrimMatchesNothing(value, '"');
    TrimMatchesNothing(value, '\'');
  }

  /** A line written `KEY="value"`, for a key as above and a value that does
      not start or end with a double quote nor with a single quote, reads
      back as that assignment with the value as written between the quotes. */
  lemma QuotedAssignmentReadsBack(key: string, value: string)
    requires key != [] && key[0] != '#' && IsTrimmed(key) && '=' !in key
    requires Unquoted(value) && (value != [] ==> value[0] != '"' && value[|value| - 1] != '"')
    ensures EffectOf(Read(key + "=" + ("\"" + value + "\""))) == Assign(key, value)
  {
    var quoted := ['"'] + value + ['"'];
    assert "\"" + value + "\"" == quoted;
    assert quoted[0] == '"' && quoted[|quoted| - 1] == '"';
    AssignmentLine(key, quoted);
    TrimOfTrimmed(quoted);
    TrimMatchesEnclosed(value, '"');
    TrimMatchesNothing(value, '\'');
  }

  /** `parse_os_release` over the opened file: the loop stops at the first
      read error or malformed line. */
  method ParseOsRelease(file: OsReleaseFile) returns (r: Result<map<string, string>, DistroInfoError>)
    ensures r == OsRelease(file)
  {
    if !file.Opened? {
      return Err(Io);
    }
    var lines := file.lines;
    ghost var effects := EffectsOf(lines);
    var vars: map<string, string> := map[];
    var k := 0;
    while k < |lines|
      invariant k <= |lines|
      invariant Run(effects[..k]) == Ok(vars)
    {
      PrefixStep(effects, k);
      var next := ReadItem(vars, lines[k]);
      if next.Err? {
        RunStops(effects, k + 1);
        return next;
      }
      vars := next.value;
      k := k + 1;
    }
    assert effects[..k] == effects;
    return Ok(vars);
  }

  /** Once a prefix fails, so does the whole sequence, with the same error. */
  lemma {:induction false} RunStops(effects: seq<LineEffect>, k: nat)
    requires k <= |effects| && Run(effects[..k]).Err?
    ensures Run(effects) == Run(effects[..k])
    decreases |effects| - k
  {
    if k < |effects| {
      PrefixStep(effects, k);
      RunStops(effects, k + 1);
    } else {
      assert effects[..k] == effects;
    }
  }

  /** The body of the loop of `parse_os_release`: the line is trimmed,
      skipped, cut at its first '=' and inserted, or rejected. */
  method ReadItem(vars: map<string, string>, item: LineRead) returns (r: Result<map<string, string>, DistroInfoError>)
    ensures r == Apply(vars, EffectOf(item))
  {
    if item.ReadFailed? {
      return Err(Io);
    }
    var line := Trim(item.text);
    if line == [] || line[0] == '#' {
      return Ok(vars);
    }
    match SplitOnce(line, '=')
    case Some((key, value)) =>
      r := Ok(vars[Trim(key) := CleanValue(value)]);
    case None =>
      r := Err(ParseError(line));
  }

  /** The icon choice of `get_distro_icon_name`: a non-empty `LOGO`, else a
      non-empty `ID`, else none. */
  function IconFromVars(vars: map<string, string>): (r: Option<string>)
    ensures r.Some? ==> r.value != []
    ensures "LOGO" in vars && vars["LOGO"] != [] ==> r == Some(vars["LOGO"])
    ensures !("LOGO" in vars && vars["LOGO"] != []) && "ID" in vars && vars["ID"] != [] ==> r == Some(vars["ID"])
    ensures r.None? <==> !("LOGO" in vars && vars["LOGO"] != []) && !("ID" in vars && vars["ID"] != [])
  {
    if "LOGO" in vars && vars["LOGO"] != [] then Some(vars["LOGO"])
    else if "ID" in vars && vars["ID"] != [] then Some(vars["ID"])
    else None
  }

  /** `get_distro_icon_name`: no file means no icon; otherwise the errors of
      `parse_os_release` pass through. */
  function DistroIconName(file: OsReleaseFile): (r: Result<Option<string>, DistroInfoError>)
    ensures file.Absent? ==> r == Ok(None)
    ensures file.Unopenable? ==> r == Err(Io)
    ensures file.Opened? ==> (r.Err? <==> OsRelease(file).Err?)
    ensures file.Opened? && OsRelease(file).Err? ==> r == Err(OsRelease(file).error)
    ensures file.Opened? && OsRelease(file).Ok? ==> r == Ok(IconFromVars(OsRelease(file).value))
  {
    if file.Absent? then Ok(None)
    else
      match OsRelease(file)
      case Err(e) => Err(e)
      case Ok(vars) => Ok(IconFromVars(vars))
  }
}
