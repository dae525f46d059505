/** The application resolver: desktop entries (the freedesktop.org Desktop
    Entry Specification, sections "Recognized desktop entry keys" and "The
    Exec key") parsed from their text, registered under their lower-cased
    name, command and desktop id, and looked up by exact key or by a fuzzy
    score. The directory scan that finds the files is left out; a file is
    given as its content and its file stem. */
module Apps {
  import opened Common
  import opened Text

  /** `AppInfo` */
  datatype AppInfo = AppInfo(
    desktopId: string,
    name: string,
    icon: string,
    exec: string,
    genericName: Option<string>,
    keywords: seq<string>)

  const DefaultIcon := "application-x-executable"

  // ---------------------------------------------------------------------
  // The Exec key
  // ---------------------------------------------------------------------

  /** A field code of the Exec key, such as `%u` or `%F`. */
  predicate IsFieldCode(w: string) {
    w != [] && w[0] == '%'
  }

  /** A word that `clean_exec` keeps. */
  predicate IsCommandWord(w: string) {
    !IsFieldCode(w)
  }

  /** The words that are not field codes, in order. */
  function DropFieldCodes(ws: seq<string>): (r: seq<string>)
    ensures Kept(r, ws, IsCommandWord)
    ensures forall w :: w in r <==> w in ws && !IsFieldCode(w)
    ensures WellFormedTokens(ws, IsWhitespace) ==> WellFormedTokens(r, IsWhitespace)
  {
    if ws == [] then []
    else
      var rest := DropFieldCodes(ws[1..]);
      KeptCons(ws, rest, IsCommandWord);
      if IsFieldCode(ws[0]) then rest else [ws[0]] + rest
  }

  /** Words without field codes are all kept. */
  lemma {:induction false} DropNoFieldCodes(ws: seq<string>)
    requires forall i :: 0 <= i < |ws| ==> !IsFieldCode(ws[i])
    ensures DropFieldCodes(ws) == ws
  {
    if ws != [] {
      DropNoFieldCodes(ws[1..]);
    }
  }

  /** `clean_exec`: the whitespace-separated words of the command line without
      its field codes. */
  function CleanExec(exec: string): (r: seq<string>)
    ensures WellFormedTokens(r, IsWhitespace)
    ensures forall w :: w in r <==> w in SplitWhitespace(exec) && !IsFieldCode(w)
    ensures Kept(r, SplitWhitespace(exec), IsCommandWord)
  {
    DropFieldCodes(SplitWhitespace(exec))
  }

  /** Words joined by spaces come back from `clean_exec` when none of them is
      a field code. */
  lemma CleanExecOfJoin(ws: seq<string>)
    requires WellFormedTokens(ws, IsWhitespace)
    requires forall i :: 0 <= i < |ws| ==> !IsFieldCode(ws[i])
    ensures CleanExec(Join(ws, ' ')) == ws
  {
    TokensOfJoin(ws, ' ', IsWhitespace);
    DropNoFieldCodes(ws);
  }

  /** The field codes and browser flags that `extract_command_name` removes,
      in the order it removes them. */
  const RemovedPatterns: seq<string> :=
    ["%u", "%U", "%f", "%F", "--new-window", "--incognito", "--private-window"]

  /** The four file and URL field codes removed from an `Exec=` value. */
  function StripFileCodes(s: string): string {
    ReplaceAll(ReplaceAll(ReplaceAll(ReplaceAll(s, "%u", ""), "%U", ""), "%f", ""), "%F", "")
  }

  /** `s` with the field codes and browser flags removed. */
  function StripLaunchArguments(s: string): string {
    ReplaceAll(ReplaceAll(ReplaceAll(StripFileCodes(s), "--new-window", ""), "--incognito", ""),
      "--private-window", "")
  }

  /** Removing the field codes never lengthens the command line and brings
      in no character it did not hold; a line without '%' stays as it is. */
  lemma StripFileCodesDeletes(s: string)
    ensures var r := StripFileCodes(s);
      |r| <= |s| && (forall c :: c in r ==> c in s) && ('%' !in s ==> r == s)
  {
    var t1 := ReplaceAll(s, "%u", "");
    var t2 := ReplaceAll(t1, "%U", "");
    var t3 := ReplaceAll(t2, "%f", "");
    ReplaceAllShrinks(s, "%u", "");
    ReplaceAllShrinks(t1, "%U", "");
    ReplaceAllShrinks(t2, "%f", "");
    ReplaceAllShrinks(t3, "%F", "");
  }

  /** Removing the field codes and browser flags never lengthens the command
      line and brings in no character it did not hold; a line without '%' and
      '-' stays as it is. */
  lemma StripLaunchArgumentsDeletes(s: string)
    ensures var r := StripLaunchArguments(s);
      |r| <= |s| && (forall c :: c in r ==> c in s) && ('%' !in s && '-' !in s ==> r == s)
  {
    StripFileCodesDeletes(s);
    var t1 := StripFileCodes(s);
    var t2 := ReplaceAll(t1, "--new-window", "");
    var t3 := ReplaceAll(t2, "--incognito", "");
    ReplaceAllShrinks(t1, "--new-window", "");
    ReplaceAllShrinks(t2, "--incognito", "");
    ReplaceAllShrinks(t3, "--private-window", "");
  }

  /** `extract_command_name`: the command name of the command line once the
      field codes and browser flags are removed. */
  function ExtractCommandName(exec: string): (r: string)
    ensures '/' !in r
    ensures forall i :: 0 <= i < |r| ==> !IsWhitespace(r[i])
  {
    CommandName(StripLaunchArguments(exec))
  }

  /** The last path segment of the first word, and the empty name for a blank
      command line; it never holds a '/' nor whitespace. */
  function CommandName(s: string): (r: string)
    ensures SplitWhitespace(s) != [] ==> r == LastSegment(SplitWhitespace(s)[0], '/')
    ensures SplitWhitespace(s) == [] ==> r == []
    ensures '/' !in r
    ensures forall i :: 0 <= i < |r| ==> !IsWhitespace(r[i])
  {
    var trimmed := Trim(s);
    var words := SplitWhitespace(trimmed);
    var command := if words == [] then trimmed else words[0];
    FirstWord(s);
    var r := LastSegment(command, '/');
    SuffixAvoidsWhitespace(command, r);
    r
  }

  /** The words of a trimmed string are those of the string, and there are
      none only when the trimmed string is empty. */
  lemma FirstWord(s: string)
    ensures var trimmed := Trim(s);
      && SplitWhitespace(trimmed) == SplitWhitespace(s)
      && (SplitWhitespace(trimmed) == [] ==> trimmed == [])
      && (SplitWhitespace(trimmed) != [] ==> forall i :: 0 <= i < |SplitWhitespace(trimmed)[0]| ==>
            !IsWhitespace(SplitWhitespace(trimmed)[0][i]))
  {
    var trimmed := Trim(s);
    assert trimmed != [] ==> SkipSeparators(trimmed, IsWhitespace) == trimmed;
    TokensOfTrim(s);
  }

  /** A suffix of a word without whitespace has none either. */
  lemma SuffixAvoidsWhitespace(w: string, r: string)
    requires EndsWith(w, r) && forall i :: 0 <= i < |w| ==> !IsWhitespace(w[i])
    ensures forall i :: 0 <= i < |r| ==> !IsWhitespace(r[i])
  {
    forall i | 0 <= i < |r| ensures !IsWhitespace(r[i]) {
      assert r[i] == w[|w| - |r| + i];
    }
  }

  /** `str::replace` leaves a string without the pattern unchanged. */
  lemma {:induction false} ReplaceAbsent(s: string, pat: string, rep: string)
    requires pat != [] && !Contains(s, pat)
    ensures ReplaceAll(s, pat, rep) == s
    decreases |s|
  {
    if |s| >= |pat| {
      ReplaceAbsent(s[1..], pat, rep);
      assert [s[0]] + s[1..] == s;
    }
  }

  /** On a command line that holds none of the removed patterns, the command
      name is the last '/'-segment of the first word, and a blank command
      line gives the empty name. */
  lemma ExtractPlainCommand(exec: string)
    requires forall i :: 0 <= i < |RemovedPatterns| ==> !Contains(exec, RemovedPatterns[i])
    ensures SplitWhitespace(exec) != [] ==>
      ExtractCommandName(exec) == LastSegment(SplitWhitespace(exec)[0], '/')
    ensures SplitWhitespace(exec) == [] ==> ExtractCommandName(exec) == []
  {
    assert !Contains(exec, RemovedPatterns[0]) && !Contains(exec, RemovedPatterns[1]);
    assert !Contains(exec, RemovedPatterns[2]) && !Contains(exec, RemovedPatterns[3]);
    assert !Contains(exec, RemovedPatterns[4]) && !Contains(exec, RemovedPatterns[5]);
    assert !Contains(exec, RemovedPatterns[6]);
    ReplaceAbsent(exec, "%u", "");
    ReplaceAbsent(exec, "%U", "");
    ReplaceAbsent(exec, "%f", "");
    ReplaceAbsent(exec, "%F", "");
    ReplaceAbsent(exec, "--new-window", "");
    ReplaceAbsent(exec, "--incognito", "");
    ReplaceAbsent(exec, "--private-window", "");
    assert StripLaunchArguments(exec) == exec;
  }

  /** The four file and URL field codes. */
  const FileCodes: seq<string> := ["%u", "%U", "%f", "%F"]

  /** A command followed by a space and a field code, the everyday form of an
      `Exec=` value such as `firefox %u`, loses the field code and keeps the
      space. */
  lemma StripTrailingFileCode(cmd: string, code: string)
    requires '%' !in cmd && code in FileCodes
    ensures StripFileCodes(cmd + " " + code) == cmd + " "
  {
    assert cmd + " " + code == cmd + (" " + code);
    var t := " " + code;
    ReplaceAfterFree(cmd, t, "%u", "");
    var t1 := ReplaceAll(t, "%u", "");
    ReplaceSpaceCode(code, "%u");
    ReplaceAfterFree(cmd, t1, "%U", "");
    var t2 := ReplaceAll(t1, "%U", "");
    ReplaceSpaceCode(code, "%U");
    ReplaceAfterFree(cmd, t2, "%f", "");
    var t3 := ReplaceAll(t2, "%f", "");
    ReplaceSpaceCode(code, "%f");
    ReplaceAfterFree(cmd, t3, "%F", "");
    ReplaceSpaceCode(code, "%F");
  }

  /** `str::replace` passes over a prefix that cannot start the pattern. */
  lemma {:induction false} ReplaceAfterFree(a: string, b: string, pat: string, rep: string)
    requires pat != [] && pat[0] !in a
    ensures ReplaceAll(a + b, pat, rep) == a + ReplaceAll(b, pat, rep)
    decreases |a|
  {
    if a != [] {
      var s := a + b;
      assert s[0] == a[0] != pat[0];
      assert |s| >= |pat| ==> s[..|pat|] != pat;
      assert s[1..] == a[1..] + b;
      ReplaceAfterFree(a[1..], b, pat, rep);
      assert [a[0]] + (a[1..] + ReplaceAll(b, pat, rep)) == a + ReplaceAll(b, pat, rep);
    } else {
      assert a + b == b;
    }
  }

  /** Removing one two-character field code from a space and a field code,
      or from a lone space. */
  lemma ReplaceSpaceCode(code: string, pat: string)
    requires code in FileCodes && pat in FileCodes
    ensures ReplaceAll(" " + code, pat, "") == if code == pat then " " else " " + code
    ensures ReplaceAll(" ", pat, "") == " "
  {
    assert code == "%u" || code == "%U" || code == "%f" || code == "%F";
    assert pat == "%u" || pat == "%U" || pat == "%f" || pat == "%F";
    var s := " " + code;
    assert s[0] == ' ' && pat[0] == '%';
    assert s[..2] != pat;
    assert s[1..] == code;
    if code == pat {
      assert code[2..] == [];
    } else {
      assert code[1..] == [code[1]];
    }
  }

  /** `clean_exec`'s sibling on the `Exec=` key: a trailing field code goes,
      and so does the space before it. */
  lemma ExecValueDropsFileCode(cmd: string, code: string)
    requires '%' !in cmd && IsTrimmed(cmd) && code in FileCodes
    ensures ExecValue(cmd + " " + code) == cmd
  {
    StripTrailingFileCode(cmd, code);
    TrimOfSpaced(cmd);
  }

  /** A trimmed string with one more space trims back to itself. */
  lemma TrimOfSpaced(cmd: string)
    requires IsTrimmed(cmd)
    ensures Trim(cmd + " ") == cmd
  {
    var s := cmd + " ";
    if cmd == [] {
      assert IsBlank(s);
    } else {
      assert s[0] == cmd[0];
      assert TrimStart(s) == s;
      assert s[..|s| - 1] == cmd;
      assert TrimEnd(s) == TrimEnd(cmd) == cmd;
    }
  }

  /** The command name of `firefox %u`-like command lines: a word free of
      whitespace, '%' and the browser flags, then a field code, gives the
      word's last '/'-segment. */
  lemma ExtractCommandNameDropsFileCode(cmd: string, code: string)
    requires cmd != [] && Avoids(cmd, IsWhitespace) && '%' !in cmd && code in FileCodes
    requires !Contains(cmd, "--new-window") && !Contains(cmd, "--incognito")
    requires !Contains(cmd, "--private-window")
    ensures ExtractCommandName(cmd + " " + code) == LastSegment(cmd, '/')
  {
    StripTrailingLaunchArguments(cmd, code);
    WordThenSpace(cmd);
  }

  lemma StripTrailingLaunchArguments(cmd: string, code: string)
    requires '%' !in cmd && code in FileCodes
    requires !Contains(cmd, "--new-window") && !Contains(cmd, "--incognito")
    requires !Contains(cmd, "--private-window")
    ensures StripLaunchArguments(cmd + " " + code) == cmd + " "
  {
    StripTrailingFileCode(cmd, code);
    var spaced := cmd + " ";
    ContainsWithSpace(cmd, "--new-window");
    ContainsWithSpace(cmd, "--incognito");
    ContainsWithSpace(cmd, "--private-window");
    ReplaceAbsent(spaced, "--new-window", "");
    ReplaceAbsent(spaced, "--incognito", "");
    ReplaceAbsent(spaced, "--private-window", "");
  }

  /** A word and a space split into the word alone. */
  lemma WordThenSpace(w: string)
    requires w != [] && Avoids(w, IsWhitespace)
    ensures SplitWhitespace(w + " ") == [w]
  {
    TokensOfWord(w, " ", IsWhitespace);
    assert " "[1..] == [];
    assert Tokens(" ", IsWhitespace) == [];
  }

  /** One more space adds no occurrence of a pattern without spaces. */
  lemma {:induction false} ContainsWithSpace(a: string, p: string)
    requires p != [] && ' ' !in p && !Contains(a, p)
    ensures !Contains(a + " ", p)
    decreases |a|
  {
    var s := a + " ";
    if |p| <= |a| {
      assert s[..|p|] == a[..|p|];
    } else if |p| == |s| {
      assert s[|s| - 1] == ' ';
      assert s[..|p|] == s;
    }
    if a != [] {
      assert s[1..] == a[1..] + " ";
      ContainsWithSpace(a[1..], p);
    } else {
      assert s[1..] == [];
    }
  }

  // ---------------------------------------------------------------------
  // Desktop files
  // ---------------------------------------------------------------------

  /** `str::lines` as far as trimmed lines are concerned: the pieces between
      line feeds, without the empty piece after a final line feed. A carriage
      return before a line feed is whitespace, which trimming removes. */
  function Lines(content: string): (r: seq<string>)
    ensures forall i :: 0 <= i < |r| ==> '\n' !in r[i]
  {
    var pieces := Split(content, '\n');
    if pieces[|pieces| - 1] == [] then pieces[..|pieces| - 1] else pieces
  }

  /** The lines joined by line feeds give the content back, up to one final
      line feed. */
  lemma LinesJoin(content: string)
    ensures Join(Lines(content), '\n') == content || Join(Lines(content), '\n') + "\n" == content
  {
    var pieces := Split(content, '\n');
    JoinSplit(content, '\n');
    if pieces[|pieces| - 1] == [] && |pieces| > 1 {
      var init := pieces[..|pieces| - 1];
      assert pieces == init + [[]];
      JoinSnoc(init, [], '\n');
    }
  }

  lemma {:induction false} JoinSnoc(ws: seq<string>, w: string, c: char)
    requires ws != []
    ensures Join(ws + [w], c) == Join(ws, c) + [c] + w
    decreases |ws|
  {
    if |ws| > 1 {
      assert (ws + [w])[1..] == ws[1..] + [w];
      JoinSnoc(ws[1..], w, c);
    }
  }

  /** What a trimmed line of a desktop file is, checked in the order of
      `parse_desktop_file`; the payload is the text after the key's '='. */
  datatype LineKind =
    | EntryHeader
    | OtherHeader
    | NameKey(value: string)
    | IconKey(value: string)
    | ExecKey(value: string)
    | GenericNameKey(value: string)
    | KeywordsKey(value: string)
    | NoDisplayTrue
    | TypeKey(value: string)
    | OtherLine

  /** The test chain of the parsing loop. Localised `Name[..]=` and
      `GenericName[..]=` keys are skipped. */
  function Classify(line: string): (k: LineKind)
    ensures k == EntryHeader <==> line == "[Desktop Entry]"
    ensures WellClassified(k)
  {
    if line == "[Desktop Entry]" then EntryHeader
    else if StartsWith(line, "[") && EndsWith(line, "]") then OtherHeader
    else if StartsWith(line, "Name=") && '[' !in line then NameKey(line[5..])
    else if StartsWith(line, "Icon=") then IconKey(line[5..])
    else if StartsWith(line, "Exec=") then ExecKey(line[5..])
    else if StartsWith(line, "GenericName=") && '[' !in line then GenericNameKey(line[12..])
    else if StartsWith(line, "Keywords=") then KeywordsKey(line[9..])
    else if line == "NoDisplay=true" then NoDisplayTrue
    else if StartsWith(line, "Type=") then TypeKey(line[5..])
    else OtherLine
  }

  /** An `Exec=` value without its file and URL field codes, trimmed: no
      longer than the value, and only its trim when it holds no '%'. */
  function ExecValue(v: string): (r: string)
    ensures IsTrimmed(r)
    ensures |r| <= |v|
    ensures '%' !in v ==> r == Trim(v)
  {
    StripFileCodesDeletes(v);
    Trim(StripFileCodes(v))
  }

  /** A keyword as `parse_desktop_file` keeps it: non-empty, trimmed and
      lower-case. */
  predicate IsKeyword(w: string) {
    w != [] && IsTrimmed(w) && IsLowerCase(w)
  }

  predicate IsLowerCase(s: string) {
    forall i :: 0 <= i < |s| ==> !('A' <= s[i] <= 'Z')
  }

  predicate AreKeywords(ws: seq<string>) {
    forall i :: 0 <= i < |ws| ==> IsKeyword(ws[i])
  }

  /** A `Keywords=` piece that is not blank. */
  predicate HasKeyword(p: string) {
    NormalKeyword(p) != []
  }

  /** The `Keywords=` pieces trimmed and lower-cased, the empty ones dropped:
      the normal form of every piece that is not blank, in order. */
  function KeywordsOf(pieces: seq<string>): (r: seq<string>)
    ensures |r| <= |pieces| && AreKeywords(r)
    ensures KeptMapped(r, pieces, HasKeyword, NormalKeyword)
  {
    if pieces == [] then []
    else
      var w := NormalKeyword(pieces[0]);
      var rest := KeywordsOf(pieces[1..]);
      KeptMappedCons(pieces, rest, HasKeyword, NormalKeyword);
      if w == [] then rest
      else
        KeywordsCons(w, rest);
        [w] + rest
  }

  lemma KeywordsCons(w: string, rest: seq<string>)
    requires IsKeyword(w) && AreKeywords(rest)
    ensures AreKeywords([w] + rest)
  {
    assert forall i :: 0 < i <= |rest| ==> ([w] + rest)[i] == rest[i - 1];
  }

  /** One `Keywords=` entry trimmed and lower-cased: the lower-cased part of
      the entry between a blank prefix and a blank suffix, empty exactly for
      a blank entry. */
  function NormalKeyword(p: string): (w: string)
    ensures exists i, j :: 0 <= i <= j <= |p| && w == Lower(p[i..j]) && IsBlank(p[..i]) && IsBlank(p[j..])
    ensures w == [] <==> IsBlank(p)
    ensures w != [] ==> IsKeyword(w)
  {
    var t := Trim(p);
    LowerKeepsTrimmed(t);
    TrimSlice(p);
    Lower(t)
  }

  lemma LowerKeepsTrimmed(t: string)
    requires IsTrimmed(t)
    ensures IsTrimmed(Lower(t)) && IsLowerCase(Lower(t))
  {
    var w := Lower(t);
    if t != [] {
      LowerCharClass(t[0]);
      LowerCharClass(t[|t| - 1]);
    }
    forall i | 0 <= i < |t| ensures !('A' <= w[i] <= 'Z') {
      LowerCharClass(t[i]);
    }
  }

  lemma LowerCharClass(c: char)
    ensures IsWhitespace(LowerChar(c)) == IsWhitespace(c)
    ensures !('A' <= LowerChar(c) <= 'Z')
  {
  }

  /** The value of a `Keywords=` line: the normal forms of its ';'-separated
      entries that are not blank, in order. */
  function KeywordList(value: string): (r: seq<string>)
    ensures AreKeywords(r)
    ensures KeptMapped(r, Split(value, ';'), HasKeyword, NormalKeyword)
  {
    KeywordsOf(Split(value, ';'))
  }

  /** Keywords written one after the other, each followed by ';' as desktop
      files do, read back as the same list. */
  lemma KeywordListOfTerminated(ws: seq<string>)
    requires AreKeywords(ws) && forall i :: 0 <= i < |ws| ==> ';' !in ws[i]
    ensures KeywordList(Join(ws + [[]], ';')) == ws
  {
    var last: seq<string> := [[]];
    SplitJoin(ws + last, ';');
    KeywordsOfAppend(ws, last);
    KeywordsOfKeywords(ws);
    assert last[1..] == [];
    assert KeywordsOf(last) == [];
  }

  /** Pieces without the separator, joined by it, split back. */
  lemma {:induction false} SplitJoin(ws: seq<string>, c: char)
    requires ws != [] && forall i :: 0 <= i < |ws| ==> c !in ws[i]
    ensures Split(Join(ws, c), c) == ws
    decreases |ws|
  {
    if |ws| == 1 {
      assert IndexOf(ws[0], c).None?;
    } else {
      JoinCons(ws, c);
      var tail := Join(ws[1..], c);
      var s := ws[0] + [c] + tail;
      assert ws[0] + ([c] + tail) == s;
      SplitOnceAt(ws[0], c, tail);
      assert s[|ws[0]| + 1..] == tail && s[..|ws[0]|] == ws[0];
      SplitJoin(ws[1..], c);
      assert [ws[0]] + ws[1..] == ws;
    }
  }

  /** Normalising keywords piece by piece distributes over concatenation. */
  lemma {:induction false} KeywordsOfAppend(a: seq<string>, b: seq<string>)
    ensures KeywordsOf(a + b) == KeywordsOf(a) + KeywordsOf(b)
    decreases |a|
  {
    if a == [] {
      assert a + b == b;
    } else {
      var ab := a + b;
      TailOfAppend(a, b);
      var h := KeywordsOfCons(a);
      var h' := KeywordsOfCons(ab);
      KeywordsOfAppend(a[1..], b);
      AppendAssoc(h, KeywordsOf(a[1..]), KeywordsOf(b));
    }
  }

  lemma TailOfAppend<T>(a: seq<T>, b: seq<T>)
    requires a != []
    ensures (a + b)[0] == a[0] && (a + b)[1..] == a[1..] + b
  {
  }

  lemma AppendAssoc<T>(x: seq<T>, y: seq<T>, z: seq<T>)
    ensures x + (y + z) == x + y + z
  {
  }

  /** The keywords of pieces are those of the first piece, none or one,
      followed by those of the rest. */
  lemma KeywordsOfCons(pieces: seq<string>) returns (h: seq<string>)
    requires pieces != []
    ensures h == (if NormalKeyword(pieces[0]) == [] then [] else [NormalKeyword(pieces[0])])
    ensures KeywordsOf(pieces) == h + KeywordsOf(pieces[1..])
  {
    var w := NormalKeyword(pieces[0]);
    h := if w == [] then [] else [w];
    if w == [] {
      assert h + KeywordsOf(pieces[1..]) == KeywordsOf(pieces[1..]);
    }
  }

  /** Keywords are kept as they are, so the list is unchanged by a second pass. */
  lemma {:induction false} KeywordsOfKeywords(ws: seq<string>)
    requires AreKeywords(ws)
    ensures KeywordsOf(ws) == ws
  {
    if ws != [] {
      TrimOfTrimmed(ws[0]);
      LowerOfLowerCase(ws[0]);
      assert NormalKeyword(ws[0]) == ws[0];
      KeywordsOfKeywords(ws[1..]);
    }
  }

  lemma LowerOfLowerCase(s: string)
    requires IsLowerCase(s)
    ensures Lower(s) == s
  {
    assert forall i :: 0 <= i < |s| ==> Lower(s)[i] == s[i];
  }

  /** The variables of the parsing loop. The `Exec=` and `Keywords=` values
      are kept as written and cleaned once the loop is over: a later line
      replaces an earlier one and the cleaning depends on the value alone, so
      this gives what cleaning each line gives. */
  datatype Scan = Scan(
    name: Option<string>,
    icon: Option<string>,
    exec: Option<string>,
    genericName: Option<string>,
    keywords: Option<string>,
    noDisplay: bool,
    appType: Option<string>,
    inEntry: bool)

  const Unscanned := Scan(None, None, None, None, None, false, None, false)

  /** Every line trimmed, as the loop sees it. */
  function TrimAll(lines: seq<string>): (r: seq<string>)
    ensures |r| == |lines|
  {
    seq(|lines|, i requires 0 <= i < |lines| => Trim(lines[i]))
  }

  /** The classification of each trimmed line. */
  function KindsOf(lines: seq<string>): (r: seq<LineKind>)
    ensures |r| == |lines|
    ensures forall i :: 0 <= i < |r| ==> WellClassified(r[i])
  {
    if lines == [] then []
    else KindsOf(lines[..|lines| - 1]) + [Classify(lines[|lines| - 1])]
  }

  /** One line of the loop: headers open and close the `[Desktop Entry]`
      group, and keys count only inside it. */
  function Step(s: Scan, kind: LineKind): Scan {
    if kind == EntryHeader then s.(inEntry := true)
    else if kind == OtherHeader then s.(inEntry := false)
    else if !s.inEntry then s
    else match kind
      case NameKey(v) => s.(name := Some(v))
      case IconKey(v) => if v != [] then s.(icon := Some(v)) else s
      case ExecKey(v) => s.(exec := Some(v))
      case GenericNameKey(v) => s.(genericName := Some(v))
      case KeywordsKey(v) => s.(keywords := Some(v))
      case NoDisplayTrue => s.(noDisplay := true)
      case TypeKey(v) => s.(appType := Some(v))
      case _ => s
  }

  /** The loop over the classified lines, from `s`. */
  function ScanFrom(s: Scan, kinds: seq<LineKind>): Scan {
    if kinds == [] then s
    else Step(ScanFrom(s, kinds[..|kinds| - 1]), kinds[|kinds| - 1])
  }

  /** The entry is kept only when it is shown, of type Application, and has
      both a name and a command. Its fields are the scanned values: the
      command cleaned, the keywords split and normalised, the icon defaulting
      to a generic one. */
  function Finish(s: Scan, desktopId: string): (r: Option<AppInfo>)
    ensures r.Some? <==>
      !s.noDisplay && s.appType == Some("Application") && s.name.Some? && s.exec.Some?
    ensures r.Some? ==> r.value.desktopId == desktopId
    ensures r.Some? ==> r.value.name == s.name.value && r.value.exec == ExecValue(s.exec.value)
    ensures r.Some? ==> r.value.genericName == s.genericName
    ensures r.Some? && s.icon.Some? ==> r.value.icon == s.icon.value
    ensures r.Some? && s.icon.None? ==> r.value.icon == DefaultIcon
    ensures r.Some? && s.keywords.Some? ==> r.value.keywords == KeywordList(s.keywords.value)
    ensures r.Some? && s.keywords.None? ==> r.value.keywords == []
  {
    if s.noDisplay || s.appType != Some("Application") then None
    else if s.name.None? || s.exec.None? then None
    else
      var keywords := if s.keywords.Some? then KeywordList(s.keywords.value) else [];
      Some(AppInfo(desktopId, s.name.value, s.icon.GetOr(DefaultIcon), ExecValue(s.exec.value),
        s.genericName, keywords))
  }

  /** `parse_desktop_file` on the content and file stem of a desktop file:
      every parsed application is well formed and carries the file stem. */
  function ParseDesktopEntry(content: string, desktopId: string): (r: Option<AppInfo>)
    ensures r.Some? ==> r.value.desktopId == desktopId && WellParsed(r.value)
  {
    var kinds := KindsOf(TrimAll(Lines(content)));
    ScanWellScanned(Unscanned, kinds);
    FinishWellParsed(ScanFrom(Unscanned, kinds), desktopId);
    Finish(ScanFrom(Unscanned, kinds), desktopId)
  }

  /** What every value the loop collects looks like. */
  predicate WellScanned(s: Scan) {
    && (s.icon.Some? ==> s.icon.value != [])
    && (s.name.Some? ==> '[' !in s.name.value)
    && (s.genericName.Some? ==> '[' !in s.genericName.value)
  }

  /** What every parsed application looks like: a non-empty icon, an
      unlocalised name and generic name, a trimmed command and keywords. */
  predicate WellParsed(a: AppInfo) {
    && a.icon != [] && '[' !in a.name && IsTrimmed(a.exec) && AreKeywords(a.keywords)
    && (a.genericName.Some? ==> '[' !in a.genericName.value)
  }

  /** What `Classify` guarantees about a payload. */
  predicate WellClassified(k: LineKind) {
    k.NameKey? || k.GenericNameKey? ==> '[' !in k.value
  }

  lemma StepWellScanned(s: Scan, k: LineKind)
    requires WellScanned(s) && WellClassified(k)
    ensures WellScanned(Step(s, k))
  {
  }

  lemma {:induction false} ScanWellScanned(s: Scan, kinds: seq<LineKind>)
    requires WellScanned(s)
    requires forall i :: 0 <= i < |kinds| ==> WellClassified(kinds[i])
    ensures WellScanned(ScanFrom(s, kinds))
  {
    if kinds != [] {
      ScanWellScanned(s, kinds[..|kinds| - 1]);
      StepWellScanned(ScanFrom(s, kinds[..|kinds| - 1]), kinds[|kinds| - 1]);
    }
  }

  /** A minimal desktop file, the entry header, `Type=Application`, a name
      and a command on one line each, parses to that application with the
      default icon, no generic name and no keywords. */
  lemma MinimalEntryParses(stem: string, name: string, exec: string)
    requires IsTrimmed(name) && '\n' !in name && '[' !in name
    requires IsTrimmed(exec) && '\n' !in exec
    ensures ParseDesktopEntry("[Desktop Entry]\nType=Application\nName=" + name + "\nExec=" + exec, stem)
      == Some(AppInfo(stem, name, DefaultIcon, ExecValue(exec), None, []))
  {
    var content := "[Desktop Entry]\nType=Application\nName=" + name + "\nExec=" + exec;
    var lines := MinimalLines(name, exec, content);
    MinimalKinds(lines, name, exec);
    var kinds := KindsOf(TrimAll(Lines(content)));
    assert kinds == [EntryHeader, TypeKey("Application"), NameKey(name), ExecKey(exec)];
    var sc := MinimalScan(name, exec, kinds);
    var r := Finish(sc, stem);
    assert r.Some? && r.value == AppInfo(stem, name, DefaultIcon, ExecValue(exec), None, []);
    assert ParseDesktopEntry(content, stem) == r;
  }

  /** Scanning the minimal entry collects its type, name and command. */
  lemma MinimalScan(name: string, exec: string, kinds: seq<LineKind>) returns (sc: Scan)
    requires kinds == [EntryHeader, TypeKey("Application"), NameKey(name), ExecKey(exec)]
    ensures sc == ScanFrom(Unscanned, kinds)
    ensures sc == Scan(Some(name), None, Some(exec), None, None, false, Some("Application"), true)
  {
    ScanFour(Unscanned, kinds[0], kinds[1], kinds[2], kinds[3]);
    sc := ScanFrom(Unscanned, kinds);
  }

  /** The lines of the minimal desktop file, each already trimmed. */
  lemma MinimalLines(name: string, exec: string, content: string) returns (lines: seq<string>)
    requires IsTrimmed(name) && '\n' !in name && IsTrimmed(exec) && '\n' !in exec
    requires content == "[Desktop Entry]\nType=Application\nName=" + name + "\nExec=" + exec
    ensures lines == ["[Desktop Entry]", "Type=Application", "Name=" + name, "Exec=" + exec]
    ensures TrimAll(Lines(content)) == lines
  {
    var a, b, c, d := "[Desktop Entry]", "Type=Application", "Name=" + name, "Exec=" + exec;
    lines := [a, b, c, d];
    assert '\n' !in a && '\n' !in b && IsTrimmed(a) && IsTrimmed(b);
    PrefixedAvoids("Name=", name, '\n');
    PrefixedAvoids("Exec=", exec, '\n');
    PrefixedTrimmed("Name=", name);
    PrefixedTrimmed("Exec=", exec);
    ReadBackFour(a, b, c, d);
    MinimalJoin(name, exec, lines);
  }

  /** Four trimmed lines without line feeds, the last not empty, are read
      back by splitting their join into lines and trimming each. */
  lemma ReadBackFour(a: string, b: string, c: string, d: string)
    requires '\n' !in a && '\n' !in b && '\n' !in c && '\n' !in d && d != []
    requires IsTrimmed(a) && IsTrimmed(b) && IsTrimmed(c) && IsTrimmed(d)
    ensures TrimAll(Lines(Join([a, b, c, d], '\n'))) == [a, b, c, d]
  {
    var ls := [a, b, c, d];
    SplitJoin(ls, '\n');
    LinesOfSplit(Join(ls, '\n'), ls);
    TrimAllTrimmed(ls);
  }

  lemma MinimalJoin(name: string, exec: string, lines: seq<string>)
    requires lines == ["[Desktop Entry]", "Type=Application", "Name=" + name, "Exec=" + exec]
    ensures Join(lines, '\n') == "[Desktop Entry]\nType=Application\nName=" + name + "\nExec=" + exec
  {
    var a, b, c, d := lines[0], lines[1], lines[2], lines[3];
    JoinFour(a, b, c, d);
    var head := "[Desktop Entry]\nType=Application\nName=";
    assert a + "\n" + b + "\n" == "[Desktop Entry]\nType=Application\n";
    assert "[Desktop Entry]\nType=Application\n" + "Name=" == head;
    assert a + "\n" + b + "\n" + c == head + name;
    assert c + "\n" + d == "Name=" + name + "\nExec=" + exec;
  }

  lemma JoinFour(a: string, b: string, c: string, d: string)
    ensures Join([a, b, c, d], '\n') == a + "\n" + b + "\n" + c + "\n" + d
  {
    assert [c, d][1..] == [d];
    assert Join([c, d], '\n') == c + "\n" + d;
    assert [b, c, d][1..] == [c, d];
    assert Join([b, c, d], '\n') == b + "\n" + (c + "\n" + d);
    assert [a, b, c, d][1..] == [b, c, d];
    assert Join([a, b, c, d], '\n') == a + "\n" + (b + "\n" + (c + "\n" + d));
  }

  lemma PrefixedAvoids(p: string, v: string, c: char)
    requires c !in p && c !in v
    ensures c !in p + v
  {
  }

  lemma PrefixedTrimmed(p: string, v: string)
    requires p != [] && !IsWhitespace(p[0]) && !IsWhitespace(p[|p| - 1])
    requires IsTrimmed(v)
    ensures IsTrimmed(p + v) && p + v != []
  {
  }

  /** Content that splits into pieces the last of which is not empty has
      those pieces as its lines. */
  lemma LinesOfSplit(content: string, pieces: seq<string>)
    requires pieces != [] && pieces[|pieces| - 1] != []
    requires Split(content, '\n') == pieces
    ensures Lines(content) == pieces
  {
  }

  /** Lines that are all trimmed are their own trim. */
  lemma TrimAllTrimmed(lines: seq<string>)
    requires forall i :: 0 <= i < |lines| ==> IsTrimmed(lines[i])
    ensures TrimAll(lines) == lines
  {
    var t := TrimAll(lines);
    forall i | 0 <= i < |lines|
      ensures t[i] == lines[i]
    {
      TrimOfTrimmed(lines[i]);
    }
  }

  /** The classification of the lines of the minimal desktop file. */
  lemma MinimalKinds(lines: seq<string>, name: string, exec: string)
    requires '[' !in name
    requires lines == ["[Desktop Entry]", "Type=Application", "Name=" + name, "Exec=" + exec]
    ensures KindsOf(lines) == [EntryHeader, TypeKey("Application"), NameKey(name), ExecKey(exec)]
  {
    assert Classify(lines[0]) == EntryHeader;
    ClassifyApplicationType();
    assert Classify(lines[1]) == TypeKey("Application");
    ClassifyName(name);
    assert Classify(lines[2]) == NameKey(name);
    ClassifyExec(exec);
    assert Classify(lines[3]) == ExecKey(exec);
    KindsOfFour(lines[0], lines[1], lines[2], lines[3]);
    assert lines == [lines[0], lines[1], lines[2], lines[3]];
  }

  lemma KindsOfFour(a: string, b: string, c: string, d: string)
    ensures KindsOf([a, b, c, d]) == [Classify(a), Classify(b), Classify(c), Classify(d)]
  {
    KindsOfSnoc([], a);
    assert [] + [a] == [a];
    KindsOfSnoc([a], b);
    assert [a] + [b] == [a, b];
    KindsOfSnoc([a, b], c);
    assert [a, b] + [c] == [a, b, c];
    KindsOfSnoc([a, b, c], d);
    assert [a, b, c] + [d] == [a, b, c, d];
  }

  lemma ScanFour(s: Scan, a: LineKind, b: LineKind, c: LineKind, d: LineKind)
    ensures ScanFrom(s, [a, b, c, d]) == Step(Step(Step(Step(s, a), b), c), d)
  {
    ScanFromSnoc(s, [], a);
    assert [] + [a] == [a];
    ScanFromSnoc(s, [a], b);
    assert [a] + [b] == [a, b];
    ScanFromSnoc(s, [a, b], c);
    assert [a, b] + [c] == [a, b, c];
    ScanFromSnoc(s, [a, b, c], d);
    assert [a, b, c] + [d] == [a, b, c, d];
  }

  lemma ClassifyName(v: string)
    requires '[' !in v
    ensures Classify("Name=" + v) == NameKey(v)
  {
    var l := "Name=" + v;
    assert l[0] == 'N';
    assert l != "[Desktop Entry]" && !StartsWith(l, "[");
    assert '[' !in l && StartsWith(l, "Name=") && l[5..] == v;
  }

  lemma ClassifyApplicationType()
    ensures Classify("Type=Application") == TypeKey("Application")
  {
    var l := "Type=Application";
    assert l[0] == 'T' && |l| == 16;
    assert l != "[Desktop Entry]" && !StartsWith(l, "[");
    assert !StartsWith(l, "Name=") && !StartsWith(l, "Icon=") && !StartsWith(l, "Exec=");
    assert !StartsWith(l, "GenericName=") && !StartsWith(l, "Keywords=");
    assert l != "NoDisplay=true";
    assert l[..5] == "Type=";
    assert l[5..] == "Application";
  }

  lemma ClassifyExec(v: string)
    ensures Classify("Exec=" + v) == ExecKey(v)
  {
    var l := "Exec=" + v;
    assert l[0] == 'E' && l[1] == 'x';
    assert l != "[Desktop Entry]" && !StartsWith(l, "[");
    assert !StartsWith(l, "Name=") && !StartsWith(l, "Icon=");
    assert StartsWith(l, "Exec=") && l[5..] == v;
  }

  lemma ScanFromSnoc(s: Scan, ks: seq<LineKind>, k: LineKind)
    ensures ScanFrom(s, ks + [k]) == Step(ScanFrom(s, ks), k)
  {
    assert (ks + [k])[..|ks|] == ks;
  }

  lemma KindsOfSnoc(ls: seq<string>, l: string)
    ensures KindsOf(ls + [l]) == KindsOf(ls) + [Classify(l)]
  {
    assert (ls + [l])[..|ls|] == ls;
  }

  lemma FinishWellParsed(s: Scan, desktopId: string)
    requires WellScanned(s)
    ensures var r := Finish(s, desktopId); r.Some? ==> WellParsed(r.value)
  {
  }

  /** Scanning in two parts is scanning the whole. */
  lemma {:induction false} ScanFromAppend(s: Scan, a: seq<LineKind>, b: seq<LineKind>)
    ensures ScanFrom(s, a + b) == ScanFrom(ScanFrom(s, a), b)
    decreases |b|
  {
    if b != [] {
      var n := |a + b|;
      assert (a + b)[n - 1] == b[|b| - 1];
      assert (a + b)[..n - 1] == a + b[..|b| - 1];
      ScanFromAppend(s, a, b[..|b| - 1]);
    } else {
      assert a + b == a;
    }
  }

  /** Outside the `[Desktop Entry]` group nothing changes until the group
      header comes back. */
  lemma {:induction false} OutsideEntryIgnored(s: Scan, kinds: seq<LineKind>)
    requires !s.inEntry
    requires forall i :: 0 <= i < |kinds| ==> kinds[i] != EntryHeader
    ensures ScanFrom(s, kinds) == s
  {
    if kinds != [] {
      OutsideEntryIgnored(s, kinds[..|kinds| - 1]);
    }
  }

  /** Classifying lines in two parts is classifying the whole. */
  lemma {:induction false} KindsOfAppend(a: seq<string>, b: seq<string>)
    ensures KindsOf(a + b) == KindsOf(a) + KindsOf(b)
    decreases |b|
  {
    if b == [] {
      assert a + b == a;
    } else {
      var n := |a + b|;
      assert (a + b)[n - 1] == b[|b| - 1];
      assert (a + b)[..n - 1] == a + b[..|b| - 1];
      KindsOfAppend(a, b[..|b| - 1]);
    }
  }

  /** Lines that are not the `[Desktop Entry]` header are never classified
      as it. */
  lemma {:induction false} NoEntryHeader(lines: seq<string>)
    requires forall i :: 0 <= i < |lines| ==> lines[i] != "[Desktop Entry]"
    ensures forall i :: 0 <= i < |lines| ==> KindsOf(lines)[i] != EntryHeader
  {
    if lines != [] {
      NoEntryHeader(lines[..|lines| - 1]);
    }
  }

  /** Lines after another group header, up to the next `[Desktop Entry]`
      header, do not count. */
  lemma OtherGroupIgnored(before: seq<string>, header: string, after: seq<string>)
    requires Classify(header) == OtherHeader
    requires forall i :: 0 <= i < |after| ==> after[i] != "[Desktop Entry]"
    ensures ScanFrom(Unscanned, KindsOf(before + [header] + after))
      == ScanFrom(Unscanned, KindsOf(before)).(inEntry := false)
  {
    var kb := KindsOf(before);
    var ka := KindsOf(after);
    KindsOfAppend(before + [header], after);
    KindsOfAppend(before, [header]);
    assert KindsOf([header]) == [OtherHeader];
    ScanFromAppend(Unscanned, kb + [OtherHeader], ka);
    assert (kb + [OtherHeader])[..|kb|] == kb;
    NoEntryHeader(after);
    OutsideEntryIgnored(ScanFrom(Unscanned, kb + [OtherHeader]), ka);
  }

  /** A file without a `[Desktop Entry]` header gives no application. */
  lemma NoEntryNoApp(content: string, desktopId: string)
    requires forall i :: 0 <= i < |Lines(content)| ==> Trim(Lines(content)[i]) != "[Desktop Entry]"
    ensures ParseDesktopEntry(content, desktopId) == None
  {
    var lines := TrimAll(Lines(content));
    NoEntryHeader(lines);
    OutsideEntryIgnored(Unscanned, KindsOf(lines));
  }

  /** A `Keywords=` line is classified as one, whatever its value. */
  lemma ClassifyKeywords(value: string)
    ensures Classify("Keywords=" + value) == KeywordsKey(value)
  {
    var t := "Keywords=" + value;
    assert t[0] == 'K' && t[..9] == "Keywords=" && t[9..] == value;
  }

  /** A later `Keywords=` line inside the entry replaces the earlier list,
      whatever it held. */
  lemma LastKeywordsWin(s: Scan, kinds: seq<LineKind>, value: string)
    requires ScanFrom(s, kinds).inEntry
    ensures ScanFrom(s, kinds + [KeywordsKey(value)]).keywords == Some(value)
  {
    ScanLast(s, kinds, KeywordsKey(value));
    StepKeywords(ScanFrom(s, kinds), value);
  }

  lemma ScanLast(s: Scan, kinds: seq<LineKind>, k: LineKind)
    ensures ScanFrom(s, kinds + [k]) == Step(ScanFrom(s, kinds), k)
  {
    assert (kinds + [k])[..|kinds|] == kinds;
  }

  lemma StepKeywords(s: Scan, value: string)
    requires s.inEntry
    ensures Step(s, KeywordsKey(value)).keywords == Some(value)
  {
  }

  lemma ScanNext(lines: seq<string>, k: nat)
    requires k < |lines|
    ensures ScanFrom(Unscanned, KindsOf(lines[..k + 1]))
      == Step(ScanFrom(Unscanned, KindsOf(lines[..k])), Classify(lines[k]))
  {
    assert lines[..k + 1][..k] == lines[..k];
  }

  /** `parse_desktop_file`: the loop over the trimmed lines, then the checks. */
  method ParseDesktopFile(content: string, desktopId: string) returns (r: Option<AppInfo>)
    ensures r == ParseDesktopEntry(content, desktopId)
  {
    var scan := ScanLines(Lines(content));
    if scan.noDisplay || scan.appType != Some("Application") {
      return None;
    }
    if scan.name.None? || scan.exec.None? {
      return None;
    }
    var keywords := if scan.keywords.Some? then KeywordList(scan.keywords.value) else [];
    r := Some(AppInfo(desktopId, scan.name.value, scan.icon.GetOr(DefaultIcon), ExecValue(scan.exec.value),
      scan.genericName, keywords));
  }

  /** The loop of `parse_desktop_file`. */
  method ScanLines(lines: seq<string>) returns (scan: Scan)
    ensures scan == ScanFrom(Unscanned, KindsOf(TrimAll(lines)))
  {
    ghost var trimmed := TrimAll(lines);
    scan := Unscanned;
    var k := 0;
    while k < |lines|
      invariant k <= |lines|
      invariant scan == ScanFrom(Unscanned, KindsOf(trimmed[..k]))
    {
      var line := Trim(lines[k]);
      ScanNext(trimmed, k);
      scan := ReadLine(scan, Classify(line));
      k := k + 1;
    }
    assert trimmed[..k] == trimmed;
  }

  /** The body of the parsing loop: the variables after one classified line. */
  method ReadLine(s: Scan, kind: LineKind) returns (t: Scan)
    ensures t == Step(s, kind)
  {
    t := s;
    if kind == EntryHeader {
      t := t.(inEntry := true);
    } else if kind == OtherHeader {
      t := t.(inEntry := false);
    } else if s.inEntry {
      match kind
      case NameKey(v) => t := t.(name := Some(v));
      case IconKey(v) =>
        if v != [] {
          t := t.(icon := Some(v));
        }
      case ExecKey(v) => t := t.(exec := Some(v));
      case GenericNameKey(v) => t := t.(genericName := Some(v));
      case KeywordsKey(v) => t := t.(keywords := Some(v));
      case NoDisplayTrue => t := t.(noDisplay := true);
      case TypeKey(v) => t := t.(appType := Some(v));
      case _ =>
    }
  }

  // ---------------------------------------------------------------------
  // Match scores
  // ---------------------------------------------------------------------

  /** The words of a string: its maximal runs of ASCII letters and digits. */
  function Words(s: string): (r: seq<string>)
    ensures WellFormedTokens(r, IsSeparatorOfWords)
  {
    Tokens(s, IsSeparatorOfWords)
  }

  /** Some word of `ks` starts with the query word `q`, both lower-cased. */
  predicate HasPrefixedWord(ks: seq<string>, q: string) {
    exists j :: 0 <= j < |ks| && StartsWith(Lower(ks[j]), Lower(q))
  }

  /** How many query words are the start of some word of `ks`. */
  function PrefixMatches(qs: seq<string>, ks: seq<string>): (n: nat)
    ensures n <= |qs|
  {
    if qs == [] then 0
    else PrefixMatches(qs[..|qs| - 1], ks) + (if HasPrefixedWord(ks, qs[|qs| - 1]) then 1 else 0)
  }

  /** Every query word matches exactly when the count is the number of query
      words, and none does exactly when it is zero. */
  lemma {:induction false} PrefixMatchesExtremes(qs: seq<string>, ks: seq<string>)
    ensures PrefixMatches(qs, ks) == |qs| <==> forall i :: 0 <= i < |qs| ==> HasPrefixedWord(ks, qs[i])
    ensures PrefixMatches(qs, ks) == 0 <==> forall i :: 0 <= i < |qs| ==> !HasPrefixedWord(ks, qs[i])
  {
    if qs != [] {
      var init := qs[..|qs| - 1];
      PrefixMatchesExtremes(init, ks);
      assert forall i :: 0 <= i < |init| ==> init[i] == qs[i];
    }
  }

  /** The word-overlap tier: the share of query words that start a word of
      the key, or, when none does, of the display name, scaled to 50. */
  function WordScore(query: string, key: string, displayName: string): (r: int)
    ensures 0 <= r <= 50
  {
    var qs := Words(query);
    var m := PrefixMatches(qs, Words(key));
    var matches := if m == 0 then PrefixMatches(qs, Words(displayName)) else m;
    if matches > 0 then
      ScaledShare(matches, |qs|);
      matches * 50 / |qs|
    else 0
  }

  /** A share of `n` scaled to 50 is at most 50, and exactly 50 for all of it. */
  lemma ScaledShare(m: nat, n: nat)
    requires 0 < m <= n
    ensures 0 <= m * 50 / n <= 50
    ensures m == n ==> m * 50 / n == 50
  {
    var a := m * 50;
    var q := a / n;
    var r := a % n;
    assert a == q * n + r && 0 <= r < n;
    ProductAtLeast(q, 51, n);
    ProductAtLeast(-1, q, n);
    ProductAtLeast(49, q, n);
  }

  /** Multiplying by a positive number keeps the order. */
  lemma ProductAtLeast(x: int, c: int, n: nat)
    requires n > 0
    ensures x >= c ==> x * n >= c * n
  {
    if x >= c {
      assert x * n - c * n == (x - c) * n;
      NonnegativeProduct(x - c, n);
    }
  }

  lemma NonnegativeProduct(x: int, y: int)
    requires x >= 0 && y >= 0
    ensures x * y >= 0
  {
  }

  /** When every query word starts a word of the key, the tier is 50. */
  lemma WordScoreFull(query: string, key: string, displayName: string)
    requires Words(query) != []
    requires forall i :: 0 <= i < |Words(query)| ==> HasPrefixedWord(Words(key), Words(query)[i])
    ensures WordScore(query, key, displayName) == 50
  {
    PrefixMatchesExtremes(Words(query), Words(key));
    ScaledShare(|Words(query)|, |Words(query)|);
  }

  /** `s` without '-', '_' and ' '. */
  function Normalized(s: string): (r: string)
    ensures '-' !in r && '_' !in r && ' ' !in r
    ensures forall c :: c in r <==> c in s && c != '-' && c != '_' && c != ' '
  {
    Without(Without(Without(s, '-'), '_'), ' ')
  }

  /** The normalisation of `calculate_match_score` is the three `str::replace`
      calls that drop '-', then '_', then ' '. */
  lemma NormalizedByReplace(s: string)
    ensures Normalized(s) == ReplaceAll(ReplaceAll(ReplaceAll(s, "-", ""), "_", ""), " ", "")
  {
    ReplaceCharIsWithout(s, '-');
    ReplaceCharIsWithout(Without(s, '-'), '_');
    ReplaceCharIsWithout(Without(Without(s, '-'), '_'), ' ');
  }

  /** The tiers after the plain substring tests. */
  function LooseScore(query: string, key: string, displayName: string): (r: int)
    ensures r == 65 || r == 55 || 0 <= r <= 50
  {
    var q := Normalized(query);
    if Contains(Normalized(key), q) then 65
    else if Contains(Normalized(Lower(displayName)), q) then 55
    else WordScore(query, key, displayName)
  }

  /** `calculate_match_score`: 100 for the key itself, 90 for a prefix of it,
      70 for a part of it, then the display name and the separator-free and
      word-overlap tiers. */
  function MatchScore(query: string, key: string, displayName: string): (r: int)
    ensures 0 <= r <= 100
    ensures r == 100 <==> key == query
    ensures r >= 90 <==> StartsWith(key, query)
    ensures r >= 70 <==> Contains(key, query)
    ensures r < 55 ==> r <= 50
  {
    if key == query then 100
    else if StartsWith(key, query) then 90
    else if Contains(key, query) then 70
    else if Contains(Lower(displayName), query) then 60
    else LooseScore(query, key, displayName)
  }

  /** The counting loop of `calculate_match_score`, for one list of words. */
  method CountPrefixMatches(qs: seq<string>, ks: seq<string>) returns (matches: nat)
    ensures matches == PrefixMatches(qs, ks)
  {
    matches := 0;
    var i := 0;
    while i < |qs|
      invariant i <= |qs|
      invariant matches == PrefixMatches(qs[..i], ks)
    {
      var j := 0;
      var found := false;
      while j < |ks| && !found
        invariant j <= |ks|
        invariant found <==> HasPrefixedWord(ks[..j], qs[i])
      {
        if StartsWith(Lower(ks[j]), Lower(qs[i])) {
          found := true;
        }
        assert forall l :: 0 <= l < j ==> ks[..j + 1][l] == ks[..j][l];
        assert ks[..j + 1][j] == ks[j];
        j := j + 1;
      }
      assert found <==> HasPrefixedWord(ks, qs[i]) by {
        if !found {
          assert ks[..j] == ks;
        } else {
          assert forall l :: 0 <= l < j ==> ks[..j][l] == ks[l];
        }
      }
      if found {
        matches := matches + 1;
      }
      assert qs[..i + 1][..i] == qs[..i];
      i := i + 1;
    }
    assert qs[..i] == qs;
  }

  /** `calculate_match_score` */
  method CalculateMatchScore(query: string, key: string, displayName: string) returns (score: int)
    ensures score == MatchScore(query, key, displayName)
  {
    if key == query {
      return 100;
    }
    if StartsWith(key, query) {
      return 90;
    }
    if Contains(key, query) {
      return 70;
    }
    if Contains(Lower(displayName), query) {
      return 60;
    }
    var queryNormalized := Normalized(query);
    if Contains(Normalized(key), queryNormalized) {
      return 65;
    }
    if Contains(Normalized(Lower(displayName)), queryNormalized) {
      return 55;
    }
    var queryWords := Words(query);
    var matches := CountPrefixMatches(queryWords, Words(key));
    if matches == 0 {
      matches := CountPrefixMatches(queryWords, Words(displayName));
    }
    if matches > 0 {
      score := matches * 50 / |queryWords|;
    } else {
      score := 0;
    }
  }

  // ---------------------------------------------------------------------
  // The resolver
  // ---------------------------------------------------------------------

  /** `m` with each of `keys` that it lacks mapped to `v`, in order; keys
      already present keep their entry. */
  function AddAbsent(m: map<string, AppInfo>, keys: seq<string>, v: AppInfo): (r: map<string, AppInfo>)
    ensures forall k :: k in r <==> k in m || k in keys
    ensures forall k :: k in m ==> r[k] == m[k]
    ensures forall k :: k in r && k !in m ==> r[k] == v
  {
    if keys == [] then m
    else
      var before := AddAbsent(m, keys[..|keys| - 1], v);
      var k := keys[|keys| - 1];
      assert keys == keys[..|keys| - 1] + [k];
      if k in before then before else before[k := v]
  }

  /** The extra name-map keys of an application, in the order they are
      tried: its lower-cased generic name, then its keywords. */
  function ExtraNameKeys(app: AppInfo): seq<string> {
    (if app.genericName.Some? then [Lower(app.genericName.value)] else []) + app.keywords
  }

  /** The key under which the command of an application is registered. */
  function ExecKeyOf(app: AppInfo): string {
    Lower(ExtractCommandName(app.exec))
  }

  /** The extra name keys are the lower-cased generic name, when there is
      one, and the keywords: a key is among them exactly when it is one of
      those, and the keywords come last, in their order. */
  lemma ExtraNameKeysCover(app: AppInfo, key: string)
    ensures var keys := ExtraNameKeys(app);
      && |keys| == |app.keywords| + (if app.genericName.Some? then 1 else 0)
      && keys[|keys| - |app.keywords|..] == app.keywords
      && (key in keys <==> key in app.keywords || (app.genericName.Some? && key == Lower(app.genericName.value)))
  {
  }

  /** The command key is a single lower-cased word without a '/', as long
      as the command name it comes from. */
  lemma ExecKeyShape(app: AppInfo)
    ensures var key := ExecKeyOf(app);
      && |key| == |ExtractCommandName(app.exec)|
      && '/' !in key
      && forall i :: 0 <= i < |key| ==> !IsWhitespace(key[i]) && !('A' <= key[i] <= 'Z')
  {
    LowerWord(ExtractCommandName(app.exec));
  }

  lemma LowerWord(w: string)
    requires '/' !in w && forall i :: 0 <= i < |w| ==> !IsWhitespace(w[i])
    ensures var key := Lower(w);
      && '/' !in key
      && forall i :: 0 <= i < |key| ==> !IsWhitespace(key[i]) && !('A' <= key[i] <= 'Z')
  {
    var key := Lower(w);
    forall i | 0 <= i < |key|
      ensures key[i] != '/' && !IsWhitespace(key[i]) && !('A' <= key[i] <= 'Z')
    {
      assert key[i] == LowerChar(w[i]);
      assert w[i] != '/';
    }
  }

  /** The best score of an application over its name, its desktop id, its
      command and its generic name. */
  function NameScore(query: string, app: AppInfo): (r: int)
    ensures 0 <= r <= 100
  {
    var s1 := Max(0, MatchScore(query, Lower(app.name), app.name));
    var s2 := Max(s1, MatchScore(query, Lower(app.desktopId), app.desktopId));
    var s3 := Max(s2, MatchScore(query, ExecKeyOf(app), app.exec));
    if app.genericName.Some? then
      Max(s3, MatchScore(query, Lower(app.genericName.value), app.genericName.value))
    else s3
  }

  /** The name score is the best of the four scores it is built from. */
  lemma NameScoreCovers(query: string, app: AppInfo)
    ensures var r := NameScore(query, app);
      && MatchScore(query, Lower(app.name), app.name) <= r
      && MatchScore(query, Lower(app.desktopId), app.desktopId) <= r
      && MatchScore(query, ExecKeyOf(app), app.exec) <= r
      && (app.genericName.Some? ==>
            MatchScore(query, Lower(app.genericName.value), app.genericName.value) <= r)
      && (r == 0 || r == MatchScore(query, Lower(app.name), app.name)
          || r == MatchScore(query, Lower(app.desktopId), app.desktopId)
          || r == MatchScore(query, ExecKeyOf(app), app.exec)
          || (app.genericName.Some? &&
                r == MatchScore(query, Lower(app.genericName.value), app.genericName.value)))
  {
    var m1 := MatchScore(query, Lower(app.name), app.name);
    var m2 := MatchScore(query, Lower(app.desktopId), app.desktopId);
    var m3 := MatchScore(query, ExecKeyOf(app), app.exec);
    var s3 := Max(Max(Max(0, m1), m2), m3);
    if app.genericName.Some? {
      var m4 := MatchScore(query, Lower(app.genericName.value), app.genericName.value);
      assert NameScore(query, app) == Max(s3, m4);
    } else {
      assert NameScore(query, app) == s3;
    }
  }

  /** `start` raised to the score of each keyword. */
  function KeywordScore(query: string, keywords: seq<string>, start: int): (r: int)
    ensures r >= start
    ensures 0 <= start <= 100 ==> r <= 100
    ensures forall i :: 0 <= i < |keywords| ==> MatchScore(query, keywords[i], keywords[i]) <= r
  {
    if keywords == [] then start
    else
      var before := KeywordScore(query, keywords[..|keywords| - 1], start);
      assert forall i :: 0 <= i < |keywords| - 1 ==> keywords[..|keywords| - 1][i] == keywords[i];
      Max(before, MatchScore(query, keywords[|keywords| - 1], keywords[|keywords| - 1]))
  }

  /** The score `fuzzy_search` gives an application: the best over all its
      names. */
  function AppScore(query: string, app: AppInfo): (r: int)
    ensures 0 <= r <= 100
    ensures NameScore(query, app) <= r
  {
    KeywordScore(query, app.keywords, NameScore(query, app))
  }

  /** The score is the score of one of the names, or 0: it is attained. */
  lemma {:induction false} KeywordScoreAttained(query: string, keywords: seq<string>, start: int)
    ensures KeywordScore(query, keywords, start) == start
      || exists i :: 0 <= i < |keywords| && KeywordScore(query, keywords, start) == MatchScore(query, keywords[i], keywords[i])
  {
    if keywords != [] {
      var n := |keywords| - 1;
      KeywordScoreAttained(query, keywords[..n], start);
      var before := KeywordScore(query, keywords[..n], start);
      if before != start && before > MatchScore(query, keywords[n], keywords[n]) {
        var i :| 0 <= i < n && before == MatchScore(query, keywords[..n][i], keywords[..n][i]);
        assert keywords[..n][i] == keywords[i];
      }
    }
  }

  /** An application whose name, desktop id, command, generic name or
      keyword is the query itself scores 100, and only then. */
  lemma AppScoreTop(query: string, app: AppInfo)
    ensures AppScore(query, app) == 100 <==>
      (query == Lower(app.name) || query == Lower(app.desktopId) || query == ExecKeyOf(app)
       || (app.genericName.Some? && query == Lower(app.genericName.value))
       || query in app.keywords)
  {
    var s := NameScore(query, app);
    NameScoreCovers(query, app);
    KeywordScoreAttained(query, app.keywords, s);
    if query in app.keywords {
      var i :| 0 <= i < |app.keywords| && app.keywords[i] == query;
      assert MatchScore(query, app.keywords[i], app.keywords[i]) == 100;
    }
    if AppScore(query, app) == 100 && s != 100 {
      var i :| 0 <= i < |app.keywords| && 100 == MatchScore(query, app.keywords[i], app.keywords[i]);
      assert app.keywords[i] == query;
    }
  }

  /** The first four scores of the loop of `fuzzy_search`. */
  method ScoreNames(query: string, app: AppInfo) returns (score: int)
    ensures score == NameScore(query, app)
  {
    score := 0;
    var s := CalculateMatchScore(query, Lower(app.name), app.name);
    score := Max(score, s);
    s := CalculateMatchScore(query, Lower(app.desktopId), app.desktopId);
    score := Max(score, s);
    s := CalculateMatchScore(query, Lower(ExtractCommandName(app.exec)), app.exec);
    score := Max(score, s);
    if app.genericName.Some? {
      s := CalculateMatchScore(query, Lower(app.genericName.value), app.genericName.value);
      score := Max(score, s);
    }
  }

  /** The score loop of `fuzzy_search` for one application. */
  method ScoreApp(query: string, app: AppInfo) returns (score: int)
    ensures score == AppScore(query, app)
  {
    score := ScoreNames(query, app);
    score := ScoreKeywords(query, app.keywords, score);
  }

  /** The keyword loop of `fuzzy_search`. */
  method ScoreKeywords(query: string, keywords: seq<string>, start: int) returns (score: int)
    ensures score == KeywordScore(query, keywords, start)
  {
    score := start;
    var i := 0;
    while i < |keywords|
      invariant i <= |keywords|
      invariant score == KeywordScore(query, keywords[..i], start)
    {
      var s := CalculateMatchScore(query, keywords[i], keywords[i]);
      PrefixStep(keywords, i);
      score := Max(score, s);
      i := i + 1;
    }
    assert keywords[..i] == keywords;
  }

  /** The lookup tables of `AppResolver`: applications by lower-cased name
      (and generic name and keyword), by lower-cased command name and by
      lower-cased desktop id. */
  class AppResolver {
    var byName: map<string, AppInfo>
    var byExec: map<string, AppInfo>
    var byDesktopId: map<string, AppInfo>

    /** Every key is one the application it maps to was registered under. */
    predicate Valid()
      reads this
    {
      && DesktopKeyed(byDesktopId)
      && ExecKeyed(byExec)
      && NameKeyed(byName)
    }

    /** `AppResolver::new` before the scan of the application directories. */
    constructor()
      ensures Valid()
      ensures byName == map[] && byExec == map[] && byDesktopId == map[]
    {
      byName := map[];
      byExec := map[];
      byDesktopId := map[];
    }

    /** `register_app`: the name, command and desktop-id entries are always
        overwritten; the generic name and then the keywords are added only
        under keys still free. */
    method RegisterApp(app: AppInfo)
      requires Valid()
      modifies this
      ensures Valid()
      ensures byDesktopId == old(byDesktopId)[Lower(app.desktopId) := app]
      ensures byExec == old(byExec)[ExecKeyOf(app) := app]
      ensures byName == AddAbsent(old(byName)[Lower(app.name) := app], ExtraNameKeys(app), app)
    {
      var nameKey := Lower(app.name);
      var execKey := Lower(ExtractCommandName(app.exec));
      var desktopKey := Lower(app.desktopId);
      byName := byName[nameKey := app];
      byExec := byExec[execKey := app];
      byDesktopId := byDesktopId[desktopKey := app];
      ghost var named := byName;
      AddNames(ExtraNameKeys(app), app);
      RegisteredNamesValid(old(byName), app);
    }

    /** The generic-name and keyword part of `register_app`: each key still
        free is mapped to the application. */
    method AddNames(keys: seq<string>, app: AppInfo)
      modifies this
      ensures byName == AddAbsent(old(byName), keys, app)
      ensures byExec == old(byExec) && byDesktopId == old(byDesktopId)
    {
      var i := 0;
      while i < |keys|
        invariant i <= |keys|
        invariant byName == AddAbsent(old(byName), keys[..i], app)
        invariant byExec == old(byExec) && byDesktopId == old(byDesktopId)
      {
        PrefixStep(keys, i);
        if keys[i] !in byName {
          byName := byName[keys[i] := app];
        }
        i := i + 1;
      }
      assert keys[..i] == keys;
    }

    /** `resolve_by_desktop_id` */
    function ResolveByDesktopId(desktopId: string): (r: Option<AppInfo>)
      reads this
      ensures r.Some? <==> Lower(desktopId) in byDesktopId
      ensures r.Some? ==> r.value == byDesktopId[Lower(desktopId)]
      ensures r.Some? && Valid() ==> Lower(r.value.desktopId) == Lower(desktopId)
    {
      var key := Lower(desktopId);
      if key in byDesktopId then Some(byDesktopId[key]) else None
    }

    /** What `fuzzy_search` may answer: an application of the desktop-id map
        with the best score, when that score exceeds 30, and nothing
        otherwise. */
    predicate FuzzyAnswer(query: string, r: Option<AppInfo>)
      reads this
    {
      BestAbove(byDesktopId, ScoreFor(query), r)
    }

    /** `fuzzy_search`: the applications are visited in an unspecified order,
        and a later one replaces the best so far only with a higher score. */
    method FuzzySearch(query: string) returns (r: Option<AppInfo>)
      ensures FuzzyAnswer(query, r)
    {
      var bestMatch: Option<AppInfo> := None;
      var bestScore := 0;
      var remaining := byDesktopId.Keys;
      while remaining != {}
        invariant remaining <= byDesktopId.Keys
        invariant Scanned(byDesktopId, remaining, ScoreFor(query), bestMatch, bestScore)
        decreases remaining
      {
        var key :| key in remaining;
        var app := byDesktopId[key];
        var score := ScoreApp(query, app);
        ScanStep(byDesktopId, remaining, key, ScoreFor(query), bestMatch, bestScore);
        if score > bestScore {
          bestScore := score;
          bestMatch := Some(app);
        }
        remaining := remaining - {key};
      }
      ScanDone(byDesktopId, ScoreFor(query), bestMatch, bestScore);
      if bestScore > 30 {
        r := bestMatch;
      } else {
        r := None;
      }
    }

    /** `resolve`: the lower-cased query in the name map, then the command
        map, then the desktop-id map, and only then the fuzzy search. */
    method Resolve(query: string) returns (r: Option<AppInfo>)
      ensures var q := Lower(query);
        && (q in byName ==> r == Some(byName[q]))
        && (q !in byName && q in byExec ==> r == Some(byExec[q]))
        && (q !in byName && q !in byExec && q in byDesktopId ==> r == Some(byDesktopId[q]))
        && (q !in byName && q !in byExec && q !in byDesktopId ==> FuzzyAnswer(q, r))
    {
      var queryLower := Lower(query);
      if queryLower in byName {
        return Some(byName[queryLower]);
      }
      if queryLower in byExec {
        return Some(byExec[queryLower]);
      }
      if queryLower in byDesktopId {
        return Some(byDesktopId[queryLower]);
      }
      r := FuzzySearch(queryLower);
    }
  }

  /** Every desktop-id key is the lower-cased desktop id of its application. */
  predicate DesktopKeyed(m: map<string, AppInfo>) {
    forall k :: k in m ==> Lower(m[k].desktopId) == k
  }

  /** Every command key is the command key of its application. */
  predicate ExecKeyed(m: map<string, AppInfo>) {
    forall k :: k in m ==> ExecKeyOf(m[k]) == k
  }

  /** Every name key is the lower-cased name, generic name or a keyword of its
      application. */
  predicate NameKeyed(m: map<string, AppInfo>) {
    forall k :: k in m ==> Lower(m[k].name) == k || k in ExtraNameKeys(m[k])
  }

  /** Registering keeps every key of the three maps tied to its application. */
  lemma RegisteredNamesValid(m: map<string, AppInfo>, app: AppInfo)
    requires NameKeyed(m)
    ensures NameKeyed(AddAbsent(m[Lower(app.name) := app], ExtraNameKeys(app), app))
  {
  }

  /** `AppScore` for one query, as a function of the application. */
  function ScoreFor(query: string): (f: AppInfo -> int)
    ensures forall app :: f(app) == AppScore(query, app)
  {
    app => AppScore(query, app)
  }

  /** A scan over the desktop-id map: `best` holds the highest score of the
      applications visited so far (those whose key is no longer in
      `remaining`), and `bestMatch` one application that has it. */
  predicate Scanned(m: map<string, AppInfo>, remaining: set<string>, score: AppInfo -> int,
                    bestMatch: Option<AppInfo>, best: int)
  {
    && (bestMatch.None? ==> best == 0)
    && (bestMatch.Some? ==> bestMatch.value in m.Values && score(bestMatch.value) == best)
    && (forall k :: k in m && k !in remaining ==> score(m[k]) <= best)
  }

  /** The answer of a fuzzy search over `m`: an application of `m` with the
      highest score, when that score exceeds 30, and nothing otherwise. */
  predicate BestAbove(m: map<string, AppInfo>, score: AppInfo -> int, r: Option<AppInfo>) {
    && (r.Some? ==>
          && r.value in m.Values && score(r.value) > 30
          && forall k :: k in m ==> score(m[k]) <= score(r.value))
    && (r.None? ==> forall k :: k in m ==> score(m[k]) <= 30)
  }

  /** One application visited. */
  lemma ScanStep(m: map<string, AppInfo>, remaining: set<string>, key: string, score: AppInfo -> int,
                 bestMatch: Option<AppInfo>, best: int)
    requires key in remaining && remaining <= m.Keys
    requires Scanned(m, remaining, score, bestMatch, best)
    ensures score(m[key]) > best ==> Scanned(m, remaining - {key}, score, Some(m[key]), score(m[key]))
    ensures score(m[key]) <= best ==> Scanned(m, remaining - {key}, score, bestMatch, best)
  {
  }

  /** Every application visited. */
  lemma ScanDone(m: map<string, AppInfo>, score: AppInfo -> int, bestMatch: Option<AppInfo>, best: int)
    requires Scanned(m, {}, score, bestMatch, best)
    ensures BestAbove(m, score, if best > 30 then bestMatch else None)
  {
  }
}
