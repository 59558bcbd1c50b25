/** The verdict on an imported Lua settings file: native/src/core.cpp. */
module LuaScan {
  import opened Text
  import opened Wrappers
  import LuaDelimiters
  import LuaLexer
  import LuaTableKeys

  const BLOCKED_SYMBOLS: seq<string> := [
    "ffi", "socket", "ssl.https", "os", "io", "package", "os.execute", "io.popen", "package.loadlib",
    "loadstring", "load", "loadfile", "dofile", "getfenv", "setfenv", "_env", "string.dump", "debug",
    "ashita.memory.write", "injectpacket", "queuecommand", "createprocess", "shellexecute", "winexec",
    "loadlibrary", "regsetvalue", "urldownloadtofile", "winhttpopen", "internetopen", "deletefile",
    "removeDirectory", "virtualprotect", "writeprocessmemory"
  ]

  const LINE_LIMIT := 4000

  datatype Finding =
    | BlockedSymbol(symbol: string, line: nat)
    | EnvironmentManipulation
    | ObfuscatedLine(line: nat)
    | MalformedLua
    | LuaRequire

  function Newlines(s: string): nat {
    if s == "" then 0 else Newlines(s[..|s| - 1]) + if s[|s| - 1] == '\n' then 1 else 0
  }

  /** `line_at`: one more than the newlines in front, in 32 bits. */
  function LineAt(s: string, offset: nat): nat
    requires offset <= |s|
  {
    (1 + Newlines(s[..offset])) % 0x1_0000_0000
  }

  ghost function LineBreaks(s: string): set<int> { set i | 0 <= i < |s| && s[i] == '\n' }

  /** A place is on the line after as many line breaks as stand in front of it. */
  lemma {:induction false} NewlinesAre(s: string)
    ensures Newlines(s) == |LineBreaks(s)|
  {
    if s != "" {
      var last := |s| - 1;
      NewlinesAre(s[..last]);
      assert LineBreaks(s) == LineBreaks(s[..last]) + if s[last] == '\n' then {last} else {};
    }
  }

  lemma LineAtIs(s: string, offset: nat)
    requires offset <= |s| < 0xFFFF_FFFF
    ensures LineAt(s, offset) == 1 + |LineBreaks(s[..offset])|
  {
    NewlinesAre(s[..offset]);
    NewlinesFit(s[..offset]);
  }

  lemma {:induction false} NewlinesFit(s: string)
    ensures Newlines(s) <= |s|
  {
    if s != "" { NewlinesFit(s[..|s| - 1]); }
  }

  /** `needle` at `i`, with no identifier character on either side. */
  predicate WordAt(s: string, needle: string, i: int) {
    && MatchesAt(s, needle, i)
    && (i == 0 || !IsIdentifier(s[i - 1]))
    && (i + |needle| == |s| || !IsIdentifier(s[i + |needle|]))
  }

  /** The first whole-word occurrence at or after `from`. */
  function FirstWord(s: string, needle: string, from: nat): (r: Option<nat>)
    ensures r.Some? ==> from <= r.value < |s| + 1 && WordAt(s, needle, r.value)
    ensures r.Some? ==> forall j :: from <= j < r.value ==> !WordAt(s, needle, j)
    ensures r.None? ==> forall j :: from <= j ==> !WordAt(s, needle, j)
    decreases |s| - from
  {
    if from + |needle| > |s| then None
    else if WordAt(s, needle, from) then Some(from)
    else FirstWord(s, needle, from + 1)
  }

  method FindWord(folded: string, needle: string) returns (r: Option<nat>)
    ensures r == FirstWord(folded, needle, 0)
  {
    hide FirstWord, IndexOf, MatchesAt;
    var offset := IndexOf(folded, needle, 0);
    if offset.Some? { MatchFits(folded, needle, offset.value); }
    while offset.Some?
      invariant offset.Some? ==> MatchesAt(folded, needle, offset.value) && offset.value + |needle| <= |folded|
      invariant forall j :: 0 <= j && (offset.Some? ==> j < offset.value) ==> !WordAt(folded, needle, j)
      decreases if offset.Some? then |folded| - offset.value + 1 else 0
    {
      var at := offset.value;
      var leftOk := at == 0 || !IsIdentifier(folded[at - 1]);
      var right := at + |needle|;
      var rightOk := right == |folded| || !IsIdentifier(folded[right]);
      if leftOk && rightOk {
        assert WordAt(folded, needle, at);
        return offset;
      }
      offset := IndexOf(folded, needle, at + 1);
      if offset.Some? { MatchFits(folded, needle, offset.value); }
    }
    return None;
  }

  /** A letter, a digit or an underscore in front or behind makes it another word. */
  lemma WordAtIs(s: string, needle: string, i: int)
    ensures WordAt(s, needle, i) <==>
            && 0 <= i && i + |needle| <= |s| && s[i..i + |needle|] == needle
            && (i > 0 ==> !('a' <= s[i - 1] <= 'z' || 'A' <= s[i - 1] <= 'Z' || '0' <= s[i - 1] <= '9' || s[i - 1] == '_'))
            && (i + |needle| < |s| ==>
                  var c := s[i + |needle|];
                  !('a' <= c <= 'z' || 'A' <= c <= 'Z' || '0' <= c <= '9' || c == '_'))
  {
  }

  /** More than the permitted number of characters from `i` on without a line break. */
  predicate LongRun(s: string, i: nat) {
    i + LINE_LIMIT < |s| && forall k :: i <= k <= i + LINE_LIMIT ==> s[k] != '\n'
  }

  /** The start of the first line that is too long. */
  method FindLongLine(source: string) returns (r: Option<nat>)
    ensures r.None? ==> forall i: nat :: !LongRun(source, i)
    ensures r.Some? ==> LongRun(source, r.value) && forall i: nat :: i < r.value ==> !LongRun(source, i)
  {
    var start := 0;
    while start < |source|
      invariant start <= |source|
      invariant start > 0 ==> source[start - 1] == '\n'
      invariant forall i: nat :: i < start ==> !LongRun(source, i)
    {
      var end := IndexOf(source, "\n", start);
      NewlineAt(source, start, end);
      var stop := if end.None? then |source| else end.value;
      if stop - start > LINE_LIMIT { return Some(start); }
      if end.None? { return None; }
      assert source[stop] == '\n';
      start := stop + 1;
    }
    return None;
  }

  lemma NewlineAt(s: string, from: nat, found: Option<nat>)
    requires found == IndexOf(s, "\n", from)
    ensures found.Some? ==> found.value < |s| && s[found.value] == '\n'
    ensures forall k :: from <= k < (if found.Some? then found.value else |s|) ==> s[k] != '\n'
  {
    if found.Some? { MatchMeans(s, "\n", found.value); }
    forall k | from <= k < (if found.Some? then found.value else |s|) ensures s[k] != '\n' {
      assert !MatchesAt(s, "\n", k) && s[k..k + 1] == [s[k]];
    }
  }

  function SymbolFinding(source: string, symbol: string): (r: seq<Finding>)
    ensures |r| <= 1
  {
    var at := FirstWord(Lower(source), Lower(symbol), 0);
    if at.None? then [] else [BlockedSymbol(symbol, LineAt(source, at.value))]
  }

  function SymbolFindings(source: string, symbols: seq<string>): seq<Finding> {
    if symbols == [] then []
    else
      var last := |symbols| - 1;
      SymbolFindings(source, symbols[..last]) + SymbolFinding(source, symbols[last])
  }

  ghost predicate LongLineFinding(source: string, r: seq<Finding>) {
    if exists i: nat :: LongRun(source, i) then
      exists i: nat :: FirstLongRun(source, i) && r == [ObfuscatedLine(LineAt(source, i))]
    else r == []
  }

  ghost predicate FirstLongRun(source: string, i: nat) {
    LongRun(source, i) && forall j: nat :: j < i ==> !LongRun(source, j)
  }

  function EnvironmentFinding(source: string): seq<Finding> {
    if IndexOf(Lower(source), "_g", 0).Some? then [EnvironmentManipulation] else []
  }

  /** The blocked symbols in the order of the table, then the other two checks. */
  ghost predicate Findings(source: string, r: seq<Finding>) {
    exists long ::
      && LongLineFinding(source, long)
      && r == SymbolFindings(source, BLOCKED_SYMBOLS) + EnvironmentFinding(source) + long
  }

  method ScanSymbols(source: string, symbols: seq<string>) returns (result: seq<Finding>)
    ensures result == SymbolFindings(source, symbols)
  {
    hide FirstWord;
    result := [];
    var folded := Lower(source);
    for n := 0 to |symbols|
      invariant result == SymbolFindings(source, symbols[..n])
    {
      var symbol := symbols[n];
      assert symbols[..n + 1][..n] == symbols[..n];
      var offset := FindWord(folded, Lower(symbol));
      if offset.Some? { result := result + [BlockedSymbol(symbol, LineAt(source, offset.value))]; }
    }
    assert symbols[..|symbols|] == symbols;
  }

  method ScanLua(source: string) returns (result: seq<Finding>)
    ensures Findings(source, result)
  {
    hide FirstWord, LongRun, SymbolFindings;
    result := ScanSymbols(source, BLOCKED_SYMBOLS);
    var folded := Lower(source);
    if IndexOf(folded, "_g", 0).Some? { result := result + [EnvironmentManipulation]; }
    ghost var before := result;
    var start := FindLongLine(source);
    if start.Some? {
      assert FirstLongRun(source, start.value);
      result := result + [ObfuscatedLine(LineAt(source, start.value))];
    }
    assert LongLineFinding(source, result[|before|..]);
    assert result == before + result[|before|..];
  }

  /** What is left of a settings file once literals, comments and table keys are blanked. */
  ghost function Visible(contents: string): string {
    LuaTableKeys.BlankKeys(LuaLexer.Masked(contents))
  }

  predicate WellFormed(contents: string) {
    !LuaLexer.Malformed(contents) && LuaDelimiters.Balanced(LuaLexer.Masked(contents))
  }

  ghost predicate RequiresModule(contents: string) {
    FirstWord(Lower(Visible(contents)), "require", 0).Some?
  }

  ghost predicate Verdict(contents: string, r: seq<Finding>) {
    if !WellFormed(contents) then r == [MalformedLua]
    else exists found ::
      && Findings(Visible(contents), found)
      && r == found + if RequiresModule(contents) then [LuaRequire] else []
  }

  /** The Lua branch of `scan_setting`. */
  method ScanSetting(contents: string) returns (findings: seq<Finding>)
    ensures Verdict(contents, findings)
  {
    hide Findings, FirstWord, LuaLexer.MalformedFrom, LuaLexer.MaskedFrom, LuaDelimiters.Accepts, LuaTableKeys.BlankKeys;
    var masked, malformed := LuaLexer.MaskLuaLiterals(contents);
    var balanced := LuaDelimiters.BalancedLuaDelimiters(masked[..]);
    if malformed || !balanced { return [MalformedLua]; }
    LuaTableKeys.MaskLuaTableKeys(masked);
    findings := ScanLua(masked[..]);
    ghost var found := findings;
    assert masked[..] == Visible(contents) && Findings(Visible(contents), found);
    var loads := FindWord(Lower(masked[..]), "require");
    if loads.Some? { findings := findings + [LuaRequire]; }
    assert findings == found + if RequiresModule(contents) then [LuaRequire] else [];
  }

  /** Blanking moves no line break. */
  lemma VisibleShape(contents: string)
    ensures |Visible(contents)| == |contents|
    ensures forall k :: 0 <= k < |contents| ==> Visible(contents)[k] == contents[k] || Visible(contents)[k] == ' '
    ensures forall k :: 0 <= k < |contents| ==> (Visible(contents)[k] == '\n' <==> contents[k] == '\n')
  {
    var m := LuaLexer.Masked(contents);
    LuaLexer.MaskedShape(contents);
    hide LuaLexer.Masked, LuaTableKeys.BlankKeys, LuaTableKeys.InKey;
    forall k | 0 <= k < |contents| && m[k] == '\n' ensures !LuaTableKeys.InKey(m, k) {
      LuaTableKeys.KeyCharacter(m, k);
    }
  }

  lemma {:induction false} NewlinesEqual(s: string, t: string)
    requires |s| == |t| && forall k :: 0 <= k < |s| ==> (s[k] == '\n' <==> t[k] == '\n')
    ensures Newlines(s) == Newlines(t)
    decreases |s|
  {
    if s != "" { NewlinesEqual(s[..|s| - 1], t[..|t| - 1]); }
  }

  lemma LineIsOriginal(contents: string, offset: nat)
    requires offset <= |contents|
    ensures |Visible(contents)| == |contents|
    ensures LineAt(Visible(contents), offset) == LineAt(contents, offset)
  {
    VisibleShape(contents);
    hide Visible;
    NewlinesEqual(Visible(contents)[..offset], contents[..offset]);
  }

  ghost predicate Occurs(source: string, symbol: string, at: nat) {
    && at <= |source|
    && WordAt(Lower(source), Lower(symbol), at)
    && forall j :: 0 <= j < at ==> !WordAt(Lower(source), Lower(symbol), j)
  }

  lemma {:induction false} SymbolsReported(source: string, symbols: seq<string>, f: Finding)
    ensures f in SymbolFindings(source, symbols) <==>
            exists symbol, at :: symbol in symbols && Occurs(source, symbol, at)
                                 && f == BlockedSymbol(symbol, LineAt(source, at))
    decreases |symbols|
  {
    if symbols != [] {
      var last := symbols[|symbols| - 1];
      assert symbols == symbols[..|symbols| - 1] + [last];
      SymbolsReported(source, symbols[..|symbols| - 1], f);
      SymbolReported(source, last, f);
    }
  }

  lemma SymbolReported(source: string, symbol: string, f: Finding)
    ensures f in SymbolFinding(source, symbol) <==>
            exists at :: Occurs(source, symbol, at) && f == BlockedSymbol(symbol, LineAt(source, at))
  {
    hide FirstWord, WordAt, LineAt;
    var first := FirstWord(Lower(source), Lower(symbol), 0);
    if first.Some? {
      assert Occurs(source, symbol, first.value);
      forall at | Occurs(source, symbol, at) ensures at == first.value {
        assert !(at < first.value);
      }
    }
  }

  /** Tells the blocked symbols apart by length, first and third character. */
  function Key(symbol: string): (int, char, char) {
    (|symbol|, if symbol == "" then ' ' else symbol[0], if |symbol| < 3 then ' ' else symbol[2])
  }

  /** No symbol is listed twice. */
  lemma SymbolsDistinct()
    ensures NoRepeats(BLOCKED_SYMBOLS)
  {
    forall i, j | 0 <= i < j < |BLOCKED_SYMBOLS| ensures BLOCKED_SYMBOLS[i] != BLOCKED_SYMBOLS[j] {
      assert |BLOCKED_SYMBOLS[i]| == |BLOCKED_SYMBOLS[j]| ==> Key(BLOCKED_SYMBOLS[i]) != Key(BLOCKED_SYMBOLS[j]);
    }
  }

  /** A symbol is reported at most once. */
  lemma {:induction false} ReportedOnce(source: string, symbols: seq<string>, i: nat, j: nat)
    requires NoRepeats(symbols) && i < j < |SymbolFindings(source, symbols)|
    ensures var r := SymbolFindings(source, symbols);
            r[i].BlockedSymbol? && r[j].BlockedSymbol? && r[i].symbol != r[j].symbol
    decreases |symbols|
  {
    var front := symbols[..|symbols| - 1];
    var before := SymbolFindings(source, front);
    if j < |before| {
      ReportedOnce(source, front, i, j);
    } else {
      SymbolsReported(source, front, before[i]);
    }
  }

  ghost predicate Appears(source: string, symbol: string) {
    exists i :: WordAt(Lower(source), Lower(symbol), i)
  }

  lemma FirstOccurrence(source: string, symbol: string) returns (at: nat)
    requires Appears(source, symbol)
    ensures Occurs(source, symbol, at)
  {
    hide WordAt;
    var i :| WordAt(Lower(source), Lower(symbol), i);
    WordFits(Lower(source), Lower(symbol), i);
    var first := FirstWord(Lower(source), Lower(symbol), 0);
    at := first.value;
  }

  lemma WordFits(s: string, needle: string, i: int)
    requires WordAt(s, needle, i)
    ensures 0 <= i <= |s|
  {
  }

  /** The findings of the three checks do not mix. */
  lemma FindingsAre(source: string, r: seq<Finding>, symbol: string, line: nat)
    requires Findings(source, r)
    ensures BlockedSymbol(symbol, line) in r <==> BlockedSymbol(symbol, line) in SymbolFindings(source, BLOCKED_SYMBOLS)
    ensures MalformedLua !in r && LuaRequire !in r
    ensures EnvironmentManipulation in r <==> IndexOf(Lower(source), "_g", 0).Some?
    ensures ObfuscatedLine(line) in r <==> exists i: nat :: FirstLongRun(source, i) && line == LineAt(source, i)
  {
    hide BLOCKED_SYMBOLS, LongRun, SymbolFindings;
    var long :| LongLineFinding(source, long)
                && r == SymbolFindings(source, BLOCKED_SYMBOLS) + EnvironmentFinding(source) + long;
    SymbolsReported(source, BLOCKED_SYMBOLS, MalformedLua);
    SymbolsReported(source, BLOCKED_SYMBOLS, LuaRequire);
    SymbolsReported(source, BLOCKED_SYMBOLS, EnvironmentManipulation);
    SymbolsReported(source, BLOCKED_SYMBOLS, ObfuscatedLine(line));
  }

  predicate IsBlocked(symbol: string) { symbol in BLOCKED_SYMBOLS }

  /** `at` is the first place where the symbol appears outside literals, comments and table keys,
      and `line` is the line of that place in the original text. */
  ghost predicate FirstSeen(contents: string, symbol: string, at: nat, line: nat) {
    && IsBlocked(symbol)
    && Occurs(Visible(contents), symbol, at)
    && at <= |contents| && line == LineAt(contents, at)
  }

  lemma SymbolLine(contents: string, found: seq<Finding>, symbol: string, line: nat)
    requires Findings(Visible(contents), found)
    ensures BlockedSymbol(symbol, line) in found <==> exists at :: FirstSeen(contents, symbol, at, line)
  {
    hide Visible, BLOCKED_SYMBOLS, LineAt, Findings, WordAt;
    var source := Visible(contents);
    VisibleShape(contents);
    FindingsAre(source, found, symbol, line);
    var f := BlockedSymbol(symbol, line);
    SymbolsReported(source, BLOCKED_SYMBOLS, f);
    if f in found {
      var name, at :| name in BLOCKED_SYMBOLS && Occurs(source, name, at) && f == BlockedSymbol(name, LineAt(source, at));
      LineIsOriginal(contents, at);
      assert FirstSeen(contents, symbol, at, line);
    }
    if exists at :: FirstSeen(contents, symbol, at, line) {
      var at :| FirstSeen(contents, symbol, at, line);
      LineIsOriginal(contents, at);
    }
  }

  /** For well-formed text a blocked symbol is reported, on a given line, if and only if its first
      appearance is there: ignoring case, as a whole word, outside literals, comments and table
      keys, and on that line of the original text. */
  lemma VerdictIsExact(contents: string, r: seq<Finding>, symbol: string, line: nat)
    requires Verdict(contents, r) && WellFormed(contents)
    ensures BlockedSymbol(symbol, line) in r <==> exists at :: FirstSeen(contents, symbol, at, line)
    ensures MalformedLua !in r && (LuaRequire in r <==> RequiresModule(contents))
    ensures LuaRequire in r <==> exists i :: WordAt(Lower(Visible(contents)), "require", i)
    ensures EnvironmentManipulation in r <==> IndexOf(Lower(Visible(contents)), "_g", 0).Some?
    ensures ObfuscatedLine(line) in r <==>
            exists i: nat :: FirstLongRun(Visible(contents), i) && line == LineAt(Visible(contents), i)
  {
    RequiresIs(contents);
    hide Visible, WellFormed, FirstSeen, Findings, RequiresModule, FirstLongRun, LineAt, WordAt;
    var found :| Findings(Visible(contents), found)
                 && r == found + if RequiresModule(contents) then [LuaRequire] else [];
    SymbolLine(contents, found, symbol, line);
    FindingsAre(Visible(contents), found, symbol, line);
  }

  lemma RequiresIs(contents: string)
    ensures RequiresModule(contents) <==> exists i :: WordAt(Lower(Visible(contents)), "require", i)
  {
    hide Visible, WordAt;
    var text := Lower(Visible(contents));
    if i :| WordAt(text, "require", i) { WordFits(text, "require", i); }
  }

  /** A text is rejected as malformed exactly if the lexer comes to a literal or block comment that is
      never closed, or the brackets outside of them do not nest; nothing else is reported then. */
  lemma MalformedIsReported(contents: string, r: seq<Finding>)
    requires Verdict(contents, r)
    ensures MalformedLua in r <==>
            || (exists k :: 0 <= k < |contents| && LuaLexer.Reached(contents, 0, k) && LuaLexer.Unterminated(contents, k))
            || !LuaDelimiters.InLanguage(LuaLexer.Masked(contents))
    ensures MalformedLua in r ==> r == [MalformedLua]
  {
    hide LuaLexer.Malformed, LuaDelimiters.Balanced, LuaDelimiters.InLanguage, LuaLexer.Unterminated, LuaLexer.Reached,
         LuaLexer.Masked, Visible, Findings, RequiresModule, FirstSeen, FirstLongRun, WordAt, Verdict;
    LuaLexer.MalformedIs(contents);
    LuaDelimiters.BalancedIsNesting(LuaLexer.Masked(contents));
    if WellFormed(contents) { VerdictIsExact(contents, r, "", 0); } else { RejectedAlone(contents, r); }
  }

  lemma RejectedAlone(contents: string, r: seq<Finding>)
    requires Verdict(contents, r) && !WellFormed(contents)
    ensures r == [MalformedLua]
  {
    hide WellFormed, Visible, Findings;
  }

  /** What the scan looks at: the text with literals and comments blanked, and the table keys of that. */
  lemma VisibleIs(contents: string, k: nat)
    requires k < |contents|
    ensures |Visible(contents)| == |contents| == |LuaLexer.Masked(contents)|
    ensures Visible(contents)[k] == if LuaTableKeys.InKey(LuaLexer.Masked(contents), k) then ' '
                                    else LuaLexer.Masked(contents)[k]
  {
    LuaLexer.MaskedShape(contents);
    hide LuaLexer.Masked, LuaTableKeys.InKey;
  }

  /** No blocked symbol goes unreported. */
  lemma NothingMissed(contents: string, r: seq<Finding>, symbol: string)
    requires Verdict(contents, r) && WellFormed(contents) && IsBlocked(symbol)
    requires Appears(Visible(contents), symbol)
    ensures exists line :: BlockedSymbol(symbol, line) in r
  {
    hide Visible, WellFormed, IsBlocked, Occurs, Verdict, Appears, LineAt;
    VisibleShape(contents);
    var at := FirstOccurrence(Visible(contents), symbol);
    OccursInside(Visible(contents), symbol, at);
    var line := LineAt(contents, at);
    assert FirstSeen(contents, symbol, at, line);
    VerdictIsExact(contents, r, symbol, line);
  }

  lemma OccursInside(source: string, symbol: string, at: nat)
    requires Occurs(source, symbol, at)
    ensures at <= |source|
  {
  }

  /** Each symbol is reported at most once. */
  lemma NothingRepeated(contents: string, r: seq<Finding>, i: nat, j: nat)
    requires Verdict(contents, r) && i < j < |r| && r[i].BlockedSymbol? && r[j].BlockedSymbol?
    ensures r[i].symbol != r[j].symbol
  {
    hide Visible, WellFormed, SymbolFindings, BLOCKED_SYMBOLS, RequiresModule;
    var source := Visible(contents);
    var found :| Findings(source, found) && r == found + if RequiresModule(contents) then [LuaRequire] else [];
    SymbolsDistinct();
    ReportedOnce(source, BLOCKED_SYMBOLS, i, j);
  }

  lemma SymbolsHaveNoSpace(symbol: string)
    requires IsBlocked(symbol)
    ensures ' ' !in symbol
  {
  }

  /** A reported symbol stands in the original text, at the same place. */
  lemma ReportedIsThere(contents: string, symbol: string, at: nat)
    requires Occurs(Visible(contents), symbol, at) && IsBlocked(symbol)
    ensures MatchesAt(Lower(contents), Lower(symbol), at)
  {
    VisibleShape(contents);
    SymbolsHaveNoSpace(symbol);
    hide Visible, IsBlocked;
    var v, needle := Lower(Visible(contents)), Lower(symbol);
    MatchMeans(v, needle, at);
    forall k | 0 <= k < |needle| ensures Lower(contents)[at + k] == needle[k] {
      assert v[at + k] == needle[k] && symbol[k] in symbol;
    }
    assert Lower(contents)[at..at + |needle|] == needle;
  }

  /** An over-long line is reported exactly when the original text has one. */
  lemma LongLinesAreOriginal(contents: string, i: nat)
    ensures LongRun(Visible(contents), i) <==> LongRun(contents, i)
    ensures LongRun(contents, i) <==> i + 4000 < |contents| && '\n' !in contents[i..i + 4001]
  {
    VisibleShape(contents);
    hide Visible;
    forall k | 0 <= k < |contents| ensures Visible(contents)[k] == '\n' <==> contents[k] == '\n' {
    }
  }

  /** Scanning a text as it stands reports every blocked symbol that appears in it. */
  lemma AppearanceIsFound(source: string, found: seq<Finding>, symbol: string)
    requires Findings(source, found) && IsBlocked(symbol) && Appears(source, symbol)
    ensures found != []
  {
    var at := FirstOccurrence(source, symbol);
    var f := BlockedSymbol(symbol, LineAt(source, at));
    hide Occurs, BLOCKED_SYMBOLS, WordAt, LineAt, Findings;
    FindingsAre(source, found, symbol, f.line);
    SymbolsReported(source, BLOCKED_SYMBOLS, f);
    assert f in found;
  }
}
