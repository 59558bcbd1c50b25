/** The hand-written JSON reader of native/src/engine.cpp, the escaper of native/src/core.cpp
    and the transaction journal that one writes and the other reads back. */
module JsonText {
  import opened Text
  import opened Wrappers
  import opened Paths

  function Marker(key: string): string { "\"" + key + "\"" }

  predicate IsBlank(c: char) { c == ' ' || c == '\t' || c == '\r' || c == '\n' }

  function SkipBlanks(source: string, position: nat): (r: nat)
    requires position <= |source|
    ensures position <= r <= |source|
    decreases |source| - position
  {
    if position < |source| && IsBlank(source[position]) then SkipBlanks(source, position + 1) else position
  }

  /** The character an escape letter stands for; the reader knows eight of them. */
  function Unescaped(letter: char): Option<char> {
    match letter
    case '"' => Some('"')
    case '\\' => Some('\\')
    case '/' => Some('/')
    case 'b' => Some(8 as char)
    case 'f' => Some(12 as char)
    case 'n' => Some('\n')
    case 'r' => Some('\r')
    case 't' => Some('\t')
    case _ => None
  }

  /** The string literal whose body starts at `position`; none if it is unterminated or uses
      an escape the reader does not know. */
  function ReadBody(source: string, position: nat): Option<string>
    decreases |source| - position
  {
    if position >= |source| then None
    else if source[position] == '"' then Some("")
    else if source[position] != '\\' then Push(source[position], ReadBody(source, position + 1))
    else if position + 1 >= |source| then None
    else match Unescaped(source[position + 1])
      case None => None
      case Some(c) => Push(c, ReadBody(source, position + 2))
  }

  function Push(c: char, rest: Option<string>): Option<string> {
    if rest.None? then None else Some([c] + rest.value)
  }

  function Prepend(read: string, rest: Option<string>): Option<string> {
    if rest.None? then None else Some(read + rest.value)
  }

  lemma PrependPush(read: string, c: char, rest: Option<string>)
    ensures Prepend(read, Push(c, rest)) == Prepend(read + [c], rest)
  {
    if rest.Some? {
      assert read + ([c] + rest.value) == read + [c] + rest.value;
    }
  }

  /** The position of the first body character of the value of `key`, if it is a string. */
  function ValueStart(source: string, key: string): Option<nat> {
    var marker := IndexOf(source, Marker(key), 0);
    if marker.None? then None
    else
      var colon := IndexOf(source, ":", marker.value + |Marker(key)|);
      if colon.None? then None
      else
        var open := SkipBlanks(source, colon.value + 1);
        if open == |source| || source[open] != '"' then None else Some(open + 1)
  }

  /** The value read for `key`; every failure reads as the empty string. */
  function ReadString(source: string, key: string): string {
    var start := ValueStart(source, key);
    if start.None? then ""
    else
      var body := ReadBody(source, start.value);
      if body.None? then "" else body.value
  }

  method JsonString(source: string, key: string) returns (result: string)
    ensures result == ReadString(source, key)
  {
    hide ReadBody, IndexOf, SkipBlanks;
    var marker := IndexOf(source, Marker(key), 0);
    if marker.None? { return ""; }
    var colon := IndexOf(source, ":", marker.value + |Marker(key)|);
    if colon.None? { return ""; }
    var position := SkipBlanks(source, colon.value + 1);
    if position == |source| || source[position] != '"' { return ""; }
    var body := ReadLiteral(source, position + 1);
    result := if body.None? then "" else body.value;
  }

  method ReadLiteral(source: string, start: nat) returns (result: Option<string>)
    ensures result == ReadBody(source, start)
  {
    hide Unescaped;
    var read, position := "", start;
    if ReadBody(source, start).Some? {
      assert "" + ReadBody(source, start).value == ReadBody(source, start).value;
    }
    while position < |source|
      invariant start <= position
      invariant ReadBody(source, start) == Prepend(read, ReadBody(source, position))
      decreases |source| - position
    {
      var c := source[position];
      if c == '"' {
        assert read + "" == read;
        return Some(read);
      }
      if c != '\\' {
        PrependPush(read, c, ReadBody(source, position + 1));
        read, position := read + [c], position + 1;
      } else {
        position := position + 1;
        if position >= |source| { return None; }
        match Unescaped(source[position]) {
          case None => return None;
          case Some(plain) =>
            PrependPush(read, plain, ReadBody(source, position + 1));
            read, position := read + [plain], position + 1;
        }
      }
    }
    return None;
  }

  function HexDigit(n: nat): char
    requires n < 16
  {
    "0123456789abcdef"[n]
  }

  function EscapeChar(c: char): string {
    match c as int
    case 34 => "\\\""
    case 92 => "\\\\"
    case 8 => "\\b"
    case 12 => "\\f"
    case 10 => "\\n"
    case 13 => "\\r"
    case 9 => "\\t"
    case code => if code < 32 then "\\u00" + [HexDigit(code / 16), HexDigit(code % 16)] else [c]
  }

  function JsonEscape(value: string): string {
    if value == "" then "" else EscapeChar(value[0]) + JsonEscape(value[1..])
  }

  /** A character the escaper writes as `\u00xx`, which the reader does not understand. */
  predicate NeedsUnicodeEscape(c: char) {
    c < ' ' && c as int !in {8, 9, 10, 12, 13}
  }

  predicate Unreadable(value: string) {
    exists i :: 0 <= i < |value| && NeedsUnicodeEscape(value[i])
  }

  lemma UnreadableCons(value: string)
    requires value != ""
    ensures Unreadable(value) <==> NeedsUnicodeEscape(value[0]) || Unreadable(value[1..])
  {
    hide NeedsUnicodeEscape;
    if Unreadable(value[1..]) {
      var i :| 0 <= i < |value[1..]| && NeedsUnicodeEscape(value[1..][i]);
      assert value[i + 1] == value[1..][i];
    }
    if Unreadable(value) && !NeedsUnicodeEscape(value[0]) {
      var i :| 0 <= i < |value| && NeedsUnicodeEscape(value[i]);
      assert value[1..][i - 1] == value[i];
    }
  }

  /** One escaped character is read as one character, or not at all. */
  lemma EscapedCharReads(source: string, position: nat, c: char)
    requires MatchesAt(source, EscapeChar(c), position)
    ensures ReadBody(source, position) ==
            if NeedsUnicodeEscape(c) then None else Push(c, ReadBody(source, position + |EscapeChar(c)|))
  {
    var code := EscapeChar(c);
    assert forall k :: 0 <= k < |code| ==> source[position + k] == source[position..position + |code|][k] == code[k];
    assert source[position] == code[0];
    if |code| > 1 {
      assert source[position + 1] == code[1];
    }
  }

  /** Reading back an escaped body gives the value, except that one character needing a
      `\\u` escape makes the reader fail. */
  lemma {:induction false} ReadEscaped(source: string, position: nat, value: string)
    requires MatchesAt(source, JsonEscape(value) + "\"", position)
    ensures ReadBody(source, position) ==
            if Unreadable(value) then None else Some(value)
    decreases |value|
  {
    if value == "" {
      assert source[position] == source[position..position + 1][0] == '"';
    } else {
      var c, rest := value[0], value[1..];
      hide EscapeChar, NeedsUnicodeEscape, ReadBody, Unreadable, MatchesAt;
      assert JsonEscape(value) + "\"" == EscapeChar(c) + (JsonEscape(rest) + "\"");
      SplitMatch(source, position, EscapeChar(c), JsonEscape(rest) + "\"");
      EscapedCharReads(source, position, c);
      ReadEscaped(source, position + |EscapeChar(c)|, rest);
      UnreadableCons(value);
      hide *;
      assert value == [c] + rest;
    }
  }

  lemma SplitMatch(source: string, position: nat, a: string, b: string)
    requires MatchesAt(source, a + b, position)
    ensures MatchesAt(source, a, position) && MatchesAt(source, b, position + |a|)
  {
    var whole := source[position..position + |a + b|];
    assert source[position..position + |a|] == whole[..|a|] == a;
    assert source[position + |a|..position + |a| + |b|] == whole[|a|..] == b;
  }

  const INSTALL_HEAD := "{\"phase\":\"downloading\","
  const SETTINGS_HEAD := "{\"kind\":\"settings\","
  const ID_MEMBER := "\"packageId\":\""
  const JOURNAL_END := "\"}\n"

  function InstallJournal(packageId: string): string {
    INSTALL_HEAD + ID_MEMBER + JsonEscape(packageId) + JOURNAL_END
  }

  function SettingsJournal(packageId: string): string {
    SETTINGS_HEAD + ID_MEMBER + JsonEscape(packageId) + JOURNAL_END
  }

  lemma {:induction false} SafeIdEscapesToItself(value: string)
    requires forall c :: c in value ==> ' ' < c && c != '"' && c != '\\'
    ensures JsonEscape(value) == value
  {
    PlainCharacters();
    hide EscapeChar;
    if value != "" {
      assert forall c :: c in value[1..] ==> c in value;
      SafeIdEscapesToItself(value[1..]);
      assert value[0] in value;
      assert value == [value[0]] + value[1..];
    }
  }

  lemma SafeIdIsPlain(id: string)
    requires SafePackageId(id)
    ensures JsonEscape(id) == id
    ensures forall c :: c in id ==> ' ' < c && c != '"' && c != '\\' && c != ':' && !NeedsUnicodeEscape(c)
  {
    SafeIdEscapesToItself(id);
  }

  /** A member whose marker first occurs at `at` and is followed by `:"` reads from there. */
  lemma MemberAt(source: string, key: string, at: nat)
    requires at + |Marker(key)| + 2 <= |source|
    requires source[at..at + |Marker(key)| + 2] == Marker(key) + ":\""
    requires forall j :: 0 <= j < at ==> !MatchesAt(source, Marker(key), j)
    ensures ValueStart(source, key) == Some(at + |Marker(key)| + 2)
  {
    hide Marker, IndexOf;
    var marker := Marker(key);
    MarkerEnds(source, marker, at);
    hide MatchesAt;
    IndexOfIs(source, marker, 0, at);
    IndexOfIs(source, ":", at + |marker|, at + |marker|);
  }

  lemma MarkerEnds(source: string, marker: string, at: nat)
    requires at + |marker| + 2 <= |source| && source[at..at + |marker| + 2] == marker + ":\""
    ensures MatchesAt(source, marker, at) && MatchesAt(source, ":", at + |marker|)
    ensures source[at + |marker| + 1] == '"'
  {
    var m := |marker|;
    var member := source[at..at + m + 2];
    assert source[at..at + m] == member[..m] == marker;
    assert source[at + m] == member[m] == ':' && source[at + m + 1] == member[m + 1] == '"';
    assert source[at + m..at + m + 1] == [source[at + m]];
  }

  /** No quote in `head` starts the text `"pa`. */
  predicate LacksId(head: string) {
    forall j :: 0 <= j < |head| && head[j] == '"' ==>
      j + 1 < |head| && (head[j + 1] == 'p' ==> j + 2 < |head| && head[j + 2] != 'a')
  }

  /** No quote in `head` but a last one starts the text `"k`. */
  predicate LacksKind(head: string) {
    forall j :: 0 <= j < |head| - 1 && head[j] == '"' ==> head[j + 1] != 'k'
  }

  lemma Heads()
    ensures |INSTALL_HEAD| == 23 && |ID_MEMBER| == 13 && |SETTINGS_HEAD| == 19
    ensures LacksId(INSTALL_HEAD) && LacksId(SETTINGS_HEAD)
    ensures INSTALL_HEAD[22] == ',' && LacksKind(INSTALL_HEAD) && LacksKind(ID_MEMBER)
  {
  }

  lemma MarkerLetters()
    ensures |Marker("packageId")| == 11 && |Marker("kind")| == 6
    ensures Marker("packageId")[0] == '"' && Marker("packageId")[1] == 'p' && Marker("packageId")[2] == 'a'
    ensures Marker("kind")[0] == '"' && Marker("kind")[1] == 'k'
  {
  }

  lemma IdMember()
    ensures ID_MEMBER == Marker("packageId") + ":\""
  {
  }

  /** The package id is found in a journal that is `head`, the id member and the end. */
  lemma PackageIdReadsBack(head: string, id: string)
    requires SafePackageId(id) && LacksId(head)
    ensures ReadString(head + ID_MEMBER + JsonEscape(id) + JOURNAL_END, "packageId") == id
  {
    SafeIdIsPlain(id);
    Heads();
    MarkerLetters();
    IdMember();
    assert !Unreadable(id) by { hide *; assert forall i :: 0 <= i < |id| ==> id[i] in id; }
    hide IndexOf, ReadBody, SkipBlanks, JsonEscape, SafePackageId, Unreadable, INSTALL_HEAD, SETTINGS_HEAD, ID_MEMBER, Marker;
    var source := head + ID_MEMBER + JsonEscape(id) + JOURNAL_END;
    var at, start := |head|, |head| + 13;
    var body := JsonEscape(id) + "\"";
    assert source == head + ID_MEMBER + (body + "}\n");
    assert source[at..start] == ID_MEMBER;
    assert source[start..start + |body|] == body;
    ReadEscaped(source, start, id);
    forall j: nat | j < at ensures !MatchesAt(source, Marker("packageId"), j) {
      MatchMeans(source, Marker("packageId"), j);
      assert source[j] == head[j];
      assert j + 1 < at ==> source[j + 1] == head[j + 1];
      assert j + 2 < at ==> source[j + 2] == head[j + 2];
    }
    MemberAt(source, "packageId", at);
  }

  /** Recovery reads back the package id and the kind each journal was written with. */
  lemma InstallJournalReadsBack(id: string)
    requires SafePackageId(id)
    ensures ReadString(InstallJournal(id), "packageId") == id
    ensures ReadString(InstallJournal(id), "kind") == ""
  {
    Heads();
    PackageIdReadsBack(INSTALL_HEAD, id);
    NoKind(id);
  }

  lemma NoColonIn(id: string)
    requires forall c :: c in id ==> c != ':'
    ensures ':' !in id + JOURNAL_END
  {
  }

  lemma NoColon(head: string, tail: string)
    requires ':' !in tail
    ensures forall k: nat :: |head| <= k ==> !MatchesAt(head + tail, ":", k)
  {
    var source := head + tail;
    forall k: nat | |head| <= k ensures !MatchesAt(source, ":", k) {
      MatchMeans(source, ":", k);
      MatchFits(source, ":", k);
      if k < |source| { assert source[k + 0] == tail[k - |head|] && tail[k - |head|] in tail; }
    }
  }

  /** The only text in an install journal that can look like a `kind` member is the value of
      a package called `kind`, and no colon follows it. */
  lemma NoKind(id: string)
    requires SafePackageId(id)
    ensures ValueStart(InstallJournal(id), "kind") == None
  {
    SafeIdIsPlain(id);
    Heads();
    MarkerLetters();
    hide IndexOf, JsonEscape, SafePackageId, INSTALL_HEAD, ID_MEMBER, Marker, MatchesAt;
    var source := InstallJournal(id);
    assert source == INSTALL_HEAD + (ID_MEMBER + (id + JOURNAL_END));
    NoColon(INSTALL_HEAD + ID_MEMBER, id + JOURNAL_END) by { NoColonIn(id); }
    assert source == INSTALL_HEAD + ID_MEMBER + (id + JOURNAL_END);
    forall j: nat | j < 35 ensures !MatchesAt(source, Marker("kind"), j) {
      MatchMeans(source, Marker("kind"), j);
      MatchFits(source, Marker("kind"), j);
      if j < 23 {
        assert source[j] == INSTALL_HEAD[j] && (j < 22 ==> source[j + 1] == INSTALL_HEAD[j + 1]);
      } else {
        assert source[j] == ID_MEMBER[j - 23] && source[j + 1] == ID_MEMBER[j - 22];
      }
    }
    assert forall n: nat :: 36 <= n ==> IndexOf(source, ":", n).None?;
  }

  lemma SettingsJournalReadsBack(id: string)
    requires SafePackageId(id)
    ensures ReadString(SettingsJournal(id), "packageId") == id
    ensures ReadString(SettingsJournal(id), "kind") == "settings"
  {
    Heads();
    PackageIdReadsBack(SETTINGS_HEAD, id);
    KindIsSettings(id);
  }

  lemma SettingsHeadParts()
    ensures SETTINGS_HEAD == "{" + (Marker("kind") + ":\"") + ("settings" + "\"") + ","
  {
  }

  lemma KindIsSettings(id: string)
    ensures ReadString(SettingsJournal(id), "kind") == "settings"
  {
    SettingsHeadParts();
    MarkerLetters();
    KindWord();
    hide IndexOf, ReadBody, SkipBlanks, JsonEscape, Unreadable, SETTINGS_HEAD, ID_MEMBER, Marker;
    var kind, body := Marker("kind") + ":\"", "settings" + "\"";
    var source, rest := SettingsJournal(id), "," + ID_MEMBER + JsonEscape(id) + JOURNAL_END;
    assert source == "{" + kind + body + rest;
    assert source[1..9] == kind && source[9..18] == body;
    MatchMeans(source, Marker("kind"), 0);
    MemberAt(source, "kind", 1);
    ReadEscaped(source, 9, "settings");
  }

  lemma KindWord()
    ensures JsonEscape("settings") == "settings" && !Unreadable("settings")
  {
    hide EscapeChar, NeedsUnicodeEscape;
    PlainCharacters();
    SafeIdEscapesToItself("settings");
  }

  lemma PlainCharacters()
    ensures forall c :: ' ' < c && c != '"' && c != '\\' ==> EscapeChar(c) == [c] && !NeedsUnicodeEscape(c)
  {
  }

  /** The escapes of section 7 of RFC 8259, but for `\\u`; every other letter makes the reader fail. */
  lemma EscapesAre(letter: char)
    ensures Unescaped(letter) ==
            if letter == '"' || letter == '\\' || letter == '/' then Some(letter)
            else if letter == 'b' then Some(8 as char) else if letter == 't' then Some(9 as char)
            else if letter == 'n' then Some(10 as char) else if letter == 'f' then Some(12 as char)
            else if letter == 'r' then Some(13 as char) else None
  {
  }
}
