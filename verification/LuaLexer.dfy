/** Blanking of strings, comments and long brackets: native/src/core.cpp. */
module LuaLexer {
  import opened Text
  import opened Wrappers

  /** A literal or comment: where it ends, and whether its closing delimiter was found. */
  datatype Span = Span(end: nat, closed: bool)

  function SkipEquals(s: string, position: nat): (r: nat)
    requires position <= |s|
    ensures position <= r <= |s|
    ensures forall k :: position <= k < r ==> s[k] == '='
    ensures r < |s| ==> s[r] != '='
    decreases |s| - position
  {
    if position < |s| && s[position] == '=' then SkipEquals(s, position + 1) else position
  }

  /** The number of `=` in a long bracket opener at `position`, or -1. */
  function LongBracketLevel(s: string, position: nat): int {
    if position >= |s| || s[position] != '[' then -1
    else
      var cursor := SkipEquals(s, position + 1);
      if cursor < |s| && s[cursor] == '[' then cursor - position - 1 else -1
  }

  method LuaLongBracketLevel(s: string, position: nat) returns (level: int)
    ensures level == LongBracketLevel(s, position)
  {
    if position >= |s| || s[position] != '[' { return -1; }
    var cursor := position + 1;
    while cursor < |s| && s[cursor] == '='
      invariant position < cursor <= |s|
      invariant SkipEquals(s, position + 1) == SkipEquals(s, cursor)
    {
      cursor := cursor + 1;
    }
    return if cursor < |s| && s[cursor] == '[' then cursor - position - 1 else -1;
  }

  function CloseBracket(level: nat): string {
    "]" + seq(level, i => '=') + "]"
  }

  /** The rest of a quoted string from `position` on; a backslash hides the next character. */
  function StringSpan(s: string, position: nat, quote: char): (r: Span)
    requires position <= |s|
    ensures position <= r.end <= |s|
    ensures r.closed ==> position < r.end
    decreases |s| - position
  {
    if position == |s| then Span(|s|, false)
    else if s[position] == '\\' && position + 1 < |s| then StringSpan(s, position + 2, quote)
    else if s[position] == quote then Span(position + 1, true)
    else StringSpan(s, position + 1, quote)
  }

  function LongSpan(s: string, position: nat, level: nat): (r: Span)
    requires position <= |s|
    ensures position <= r.end <= |s|
  {
    var found := IndexOf(s, CloseBracket(level), position);
    if found.Some? then Span(found.value + level + 2, true) else Span(|s|, false)
  }

  function LineEnd(s: string, position: nat): (r: nat)
    requires position <= |s|
    ensures position <= r <= |s|
    decreases |s| - position
  {
    if position < |s| && s[position] != '\n' then LineEnd(s, position + 1) else position
  }

  /** The literal or comment that starts at `position`, if one does. */
  function SpanAt(s: string, position: nat): (r: Option<Span>)
    requires position < |s|
    ensures r.Some? ==> position < r.value.end <= |s|
  {
    if s[position] == '\'' || s[position] == '"' then Some(StringSpan(s, position + 1, s[position]))
    else if s[position] == '-' && position + 1 < |s| && s[position + 1] == '-' then
      var level := LongBracketLevel(s, position + 2);
      if level < 0 then Some(Span(LineEnd(s, position + 2), true))
      else Some(LongSpan(s, position + level + 4, level))
    else
      var level := LongBracketLevel(s, position);
      if level < 0 then None else Some(LongSpan(s, position + level + 2, level))
  }

  function BlankChar(c: char): char {
    if c == '\n' || c == '\r' then c else ' '
  }

  function Blank(s: string): (r: string)
    ensures |r| == |s| && forall k :: 0 <= k < |s| ==> r[k] == BlankChar(s[k])
  {
    seq(|s|, k requires 0 <= k < |s| => BlankChar(s[k]))
  }

  /** The text from `position` on with every literal and comment blanked. */
  function MaskedFrom(s: string, position: nat): (r: string)
    requires position <= |s|
    ensures |r| == |s| - position
    decreases |s| - position
  {
    if position == |s| then ""
    else
      var span := SpanAt(s, position);
      if span.None? then [s[position]] + MaskedFrom(s, position + 1)
      else Blank(s[position..span.value.end]) + MaskedFrom(s, span.value.end)
  }

  function Masked(s: string): string { MaskedFrom(s, 0) }

  predicate MalformedFrom(s: string, position: nat)
    requires position <= |s|
    decreases |s| - position
  {
    position < |s| &&
    var span := SpanAt(s, position);
    if span.None? then MalformedFrom(s, position + 1)
    else !span.value.closed || MalformedFrom(s, span.value.end)
  }

  predicate Malformed(s: string) { MalformedFrom(s, 0) }

  /** `mask`: blanks a range of the buffer, keeping line breaks. */
  method Mask(result: array<char>, begin: nat, end: nat)
    requires begin <= end <= result.Length
    modifies result
    ensures result[..] == old(result[..begin]) + Blank(old(result[begin..end])) + old(result[end..])
  {
    for index := begin to end
      invariant forall k :: 0 <= k < result.Length && !(begin <= k < index) ==> result[k] == old(result[k])
      invariant forall k :: begin <= k < index ==> result[k] == BlankChar(old(result[k]))
    {
      if result[index] != '\n' && result[index] != '\r' { result[index] := ' '; }
    }
  }

  method ScanString(s: string, position: nat, quote: char) returns (span: Span)
    requires position <= |s|
    ensures span == StringSpan(s, position, quote)
  {
    var index := position;
    while index < |s|
      invariant position <= index <= |s|
      invariant StringSpan(s, position, quote) == StringSpan(s, index, quote)
      decreases |s| - index
    {
      if s[index] == '\\' && index + 1 < |s| {
        index := index + 2;
      } else {
        if s[index] == quote { return Span(index + 1, true); }
        index := index + 1;
      }
    }
    return Span(index, false);
  }

  method ScanLine(s: string, position: nat) returns (end: nat)
    requires position <= |s|
    ensures end == LineEnd(s, position)
  {
    end := position;
    while end < |s| && s[end] != '\n'
      invariant position <= end <= |s|
      invariant LineEnd(s, position) == LineEnd(s, end)
    {
      end := end + 1;
    }
  }

  method ScanSpan(s: string, position: nat) returns (span: Option<Span>)
    requires position < |s|
    ensures span == SpanAt(s, position)
  {
    if s[position] == '\'' || s[position] == '"' {
      var literal := ScanString(s, position + 1, s[position]);
      return Some(literal);
    }
    if s[position] == '-' && position + 1 < |s| && s[position + 1] == '-' {
      var level := LuaLongBracketLevel(s, position + 2);
      if level < 0 {
        var end := ScanLine(s, position + 2);
        return Some(Span(end, true));
      }
      return Some(LongSpan(s, position + level + 4, level));
    }
    var level := LuaLongBracketLevel(s, position);
    return if level < 0 then None else Some(LongSpan(s, position + level + 2, level));
  }

  /** The lexer overwrites a copy of the source while it walks over it. */
  method MaskLuaLiterals(source: string) returns (result: array<char>, malformed: bool)
    ensures fresh(result) && result[..] == Masked(source)
    ensures malformed <==> Malformed(source)
  {
    result := new char[|source|](i requires 0 <= i < |source| => source[i]);
    malformed := false;
    assert result[..] == source;
    hide SpanAt, MaskedFrom, MalformedFrom, Piece, TokenEnd;
    var index := 0;
    while index < |source|
      invariant 0 <= index <= |source| == result.Length
      invariant result[..index] + MaskedFrom(source, index) == Masked(source)
      invariant result[index..] == source[index..]
      invariant Malformed(source) <==> malformed || MalformedFrom(source, index)
      decreases |source| - index
    {
      Unfolded(source, index);
      ghost var done := result[..index];
      var next, closed := MaskNext(source, result, index);
      Associate(done, Piece(source, index), MaskedFrom(source, next));
      if !closed { malformed := true; }
      index := next;
    }
    NothingLeft(source);
    assert result[..index] == result[..] && result[..] + "" == result[..];
  }

  /** One step of the lexer: a literal, a comment or a single character. */
  method MaskNext(source: string, result: array<char>, index: nat) returns (next: nat, closed: bool)
    requires index < |source| == result.Length && result[index..] == source[index..]
    modifies result
    ensures next == TokenEnd(source, index) && index < next <= |source|
    ensures closed <==> Closed(source, index)
    ensures result[..next] == old(result[..index]) + Piece(source, index)
    ensures result[next..] == source[next..]
  {
    hide SpanAt;
    var span := ScanSpan(source, index);
    if span.None? {
      assert result[index] == result[index..][0] == source[index];
      return index + 1, true;
    }
    next, closed := span.value.end, span.value.closed;
    assert result[index..next] == source[index..][..next - index];
    assert result[next..] == source[index..][next - index..];
    Mask(result, index, next);
  }

  function TokenEnd(s: string, position: nat): (r: nat)
    requires position < |s|
    ensures position < r <= |s|
  {
    var span := SpanAt(s, position);
    if span.None? then position + 1 else span.value.end
  }

  predicate Closed(s: string, position: nat)
    requires position < |s|
  {
    var span := SpanAt(s, position);
    span.None? || span.value.closed
  }

  function Piece(s: string, position: nat): (r: string)
    requires position < |s|
    ensures |r| == TokenEnd(s, position) - position
  {
    var span := SpanAt(s, position);
    if span.None? then [s[position]] else Blank(s[position..span.value.end])
  }

  lemma NothingLeft(s: string)
    ensures MaskedFrom(s, |s|) == "" && !MalformedFrom(s, |s|)
  {
  }

  lemma Unfolded(s: string, position: nat)
    requires position < |s|
    ensures MaskedFrom(s, position) == Piece(s, position) + MaskedFrom(s, TokenEnd(s, position))
    ensures MalformedFrom(s, position) <==> !Closed(s, position) || MalformedFrom(s, TokenEnd(s, position))
  {
    hide SpanAt;
  }

  lemma PieceAt(s: string, position: nat, k: nat)
    requires position < |s| && position <= k < TokenEnd(s, position)
    ensures var c := Piece(s, position)[k - position];
            c == BlankChar(s[k]) || (c == s[k] && SpanAt(s, k).None?)
  {
    hide SpanAt;
  }

  /** Each character is kept or blanked; one that is kept starts no literal or comment. */
  lemma {:induction false} MaskedAt(s: string, position: nat, k: nat)
    requires position <= k < |s|
    ensures var c := MaskedFrom(s, position)[k - position];
            || c == BlankChar(s[k])
            || (c == s[k] && SpanAt(s, k).None?)
    decreases |s| - position
  {
    Unfolded(s, position);
    hide SpanAt, MaskedFrom, Piece, TokenEnd;
    if TokenEnd(s, position) <= k {
      MaskedAt(s, TokenEnd(s, position), k);
    } else {
      PieceAt(s, position, k);
    }
  }

  /** Masking keeps the length and every line break; every other character stays or becomes a
      space. */
  lemma MaskedShape(s: string)
    ensures |Masked(s)| == |s|
    ensures forall k :: 0 <= k < |s| ==> Masked(s)[k] == s[k] || Masked(s)[k] == ' '
    ensures forall k :: 0 <= k < |s| && (s[k] == '\n' || s[k] == '\r') ==> Masked(s)[k] == s[k]
  {
    forall k | 0 <= k < |s|
      ensures (Masked(s)[k] == s[k] || Masked(s)[k] == ' ') &&
              (s[k] == '\n' || s[k] == '\r' ==> Masked(s)[k] == s[k])
    {
      MaskedAt(s, 0, k);
    }
  }

  /** An opener in a text whose characters are those of `s` or spaces is an opener in `s`. */
  lemma BracketRemains(m: string, s: string, position: nat)
    requires |m| == |s| && forall k :: 0 <= k < |s| ==> m[k] == s[k] || m[k] == ' '
    requires LongBracketLevel(m, position) >= 0
    ensures LongBracketLevel(s, position) >= 0
  {
    var cursor := SkipEquals(m, position + 1);
    assert forall k :: position < k < cursor ==> m[k] == '=' && s[k] == '=';
    EqualsUpTo(s, position + 1, cursor);
  }

  lemma {:induction false} EqualsUpTo(s: string, position: nat, cursor: nat)
    requires position <= cursor < |s| && s[cursor] != '='
    requires forall k :: position <= k < cursor ==> s[k] == '='
    ensures SkipEquals(s, position) == cursor
    decreases cursor - position
  {
    if position < cursor { EqualsUpTo(s, position + 1, cursor); }
  }

  /** Nothing that opens a literal or a comment is left: no quote, no `--`, no long bracket. */
  lemma NoOpenerLeft(s: string, k: nat)
    requires k < |s|
    ensures |Masked(s)| == |s| && SpanAt(Masked(s), k) == None
    ensures Masked(s)[k] != '\'' && Masked(s)[k] != '"'
    ensures Masked(s)[k] == '-' && k + 1 < |s| ==> Masked(s)[k + 1] != '-'
    ensures LongBracketLevel(Masked(s), k) < 0
  {
    MaskedShape(s);
    MaskedAt(s, 0, k);
    hide MaskedFrom;
    var m := Masked(s);
    if LongBracketLevel(m, k) >= 0 { BracketRemains(m, s, k); }
  }

  lemma {:induction false} NothingToMask(m: string, position: nat)
    requires position <= |m| && forall k :: position <= k < |m| ==> SpanAt(m, k).None?
    ensures MaskedFrom(m, position) == m[position..] && !MalformedFrom(m, position)
    decreases |m| - position
  {
    if position < |m| {
      Unfolded(m, position);
      hide SpanAt, MaskedFrom, MalformedFrom;
      NothingToMask(m, position + 1);
    }
  }

  /** Masking twice is masking once, and the second pass is never malformed. */
  lemma MaskedTwice(s: string)
    ensures Masked(Masked(s)) == Masked(s) && !Malformed(Masked(s))
  {
    MaskedShape(s);
    hide SpanAt, MaskedFrom, MalformedFrom;
    forall k | 0 <= k < |Masked(s)| ensures SpanAt(Masked(s), k).None? {
      NoOpenerLeft(s, k);
    }
    NothingToMask(Masked(s), 0);
  }

  /** The lexer starts a step at `k` when it is started at `position`. */
  predicate Reached(s: string, position: nat, k: nat)
    requires position <= |s|
    decreases |s| - position
  {
    position == k || (position < k && position < |s| && Reached(s, TokenEnd(s, position), k))
  }

  lemma PieceIs(s: string, position: nat, k: nat)
    requires position <= k < |s| && k < TokenEnd(s, position)
    ensures Piece(s, position)[k - position] ==
            if SpanAt(s, position).Some? then BlankChar(s[k]) else s[k]
  {
    hide SpanAt;
  }

  /** A literal or comment is blanked as a whole, and everything else is kept. */
  lemma {:induction false} MaskedToken(s: string, position: nat, start: nat, k: nat)
    requires position <= start <= k < |s| && Reached(s, position, start) && k < TokenEnd(s, start)
    ensures MaskedFrom(s, position)[k - position] ==
            if SpanAt(s, start).Some? then BlankChar(s[k]) else s[k]
    decreases |s| - position
  {
    hide *;
    Unfolded(s, position);
    var next := TokenEnd(s, position);
    if position < start {
      ReachedNext(s, position, start);
      MaskedToken(s, next, start, k);
      InTail(Piece(s, position), MaskedFrom(s, next), k - position);
    } else {
      PieceIs(s, position, k);
    }
  }

  lemma InTail(a: string, b: string, i: nat)
    requires |a| <= i < |a| + |b|
    ensures (a + b)[i] == b[i - |a|]
  {
  }

  lemma ReachedNext(s: string, position: nat, k: nat)
    requires position < k <= |s| && Reached(s, position, k)
    ensures TokenEnd(s, position) <= k && Reached(s, TokenEnd(s, position), k)
  {
    hide TokenEnd;
  }

  /** How many backslashes stand directly before `j`, counting from `start`. */
  function Backslashes(s: string, start: nat, j: nat): nat
    requires j <= |s|
  {
    if j > start && s[j - 1] == '\\' then 1 + Backslashes(s, start, j - 1) else 0
  }

  /** A quote that no backslash hides. */
  predicate Closes(s: string, start: nat, quote: char, j: nat) {
    start <= j < |s| && s[j] == quote && Backslashes(s, start, j) % 2 == 0
  }

  lemma {:induction false} StringSpanFrom(s: string, start: nat, quote: char, i: nat)
    requires start <= i <= |s| && quote != '\\' && Backslashes(s, start, i) % 2 == 0
    requires forall j :: start <= j < i ==> !Closes(s, start, quote, j)
    ensures var span := StringSpan(s, i, quote);
            && (span.closed ==> Closes(s, start, quote, span.end - 1)
                                && forall j :: start <= j < span.end - 1 ==> !Closes(s, start, quote, j))
            && (!span.closed ==> span.end == |s| && forall j :: !Closes(s, start, quote, j))
    decreases |s| - i
  {
    if i < |s| {
      if s[i] == '\\' && i + 1 < |s| {
        assert Backslashes(s, start, i + 1) == 1 + Backslashes(s, start, i);
        assert !Closes(s, start, quote, i) && !Closes(s, start, quote, i + 1);
        StringSpanFrom(s, start, quote, i + 2);
      } else if s[i] != quote {
        assert !Closes(s, start, quote, i);
        if i + 1 < |s| {
          StringSpanFrom(s, start, quote, i + 1);
        }
      }
    }
  }

  /** A string ends at the first quote of its kind with an even number of backslashes before it. */
  lemma StringSpanIs(s: string, start: nat, quote: char)
    requires start <= |s| && quote != '\\'
    ensures var span := StringSpan(s, start, quote);
            && (span.closed ==> Closes(s, start, quote, span.end - 1)
                                && forall j :: start <= j < span.end - 1 ==> !Closes(s, start, quote, j))
            && (!span.closed ==> span.end == |s| && forall j :: !Closes(s, start, quote, j))
  {
    StringSpanFrom(s, start, quote, start);
  }

  predicate IsQuote(c: char) { c == '\'' || c == '"' }

  predicate IsComment(s: string, k: nat) {
    k + 1 < |s| && s[k] == '-' && s[k + 1] == '-'
  }

  /** A string, long bracket or block comment opens at `k` and its closing delimiter is nowhere
      in the rest of the text. */
  ghost predicate Unterminated(s: string, k: nat) {
    k < |s| &&
    if IsQuote(s[k]) then NeverCloses(s, k + 1, s[k])
    else NeverEnds(s, if IsComment(s, k) then k + 2 else k)
  }

  ghost predicate NeverCloses(s: string, start: nat, quote: char) {
    forall j: nat :: start <= j ==> !Closes(s, start, quote, j)
  }

  ghost predicate NeverEnds(s: string, open: nat) {
    var level := LongBracketLevel(s, open);
    level >= 0 && forall j :: open + level + 2 <= j ==> !MatchesAt(s, CloseBracket(level), j)
  }

  lemma LongSpanIs(s: string, open: nat)
    requires LongBracketLevel(s, open) >= 0
    ensures var level := LongBracketLevel(s, open);
            open + level + 2 <= |s| && (LongSpan(s, open + level + 2, level).closed <==> !NeverEnds(s, open))
  {
    hide IndexOf, CloseBracket, MatchesAt;
  }

  lemma EndsWithoutBracket(s: string, open: nat)
    requires LongBracketLevel(s, open) < 0
    ensures !NeverEnds(s, open)
  {
  }

  lemma ClosedIs(s: string, k: nat)
    requires k < |s|
    ensures Closed(s, k) <==> !Unterminated(s, k)
  {
    hide StringSpan, LongBracketLevel, LongSpan, Closes, NeverEnds;
    var open := if IsComment(s, k) then k + 2 else k;
    if IsQuote(s[k]) {
      StringSpanIs(s, k + 1, s[k]);
    } else if LongBracketLevel(s, open) >= 0 {
      LongSpanIs(s, open);
    } else {
      EndsWithoutBracket(s, open);
    }
  }

  lemma {:induction false} MalformedFromIs(s: string, position: nat)
    requires position <= |s|
    ensures MalformedFrom(s, position) <==>
            exists k :: position <= k < |s| && Reached(s, position, k) && Unterminated(s, k)
    decreases |s| - position
  {
    if position == |s| {
      NothingLeft(s);
    } else {
      Unfolded(s, position);
      ClosedIs(s, position);
      var next := TokenEnd(s, position);
      MalformedFromIs(s, next);
      hide MalformedFrom, Closed, TokenEnd, Unterminated;
      if !Closed(s, position) {
        assert Reached(s, position, position) && Unterminated(s, position);
      } else if MalformedFrom(s, next) {
        var k :| next <= k < |s| && Reached(s, next, k) && Unterminated(s, k);
        assert Reached(s, position, k);
      }
    }
  }

  /** The text is malformed exactly when the lexer comes to a literal or block comment that is
      never closed. */
  lemma MalformedIs(s: string)
    ensures Malformed(s) <==> exists k :: 0 <= k < |s| && Reached(s, 0, k) && Unterminated(s, k)
  {
    MalformedFromIs(s, 0);
  }

  // Where tokens start and end, in characters.

  /** `[`, `level` equals signs, `[`. */
  predicate OpensBracket(s: string, k: nat, level: nat) {
    && k + level + 1 < |s| && s[k] == '[' && s[k + level + 1] == '['
    && forall i :: k < i <= k + level ==> s[i] == '='
  }

  /** `]`, `level` equals signs, `]`. */
  predicate ClosesBracket(s: string, k: nat, level: nat) {
    && k + level + 1 < |s| && s[k] == ']' && s[k + level + 1] == ']'
    && forall i :: k < i <= k + level ==> s[i] == '='
  }

  ghost predicate NoBracket(s: string, k: nat) {
    forall level: nat :: !OpensBracket(s, k, level)
  }

  /** The string that goes on at `start` has not ended before `stop`. */
  predicate GoesOn(s: string, start: nat, quote: char, stop: int) {
    forall j :: start <= j < stop ==> !Closes(s, start, quote, j)
  }

  lemma LevelIs(s: string, k: nat)
    ensures LongBracketLevel(s, k) >= 0 ==> OpensBracket(s, k, LongBracketLevel(s, k))
    ensures forall level: nat :: OpensBracket(s, k, level) ==> LongBracketLevel(s, k) == level
  {
    forall level: nat | OpensBracket(s, k, level) ensures LongBracketLevel(s, k) == level {
      EqualsUpTo(s, k + 1, k + level + 1);
    }
  }

  lemma ClosingIs(s: string, k: nat, level: nat)
    ensures MatchesAt(s, CloseBracket(level), k) <==> ClosesBracket(s, k, level)
  {
    var close := CloseBracket(level);
    assert |close| == level + 2 && close[0] == ']' && close[level + 1] == ']';
    assert forall i :: 0 < i <= level ==> close[i] == '=';
    hide CloseBracket;
    if MatchesAt(s, close, k) {
      MatchMeans(s, close, k);
      assert s[k + 0] == ']';
      forall i | k < i <= k + level ensures s[i] == '=' {
        assert s[k + (i - k)] == close[i - k];
      }
    }
    if ClosesBracket(s, k, level) {
      var part := s[k..k + |close|];
      forall i | 0 <= i < |close| ensures part[i] == close[i] {
      }
    }
  }

  lemma {:induction false} LineEndIs(s: string, position: nat)
    requires position <= |s|
    ensures forall i :: position <= i < LineEnd(s, position) ==> s[i] != '\n'
    ensures LineEnd(s, position) < |s| ==> s[LineEnd(s, position)] == '\n'
    decreases |s| - position
  {
    if position < |s| && s[position] != '\n' { LineEndIs(s, position + 1); }
  }

  /** Two dashes that no long bracket follows start a comment up to the first line break after them,
      or to the end of the text if there is none. */
  lemma LineCommentIs(s: string, k: nat)
    requires k + 1 < |s| && s[k] == '-' && s[k + 1] == '-' && NoBracket(s, k + 2)
    ensures SpanAt(s, k).Some? && SpanAt(s, k).value.closed
    ensures var end := SpanAt(s, k).value.end;
            && k + 2 <= end && (forall i :: k + 2 <= i < end ==> s[i] != '\n')
            && (end < |s| ==> s[end] == '\n')
  {
    LevelIs(s, k + 2);
    LineEndIs(s, k + 2);
    hide LongBracketLevel, LineEnd, OpensBracket;
  }

  /** A long bracket, or a comment that starts with one, ends right after the first closing bracket of
      its level, or at the end of the text if there is none; it is closed in the first case. */
  lemma LongTokenIs(s: string, k: nat, open: nat, level: nat)
    requires open < |s| && OpensBracket(s, open, level)
    requires open == k || (open == k + 2 && s[k] == '-' && s[k + 1] == '-')
    ensures SpanAt(s, k).Some?
    ensures var end, body := SpanAt(s, k).value.end, open + level + 2;
            if SpanAt(s, k).value.closed then
              && body <= end - level - 2 && ClosesBracket(s, end - level - 2, level)
              && forall j :: body <= j < end - level - 2 ==> !ClosesBracket(s, j, level)
            else
              end == |s| && forall j :: body <= j ==> !ClosesBracket(s, j, level)
  {
    LevelIs(s, open);
    forall j: nat { ClosingIs(s, j, level); }
    hide LongBracketLevel, OpensBracket, ClosesBracket, CloseBracket, MatchesAt, IndexOf;
    assert SpanAt(s, k) == Some(LongSpan(s, open + level + 2, level)) by {
      BracketAt(s, open, level);
    }
  }

  lemma BracketAt(s: string, open: nat, level: nat)
    requires OpensBracket(s, open, level)
    ensures open < |s| && s[open] == '['
  {
  }

  /** A quote starts a string, which ends right after the next quote of its kind that no backslash
      hides, or at the end of the text. */
  lemma StringTokenIs(s: string, k: nat)
    requires k < |s| && (s[k] == '\'' || s[k] == '"')
    ensures SpanAt(s, k).Some?
    ensures var end := SpanAt(s, k).value.end;
            if SpanAt(s, k).value.closed then
              && k + 1 <= end - 1 && Closes(s, k + 1, s[k], end - 1)
              && GoesOn(s, k + 1, s[k], end - 1)
            else
              end == |s| && GoesOn(s, k + 1, s[k], end)
  {
    StringSpanIs(s, k + 1, s[k]);
    hide Closes, StringSpan;
  }

  /** Nothing else starts a literal or a comment. */
  lemma PlainIs(s: string, k: nat)
    requires k < |s|
    ensures SpanAt(s, k).None? <==>
            && s[k] != '\'' && s[k] != '"' && !(k + 1 < |s| && s[k] == '-' && s[k + 1] == '-')
            && NoBracket(s, k)
  {
    LevelIs(s, k);
    hide LongBracketLevel, OpensBracket, StringSpan, LongSpan, LineEnd;
  }
}
