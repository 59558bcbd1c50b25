/** Blanking of table keys: native/src/core.cpp lines 100 to 116. */
module LuaTableKeys {
  import opened Text

  predicate IsWordStart(c: char) { IsAlpha(c) || c == '_' }

  ghost predicate AllSpace(s: string, from: nat, to: nat)
    requires to <= |s|
  {
    forall k :: from <= k < to ==> IsSpace(s[k])
  }

  ghost predicate AllIdentifier(s: string, from: nat, to: nat)
    requires to <= |s|
  {
    forall k :: from <= k < to ==> IsIdentifier(s[k])
  }

  /** `{` or `,` at `p - 1`, and only white space from there to `begin`. */
  ghost predicate Introduces(s: string, p: nat, begin: nat)
    requires begin <= |s|
  {
    0 < p <= begin && AllSpace(s, p, begin) && (s[p - 1] == '{' || s[p - 1] == ',')
  }

  /** `=` at `q`, and only white space from `end` to there. */
  ghost predicate Assigns(s: string, end: nat, q: nat) {
    end <= q < |s| && AllSpace(s, end, q) && s[q] == '='
  }

  /** A word between `{` or `,` and `=`. */
  ghost predicate IsKey(s: string, begin: nat, end: nat) {
    && begin < end <= |s|
    && IsWordStart(s[begin]) && AllIdentifier(s, begin, end)
    && (exists p :: Introduces(s, p, begin))
    && (exists q :: Assigns(s, end, q))
  }

  ghost predicate InKey(s: string, k: nat) {
    exists begin: nat, end: nat :: IsKey(s, begin, end) && begin <= k < end
  }

  /** All keys blanked at once. */
  ghost function BlankKeys(s: string): (r: string)
    ensures |r| == |s|
    ensures forall k :: 0 <= k < |s| ==> r[k] == if InKey(s, k) then ' ' else s[k]
  {
    seq(|s|, k requires 0 <= k < |s| => if InKey(s, k) then ' ' else s[k])
  }

  /** No key lies across `index`. */
  ghost predicate Aligned(s: string, index: nat) {
    forall begin: nat, end: nat :: IsKey(s, begin, end) ==> end <= index || index <= begin
  }

  /** The buffer while the scan stands at `index`: keys blanked before it, nothing after. */
  ghost predicate Progress(s: string, t: string, index: nat) {
    && |t| == |s| && index <= |s| && Aligned(s, index)
    && (forall k :: 0 <= k < index ==> t[k] == if InKey(s, k) then ' ' else s[k])
    && (forall k :: index <= k < |s| ==> t[k] == s[k])
  }

  lemma KeyBounds(s: string, begin: nat, end: nat) returns (p: nat, q: nat)
    requires IsKey(s, begin, end)
    ensures Introduces(s, p, begin) && Assigns(s, end, q)
    ensures !IsIdentifier(s[begin - 1]) && end < |s| && !IsIdentifier(s[end])
  {
    p :| Introduces(s, p, begin);
    q :| Assigns(s, end, q);
  }

  lemma KeyAround(s: string, k: nat) returns (begin: nat, end: nat, p: nat, q: nat)
    requires InKey(s, k)
    ensures IsKey(s, begin, end) && begin <= k < end
    ensures Introduces(s, p, begin) && Assigns(s, end, q) && !IsIdentifier(s[p - 1])
  {
    begin, end :| IsKey(s, begin, end) && begin <= k < end;
    p, q := KeyBounds(s, begin, end);
  }

  lemma KeyIsBlanked(s: string, begin: nat, end: nat, k: nat)
    requires IsKey(s, begin, end) && begin <= k < end
    ensures InKey(s, k)
  {
  }

  /** After a blanked character there is an `=` before the next word, so a blanked character is
      never part of the white space in front of a word. */
  lemma NotSpaceBefore(s: string, t: string, p: nat, k: nat, begin: nat)
    requires p <= k < begin < |s| == |t| && InKey(s, k) && IsWordStart(s[begin])
    requires Aligned(s, begin) || !InKey(s, begin)
    requires forall j :: 0 <= j < begin && !InKey(s, j) ==> t[j] == s[j]
    ensures !AllSpace(t, p, begin)
  {
    hide IsKey, InKey;
    var keyBegin, keyEnd, before, q := KeyAround(s, k);
    if !Aligned(s, begin) && begin < keyEnd { KeyIsBlanked(s, keyBegin, keyEnd, begin); }
    assert keyEnd <= begin;
    assert q < begin;
    KeyCharacter(s, q);
    assert !IsSpace(t[q]);
  }

  /** Likewise a `{` or `,` stands between the word before it and a blanked character. */
  lemma NotSpaceAfter(s: string, t: string, end: nat, k: nat, q: nat)
    requires 0 < end <= k < q <= |s| == |t| && InKey(s, k) && IsIdentifier(s[end - 1]) && !InKey(s, end - 1)
    requires forall j :: end <= j < q && !InKey(s, j) ==> t[j] == s[j]
    ensures !AllSpace(t, end, q)
  {
    hide IsKey, InKey;
    var keyBegin, keyEnd, p, after := KeyAround(s, k);
    if keyBegin < end { KeyIsBlanked(s, keyBegin, keyEnd, end - 1); }
    assert end <= keyBegin;
    assert end <= p - 1;
    KeyCharacter(s, p - 1);
    assert !IsSpace(t[p - 1]);
  }

  lemma KeyCharacter(s: string, k: nat)
    requires k < |s| && !IsIdentifier(s[k])
    ensures !InKey(s, k)
  {
  }

  /** Where no word starts, nothing is blanked. */
  lemma StepOver(s: string, t: string, index: nat)
    requires Progress(s, t, index) && index < |s| && !IsWordStart(s[index])
    ensures Progress(s, t, index + 1)
  {
    forall begin: nat, end: nat | IsKey(s, begin, end) ensures end <= index || index + 1 <= begin {
      assert begin != index;
    }
    assert Aligned(s, index + 1) && !InKey(s, index);
  }

  /** A key that meets a word the scan has found is that word. */
  lemma KeyIsWord(s: string, index: nat, end: nat, keyBegin: nat, keyEnd: nat)
    requires Aligned(s, index) && index < end <= |s| && AllIdentifier(s, index, end)
    requires end == |s| || !IsIdentifier(s[end])
    requires IsKey(s, keyBegin, keyEnd) && keyBegin < end && index < keyEnd
    ensures keyBegin == index && keyEnd == end
  {
    var p, q := KeyBounds(s, keyBegin, keyEnd);
  }

  lemma WordDecides(s: string, index: nat, end: nat)
    requires Aligned(s, index) && index < end <= |s| && AllIdentifier(s, index, end)
    requires end == |s| || !IsIdentifier(s[end])
    ensures Aligned(s, end)
    ensures forall k :: index <= k < end ==> (InKey(s, k) <==> IsKey(s, index, end))
  {
    hide IsKey;
    forall begin: nat, last: nat | IsKey(s, begin, last) ensures last <= end || end <= begin {
      if begin < end && end < last { KeyIsWord(s, index, end, begin, last); }
    }
    forall k | index <= k < end ensures InKey(s, k) <==> IsKey(s, index, end) {
      forall begin: nat, last: nat | IsKey(s, begin, last) && begin <= k < last ensures IsKey(s, index, end) {
        KeyIsWord(s, index, end, begin, last);
      }
    }
  }

  /** White space in front of `begin` in the rewritten buffer was white space in the original: a
      blanked key is followed by its `=`, which stops the scan. */
  lemma BackwardScan(s: string, t: string, p: nat, begin: nat)
    requires |t| == |s| && p <= begin < |s| && IsWordStart(s[begin]) && Aligned(s, begin)
    requires forall k :: 0 <= k < begin ==> t[k] == if InKey(s, k) then ' ' else s[k]
    ensures AllSpace(t, p, begin) <==> AllSpace(s, p, begin)
  {
    hide IsKey, InKey, Aligned, IsSpace;
    BlankIsSpace();
    if AllSpace(t, p, begin) {
      forall k | p <= k < begin ensures IsSpace(s[k]) {
        if InKey(s, k) { NotSpaceBefore(s, t, p, k, begin); }
      }
    } else {
      var k :| p <= k < begin && !IsSpace(t[k]);
      assert !IsSpace(s[k]);
    }
  }

  lemma BlankIsSpace()
    ensures IsSpace(' ')
  {
  }

  /** What the scan tests on the rewritten buffer is whether the word is a key of the original. */
  lemma WordIsKey(s: string, t: string, begin: nat, end: nat, p: nat, q: nat)
    requires Progress(s, t, begin) && begin < end <= q <= |s|
    requires IsWordStart(s[begin]) && AllIdentifier(s, begin, end) && (end == |s| || !IsIdentifier(s[end]))
    requires AllSpace(t, end, q) && (q == |s| || !IsSpace(t[q]))
    requires p <= begin && AllSpace(t, p, begin) && (p == 0 || !IsSpace(t[p - 1]))
    ensures IsKey(s, begin, end) <==> q < |s| && t[q] == '=' && p > 0 && (t[p - 1] == '{' || t[p - 1] == ',')
  {
    BackwardScan(s, t, p, begin);
    assert AllSpace(s, end, q);
    if p > 0 {
      KeyCharacterKept(s, t, p - 1, begin);
    }
    if q < |s| && t[q] == '=' && p > 0 && (t[p - 1] == '{' || t[p - 1] == ',') {
      assert Introduces(s, p, begin) && Assigns(s, end, q);
    }
    if IsKey(s, begin, end) {
      var before, after := KeyBounds(s, begin, end);
      BackwardScan(s, t, before, begin);
      KeyCharacterKept(s, t, before - 1, begin);
      assert q == after;
      assert p == before;
    }
  }

  lemma KeyCharacterKept(s: string, t: string, k: nat, index: nat)
    requires Progress(s, t, index) && k < index
    ensures t[k] == '{' || t[k] == ',' ==> s[k] == t[k]
    ensures s[k] == '{' || s[k] == ',' ==> s[k] == t[k]
  {
    if !IsIdentifier(s[k]) { KeyCharacter(s, k); }
  }

  method FindWordEnd(source: array<char>, begin: nat) returns (end: nat)
    requires begin < source.Length && IsWordStart(source[begin])
    ensures begin < end <= source.Length && AllIdentifier(source[..], begin, end)
    ensures end == source.Length || !IsIdentifier(source[end])
  {
    end := begin + 1;
    while end < source.Length && IsIdentifier(source[end])
      invariant begin < end <= source.Length && AllIdentifier(source[..], begin, end)
    {
      end := end + 1;
    }
  }

  method SkipSpaces(source: array<char>, begin: nat, end: nat) returns (before: nat, after: nat)
    requires begin <= end <= source.Length
    ensures before <= begin && AllSpace(source[..], before, begin)
    ensures before == 0 || !IsSpace(source[before - 1])
    ensures end <= after <= source.Length && AllSpace(source[..], end, after)
    ensures after == source.Length || !IsSpace(source[after])
  {
    after := end;
    while after < source.Length && IsSpace(source[after])
      invariant end <= after <= source.Length && AllSpace(source[..], end, after)
    {
      after := after + 1;
    }
    before := begin;
    while before > 0 && IsSpace(source[before - 1])
      invariant before <= begin && AllSpace(source[..], before, begin)
    {
      before := before - 1;
    }
  }

  /** Rewriting the buffer while reading it blanks exactly the keys of the original text. */
  method MaskLuaTableKeys(source: array<char>)
    modifies source
    ensures source[..] == BlankKeys(old(source[..]))
  {
    hide IsKey, InKey, Aligned;
    ghost var original := source[..];
    NothingBlanked(original);
    var index := 0;
    while index < source.Length
      invariant Progress(original, source[..], index)
    {
      if !(IsAlpha(source[index]) || source[index] == '_') {
        StepOver(original, source[..], index);
        index := index + 1;
        continue;
      }
      var end := FindWordEnd(source, index);
      MaskWord(source, original, index, end);
      index := end;
    }
  }

  lemma NothingBlanked(s: string)
    ensures Progress(s, s, 0)
  {
  }

  method MaskWord(source: array<char>, ghost original: string, begin: nat, end: nat)
    requires Progress(original, source[..], begin) && begin < end <= source.Length
    requires IsWordStart(source[begin]) && AllIdentifier(source[..], begin, end)
    requires end == source.Length || !IsIdentifier(source[end])
    modifies source
    ensures Progress(original, source[..], end)
  {
    hide IsKey, InKey, Aligned;
    ghost var was := source[..];
    var before, after := SkipSpaces(source, begin, end);
    WordIsKey(original, was, begin, end, before, after);
    WordDecides(original, begin, end);
    if after < source.Length && source[after] == '=' && before > 0 &&
       (source[before - 1] == '{' || source[before - 1] == ',') {
      for cursor := begin to end
        invariant forall k :: 0 <= k < source.Length ==>
                    source[k] == if begin <= k < cursor then ' ' else was[k]
      {
        source[cursor] := ' ';
      }
    }
  }

  /** A key of the blanked text would have been a key before. */
  lemma NoKeyLeft(s: string, begin: nat, end: nat)
    ensures !IsKey(BlankKeys(s), begin, end)
  {
    var t := BlankKeys(s);
    hide BlankKeys, InKey, AllSpace;
    if IsKey(t, begin, end) {
      var p, q := KeyBounds(t, begin, end);
      CharactersKept(s, begin, end, p, q);
      SpacesBefore(s, begin, end, p);
      SpacesAfter(s, begin, end, q);
      hide AllIdentifier;
      assert Introduces(s, p, begin) && Assigns(s, end, q);
      KeyIsBlanked(s, begin, end, begin);
    }
  }

  lemma CharactersKept(s: string, begin: nat, end: nat, p: nat, q: nat)
    requires IsKey(BlankKeys(s), begin, end)
    requires Introduces(BlankKeys(s), p, begin) && Assigns(BlankKeys(s), end, q)
    ensures forall k :: begin <= k < end ==> BlankKeys(s)[k] == s[k] && !InKey(s, k)
    ensures AllIdentifier(s, begin, end) && BlankKeys(s)[p - 1] == s[p - 1] && BlankKeys(s)[q] == s[q]
  {
    hide BlankKeys, InKey, AllSpace;
    forall k | begin <= k < end ensures BlankKeys(s)[k] == s[k] && !InKey(s, k) {
      assert IsIdentifier(BlankKeys(s)[k]);
    }
  }

  lemma SpacesBefore(s: string, begin: nat, end: nat, p: nat)
    requires begin < end <= |s| && IsWordStart(s[begin]) && !InKey(s, begin)
    requires p <= begin && AllSpace(BlankKeys(s), p, begin)
    ensures AllSpace(s, p, begin)
  {
    hide IsKey, InKey, IsSpace, BlankKeys;
    forall k | p <= k < begin ensures IsSpace(s[k]) {
      if InKey(s, k) { NotSpaceBefore(s, BlankKeys(s), p, k, begin); }
    }
  }

  lemma SpacesAfter(s: string, begin: nat, end: nat, q: nat)
    requires begin < end <= q < |s| && IsIdentifier(s[end - 1]) && !InKey(s, end - 1)
    requires AllSpace(BlankKeys(s), end, q)
    ensures AllSpace(s, end, q)
  {
    hide IsKey, InKey, IsSpace, BlankKeys;
    forall k | end <= k < q ensures IsSpace(s[k]) {
      if InKey(s, k) { NotSpaceAfter(s, BlankKeys(s), end, k, q); }
    }
  }

  /** Blanking keys twice is blanking them once. */
  lemma BlankedTwice(s: string)
    ensures BlankKeys(BlankKeys(s)) == BlankKeys(s)
  {
    var t := BlankKeys(s);
    forall k | 0 <= k < |t| ensures !InKey(t, k) {
      forall begin: nat, end: nat ensures !IsKey(t, begin, end) {
        NoKeyLeft(s, begin, end);
      }
    }
  }

  /** A place belongs to a key if it is in a word that starts with a letter or an underscore, has `{` or
      `,` in front of it and `=` behind it, with nothing but white space between. */
  lemma KeyIs(s: string, k: nat)
    requires k < |s|
    ensures InKey(s, k) <==>
            exists begin: nat, end: nat, p: nat, q: nat ::
              KeyWithin(s, begin, end, p, q) && begin <= k < end
  {
    if InKey(s, k) {
      var begin, end, p, q := KeyAround(s, k);
      assert KeyWithin(s, begin, end, p, q);
    }
    if begin: nat, end: nat, p: nat, q: nat :| KeyWithin(s, begin, end, p, q) && begin <= k < end {
      assert Introduces(s, p, begin) && Assigns(s, end, q);
      assert IsKey(s, begin, end);
    }
  }

  ghost predicate KeyWithin(s: string, begin: nat, end: nat, p: nat, q: nat) {
    && 0 < p <= begin < end <= q < |s| && s[p - 1] in {'{', ','} && s[q] == '='
    && (forall i :: p <= i < begin || end <= i < q ==> IsSpace(s[i]))
    && (forall i :: begin <= i < end ==> IsIdentifier(s[i]))
    && !('0' <= s[begin] <= '9')
  }
}
