/** Byte strings as both the C++ and the Lua side see them: ASCII classes, case folding,
    substring search and splitting. */
module Text {
  import opened Wrappers

  predicate IsUpper(c: char) { 'A' <= c <= 'Z' }
  predicate IsLower(c: char) { 'a' <= c <= 'z' }
  predicate IsDigit(c: char) { '0' <= c <= '9' }
  predicate IsAlpha(c: char) { IsUpper(c) || IsLower(c) }

  /** `std::isalnum(c) || c == '_'`. */
  predicate IsIdentifier(c: char) { IsAlpha(c) || IsDigit(c) || c == '_' }

  predicate IsHex(c: char) { IsDigit(c) || 'a' <= c <= 'f' }

  /** A SHA-256 digest in lower-case hexadecimal. */
  predicate IsDigest(s: string) { |s| == 64 && forall i :: 0 <= i < 64 ==> IsHex(s[i]) }

  predicate NoRepeats(s: seq<string>) {
    forall i, j :: 0 <= i < j < |s| ==> s[i] != s[j]
  }

  /** `std::isspace` in the C locale, also Lua's `%s`: tab to carriage return, and space. */
  predicate IsSpace(c: char) { c == ' ' || 9 as char <= c <= 13 as char }

  function LowerChar(c: char): char {
    if IsUpper(c) then (c as int + 32) as char else c
  }

  function Lower(s: string): (r: string)
    ensures |r| == |s|
    ensures forall i :: 0 <= i < |s| ==> r[i] == LowerChar(s[i])
  {
    seq(|s|, i requires 0 <= i < |s| => LowerChar(s[i]))
  }

  lemma LowerConcat(a: string, b: string)
    ensures Lower(a + b) == Lower(a) + Lower(b)
  {
    assert |Lower(a + b)| == |Lower(a) + Lower(b)|;
    forall i | 0 <= i < |a + b| ensures Lower(a + b)[i] == (Lower(a) + Lower(b))[i] {
    }
  }

  predicate MatchesAt(s: string, needle: string, i: int) {
    0 <= i && i + |needle| <= |s| && s[i..i + |needle|] == needle
  }

  lemma MatchMeans(s: string, needle: string, i: int)
    ensures MatchesAt(s, needle, i) ==> forall k :: 0 <= k < |needle| ==> s[i + k] == needle[k]
  {
    if MatchesAt(s, needle, i) {
      forall k | 0 <= k < |needle| ensures s[i + k] == needle[k] {
        assert s[i + k] == s[i..i + |needle|][k];
      }
    }
  }

  lemma MatchFits(s: string, needle: string, i: int)
    ensures MatchesAt(s, needle, i) ==> 0 <= i && i + |needle| <= |s|
  {
  }

  /** `std::string::find`: the first match at or after `from`. */
  function IndexOf(s: string, needle: string, from: nat): (r: Option<nat>)
    ensures r.Some? ==> from <= r.value && MatchesAt(s, needle, r.value)
    ensures r.Some? ==> forall j :: from <= j < r.value ==> !MatchesAt(s, needle, j)
    ensures r.None? ==> forall j :: from <= j ==> !MatchesAt(s, needle, j)
    decreases |s| - from
  {
    if from + |needle| > |s| then None
    else if s[from..from + |needle|] == needle then Some(from)
    else IndexOf(s, needle, from + 1)
  }

  /** The least position is the one `IndexOf` returns. */
  lemma IndexOfIs(s: string, needle: string, from: nat, i: nat)
    requires from <= i && MatchesAt(s, needle, i)
    requires forall j :: from <= j < i ==> !MatchesAt(s, needle, j)
    ensures IndexOf(s, needle, from) == Some(i)
  {
    var r := IndexOf(s, needle, from);
    assert r.Some? && i <= r.value <= i;
  }

  /** The pieces of `s` between separators; one piece more than there are separators. */
  function Split(s: string, separator: char): (r: seq<string>)
    ensures |r| >= 1
    decreases |s|
  {
    if separator !in s then [s]
    else
      var i := FirstIndex(s, separator);
      [s[..i]] + Split(s[i + 1..], separator)
  }

  function FirstIndex(s: string, c: char): (i: nat)
    requires c in s
    ensures i < |s| && s[i] == c && c !in s[..i]
  {
    if s[0] == c then 0 else 1 + FirstIndex(s[1..], c)
  }

  lemma FirstIndexConcat(a: string, c: char, b: string)
    requires c !in a
    ensures FirstIndex(a + [c] + b, c) == |a|
  {
    var whole := a + [c] + b;
    var i := FirstIndex(whole, c);
    assert whole[|a|] == c && forall k :: 0 <= k < |a| ==> whole[k] == a[k];
    assert forall k :: 0 <= k < i ==> whole[k] == whole[..i][k] != c;
  }

  lemma SplitNone(a: string, separator: char)
    requires separator !in a
    ensures Split(a, separator) == [a]
  {
  }

  lemma SplitFirst(a: string, separator: char, b: string)
    requires separator !in a
    ensures Split(a + [separator] + b, separator) == [a] + Split(b, separator)
  {
    var whole := a + [separator] + b;
    FirstIndexConcat(a, separator, b);
    assert whole[|a|] == separator && separator in whole;
    assert whole[..|a|] == a && whole[|a| + 1..] == b;
  }

  /** A joined text splits where it was joined. */
  lemma {:induction false} SplitConcat(a: string, separator: char, b: string)
    ensures Split(a + [separator] + b, separator) == Split(a, separator) + Split(b, separator)
    decreases |a|
  {
    hide Split, FirstIndex;
    if separator !in a {
      SplitNone(a, separator);
      SplitFirst(a, separator, b);
    } else {
      var i := FirstIndex(a, separator);
      var head, tail := a[..i], a[i + 1..];
      SplitConcat(tail, separator, b);
      SplitFirst(head, separator, tail);
      SplitFirst(head, separator, tail + [separator] + b);
      assert a == head + [separator] + tail;
      Reassociate(head, separator, tail, b);
      Associate([head], Split(tail, separator), Split(b, separator));
    }
  }

  lemma Reassociate(head: string, separator: char, tail: string, b: string)
    ensures head + [separator] + tail + [separator] + b == head + [separator] + (tail + [separator] + b)
  {
  }

  lemma Associate<T>(a: seq<T>, b: seq<T>, c: seq<T>)
    ensures a + b + c == a + (b + c)
  {
  }

  /** Byte order of strings. */
  predicate Less(a: string, b: string) {
    b != "" && (a == "" || a[0] < b[0] || (a[0] == b[0] && Less(a[1..], b[1..])))
  }

  lemma {:induction false} LessTotal(a: string, b: string)
    ensures a == b || Less(a, b) || Less(b, a)
    ensures !(Less(a, b) && Less(b, a)) && !Less(a, a)
  {
    if a != "" && b != "" && a[0] == b[0] {
      LessTotal(a[1..], b[1..]);
      assert a == [a[0]] + a[1..] && b == [b[0]] + b[1..];
    }
    if a != "" { LessTotal(a[1..], a[1..]); }
  }

  lemma {:induction false} LessTransitive(a: string, b: string, c: string)
    requires Less(a, b) && Less(b, c)
    ensures Less(a, c)
  {
    if a != "" && a[0] == b[0] && b[0] == c[0] { LessTransitive(a[1..], b[1..], c[1..]); }
  }

  /** The first difference decides, and a text comes after its own beginnings. */
  lemma {:induction false} LessIs(a: string, b: string)
    ensures Less(a, b) <==> exists i :: 0 <= i <= |a| && i < |b| && a[..i] == b[..i] && (i == |a| || a[i] < b[i])
    decreases |a|
  {
    if a == "" {
      if b != "" { assert a[..0] == b[..0]; }
    } else if b != "" {
      if a[0] == b[0] {
        LessIs(a[1..], b[1..]);
        LessShift(a, b);
      } else {
        assert a[..0] == b[..0];
        forall i | 0 < i <= |a| && i < |b| ensures a[..i] != b[..i] {
          assert a[..i][0] == a[0] && b[..i][0] == b[0];
        }
      }
    }
  }

  lemma LessShift(a: string, b: string)
    requires a != "" && b != "" && a[0] == b[0]
    ensures (exists i :: 0 <= i <= |a[1..]| && i < |b[1..]| && a[1..][..i] == b[1..][..i] && (i == |a[1..]| || a[1..][i] < b[1..][i]))
            <==> exists i :: 0 <= i <= |a| && i < |b| && a[..i] == b[..i] && (i == |a| || a[i] < b[i])
  {
    var x, y := a[1..], b[1..];
    if i :| 0 <= i <= |x| && i < |y| && x[..i] == y[..i] && (i == |x| || x[i] < y[i]) {
      assert a[..i + 1] == [a[0]] + x[..i] && b[..i + 1] == [b[0]] + y[..i];
    }
    if i :| 0 <= i <= |a| && i < |b| && a[..i] == b[..i] && (i == |a| || a[i] < b[i]) {
      assert i > 0;
      assert x[..i - 1] == a[..i][1..] && y[..i - 1] == b[..i][1..];
    }
  }

  function Digit(n: nat): char
    requires n < 10
  {
    ('0' as int + n) as char
  }

  /** Decimal notation, as `tostring` and `std::to_string` write it. */
  function Decimal(n: nat): (r: string)
    ensures |r| >= 1
    ensures forall i :: 0 <= i < |r| ==> IsDigit(r[i])
  {
    if n < 10 then [Digit(n)] else Decimal(n / 10) + [Digit(n % 10)]
  }

  function DecimalValue(s: string): int {
    if |s| == 0 then 0
    else 10 * DecimalValue(s[..|s| - 1]) + (s[|s| - 1] as int - '0' as int)
  }

  lemma {:induction false} DecimalRoundTrip(n: nat)
    ensures DecimalValue(Decimal(n)) == n
  {
    var d := Decimal(n);
    if n < 10 {
      assert d[..0] == "";
    } else {
      DecimalRoundTrip(n / 10);
      assert d[..|d| - 1] == Decimal(n / 10);
    }
  }

  lemma DecimalInjective(m: nat, n: nat)
    requires Decimal(m) == Decimal(n)
    ensures m == n
  {
    DecimalRoundTrip(m);
    DecimalRoundTrip(n);
  }
}
