/** Version precedence for submissions: `semver_greater` in tools/verify_submission.py lines 16 to
    47, starting from the groups of a version that the regular expression has matched. */
module SemVer {
  import opened Text
  import opened Wrappers

  /** The three numbers, and the prerelease text if there is one; build metadata is not kept. */
  datatype Version = Version(major: nat, minor: nat, patch: nat, prerelease: Option<string>)

  function Identifiers(v: Version): seq<string> {
    if v.prerelease.None? then [] else Split(v.prerelease.value, '.')
  }

  predicate Stable(v: Version) { v.prerelease.None? }

  /** `str.isdigit` on ASCII text. */
  predicate Numeric(s: string) { s != "" && forall i :: 0 <= i < |s| ==> IsDigit(s[i]) }

  predicate CoreGreater(a: Version, b: Version) {
    || a.major > b.major
    || (a.major == b.major && (a.minor > b.minor || (a.minor == b.minor && a.patch > b.patch)))
  }

  predicate SameCore(a: Version, b: Version) {
    a.major == b.major && a.minor == b.minor && a.patch == b.patch
  }

  /** How two different identifiers compare. */
  predicate IdentifierGreater(left: string, right: string) {
    if Numeric(left) && Numeric(right) then DecimalValue(left) > DecimalValue(right)
    else if Numeric(left) != Numeric(right) then !Numeric(left)
    else Less(right, left)
  }

  /** The loop over the zipped identifiers: the first difference decides, then the length. */
  predicate PrereleaseGreater(left: seq<string>, right: seq<string>) {
    if left == [] || right == [] then |left| > |right|
    else if left[0] == right[0] then PrereleaseGreater(left[1..], right[1..])
    else IdentifierGreater(left[0], right[0])
  }

  predicate Greater(candidate: Version, previous: Version) {
    if !SameCore(candidate, previous) then CoreGreater(candidate, previous)
    else if Stable(candidate) != Stable(previous) then Stable(candidate)
    else !Stable(candidate) && PrereleaseGreater(Identifiers(candidate), Identifiers(previous))
  }

  lemma IdentifierIrreflexive(s: string)
    ensures !IdentifierGreater(s, s)
  {
    LessTotal(s, s);
  }

  lemma IdentifierTransitive(a: string, b: string, c: string)
    requires IdentifierGreater(a, b) && IdentifierGreater(b, c)
    ensures IdentifierGreater(a, c)
  {
    if !Numeric(b) && !Numeric(c) && !Numeric(a) { LessTransitive(c, b, a); }
  }

  lemma {:induction false} PrereleaseIrreflexive(s: seq<string>)
    ensures !PrereleaseGreater(s, s)
  {
    if s != [] { PrereleaseIrreflexive(s[1..]); }
  }

  lemma {:induction false} PrereleaseTransitive(a: seq<string>, b: seq<string>, c: seq<string>)
    requires PrereleaseGreater(a, b) && PrereleaseGreater(b, c)
    ensures PrereleaseGreater(a, c)
  {
    hide IdentifierGreater;
    if a != [] && b != [] && c != [] {
      if a[0] == b[0] == c[0] {
        PrereleaseTransitive(a[1..], b[1..], c[1..]);
      } else if a[0] != b[0] && b[0] != c[0] {
        IdentifierTransitive(a[0], b[0], c[0]);
        IdentifierIrreflexive(a[0]);
      }
    }
  }

  /** No version is greater than itself. */
  lemma GreaterIrreflexive(v: Version)
    ensures !Greater(v, v)
  {
    PrereleaseIrreflexive(Identifiers(v));
  }

  lemma GreaterTransitive(a: Version, b: Version, c: Version)
    requires Greater(a, b) && Greater(b, c)
    ensures Greater(a, c)
  {
    hide Identifiers, PrereleaseGreater;
    if SameCore(a, b) && SameCore(b, c) && !Stable(a) && !Stable(b) && !Stable(c) {
      PrereleaseTransitive(Identifiers(a), Identifiers(b), Identifiers(c));
    }
  }

  /** Section 11 of SemVer 2.0.0: the first identifier that differs decides, and a longer list wins
      over its own beginning. */
  ghost predicate DecidedAt(left: seq<string>, right: seq<string>, i: nat) {
    && i <= |left| && i <= |right| && left[..i] == right[..i]
    && i < |left|
    && (i < |right| ==> left[i] != right[i] && IdentifierGreater(left[i], right[i]))
  }

  lemma FirstAgrees(left: seq<string>, right: seq<string>, i: nat)
    ensures 0 < i && i <= |left| && i <= |right| && left[..i] == right[..i] ==> left[0] == right[0]
  {
    assert 0 < i <= |left| ==> left[..i][0] == left[0];
    assert 0 < i <= |right| ==> right[..i][0] == right[0];
  }

  lemma {:induction false} PrereleaseIs(left: seq<string>, right: seq<string>)
    ensures PrereleaseGreater(left, right) <==> exists i: nat :: DecidedAt(left, right, i)
    decreases |left|
  {
    hide IdentifierGreater;
    if left != [] && right != [] && left[0] == right[0] {
      PrereleaseIs(left[1..], right[1..]);
      if PrereleaseGreater(left, right) {
        var i: nat :| DecidedAt(left[1..], right[1..], i);
        assert left[..i + 1] == [left[0]] + left[1..][..i] && right[..i + 1] == [right[0]] + right[1..][..i];
        assert DecidedAt(left, right, i + 1);
      }
      forall i: nat | DecidedAt(left, right, i) ensures PrereleaseGreater(left, right) {
        if i > 0 {
          assert left[1..][..i - 1] == left[..i][1..] && right[1..][..i - 1] == right[..i][1..];
          assert DecidedAt(left[1..], right[1..], i - 1);
        }
      }
    } else if PrereleaseGreater(left, right) {
      assert DecidedAt(left, right, 0);
    } else {
      forall i: nat ensures !DecidedAt(left, right, i) {
        FirstAgrees(left, right, i);
      }
    }
  }

  /** The first difference, if any, is between two spellings of the same number. */
  predicate OnlySpelling(left: seq<string>, right: seq<string>) {
    if left == [] || right == [] then left == right
    else if left[0] == right[0] then OnlySpelling(left[1..], right[1..])
    else Numeric(left[0]) && Numeric(right[0]) && DecimalValue(left[0]) == DecimalValue(right[0])
  }

  lemma {:induction false} PrereleaseTotal(left: seq<string>, right: seq<string>)
    ensures !PrereleaseGreater(left, right) && !PrereleaseGreater(right, left) <==> OnlySpelling(left, right)
  {
    if left != [] && right != [] {
      if left[0] == right[0] {
        PrereleaseTotal(left[1..], right[1..]);
      } else {
        LessTotal(left[0], right[0]);
      }
    }
  }

  /** Two versions are ordered unless they have the same numbers and are both stable, or differ in
      their prerelease at most in how a number is spelled. */
  lemma Comparable(a: Version, b: Version)
    ensures !Greater(a, b) && !Greater(b, a) <==>
            && SameCore(a, b) && Stable(a) == Stable(b)
            && OnlySpelling(Identifiers(a), Identifiers(b))
  {
    hide Identifiers, PrereleaseGreater, OnlySpelling;
    PrereleaseTotal(Identifiers(a), Identifiers(b));
    if Stable(a) && Stable(b) { StableSpelling(a, b); }
  }

  lemma StableSpelling(a: Version, b: Version)
    requires Stable(a) && Stable(b)
    ensures OnlySpelling(Identifiers(a), Identifiers(b))
  {
  }

  predicate NoLeadingZero(s: string) { Numeric(s) && |s| > 1 ==> s[0] != '0' }

  lemma {:induction false} DigitsAreLarge(s: string)
    requires Numeric(s) && s[0] != '0'
    ensures DecimalValue(s) > 0 && (|s| > 1 ==> DecimalValue(s) >= 10)
    decreases |s|
  {
    if |s| > 1 {
      DigitsAreLarge(s[..|s| - 1]);
    } else {
      assert s[..0] == "";
    }
  }

  /** Without leading zeros a number has one spelling. */
  lemma {:induction false} OneSpelling(s: string, t: string)
    requires Numeric(s) && Numeric(t) && NoLeadingZero(s) && NoLeadingZero(t)
    requires DecimalValue(s) == DecimalValue(t)
    ensures s == t
    decreases |s|
  {
    var x, y := s[..|s| - 1], t[..|t| - 1];
    assert s == x + [s[|s| - 1]] && t == y + [t[|t| - 1]];
    LastDigit(s);
    LastDigit(t);
    if |s| > 1 && |t| > 1 {
      OneSpelling(x, y);
    } else if |s| > 1 {
      DigitsAreLarge(s);
    } else if |t| > 1 {
      DigitsAreLarge(t);
    }
  }

  lemma LastDigit(s: string)
    requires Numeric(s)
    ensures DecimalValue(s) / 10 == DecimalValue(s[..|s| - 1])
    ensures s[|s| - 1] as int == '0' as int + DecimalValue(s) % 10
    ensures |s| == 1 ==> DecimalValue(s) < 10
  {
    if |s| == 1 { assert s[..0] == ""; }
  }

  lemma {:induction false} SpelledAlike(left: seq<string>, right: seq<string>)
    requires OnlySpelling(left, right)
    requires forall i :: 0 <= i < |left| ==> NoLeadingZero(left[i])
    requires forall i :: 0 <= i < |right| ==> NoLeadingZero(right[i])
    ensures left == right
  {
    if left != [] && right != [] {
      if left[0] == right[0] {
        SpelledAlike(left[1..], right[1..]);
        assert left == [left[0]] + left[1..] && right == [right[0]] + right[1..];
      } else {
        OneSpelling(left[0], right[0]);
      }
    }
  }

  ghost predicate Canonical(v: Version) {
    forall i :: 0 <= i < |Identifiers(v)| ==> NoLeadingZero(Identifiers(v)[i])
  }

  /** Without leading zeros the order is total up to build metadata. */
  lemma GreaterTotal(a: Version, b: Version)
    requires Canonical(a) && Canonical(b)
    ensures Greater(a, b) || Greater(b, a) <==>
            !(SameCore(a, b) && Stable(a) == Stable(b) && Identifiers(a) == Identifiers(b))
  {
    hide Identifiers, Greater, OnlySpelling, NoLeadingZero;
    Comparable(a, b);
    if OnlySpelling(Identifiers(a), Identifiers(b)) { SpelledAlike(Identifiers(a), Identifiers(b)); }
    if Identifiers(a) == Identifiers(b) { SpelledSame(Identifiers(a)); }
  }

  lemma {:induction false} SpelledSame(s: seq<string>)
    ensures OnlySpelling(s, s)
  {
    if s != [] { SpelledSame(s[1..]); }
  }

  /** With leading zeros it is not: neither of these is greater. */
  lemma LeadingZerosTie()
    ensures var a, b := Version(1, 0, 0, Some("1")), Version(1, 0, 0, Some("01"));
            a != b && !Greater(a, b) && !Greater(b, a)
  {
    SplitNone("1", '.');
    SplitNone("01", '.');
    assert "1"[..0] == "" && "01"[..1] == "0" && "0"[..0] == "";
    assert DecimalValue("1") == 1 && DecimalValue("01") == 1;
    assert Identifiers(Version(1, 0, 0, Some("1"))) == ["1"] && Identifiers(Version(1, 0, 0, Some("01"))) == ["01"];
    assert "1" != "01";
  }

  /** The first of the three numbers that differs decides; then a version without a prerelease is the
      greater one. */
  lemma NumbersDecide(a: Version, b: Version)
    ensures a.major != b.major ==> (Greater(a, b) <==> a.major > b.major)
    ensures a.major == b.major && a.minor != b.minor ==> (Greater(a, b) <==> a.minor > b.minor)
    ensures a.major == b.major && a.minor == b.minor && a.patch != b.patch ==> (Greater(a, b) <==> a.patch > b.patch)
    ensures a.major == b.major && a.minor == b.minor && a.patch == b.patch && (a.prerelease.None? || b.prerelease.None?) ==>
              (Greater(a, b) <==> a.prerelease.None? && b.prerelease.Some?)
  {
  }

  /** Numbers compare by their value and come before words; words compare in byte order. */
  lemma IdentifiersCompare(left: string, right: string)
    ensures Numeric(left) && Numeric(right) ==> (IdentifierGreater(left, right) <==> DecimalValue(left) > DecimalValue(right))
    ensures Numeric(left) && !Numeric(right) ==> !IdentifierGreater(left, right) && IdentifierGreater(right, left)
    ensures !Numeric(left) && !Numeric(right) ==>
              (IdentifierGreater(left, right) <==>
               exists i :: 0 <= i <= |right| && i < |left| && right[..i] == left[..i] && (i == |right| || right[i] < left[i]))
  {
    LessIs(right, left);
  }

  function Pre(text: string): Version { Version(1, 0, 0, Some(text)) }

  /** The example of section 11 of SemVer 2.0.0. */
  lemma StandardExample()
    ensures Greater(Pre("alpha.1"), Pre("alpha")) && Greater(Pre("alpha.beta"), Pre("alpha.1"))
    ensures Greater(Pre("beta"), Pre("alpha.beta")) && Greater(Pre("beta.2"), Pre("beta"))
    ensures Greater(Pre("beta.11"), Pre("beta.2")) && Greater(Pre("rc.1"), Pre("beta.11"))
    ensures Greater(Version(1, 0, 0, None), Pre("rc.1"))
  {
    hide *;
    Joined();
    ExampleIdentifiers();
    Longer("alpha", "1");
    LaterDiffers("alpha", "1", "beta");
    FirstDiffers("alpha", "beta", "beta");
    Longer("beta", "2");
    LaterDiffers("beta", "2", "11");
    FirstsDiffer("beta", "11", "rc", "1");
    NumbersDecide(Version(1, 0, 0, None), Pre("rc.1"));
    PreIs("rc.1");
  }

  lemma PreIs(text: string)
    ensures Pre(text) == Version(1, 0, 0, Some(text))
  {
  }

  lemma Joined()
    ensures "alpha.1" == "alpha" + "." + "1" && "alpha.beta" == "alpha" + "." + "beta" && "beta.2" == "beta" + "." + "2"
    ensures "beta.11" == "beta" + "." + "11" && "rc.1" == "rc" + "." + "1"
  {
  }

  lemma ExampleIdentifiers()
    ensures IdentifierGreater("beta", "1") && IdentifierGreater("beta", "alpha")
    ensures IdentifierGreater("11", "2") && IdentifierGreater("rc", "beta")
    ensures forall s :: s in ["alpha", "beta", "rc", "1", "2", "11"] ==> '.' !in s
    ensures "alpha" != "beta" && "beta" != "rc" && "1" != "beta" && "2" != "11"
  {
    assert "beta"[0] == 'b' && "alpha"[0] == 'a' && "rc"[0] == 'r';
    assert !Numeric("beta") && !Numeric("alpha") && !Numeric("rc") && Numeric("1") && Numeric("2") && Numeric("11");
    assert "11"[..1] == "1" && "1"[..0] == "" && "2"[..0] == "";
    assert DecimalValue("1") == 1 && DecimalValue("2") == 2 && DecimalValue("11") == 11;
    hide Numeric, DecimalValue;
  }

  lemma TwoIdentifiers(a: string, b: string)
    requires '.' !in a && '.' !in b
    ensures Identifiers(Pre(a + "." + b)) == [a, b] && Identifiers(Pre(a)) == [a]
  {
    assert a + "." + b == a + ['.'] + b;
    SplitFirst(a, '.', b);
    SplitNone(a, '.');
    SplitNone(b, '.');
  }

  lemma Longer(a: string, b: string)
    requires '.' !in a && '.' !in b
    ensures Greater(Pre(a + "." + b), Pre(a))
  {
    TwoIdentifiers(a, b);
    hide Identifiers;
    assert [a, b][1..] == [b] && [a][1..] == [];
    assert PrereleaseGreater([b], []);
    assert PrereleaseGreater([a, b], [a]);
  }

  lemma LaterDiffers(a: string, b: string, c: string)
    requires '.' !in a && '.' !in b && '.' !in c && b != c
    ensures Greater(Pre(a + "." + c), Pre(a + "." + b)) <==> IdentifierGreater(c, b)
  {
    TwoIdentifiers(a, b);
    TwoIdentifiers(a, c);
    hide Identifiers, IdentifierGreater;
    assert [a, b][1..] == [b] && [a, c][1..] == [c];
    assert PrereleaseGreater([c], [b]) <==> IdentifierGreater(c, b);
    assert PrereleaseGreater([a, c], [a, b]) <==> PrereleaseGreater([c], [b]);
  }

  lemma FirstDiffers(a: string, b: string, c: string)
    requires '.' !in a && '.' !in b && '.' !in c && a != c
    ensures Greater(Pre(c), Pre(a + "." + b)) <==> IdentifierGreater(c, a)
  {
    TwoIdentifiers(a, b);
    TwoIdentifiers(c, c);
    hide Identifiers, IdentifierGreater;
  }

  lemma FirstsDiffer(a: string, b: string, c: string, d: string)
    requires '.' !in a && '.' !in b && '.' !in c && '.' !in d && a != c
    ensures Greater(Pre(c + "." + d), Pre(a + "." + b)) <==> IdentifierGreater(c, a)
  {
    TwoIdentifiers(a, b);
    TwoIdentifiers(c, d);
    hide Identifiers, IdentifierGreater;
  }
}
