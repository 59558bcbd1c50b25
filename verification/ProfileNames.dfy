/** The searches for a free profile name and a free profile id:
    addon/vanahub/versions/0.1.0/profiles.lua lines 65 to 82. */
module ProfileNames {
  import opened LuaValues
  import opened Profiles
  import opened Text

  function Numbered(base: string, n: nat): string { base + Decimal(n) }

  function BaseName(requested: string): string {
    if Trim(requested) == "" then "Profile" else Trim(requested)
  }

  /** The requested name if it is free, else the first free numbered one. */
  ghost predicate IsUniqueName(profiles: seq<Profile>, requested: string, name: string) {
    var base := BaseName(requested);
    if Lower(base) !in FoldedNames(profiles) then name == base
    else exists n :: FirstFreeName(profiles, base, n) && name == Numbered(base + " ", n)
  }

  ghost predicate FirstFreeName(profiles: seq<Profile>, base: string, n: nat) {
    && n >= 2 && Lower(Numbered(base + " ", n)) !in FoldedNames(profiles)
    && forall k :: 2 <= k < n ==> Lower(Numbered(base + " ", k)) in FoldedNames(profiles)
  }

  ghost predicate IsNextId(profiles: seq<Profile>, id: string) {
    exists n :: FirstFreeId(profiles, n) && id == Numbered("profile-", n)
  }

  ghost predicate FirstFreeId(profiles: seq<Profile>, n: nat) {
    && n >= 1 && Numbered("profile-", n) !in ProfileIds(profiles)
    && forall k :: 1 <= k < n ==> Numbered("profile-", k) in ProfileIds(profiles)
  }

  lemma NumberedDiffer(base: string, m: nat, n: nat)
    requires m != n
    ensures Numbered(base, m) != Numbered(base, n)
    ensures Lower(Numbered(base, m)) != Lower(Numbered(base, n))
  {
    if Decimal(m) == Decimal(n) { DecimalInjective(m, n); }
    assert Numbered(base, m)[|base|..] == Decimal(m) && Numbered(base, n)[|base|..] == Decimal(n);
    LowerConcat(base, Decimal(m));
    LowerConcat(base, Decimal(n));
    assert Lower(Decimal(m)) == Decimal(m) && Lower(Decimal(n)) == Decimal(n);
    assert Lower(Numbered(base, m))[|base|..] == Decimal(m) && Lower(Numbered(base, n))[|base|..] == Decimal(n);
  }

  lemma SubsetSize<T>(a: set<T>, b: set<T>)
    requires a <= b
    ensures |a| <= |b|
  {
    assert b == a + (b - a);
  }

  /** Each name tried is a different one of the names in use, so there are fewer tries than
      profiles before a free name turns up. */
  method UniqueName(profiles: seq<Profile>, requested: string) returns (name: string)
    ensures IsUniqueName(profiles, requested, name)
  {
    hide Decimal, Lower, Trim, Numbered;
    var base := BaseName(requested);
    var used := set folded | folded in FoldedNames(profiles);
    if Lower(base) !in used { return base; }
    var index := 2;
    ghost var tried: set<string> := {};
    while Lower(Numbered(base + " ", index)) in used
      invariant index >= 2 && tried <= used && |tried| == index - 2
      invariant forall s :: s in tried ==> exists k :: 2 <= k < index && s == Lower(Numbered(base + " ", k))
      invariant forall k :: 2 <= k < index ==> Lower(Numbered(base + " ", k)) in used
      decreases |used| + 2 - index
    {
      var next := Lower(Numbered(base + " ", index));
      forall k | 2 <= k < index ensures next != Lower(Numbered(base + " ", k)) {
        NumberedDiffer(base + " ", index, k);
      }
      tried := tried + {next};
      SubsetSize(tried, used);
      index := index + 1;
    }
    assert FirstFreeName(profiles, base, index);
    return Numbered(base + " ", index);
  }

  method NextId(profiles: seq<Profile>) returns (id: string)
    ensures IsNextId(profiles, id)
  {
    hide Decimal, Numbered;
    var used := set taken | taken in ProfileIds(profiles);
    var index := 1;
    ghost var tried: set<string> := {};
    while Numbered("profile-", index) in used
      invariant index >= 1 && tried <= used && |tried| == index - 1
      invariant forall s :: s in tried ==> exists k :: 1 <= k < index && s == Numbered("profile-", k)
      invariant forall k :: 1 <= k < index ==> Numbered("profile-", k) in used
      decreases |used| + 1 - index
    {
      var next := Numbered("profile-", index);
      forall k | 1 <= k < index ensures next != Numbered("profile-", k) {
        NumberedDiffer("profile-", index, k);
      }
      tried := tried + {next};
      SubsetSize(tried, used);
      index := index + 1;
    }
    assert FirstFreeId(profiles, index);
    return Numbered("profile-", index);
  }

  /** The name found is free, not empty and has nothing to trim. */
  lemma UniqueNameIsFree(profiles: seq<Profile>, requested: string, name: string)
    requires IsUniqueName(profiles, requested, name)
    ensures Lower(name) !in FoldedNames(profiles) && name != "" && Trimmed(name)
  {
    hide Lower, Trim;
    TrimIs(requested);
    var base := BaseName(requested);
    assert base != "" && Trimmed(base);
    if Lower(base) in FoldedNames(profiles) {
      var n :| FirstFreeName(profiles, base, n) && name == Numbered(base + " ", n);
      assert name[0] == base[0] && name[|name| - 1] == Decimal(n)[|Decimal(n)| - 1];
    }
  }

  lemma NextIdIsFree(profiles: seq<Profile>, id: string)
    requires IsNextId(profiles, id)
    ensures id !in ProfileIds(profiles) && id != ""
  {
  }

  /** The name asked for, without its white ends, or `Profile` if nothing is left; where that is taken,
      with the least free number from 2 on. */
  lemma UniqueNameMeans(profiles: seq<Profile>, requested: string, name: string)
    requires IsUniqueName(profiles, requested, name)
    ensures var base := if Trim(requested) == "" then "Profile" else Trim(requested);
            || (name == base && Lower(base) !in FoldedNames(profiles))
            || (&& Lower(base) in FoldedNames(profiles)
                && exists n: nat :: && n >= 2 && name == base + " " + Decimal(n) && Lower(name) !in FoldedNames(profiles)
                                    && forall k: nat :: 2 <= k < n ==> Lower(base + " " + Decimal(k)) in FoldedNames(profiles))
  {
    hide Decimal, Lower, Trim;
    var base := BaseName(requested);
    if Lower(base) in FoldedNames(profiles) {
      var n: nat :| FirstFreeName(profiles, base, n) && name == Numbered(base + " ", n);
      assert n >= 2 && name == base + " " + Decimal(n);
      forall k: nat | 2 <= k < n ensures Lower(base + " " + Decimal(k)) in FoldedNames(profiles) {
        assert Numbered(base + " ", k) == base + " " + Decimal(k);
      }
    }
  }

  lemma NextIdMeans(profiles: seq<Profile>, id: string)
    requires IsNextId(profiles, id)
    ensures exists n: nat :: && n >= 1 && id == "profile-" + Decimal(n) && id !in ProfileIds(profiles)
                             && forall k: nat :: 1 <= k < n ==> "profile-" + Decimal(k) in ProfileIds(profiles)
  {
    hide Decimal;
    var n: nat :| FirstFreeId(profiles, n) && id == Numbered("profile-", n);
    forall k: nat | 1 <= k < n ensures "profile-" + Decimal(k) in ProfileIds(profiles) {
      assert Numbered("profile-", k) == "profile-" + Decimal(k);
    }
  }
}
