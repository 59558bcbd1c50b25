/** The order in which installed addons are listed:
    addon/vanahub/versions/0.1.0/profiles.lua lines 17 to 28. */
module InstalledOrder {
  import opened LuaValues
  import opened Text
  import opened Wrappers

  /** The installed addons by id, each with the display name it was installed under, if any. */
  type Installed = map<string, Option<string>>

  function Display(installed: Installed, id: string): string {
    if id in installed && installed[id].Some? then installed[id].value else id
  }

  /** The comparison `table.sort` is given: by display name ignoring case, then by id. */
  predicate Precedes(installed: Installed, a: string, b: string) {
    var left, right := Lower(Display(installed, a)), Lower(Display(installed, b));
    if left == right then Less(a, b) else Less(left, right)
  }

  /** By the first difference of the folded display names, the shorter one first; equal names by that of
      the ids. */
  lemma PrecedesIs(installed: Installed, a: string, b: string)
    requires a in installed && b in installed
    ensures var x := Lower(if installed[a].Some? then installed[a].value else a);
            var y := Lower(if installed[b].Some? then installed[b].value else b);
            && (x != y ==>
                  (Precedes(installed, a, b) <==>
                   exists i :: 0 <= i <= |x| && i < |y| && x[..i] == y[..i] && (i == |x| || x[i] < y[i])))
            && (x == y ==>
                  (Precedes(installed, a, b) <==>
                   exists i :: 0 <= i <= |a| && i < |b| && a[..i] == b[..i] && (i == |a| || a[i] < b[i])))
  {
    LessIs(Lower(Display(installed, a)), Lower(Display(installed, b)));
    LessIs(a, b);
    hide Less, Lower;
  }

  ghost predicate Ordered(installed: Installed, ids: seq<string>) {
    forall i, j :: 0 <= i < j < |ids| ==> Precedes(installed, ids[i], ids[j])
  }

  /** Every installed id, each once, in order. */
  ghost predicate IsListing(installed: Installed, ids: seq<string>) {
    Ordered(installed, ids) && forall id :: id in ids <==> id in installed
  }

  lemma PrecedesTotal(installed: Installed, a: string, b: string)
    ensures a == b || Precedes(installed, a, b) || Precedes(installed, b, a)
    ensures !(Precedes(installed, a, b) && Precedes(installed, b, a)) && !Precedes(installed, a, a)
  {
    LessTotal(a, b);
    LessTotal(a, a);
    LessTotal(Lower(Display(installed, a)), Lower(Display(installed, b)));
  }

  lemma PrecedesTransitive(installed: Installed, a: string, b: string, c: string)
    requires Precedes(installed, a, b) && Precedes(installed, b, c)
    ensures Precedes(installed, a, c)
  {
    var x, y, z := Lower(Display(installed, a)), Lower(Display(installed, b)), Lower(Display(installed, c));
    if x == y && y == z {
      LessTransitive(a, b, c);
    } else if x != y && y != z {
      LessTransitive(x, y, z);
      LessTotal(x, y);
    }
  }

  /** Inserting where it belongs keeps the list ordered. */
  lemma Insertion(installed: Installed, ids: seq<string>, k: nat, id: string)
    requires Ordered(installed, ids) && k <= |ids| && id !in ids
    requires forall i :: 0 <= i < k ==> Precedes(installed, ids[i], id)
    requires k < |ids| ==> !Precedes(installed, ids[k], id)
    ensures Ordered(installed, ids[..k] + [id] + ids[k..])
  {
    hide Precedes;
    forall j | k <= j < |ids| ensures Precedes(installed, id, ids[j]) {
      PrecedesTotal(installed, id, ids[k]);
      if k < j { PrecedesTransitive(installed, id, ids[k], ids[j]); }
    }
  }

  /** The ids come out of the table in any order; sorting leaves only one. */
  method SortedInstalledIds(installed: Installed) returns (ids: seq<string>)
    ensures IsListing(installed, ids)
  {
    hide Precedes, Ordered;
    ids := [];
    var rest := installed.Keys;
    NothingListed(installed);
    while rest != {}
      invariant rest <= installed.Keys && Ordered(installed, ids)
      invariant forall id :: id in ids <==> id in installed && id !in rest
      decreases |rest|
    {
      var id :| id in rest;
      rest := rest - {id};
      var k := 0;
      while k < |ids| && Precedes(installed, ids[k], id)
        invariant k <= |ids| && forall i :: 0 <= i < k ==> Precedes(installed, ids[i], id)
      {
        k := k + 1;
      }
      Insertion(installed, ids, k, id);
      assert ids == ids[..k] + ids[k..];
      ids := ids[..k] + [id] + ids[k..];
    }
  }

  lemma NothingListed(installed: Installed)
    ensures Ordered(installed, [])
  {
  }

  /** There is only one listing. */
  lemma {:induction false} ListingIsUnique(installed: Installed, a: seq<string>, b: seq<string>)
    requires Ordered(installed, a) && Ordered(installed, b) && forall id :: id in a <==> id in b
    ensures a == b
    decreases |a|
  {
    hide Precedes;
    assert b != [] ==> b[0] in b;
    if a != [] {
      assert a[0] in b && b[0] in a;
      FirstIsLeast(installed, a, b[0]);
      FirstIsLeast(installed, b, a[0]);
      PrecedesTotal(installed, a[0], b[0]);
      assert a == [a[0]] + a[1..] && b == [b[0]] + b[1..];
      FirstIsAlone(installed, a);
      FirstIsAlone(installed, b);
      forall id ensures id in a[1..] <==> id in b[1..] {
        assert id in a <==> id == a[0] || id in a[1..];
        assert id in b <==> id == b[0] || id in b[1..];
      }
      ListingIsUnique(installed, a[1..], b[1..]);
    }
  }

  lemma FirstIsLeast(installed: Installed, ids: seq<string>, id: string)
    requires Ordered(installed, ids) && id in ids
    ensures id == ids[0] || Precedes(installed, ids[0], id)
  {
  }

  lemma FirstIsAlone(installed: Installed, ids: seq<string>)
    requires Ordered(installed, ids) && ids != []
    ensures ids[0] !in ids[1..]
  {
    PrecedesTotal(installed, ids[0], ids[0]);
  }

}
