/** What the profile operations make of a document, and that each keeps the invariant:
    addon/vanahub/versions/0.1.0/profiles.lua lines 124 to 286. */
module ProfileEdits {
  import opened InstalledOrder
  import opened LuaValues
  import opened ProfileNames
  import opened Profiles
  import opened Text
  import opened Wrappers

  /** Where an id first stands, or the length of the list. */
  function Position(ids: seq<string>, id: string): (r: nat)
    ensures r <= |ids| && (r < |ids| ==> ids[r] == id) && (r == |ids| ==> id !in ids)
    ensures forall i :: 0 <= i < r ==> ids[i] != id
  {
    if ids == [] || ids[0] == id then 0 else 1 + Position(ids[1..], id)
  }

  function Copied(addons: seq<Entry>, preserveAutoLoad: bool): (r: seq<Entry>)
    ensures |r| == |addons|
    ensures forall i :: 0 <= i < |r| ==> r[i] == addons[i].(autoLoad := preserveAutoLoad && addons[i].autoLoad)
  {
    seq(|addons|, i requires 0 <= i < |addons| => addons[i].(autoLoad := preserveAutoLoad && addons[i].autoLoad))
  }

  /** The addons of the active profile, or of the first one. */
  function ActiveAddons(d: Document): seq<Entry> {
    var at := Position(ProfileIds(d.profiles), d.active);
    if at < |d.profiles| then d.profiles[at].addons
    else if d.profiles == [] then [] else d.profiles[0].addons
  }

  function Appended(d: Document, p: Profile): Document {
    Document(d.profiles + [p], p.id)
  }

  lemma AppendedIs(d: Document, p: Profile)
    ensures Appended(d, p) == Document(d.profiles + [p], p.id)
  {
  }

  function Renamed(d: Document, at: nat, name: string): Document
    requires at < |d.profiles|
  {
    d.(profiles := d.profiles[at := d.profiles[at].(name := name)])
  }

  function Min(a: nat, b: nat): nat { if a < b then a else b }

  /** Removing the active profile activates the one that takes its place, or the new last one. */
  function Removed(d: Document, at: nat): Document
    requires at < |d.profiles| && |d.profiles| >= 2
  {
    var rest := d.profiles[..at] + d.profiles[at + 1..];
    Document(rest, if d.active == d.profiles[at].id then rest[Min(at, |rest| - 1)].id else d.active)
  }

  function WithAddon(addons: seq<Entry>, id: string, autoLoad: bool): seq<Entry> {
    if id in Ids(addons) then addons else addons + [Entry(id, autoLoad, None, None, None)]
  }

  function WithInstalled(d: Document, id: string, enable: bool): (r: Document)
    ensures |r.profiles| == |d.profiles| && r.active == d.active
  {
    d.(profiles := seq(|d.profiles|, i requires 0 <= i < |d.profiles| =>
      var p := d.profiles[i];
      p.(addons := WithAddon(p.addons, id, enable && id != MANAGER && p.id == d.active))))
  }

  function Without(addons: seq<Entry>, id: string): seq<Entry> {
    if addons == [] then []
    else Without(addons[..|addons| - 1], id) + if addons[|addons| - 1].id == id then [] else [addons[|addons| - 1]]
  }

  function WithoutInstalled(d: Document, id: string): (r: Document)
    ensures |r.profiles| == |d.profiles| && r.active == d.active
  {
    d.(profiles := seq(|d.profiles|, i requires 0 <= i < |d.profiles| =>
      d.profiles[i].(addons := Without(d.profiles[i].addons, id))))
  }

  function Swapped(addons: seq<Entry>, i: nat, j: nat): seq<Entry>
    requires i < |addons| && j < |addons|
  {
    addons[i := addons[j]][j := addons[i]]
  }

  function WithAddons(d: Document, at: nat, addons: seq<Entry>): Document
    requires at < |d.profiles|
  {
    d.(profiles := d.profiles[at := d.profiles[at].(addons := addons)])
  }

  // What an import manifest must look like.

  predicate OptionalText(v: Value, limit: nat) { v == Nil || (v.Str? && |v.s| <= limit) }

  predicate ImportSourceOk(v: Value) {
    && IsTable(v) && Get(v, "builtin").Bool?
    && (Get(v, "builtin").b || (Get(v, "url").Str? && IsUrl(Get(v, "url").s)))
    && OptionalText(Get(v, "name"), 200)
  }

  predicate ImportEntryOk(v: Value) {
    && IsTable(v) && Get(v, "id").Str? && SafeId(Get(v, "id").s)
    && Get(v, "autoLoad").Bool? && Get(v, "settings").Bool?
    && ImportSourceOk(Get(v, "source")) && OptionalText(Get(v, "version"), 80)
    && (Get(v, "sha256") == Nil || (Get(v, "sha256").Str? && IsDigest(Get(v, "sha256").s)))
  }

  predicate ImportNameOk(v: Value) {
    && v.Str? && Trim(v.s) != "" && |v.s| <= 80
    && forall i :: 0 <= i < |v.s| ==> v.s[i] >= ' '
  }

  predicate ImportOk(raw: Value) {
    var profile := Get(raw, "profile");
    var addons := Get(profile, "addons");
    && Get(raw, "schemaVersion") == Number(1.0) && IsTable(profile) && IsTable(addons)
    && |Items(addons)| <= 256 && ImportNameOk(Get(profile, "name"))
    && (forall i :: 0 <= i < |Items(addons)| ==> ImportEntryOk(Items(addons)[i]))
    && (forall i, j :: 0 <= i < j < |Items(addons)| ==>
          Get(Items(addons)[i], "id") != Get(Items(addons)[j], "id"))
  }

  // Every operation keeps the invariant.

  lemma ActiveAddonsOk(d: Document, installed: Installed)
    requires Valid(d, installed)
    ensures AddonsOk(ActiveAddons(d), installed)
  {
    hide AddonsOk;
  }

  lemma CopiedOk(addons: seq<Entry>, preserveAutoLoad: bool, installed: Installed)
    requires AddonsOk(addons, installed)
    ensures AddonsOk(Copied(addons, preserveAutoLoad), installed)
  {
    hide SafeId, IsDigest, IsUrl;
    var r := Copied(addons, preserveAutoLoad);
    forall i | 0 <= i < |r| ensures EntryOk(r[i], installed) {
      assert EntryOk(addons[i], installed);
    }
    assert Ids(r) == Ids(addons);
  }

  lemma AppendedIsValid(d: Document, p: Profile, installed: Installed)
    requires Valid(d, installed) && ProfileOk(p, installed)
    requires p.id !in ProfileIds(d.profiles) && Lower(p.name) !in FoldedNames(d.profiles)
    ensures Valid(Appended(d, p), installed)
  {
    hide ProfileOk, Lower;
    NewProfile(d.profiles, p.id, p.name);
    assert ProfileIds(d.profiles + [p])[|d.profiles|] == p.id;
  }

  lemma RenamedIsValid(d: Document, at: nat, name: string, installed: Installed)
    requires Valid(d, installed) && at < |d.profiles| && Trimmed(name) && name != ""
    requires forall i :: 0 <= i < |d.profiles| && i != at ==> Lower(d.profiles[i].name) != Lower(name)
    ensures Valid(Renamed(d, at, name), installed)
  {
    hide AddonsOk, Lower;
    assert ProfileIds(Renamed(d, at, name).profiles) == ProfileIds(d.profiles);
  }

  lemma RemovedIsValid(d: Document, at: nat, installed: Installed)
    requires Valid(d, installed) && at < |d.profiles| && |d.profiles| >= 2
    ensures Valid(Removed(d, at), installed)
  {
    hide ProfilesOk, ProfileIds;
    RemovedKeepsActive(d, at);
    DropOk(d.profiles, at, installed);
  }

  lemma DropOk(profiles: seq<Profile>, at: nat, installed: Installed)
    requires ProfilesOk(profiles, installed) && at < |profiles|
    ensures ProfilesOk(profiles[..at] + profiles[at + 1..], installed)
  {
    hide ProfileOk, Lower;
    var rest := profiles[..at] + profiles[at + 1..];
    forall i | 0 <= i < |rest| ensures rest[i] == profiles[if i < at then i else i + 1] {
    }
  }

  lemma RemovedKeepsActive(d: Document, at: nat)
    requires d.active in ProfileIds(d.profiles) && at < |d.profiles| && |d.profiles| >= 2
    ensures Removed(d, at).active in ProfileIds(Removed(d, at).profiles)
  {
    var r := Removed(d, at);
    if d.active == d.profiles[at].id {
      var k := Min(at, |r.profiles| - 1);
      assert ProfileIds(r.profiles)[k] == r.active;
    } else {
      var i :| 0 <= i < |d.profiles| && ProfileIds(d.profiles)[i] == d.active;
      assert ProfileIds(r.profiles)[if i < at then i else i - 1] == d.active;
    }
  }

  lemma WithoutSplits(addons: seq<Entry>, id: string, other: string)
    requires addons != []
    ensures var front, e := addons[..|addons| - 1], addons[|addons| - 1];
            && addons == front + [e]
            && Without(addons, id) == Without(front, id) + (if e.id == id then [] else [e])
            && (other in Ids(addons) <==> other in Ids(front) || other == e.id)
  {
    var front, e := addons[..|addons| - 1], addons[|addons| - 1];
    assert addons == front + [e] && Ids([e]) == [e.id];
    InEither(front, [e], other);
  }

  lemma {:induction false} WithoutLists(addons: seq<Entry>, id: string, other: string)
    ensures other in Ids(Without(addons, id)) <==> other != id && other in Ids(addons)
    decreases |addons|
  {
    if addons != [] {
      var front, e := addons[..|addons| - 1], addons[|addons| - 1];
      WithoutLists(front, id, other);
      WithoutSplits(addons, id, other);
      assert Ids([e]) == [e.id] && Ids([]) == [];
      hide Without, Ids;
      InEither(Without(front, id), if e.id == id then [] else [e], other);
    }
  }

  lemma {:induction false} WithoutAbsent(addons: seq<Entry>, id: string)
    requires id !in Ids(addons)
    ensures Without(addons, id) == addons
    decreases |addons|
  {
    if addons != [] {
      WithoutSplits(addons, id, id);
      hide Ids;
      WithoutAbsent(addons[..|addons| - 1], id);
    }
  }

  lemma {:induction false} WithoutEntriesOk(addons: seq<Entry>, id: string, installed: Installed)
    requires EntriesOk(addons, installed)
    ensures EntriesOk(Without(addons, id), installed)
    decreases |addons|
  {
    if addons != [] {
      hide *;
      var front, e := addons[..|addons| - 1], addons[|addons| - 1];
      LastOk(addons, installed);
      WithoutEntriesOk(front, id, installed);
      WithoutSplits(addons, id, id);
      if e.id != id {
        WithoutLists(front, id, e.id);
        JoinedOk(Without(front, id), [e], installed);
      } else {
        assert Without(addons, id) == Without(front, id);
      }
    } else {
      assert Without(addons, id) == addons;
    }
  }

  lemma LastOk(addons: seq<Entry>, installed: Installed)
    requires EntriesOk(addons, installed) && addons != []
    ensures var front, e := addons[..|addons| - 1], addons[|addons| - 1];
            EntriesOk(front, installed) && EntriesOk([e], installed) && e.id !in Ids(front)
  {
    hide EntryOk;
    NotAmong(addons[..|addons| - 1], addons[|addons| - 1]);
  }

  lemma NotAmong(front: seq<Entry>, e: Entry)
    requires forall i :: 0 <= i < |front| ==> front[i].id != e.id
    ensures e.id !in Ids(front)
  {
  }

  /** An entry may stay when addons are installed, or when other addons are uninstalled. */
  lemma EntriesOkUnder(addons: seq<Entry>, installed: Installed, now: Installed)
    requires EntriesOk(addons, installed)
    requires forall i :: 0 <= i < |addons| && addons[i].id in installed ==> addons[i].id in now
    ensures EntriesOk(addons, now)
  {
    hide SafeId, SourceOk, IsDigest;
  }

  lemma WithAddonOk(addons: seq<Entry>, id: string, autoLoad: bool, installed: Installed, display: Option<string>)
    requires AddonsOk(addons, installed) && SafeId(id) && (autoLoad ==> id != MANAGER)
    ensures AddonsOk(WithAddon(addons, id, autoLoad), installed[id := display])
  {
    hide SafeId;
    var now := installed[id := display];
    EntriesOkUnder(addons, installed, now);
    hide EntriesOk, Ids;
    if id !in Ids(addons) {
      var e := Entry(id, autoLoad, None, None, None);
      assert EntryOk(e, now);
      SingleOk(e, now);
      JoinedOk(addons, [e], now);
      forall other | other in now ensures other in Ids(addons + [e]) {
        InEither(addons, [e], other);
      }
    }
  }

  lemma SingleOk(e: Entry, installed: Installed)
    requires EntryOk(e, installed)
    ensures EntriesOk([e], installed) && Ids([e]) == [e.id]
  {
  }

  lemma WithoutOk(addons: seq<Entry>, id: string, installed: Installed)
    requires AddonsOk(addons, installed)
    ensures AddonsOk(Without(addons, id), installed - {id})
  {
    hide Ids, Without, EntriesOk;
    var rest := Without(addons, id);
    WithoutEntriesOk(addons, id, installed);
    forall other ensures other in Ids(rest) <==> other != id && other in Ids(addons) {
      WithoutLists(addons, id, other);
    }
    forall i | 0 <= i < |rest| ensures rest[i].id != id {
      InIds(rest, i);
    }
    EntriesOkUnder(rest, installed, installed - {id});
  }

  lemma InIds(addons: seq<Entry>, i: nat)
    requires i < |addons|
    ensures addons[i].id in Ids(addons)
  {
    assert Ids(addons)[i] == addons[i].id;
  }

  /** Installing keeps the invariant exactly when the id is a safe one. */
  lemma WithInstalledIsValid(d: Document, id: string, display: Option<string>, enable: bool, installed: Installed)
    requires Valid(d, installed)
    ensures Valid(WithInstalled(d, id, enable), installed[id := display]) <==> SafeId(id)
  {
    hide AddonsOk, SafeId, Lower;
    var r := WithInstalled(d, id, enable);
    assert ProfileIds(r.profiles) == ProfileIds(d.profiles);
    if SafeId(id) {
      forall i | 0 <= i < |r.profiles| ensures ProfileOk(r.profiles[i], installed[id := display]) {
        var p := d.profiles[i];
        WithAddonOk(p.addons, id, enable && id != MANAGER && p.id == d.active, installed, display);
      }
    }
    if Valid(r, installed[id := display]) {
      ListedIsSafe(r.profiles[0].addons, installed[id := display], id);
    }
  }

  lemma ListedIsSafe(addons: seq<Entry>, installed: Installed, id: string)
    requires AddonsOk(addons, installed) && id in installed
    ensures SafeId(id)
  {
    var i :| 0 <= i < |addons| && Ids(addons)[i] == id;
    assert EntryOk(addons[i], installed);
  }

  /** An addon recorded under an unsafe id is listed until the next load and then forgotten, since
      loading drops unsafe ids from the installed addons and from every list. */
  lemma UnsafeIdIsLost(d: Document, id: string, installed: Installed, order: seq<string>, at: nat)
    requires Valid(d, installed) && !SafeId(id) && IsListing(installed - {id}, order)
    ensures forall i :: 0 <= i < |d.profiles| ==> id in Ids(WithInstalled(d, id, true).profiles[i].addons)
    ensures var loaded := Normalized(Saved(WithInstalled(d, id, true)), installed - {id}, order);
            at < |loaded.profiles| ==> id !in Ids(loaded.profiles[at].addons)
  {
    hide AddonsOk, Normalized, Saved, SafeId, Ordered, WithAddon;
    ValidIsSafe(d, installed);
    NormalizedIsValid(Saved(WithInstalled(d, id, true)), installed - {id}, order);
    forall i | 0 <= i < |d.profiles| ensures id in Ids(WithInstalled(d, id, true).profiles[i].addons) {
      WithAddonLists(d.profiles[i].addons, id, id != MANAGER && d.profiles[i].id == d.active);
    }
    var loaded := Normalized(Saved(WithInstalled(d, id, true)), installed - {id}, order);
    if at < |loaded.profiles| { UnsafeIsUnlisted(loaded.profiles[at].addons, id, installed - {id}); }
  }

  lemma WithAddonLists(addons: seq<Entry>, id: string, autoLoad: bool)
    ensures id in Ids(WithAddon(addons, id, autoLoad))
  {
    if id !in Ids(addons) { InIds(WithAddon(addons, id, autoLoad), |addons|); }
  }

  lemma UnsafeIsUnlisted(addons: seq<Entry>, id: string, installed: Installed)
    requires AddonsOk(addons, installed) && !SafeId(id)
    ensures id !in Ids(addons)
  {
    hide SafeId;
    forall i | 0 <= i < |addons| ensures Ids(addons)[i] != id {
      assert EntryOk(addons[i], installed);
    }
  }

  lemma ValidIsSafe(d: Document, installed: Installed)
    requires Valid(d, installed)
    ensures AllSafe(installed)
  {
    hide AddonsOk, SafeId;
    forall id | id in installed ensures SafeId(id) {
      ListedIsSafe(d.profiles[0].addons, installed, id);
    }
  }

  lemma WithoutInstalledIsValid(d: Document, id: string, installed: Installed)
    requires Valid(d, installed)
    ensures Valid(WithoutInstalled(d, id), installed - {id})
  {
    hide AddonsOk, Lower;
    var r := WithoutInstalled(d, id);
    assert ProfileIds(r.profiles) == ProfileIds(d.profiles);
    forall i | 0 <= i < |r.profiles| ensures ProfileOk(r.profiles[i], installed - {id}) {
      WithoutOk(d.profiles[i].addons, id, installed);
    }
  }

  /** Uninstalling takes back what installing added. */
  lemma UninstallUndoesInstall(d: Document, id: string, enable: bool)
    requires forall i :: 0 <= i < |d.profiles| ==> id !in Ids(d.profiles[i].addons)
    ensures WithoutInstalled(WithInstalled(d, id, enable), id) == d
  {
    var r := WithoutInstalled(WithInstalled(d, id, enable), id);
    forall i | 0 <= i < |d.profiles| ensures r.profiles[i] == d.profiles[i] {
      var addons := d.profiles[i].addons;
      WithoutAbsent(addons, id);
      hide Without;
      WithoutLast(addons, Entry(id, enable && id != MANAGER && d.profiles[i].id == d.active, None, None, None));
    }
    assert r.profiles == d.profiles;
  }

  lemma WithoutLast(addons: seq<Entry>, e: Entry)
    ensures Without(addons + [e], e.id) == Without(addons, e.id)
  {
    assert (addons + [e])[..|addons|] == addons;
  }

  lemma WithAddonsIsValid(d: Document, at: nat, addons: seq<Entry>, installed: Installed)
    requires Valid(d, installed) && at < |d.profiles| && AddonsOk(addons, installed)
    ensures Valid(WithAddons(d, at, addons), installed)
  {
    hide AddonsOk, Lower;
    assert ProfileIds(WithAddons(d, at, addons).profiles) == ProfileIds(d.profiles);
  }

  lemma SwappedOk(addons: seq<Entry>, i: nat, j: nat, installed: Installed)
    requires AddonsOk(addons, installed) && i < |addons| && j < |addons|
    ensures AddonsOk(Swapped(addons, i, j), installed)
  {
    hide EntryOk;
    var r := Swapped(addons, i, j);
    forall id | id in Ids(addons) ensures id in Ids(r) {
      var k :| 0 <= k < |addons| && Ids(addons)[k] == id;
      assert Ids(r)[if k == i then j else if k == j then i else k] == id;
    }
  }

  /** Moving an addon down and up again changes nothing. */
  lemma SwapTwice(addons: seq<Entry>, i: nat, j: nat)
    requires i < |addons| && j < |addons|
    ensures Swapped(Swapped(addons, i, j), j, i) == addons
  {
  }

  lemma ToggledOk(addons: seq<Entry>, i: nat, autoLoad: bool, installed: Installed)
    requires AddonsOk(addons, installed) && i < |addons|
    requires addons[i].id in installed && addons[i].id != MANAGER
    ensures AddonsOk(addons[i := addons[i].(autoLoad := autoLoad)], installed)
  {
    hide SafeId, IsDigest, IsUrl;
    assert EntryOk(addons[i], installed);
    assert Ids(addons[i := addons[i].(autoLoad := autoLoad)]) == Ids(addons);
  }

  function ImportedEntry(v: Value, installed: Installed): Entry
    requires ImportEntryOk(v)
  {
    NormalizedEntry(v, Get(v, "id").s, installed)
  }

  /** An import lists the manifest's addons, all of them and in its order, and then the other
      installed ones. */
  lemma {:induction false} ImportKeepsAll(items: seq<Value>, installed: Installed)
    requires forall i :: 0 <= i < |items| ==> ImportEntryOk(items[i])
    requires forall i, j :: 0 <= i < j < |items| ==> Get(items[i], "id") != Get(items[j], "id")
    ensures |Kept(items, installed, true)| == |items|
    ensures forall i :: 0 <= i < |items| ==> Kept(items, installed, true)[i] == ImportedEntry(items[i], installed)
    decreases |items|
  {
    if items != [] {
      hide SafeId, Get, ImportEntryOk, KeepNext, NormalizedEntry;
      var front, v := items[..|items| - 1], items[|items| - 1];
      ImportKeepsAll(front, installed);
      assert forall i :: 0 <= i < |front| ==> front[i] == items[i];
      var before := Kept(front, installed, true);
      forall i | 0 <= i < |before| ensures before[i].id != ImportedEntry(v, installed).id {
        SameIdSameText(items[i], v, installed);
      }
      ImportIsKept(before, v, installed);
    }
  }

  lemma SameIdSameText(v: Value, w: Value, installed: Installed)
    requires ImportEntryOk(v) && ImportEntryOk(w)
    ensures ImportedEntry(v, installed).id == ImportedEntry(w, installed).id <==> Get(v, "id") == Get(w, "id")
  {
    hide SafeId, Get, ImportSourceOk, OptionalText;
  }

  lemma ImportIsKept(before: seq<Entry>, v: Value, installed: Installed)
    requires ImportEntryOk(v) && forall i :: 0 <= i < |before| ==> before[i].id != ImportedEntry(v, installed).id
    ensures KeepNext(before, v, installed, true) == before + [ImportedEntry(v, installed)]
  {
    hide SafeId, Get, ImportSourceOk, OptionalText, NormalizedSource;
    NotAmong(before, ImportedEntry(v, installed));
  }

  /** Nothing in a well-formed manifest entry is lost, except auto-load of what is not installed. */
  lemma ImportedEntryIs(v: Value, installed: Installed)
    requires ImportEntryOk(v)
    ensures var e := ImportedEntry(v, installed);
            && Str(e.id) == Get(v, "id")
            && e.autoLoad == (Get(v, "autoLoad").b && e.id in installed && e.id != MANAGER)
            && SavedText(e.version) == Get(v, "version") && SavedText(e.sha256) == Get(v, "sha256")
            && e.source.Some? && (e.source.value.Builtin? <==> Get(Get(v, "source"), "builtin").b)
            && (e.source.value.Custom? ==>
                  && Str(e.source.value.url) == Get(Get(v, "source"), "url")
                  && SavedText(e.source.value.name) == Get(Get(v, "source"), "name"))
  {
    hide SafeId, IsDigest, IsUrl;
  }

  // What the operations do, entry by entry.

  /** Installing leaves a profile alone that lists the addon; any other gets one more entry, at the
      end, which loads automatically in the active profile alone, and never for the manager. */
  lemma WithInstalledIs(d: Document, id: string, enable: bool, i: nat)
    requires i < |d.profiles|
    ensures var before, after := d.profiles[i], WithInstalled(d, id, enable).profiles[i];
            && after.id == before.id && after.name == before.name
            && (id in Ids(before.addons) ==> after.addons == before.addons)
            && (id !in Ids(before.addons) ==>
                  after.addons == before.addons + [Entry(id, enable && id != MANAGER && before.id == d.active, None, None, None)])
  {
  }

  /** Of a list without repeats exactly the entry of that addon is gone. */
  lemma {:induction false} WithoutIs(addons: seq<Entry>, id: string, at: nat)
    requires forall i, j :: 0 <= i < j < |addons| ==> addons[i].id != addons[j].id
    requires at < |addons| && addons[at].id == id
    ensures Without(addons, id) == addons[..at] + addons[at + 1..]
    decreases |addons|
  {
    var front, e := addons[..|addons| - 1], addons[|addons| - 1];
    assert addons == front + [e];
    if at == |addons| - 1 {
      NotAmong(front, e);
      WithoutAbsent(front, id);
      assert addons[at + 1..] == [];
    } else {
      WithoutIs(front, id, at);
      assert addons[..at] == front[..at] && addons[at + 1..] == front[at + 1..] + [e];
    }
  }

  /** The profile that follows a removed active one becomes active, or the one before if it was the
      last. */
  lemma RemovedIs(d: Document, at: nat)
    requires at < |d.profiles| && |d.profiles| >= 2
    ensures Removed(d, at).profiles == d.profiles[..at] + d.profiles[at + 1..]
    ensures d.active != d.profiles[at].id ==> Removed(d, at).active == d.active
    ensures d.active == d.profiles[at].id && at + 1 < |d.profiles| ==> Removed(d, at).active == d.profiles[at + 1].id
    ensures d.active == d.profiles[at].id && at + 1 == |d.profiles| ==> Removed(d, at).active == d.profiles[at - 1].id
  {
  }

  /** The addons of the active profile. */
  lemma ActiveAddonsAre(d: Document, at: nat)
    requires forall i, j :: 0 <= i < j < |d.profiles| ==> d.profiles[i].id != d.profiles[j].id
    requires at < |d.profiles| && d.profiles[at].id == d.active
    ensures ActiveAddons(d) == d.profiles[at].addons
  {
    assert ProfileIds(d.profiles)[at] == d.active;
  }

  /** An entry of a manifest: a safe id, two flags, the screened source or an address, and a short
      version and a digest where they are given. */
  ghost predicate ManifestEntry(e: Value) {
    && (e.List? || e.Table?)
    && Get(e, "id").Str? && SafeId(Get(e, "id").s) && Get(e, "autoLoad").Bool? && Get(e, "settings").Bool?
    && (Get(e, "source").List? || Get(e, "source").Table?) && Get(Get(e, "source"), "builtin").Bool?
    && (!Get(Get(e, "source"), "builtin").b ==>
          && Get(Get(e, "source"), "url").Str? && |Get(Get(e, "source"), "url").s| <= 2048
          && "https://" <= Get(Get(e, "source"), "url").s)
    && (Get(Get(e, "source"), "name") != Nil ==>
          Get(Get(e, "source"), "name").Str? && |Get(Get(e, "source"), "name").s| <= 200)
    && (Get(e, "version") != Nil ==> Get(e, "version").Str? && |Get(e, "version").s| <= 80)
    && (Get(e, "sha256") != Nil ==> Get(e, "sha256").Str? && IsDigest(Get(e, "sha256").s))
  }

  /** Which manifests are imported. */
  lemma ImportIsChecked(raw: Value)
    ensures ImportOk(raw) <==>
            var profile := Get(raw, "profile");
            var name, addons := Get(profile, "name"), Get(profile, "addons");
            && Get(raw, "schemaVersion") == Number(1.0) && (profile.List? || profile.Table?)
            && (addons.List? || addons.Table?) && |Items(addons)| <= 256
            && name.Str? && |name.s| <= 80 && Trim(name.s) != "" && (forall i :: 0 <= i < |name.s| ==> name.s[i] >= ' ')
            && (forall i :: 0 <= i < |Items(addons)| ==> ManifestEntry(Items(addons)[i]))
            && (forall i, j :: 0 <= i < j < |Items(addons)| ==> Get(Items(addons)[i], "id") != Get(Items(addons)[j], "id"))
  {
    hide SafeId, Trim, Items, Get, ManifestEntry, ImportEntryOk, ImportNameOk;
    forall v ensures ManifestEntry(v) <==> ImportEntryOk(v) {
      ManifestEntryIs(v);
    }
    ManifestNameIs(Get(Get(raw, "profile"), "name"));
  }

  lemma ManifestEntryIs(v: Value)
    ensures ManifestEntry(v) <==> ImportEntryOk(v)
  {
    hide SafeId, Get, IsDigest;
  }

  lemma ManifestNameIs(v: Value)
    ensures ImportNameOk(v) <==>
            v.Str? && |v.s| <= 80 && Trim(v.s) != "" && forall i :: 0 <= i < |v.s| ==> v.s[i] >= ' '
  {
    hide Trim;
  }
}
