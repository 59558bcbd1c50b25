/** Profile documents as values: what `normalize` makes of saved data, and which documents it
    leaves alone. addon/vanahub/versions/0.1.0/profiles.lua lines 35 to 122. */
module Profiles {
  import opened InstalledOrder
  import opened LuaValues
  import opened Text
  import opened Wrappers

  datatype Source = Builtin | Custom(url: string, name: Option<string>)

  datatype Entry = Entry(
    id: string, autoLoad: bool, source: Option<Source>, version: Option<string>, sha256: Option<string>)

  datatype Profile = Profile(id: string, name: string, addons: seq<Entry>)

  datatype Document = Document(profiles: seq<Profile>, active: string)

  const MANAGER := "vanahub"

  function Ids(addons: seq<Entry>): (r: seq<string>)
    ensures |r| == |addons| && forall i :: 0 <= i < |r| ==> r[i] == addons[i].id
  {
    seq(|addons|, i requires 0 <= i < |addons| => addons[i].id)
  }

  function ProfileIds(profiles: seq<Profile>): (r: seq<string>)
    ensures |r| == |profiles| && forall i :: 0 <= i < |r| ==> r[i] == profiles[i].id
  {
    seq(|profiles|, i requires 0 <= i < |profiles| => profiles[i].id)
  }

  /** The profile names as they are compared. */
  function FoldedNames(profiles: seq<Profile>): (r: seq<string>)
    ensures |r| == |profiles| && forall i :: 0 <= i < |r| ==> r[i] == Lower(profiles[i].name)
  {
    seq(|profiles|, i requires 0 <= i < |profiles| => Lower(profiles[i].name))
  }

  predicate IsUrl(s: string) { |s| <= 2048 && "https://" <= s }

  function NormalizedSource(v: Value): Option<Source> {
    if !IsTable(v) || !Get(v, "builtin").Bool? then None
    else if Get(v, "builtin").b then Some(Builtin)
    else if Get(v, "url").Str? && IsUrl(Get(v, "url").s) then
      Some(Custom(Get(v, "url").s, if Get(v, "name").Str? then Some(Get(v, "name").s) else None))
    else None
  }

  function NormalizedEntry(v: Value, id: string, installed: Installed): Entry {
    var version, sha256 := Get(v, "version"), Get(v, "sha256");
    Entry(
      id,
      id in installed && id != MANAGER && Get(v, "autoLoad") == Bool(true),
      NormalizedSource(Get(v, "source")),
      if version.Str? && |version.s| <= 80 then Some(version.s) else None,
      if sha256.Str? && IsDigest(sha256.s) then Some(sha256.s) else None)
  }

  predicate EntryWanted(v: Value, installed: Installed, retainMissing: bool) {
    var id := Get(v, "id");
    id.Str? && SafeId(id.s) && (id.s in installed || retainMissing)
  }

  /** The next listed addon is kept if its id is safe and new. */
  function KeepNext(before: seq<Entry>, v: Value, installed: Installed, retainMissing: bool): seq<Entry> {
    if EntryWanted(v, installed, retainMissing) && Get(v, "id").s !in Ids(before)
    then before + [NormalizedEntry(v, Get(v, "id").s, installed)]
    else before
  }

  function Kept(items: seq<Value>, installed: Installed, retainMissing: bool): seq<Entry> {
    if items == [] then []
    else KeepNext(Kept(items[..|items| - 1], installed, retainMissing), items[|items| - 1], installed, retainMissing)
  }

  function Fresh(id: string): Entry { Entry(id, false, None, None, None) }

  /** Entries for the installed addons a profile does not list. */
  function Unlisted(order: seq<string>, addons: seq<Entry>): seq<Entry> {
    if order == [] then []
    else (if order[0] in Ids(addons) then [] else [Fresh(order[0])]) + Unlisted(order[1..], addons)
  }

  function NormalizedAddons(v: Value, installed: Installed, retainMissing: bool, order: seq<string>): seq<Entry> {
    var kept := Kept(Items(v), installed, retainMissing);
    kept + Unlisted(order, kept)
  }

  predicate ProfileWanted(v: Value, before: seq<Profile>) {
    var id, name := Get(v, "id"), Get(v, "name");
    && id.Str? && id.s != "" && id.s !in ProfileIds(before)
    && name.Str? && Trim(name.s) != "" && Lower(Trim(name.s)) !in FoldedNames(before)
  }

  function AppendNext(before: seq<Profile>, v: Value, installed: Installed, retainMissing: bool, order: seq<string>):
    seq<Profile>
  {
    if ProfileWanted(v, before)
    then before + [Profile(Get(v, "id").s, Trim(Get(v, "name").s),
                           NormalizedAddons(Get(v, "addons"), installed, retainMissing, order))]
    else before
  }

  function NormalizedProfiles(items: seq<Value>, installed: Installed, retainMissing: bool, order: seq<string>):
    seq<Profile>
  {
    if items == [] then []
    else
      AppendNext(NormalizedProfiles(items[..|items| - 1], installed, retainMissing, order), items[|items| - 1],
                 installed, retainMissing, order)
  }

  predicate SupportsProfiles(raw: Value) {
    Get(raw, "schemaVersion") == Number(2.0) || Get(raw, "schemaVersion") == Number(3.0)
  }

  function Normalized(raw: Value, installed: Installed, order: seq<string>): Document {
    var sources := if SupportsProfiles(raw) then Items(Get(raw, "profiles")) else [];
    var listed := NormalizedProfiles(sources, installed, Get(raw, "schemaVersion") == Number(3.0), order);
    var profiles := if listed == [] then [Profile("default", "Default", Unlisted(order, []))] else listed;
    var requested := Get(raw, "activeProfileId");
    Document(profiles, if requested.Str? && requested.s in ProfileIds(profiles) then requested.s else profiles[0].id)
  }

  predicate SourceOk(s: Option<Source>) {
    s.Some? && s.value.Custom? ==> IsUrl(s.value.url)
  }

  predicate EntryOk(e: Entry, installed: Installed) {
    && SafeId(e.id)
    && (e.autoLoad ==> e.id in installed && e.id != MANAGER)
    && SourceOk(e.source)
    && (e.version.Some? ==> |e.version.value| <= 80)
    && (e.sha256.Some? ==> IsDigest(e.sha256.value))
  }

  ghost predicate EntriesOk(addons: seq<Entry>, installed: Installed) {
    && (forall i :: 0 <= i < |addons| ==> EntryOk(addons[i], installed))
    && (forall i, j :: 0 <= i < j < |addons| ==> addons[i].id != addons[j].id)
  }

  /** A profile's list: well-formed entries, no addon twice, every installed addon present. */
  ghost predicate AddonsOk(addons: seq<Entry>, installed: Installed) {
    EntriesOk(addons, installed) && forall id :: id in installed ==> id in Ids(addons)
  }

  ghost predicate ProfileOk(p: Profile, installed: Installed) {
    p.id != "" && p.name != "" && Trimmed(p.name) && AddonsOk(p.addons, installed)
  }

  ghost predicate ProfilesOk(profiles: seq<Profile>, installed: Installed) {
    && (forall i :: 0 <= i < |profiles| ==> ProfileOk(profiles[i], installed))
    && (forall i, j :: 0 <= i < j < |profiles| ==> profiles[i].id != profiles[j].id)
    && (forall i, j :: 0 <= i < j < |profiles| ==> Lower(profiles[i].name) != Lower(profiles[j].name))
  }

  /** The document invariant. */
  ghost predicate Valid(document: Document, installed: Installed) {
    ProfilesOk(document.profiles, installed) && document.active in ProfileIds(document.profiles)
  }

  ghost predicate AllSafe(installed: Installed) {
    forall id :: id in installed ==> SafeId(id)
  }

  lemma KeepNextOk(before: seq<Entry>, v: Value, installed: Installed, retainMissing: bool)
    requires EntriesOk(before, installed)
    ensures EntriesOk(KeepNext(before, v, installed, retainMissing), installed)
  {
    hide SafeId, Get, IsDigest, IsUrl;
    if EntryWanted(v, installed, retainMissing) && Get(v, "id").s !in Ids(before) {
      forall i | 0 <= i < |before| ensures before[i].id != Get(v, "id").s {
        assert Ids(before)[i] == before[i].id;
      }
    }
  }

  lemma {:induction false} KeptOk(items: seq<Value>, installed: Installed, retainMissing: bool)
    ensures EntriesOk(Kept(items, installed, retainMissing), installed)
  {
    hide KeepNext, EntryOk;
    if items != [] {
      var front := items[..|items| - 1];
      KeptOk(front, installed, retainMissing);
      KeepNextOk(Kept(front, installed, retainMissing), items[|items| - 1], installed, retainMissing);
    }
  }

  lemma {:induction false} UnlistedAre(order: seq<string>, addons: seq<Entry>)
    ensures forall i :: 0 <= i < |Unlisted(order, addons)| ==>
              Unlisted(order, addons)[i] == Fresh(Unlisted(order, addons)[i].id)
              && Unlisted(order, addons)[i].id in order && Unlisted(order, addons)[i].id !in Ids(addons)
    ensures forall id :: id in order && id !in Ids(addons) ==> id in Ids(Unlisted(order, addons))
  {
    if order != [] {
      UnlistedAre(order[1..], addons);
      hide Ids;
      var rest := Unlisted(order[1..], addons);
      assert order == [order[0]] + order[1..];
      forall id | id in order && id !in Ids(addons) ensures id in Ids(Unlisted(order, addons)) {
        if id == order[0] {
          assert Ids(Unlisted(order, addons))[0] == id;
        } else {
          var i :| 0 <= i < |rest| && Ids(rest)[i] == id;
          var all := Unlisted(order, addons);
          assert Ids(all)[|all| - |rest| + i] == id;
        }
      }
    }
  }

  lemma {:induction false} UnlistedOnce(order: seq<string>, addons: seq<Entry>, installed: Installed)
    requires Ordered(installed, order)
    ensures forall i, j :: 0 <= i < j < |Unlisted(order, addons)| ==>
              Unlisted(order, addons)[i].id != Unlisted(order, addons)[j].id
  {
    if order != [] {
      UnlistedOnce(order[1..], addons, installed);
      UnlistedAre(order[1..], addons);
      FirstIsAlone(installed, order);
      hide Ids, Ordered;
    }
  }

  lemma NormalizedAddonsOk(v: Value, installed: Installed, retainMissing: bool, order: seq<string>)
    requires IsListing(installed, order) && AllSafe(installed)
    ensures AddonsOk(NormalizedAddons(v, installed, retainMissing, order), installed)
  {
    var kept := Kept(Items(v), installed, retainMissing);
    KeptOk(Items(v), installed, retainMissing);
    UnlistedAre(order, kept);
    UnlistedOnce(order, kept, installed);
    hide Kept, Unlisted, Ordered, SafeId, IsDigest, IsUrl;
    var rest := Unlisted(order, kept);
    JoinedOk(kept, rest, installed);
    forall id | id in installed ensures id in Ids(kept + rest) {
      InEither(kept, rest, id);
    }
  }

  lemma InEither(a: seq<Entry>, b: seq<Entry>, id: string)
    ensures id in Ids(a + b) <==> id in Ids(a) || id in Ids(b)
  {
    assert Ids(a + b) == Ids(a) + Ids(b);
  }

  lemma JoinedOk(a: seq<Entry>, b: seq<Entry>, installed: Installed)
    requires EntriesOk(a, installed) && EntriesOk(b, installed)
    requires forall i :: 0 <= i < |b| ==> b[i].id !in Ids(a)
    ensures EntriesOk(a + b, installed)
  {
    hide EntryOk;
    forall i, j | 0 <= i < |a| && 0 <= j < |b| ensures a[i].id != b[j].id {
      assert Ids(a)[i] == a[i].id;
    }
  }

  lemma AppendNextOk(
      before: seq<Profile>, v: Value, installed: Installed, retainMissing: bool, order: seq<string>)
    requires IsListing(installed, order) && AllSafe(installed) && ProfilesOk(before, installed)
    ensures ProfilesOk(AppendNext(before, v, installed, retainMissing, order), installed)
  {
    hide AddonsOk, NormalizedAddons, Ordered, SafeId, Get, Trim, Trimmed, Lower;
    if ProfileWanted(v, before) {
      NormalizedAddonsOk(Get(v, "addons"), installed, retainMissing, order);
      TrimIs(Get(v, "name").s);
      NewProfile(before, Get(v, "id").s, Trim(Get(v, "name").s));
    }
  }

  lemma NewProfile(before: seq<Profile>, id: string, name: string)
    ensures id !in ProfileIds(before) <==> forall i :: 0 <= i < |before| ==> before[i].id != id
    ensures Lower(name) !in FoldedNames(before) <==>
            forall i :: 0 <= i < |before| ==> Lower(before[i].name) != Lower(name)
  {
    hide Lower;
    forall i | 0 <= i < |before| && before[i].id == id ensures id in ProfileIds(before) {
      assert ProfileIds(before)[i] == id;
    }
    forall i | 0 <= i < |before| && Lower(before[i].name) == Lower(name) ensures Lower(name) in FoldedNames(before) {
      assert FoldedNames(before)[i] == Lower(name);
    }
  }

  lemma {:induction false} NormalizedProfilesOk(
      items: seq<Value>, installed: Installed, retainMissing: bool, order: seq<string>)
    requires IsListing(installed, order) && AllSafe(installed)
    ensures ProfilesOk(NormalizedProfiles(items, installed, retainMissing, order), installed)
  {
    hide AppendNext, ProfileOk, IsListing, AllSafe;
    if items != [] {
      var front := items[..|items| - 1];
      NormalizedProfilesOk(front, installed, retainMissing, order);
      AppendNextOk(NormalizedProfiles(front, installed, retainMissing, order), items[|items| - 1],
                   installed, retainMissing, order);
    }
  }

  lemma NormalizedNothing(installed: Installed, order: seq<string>)
    ensures NormalizedAddons(Nil, installed, false, order) == Unlisted(order, [])
  {
    NothingKept(installed);
    hide Kept, Unlisted;
    assert [] + Unlisted(order, []) == Unlisted(order, []);
  }

  lemma DefaultOk(installed: Installed, order: seq<string>)
    requires IsListing(installed, order) && AllSafe(installed)
    ensures ProfileOk(Profile("default", "Default", Unlisted(order, [])), installed)
  {
    hide NormalizedAddons, Unlisted, AddonsOk, Ordered, SafeId;
    NormalizedAddonsOk(Nil, installed, false, order);
    NormalizedNothing(installed, order);
  }

  /** Whatever was saved, what is loaded meets the invariant. */
  lemma NormalizedIsValid(raw: Value, installed: Installed, order: seq<string>)
    requires IsListing(installed, order) && AllSafe(installed)
    ensures Valid(Normalized(raw, installed, order), installed)
  {
    var sources := if SupportsProfiles(raw) then Items(Get(raw, "profiles")) else [];
    NormalizedProfilesOk(sources, installed, Get(raw, "schemaVersion") == Number(3.0), order);
    DefaultOk(installed, order);
    hide NormalizedProfiles, ProfileOk, IsListing, AllSafe, Get, Items, Unlisted, SupportsProfiles;
    var profiles := Normalized(raw, installed, order).profiles;
    assert ProfileIds(profiles)[0] == profiles[0].id;
  }

  lemma NothingKept(installed: Installed)
    ensures Kept(Items(Nil), installed, false) == []
  {
  }

  function SavedText(text: Option<string>): Value {
    if text.Some? then Str(text.value) else Nil
  }

  function SavedSource(source: Option<Source>): Value {
    match source
    case None => Nil
    case Some(Builtin) => Table(map["builtin" := Bool(true)])
    case Some(Custom(url, name)) =>
      Table(map["builtin" := Bool(false), "url" := Str(url), "name" := SavedText(name)])
  }

  function SavedEntry(e: Entry): Value {
    Table(map["id" := Str(e.id), "autoLoad" := Bool(e.autoLoad), "source" := SavedSource(e.source),
              "version" := SavedText(e.version), "sha256" := SavedText(e.sha256)])
  }

  function SavedEntries(addons: seq<Entry>): (r: seq<Value>)
    ensures |r| == |addons| && forall i :: 0 <= i < |r| ==> r[i] == SavedEntry(addons[i])
  {
    seq(|addons|, i requires 0 <= i < |addons| => SavedEntry(addons[i]))
  }

  function SavedProfile(p: Profile): Value {
    Table(map["id" := Str(p.id), "name" := Str(p.name), "addons" := List(SavedEntries(p.addons))])
  }

  function SavedProfiles(profiles: seq<Profile>): (r: seq<Value>)
    ensures |r| == |profiles| && forall i :: 0 <= i < |r| ==> r[i] == SavedProfile(profiles[i])
  {
    seq(|profiles|, i requires 0 <= i < |profiles| => SavedProfile(profiles[i]))
  }

  /** What `save_state` writes, apart from the record of installed addons. */
  function Saved(document: Document): Value {
    Table(map["schemaVersion" := Number(3.0), "profiles" := List(SavedProfiles(document.profiles)),
              "activeProfileId" := Str(document.active)])
  }

  lemma EntryReadsBack(e: Entry, installed: Installed)
    ensures EntryOk(e, installed) <==>
            EntryWanted(SavedEntry(e), installed, true) && NormalizedEntry(SavedEntry(e), e.id, installed) == e
  {
    hide SafeId, IsDigest, IsUrl;
    assert Get(SavedEntry(e), "id") == Str(e.id);
  }

  lemma EntryIsKept(before: seq<Entry>, e: Entry, installed: Installed)
    requires EntriesOk(before + [e], installed)
    ensures KeepNext(before, SavedEntry(e), installed, true) == before + [e]
  {
    EntryReadsBack(e, installed);
    assert Get(SavedEntry(e), "id") == Str(e.id);
    hide EntryWanted, NormalizedEntry, EntryOk, SavedEntry, Get;
    var all := before + [e];
    assert all[|before|] == e && forall i :: 0 <= i < |before| ==> all[i] == before[i];
  }

  lemma {:induction false} EntriesReadBack(addons: seq<Entry>, installed: Installed)
    requires EntriesOk(addons, installed)
    ensures Kept(SavedEntries(addons), installed, true) == addons
    decreases |addons|
  {
    hide EntryOk, KeepNext, SavedEntry;
    if addons != [] {
      var front, e := addons[..|addons| - 1], addons[|addons| - 1];
      EntriesReadBack(front, installed);
      assert addons == front + [e];
      EntryIsKept(front, e, installed);
      assert SavedEntries(addons)[..|addons| - 1] == SavedEntries(front);
    }
  }

  lemma {:induction false} NothingUnlisted(order: seq<string>, addons: seq<Entry>)
    requires forall i :: 0 <= i < |order| ==> order[i] in Ids(addons)
    ensures Unlisted(order, addons) == []
  {
    if order != [] { NothingUnlisted(order[1..], addons); }
  }

  lemma AddonsReadBack(addons: seq<Entry>, installed: Installed, order: seq<string>)
    requires AddonsOk(addons, installed) && IsListing(installed, order)
    ensures NormalizedAddons(List(SavedEntries(addons)), installed, true, order) == addons
  {
    NoNilInside(SavedEntries(addons));
    EntriesReadBack(addons, installed);
    hide Kept, EntriesOk, Ordered;
    NothingUnlisted(order, addons);
  }

  lemma ProfileIsKept(before: seq<Profile>, p: Profile, installed: Installed, order: seq<string>)
    requires ProfilesOk(before + [p], installed) && IsListing(installed, order)
    ensures AppendNext(before, SavedProfile(p), installed, true, order) == before + [p]
  {
    var all := before + [p];
    assert all[|before|] == p && forall i :: 0 <= i < |before| ==> all[i] == before[i];
    hide AddonsOk, NormalizedAddons, SavedProfile, Get, Trim, Trimmed, Ordered, Lower;
    AddonsReadBack(p.addons, installed, order);
    TrimIs(p.name);
    ProfileFields(p);
    NewProfile(before, p.id, p.name);
  }

  lemma {:induction false} ProfilesReadBack(profiles: seq<Profile>, installed: Installed, order: seq<string>)
    requires ProfilesOk(profiles, installed) && IsListing(installed, order)
    ensures NormalizedProfiles(SavedProfiles(profiles), installed, true, order) == profiles
    decreases |profiles|
  {
    hide ProfileOk, AppendNext, SavedProfile, IsListing, Lower;
    if profiles != [] {
      var front, p := profiles[..|profiles| - 1], profiles[|profiles| - 1];
      ProfilesReadBack(front, installed, order);
      assert profiles == front + [p];
      ProfileIsKept(front, p, installed, order);
      assert SavedProfiles(profiles)[..|profiles| - 1] == SavedProfiles(front);
    }
  }

  lemma ProfileFields(p: Profile)
    ensures Get(SavedProfile(p), "id") == Str(p.id) && Get(SavedProfile(p), "name") == Str(p.name)
    ensures Get(SavedProfile(p), "addons") == List(SavedEntries(p.addons))
  {
  }

  /** Saving and loading is the identity on exactly the documents that meet the invariant. */
  lemma SavedDocumentIsFixed(document: Document, installed: Installed, order: seq<string>)
    requires IsListing(installed, order) && AllSafe(installed)
    ensures Valid(document, installed) <==> Normalized(Saved(document), installed, order) == document
  {
    if Valid(document, installed) {
      NoNilInside(SavedProfiles(document.profiles));
      ProfilesReadBack(document.profiles, installed, order);
      SavedFields(document);
      hide NormalizedProfiles, ProfilesOk, Saved, Get, Ordered, Unlisted;
      assert SupportsProfiles(Saved(document));
    }
    if Normalized(Saved(document), installed, order) == document {
      NormalizedIsValid(Saved(document), installed, order);
    }
  }

  lemma SavedFields(document: Document)
    ensures Get(Saved(document), "schemaVersion") == Number(3.0)
    ensures Get(Saved(document), "profiles") == List(SavedProfiles(document.profiles))
    ensures Get(Saved(document), "activeProfileId") == Str(document.active)
  {
  }
}
