/** What survives loading a profile document:
    addon/vanahub/versions/0.1.0/profiles.lua lines 35 to 122. */
module ProfileLoading {
  import opened InstalledOrder
  import opened LuaValues
  import opened Profiles
  import opened Text
  import opened Wrappers

  predicate ListedIn(items: seq<Value>, id: string) {
    exists k :: 0 <= k < |items| && Get(items[k], "id") == Str(id)
  }

  lemma {:induction false} KeptIds(items: seq<Value>, installed: Installed, retainMissing: bool, id: string)
    ensures id in Ids(Kept(items, installed, retainMissing)) <==>
            SafeId(id) && (id in installed || retainMissing) && ListedIn(items, id)
    decreases |items|
  {
    if items != [] {
      var front, v := items[..|items| - 1], items[|items| - 1];
      KeptIds(front, installed, retainMissing, id);
      assert ListedIn(items, id) <==> ListedIn(front, id) || Get(v, "id") == Str(id) by {
        assert forall k :: 0 <= k < |front| ==> items[k] == front[k];
      }
      assert items == front + [v];
      hide SafeId, Get, ListedIn, Kept, NormalizedSource;
      KeptStep(front, v, installed, retainMissing);
      KeepNextIds(Kept(front, installed, retainMissing), v, installed, retainMissing, id);
    }
  }

  lemma KeptStep(front: seq<Value>, v: Value, installed: Installed, retainMissing: bool)
    ensures Kept(front + [v], installed, retainMissing) ==
            KeepNext(Kept(front, installed, retainMissing), v, installed, retainMissing)
  {
    var items := front + [v];
    assert items[..|items| - 1] == front && items[|items| - 1] == v;
    hide KeepNext;
  }

  lemma KeepNextIds(before: seq<Entry>, v: Value, installed: Installed, retainMissing: bool, id: string)
    ensures id in Ids(KeepNext(before, v, installed, retainMissing)) <==>
            || id in Ids(before)
            || (EntryWanted(v, installed, retainMissing) && Get(v, "id") == Str(id))
  {
    hide SafeId, Get, NormalizedSource;
    if EntryWanted(v, installed, retainMissing) && Get(v, "id").s !in Ids(before) {
      var e := NormalizedEntry(v, Get(v, "id").s, installed);
      assert e.id == Get(v, "id").s && Ids([e]) == [e.id];
      InEither(before, [e], id);
    }
  }

  /** A loaded list has the installed addons and, if missing ones are retained, every listed one whose
      id is safe. */
  lemma LoadedIds(v: Value, installed: Installed, retainMissing: bool, order: seq<string>, id: string)
    requires IsListing(installed, order) && AllSafe(installed)
    ensures id in Ids(NormalizedAddons(v, installed, retainMissing, order)) <==>
            id in installed || (retainMissing && SafeId(id) && ListedIn(Items(v), id))
  {
    var kept := Kept(Items(v), installed, retainMissing);
    KeptIds(Items(v), installed, retainMissing, id);
    UnlistedAre(order, kept);
    hide Kept, Unlisted, Ordered, SafeId, ListedIn, Items;
    InEither(kept, Unlisted(order, kept), id);
    var rest := Unlisted(order, kept);
    if id in Ids(rest) {
      var k :| 0 <= k < |rest| && Ids(rest)[k] == id;
      assert rest[k].id in order;
    }
  }

  lemma {:induction false} ProfilesComeFrom(items: seq<Value>, installed: Installed, retainMissing: bool,
                                            order: seq<string>, i: nat)
    requires i < |NormalizedProfiles(items, installed, retainMissing, order)|
    ensures exists v :: NormalizedProfiles(items, installed, retainMissing, order)[i].addons ==
                        NormalizedAddons(v, installed, retainMissing, order)
    decreases |items|
  {
    hide NormalizedAddons, ProfileWanted;
    var front := items[..|items| - 1];
    var before := NormalizedProfiles(front, installed, retainMissing, order);
    if i < |before| { ProfilesComeFrom(front, installed, retainMissing, order, i); }
  }

  /** A document of no known version loads as the default profile with nothing switched on; one of
      version 2 keeps no addon that is not installed. Whatever is loaded lists every installed one. */
  lemma LoadedIs(raw: Value, installed: Installed, order: seq<string>, i: nat, id: string)
    requires IsListing(installed, order) && AllSafe(installed) && i < |Normalized(raw, installed, order).profiles|
    ensures var p := Normalized(raw, installed, order).profiles[i];
            && (id in installed ==> id in Ids(p.addons))
            && (Get(raw, "schemaVersion") != Number(3.0) && id in Ids(p.addons) ==> id in installed)
            && (Get(raw, "schemaVersion") !in {Number(2.0), Number(3.0)} ==>
                  && i == 0 && p.id == "default" && p.name == "Default"
                  && forall k :: 0 <= k < |p.addons| ==> !p.addons[k].autoLoad)
  {
    var sources := if SupportsProfiles(raw) then Items(Get(raw, "profiles")) else [];
    var retain := Get(raw, "schemaVersion") == Number(3.0);
    var listed := NormalizedProfiles(sources, installed, retain, order);
    UnlistedAre(order, []);
    LoadedIds(Nil, installed, false, order, id);
    NormalizedNothing(installed, order);
    if listed != [] {
      ProfilesComeFrom(sources, installed, retain, order, i);
      var v :| listed[i].addons == NormalizedAddons(v, installed, retain, order);
      LoadedIds(v, installed, retain, order, id);
    }
    hide NormalizedAddons, Unlisted, Ordered, SafeId, AllSafe, ListedIn, Get, Items;
  }

  /** The document as version 2 of the program saved it. */
  function SavedOld(document: Document): Value {
    Table(map["schemaVersion" := Number(2.0), "profiles" := List(SavedProfiles(document.profiles)),
              "activeProfileId" := Str(document.active)])
  }

  lemma {:induction false} InstalledKept(addons: seq<Entry>, installed: Installed, e: Entry)
    requires EntriesOk(addons, installed)
    ensures e in Kept(SavedEntries(addons), installed, false) <==> e in addons && e.id in installed
    decreases |addons|
  {
    if addons != [] {
      hide EntryOk, SavedEntry, Kept, KeepNext, SavedEntries;
      var front, last := addons[..|addons| - 1], addons[|addons| - 1];
      assert addons == front + [last];
      InstalledKept(front, installed, e);
      var before := Kept(SavedEntries(front), installed, false);
      forall i | 0 <= i < |before| ensures before[i].id != last.id {
        InstalledKept(front, installed, before[i]);
      }
      OldEntriesNext(front, last, installed);
      OldEntryIsKept(before, last, installed);
    } else {
      assert SavedEntries(addons) == [];
    }
  }

  lemma OldEntriesNext(front: seq<Entry>, last: Entry, installed: Installed)
    ensures Kept(SavedEntries(front + [last]), installed, false) ==
            KeepNext(Kept(SavedEntries(front), installed, false), SavedEntry(last), installed, false)
  {
    hide KeepNext, SavedEntry;
    assert SavedEntries(front + [last])[..|front|] == SavedEntries(front);
    assert SavedEntries(front + [last])[|front|] == SavedEntry(last);
  }

  lemma OldEntryIsKept(before: seq<Entry>, e: Entry, installed: Installed)
    requires EntryOk(e, installed) && forall i :: 0 <= i < |before| ==> before[i].id != e.id
    ensures KeepNext(before, SavedEntry(e), installed, false) == if e.id in installed then before + [e] else before
  {
    EntryReadsBack(e, installed);
    assert Get(SavedEntry(e), "id") == Str(e.id);
    hide NormalizedEntry, EntryOk, SavedEntry, Get, SafeId;
  }

  function OldProfile(p: Profile, installed: Installed, order: seq<string>): Profile {
    p.(addons := NormalizedAddons(List(SavedEntries(p.addons)), installed, false, order))
  }

  lemma {:induction false} OldProfilesLoad(profiles: seq<Profile>, installed: Installed, order: seq<string>)
    requires ProfilesOk(profiles, installed) && IsListing(installed, order)
    ensures var loaded := NormalizedProfiles(SavedProfiles(profiles), installed, false, order);
            |loaded| == |profiles| && forall i :: 0 <= i < |loaded| ==> loaded[i] == OldProfile(profiles[i], installed, order)
    decreases |profiles|
  {
    hide *;
    if profiles == [] {
      NoProfilesLoad(installed, order);
    } else {
      var front, p := profiles[..|profiles| - 1], profiles[|profiles| - 1];
      LastProfileOk(profiles, installed);
      OldProfilesLoad(front, installed, order);
      var before := NormalizedProfiles(SavedProfiles(front), installed, false, order);
      OldProfilesNext(front, p, installed, order);
      assert profiles == front + [p];
      NamesOf(before, front, p, installed, order);
      OldProfileIsKept(before, p, installed, order);
      LoadedNext(before, front, p, installed, order);
    }
  }

  lemma NoProfilesLoad(installed: Installed, order: seq<string>)
    ensures NormalizedProfiles(SavedProfiles([]), installed, false, order) == []
  {
  }

  lemma NamesOf(before: seq<Profile>, front: seq<Profile>, p: Profile, installed: Installed, order: seq<string>)
    requires |before| == |front| && forall i :: 0 <= i < |front| ==> before[i] == OldProfile(front[i], installed, order)
    requires forall i :: 0 <= i < |front| ==> front[i].id != p.id && Lower(front[i].name) != Lower(p.name)
    ensures forall i :: 0 <= i < |before| ==> before[i].id != p.id && Lower(before[i].name) != Lower(p.name)
  {
    hide Lower, NormalizedAddons;
  }

  lemma LoadedNext(before: seq<Profile>, front: seq<Profile>, p: Profile, installed: Installed, order: seq<string>)
    requires |before| == |front| && forall i :: 0 <= i < |front| ==> before[i] == OldProfile(front[i], installed, order)
    ensures var profiles, loaded := front + [p], before + [OldProfile(p, installed, order)];
            |loaded| == |profiles| && forall i :: 0 <= i < |loaded| ==> loaded[i] == OldProfile(profiles[i], installed, order)
  {
    hide OldProfile;
  }

  lemma LastProfileOk(profiles: seq<Profile>, installed: Installed)
    requires ProfilesOk(profiles, installed) && profiles != []
    ensures var front, p := profiles[..|profiles| - 1], profiles[|profiles| - 1];
            && ProfilesOk(front, installed) && ProfileOk(p, installed)
            && forall i :: 0 <= i < |front| ==> front[i].id != p.id && Lower(front[i].name) != Lower(p.name)
  {
    hide ProfileOk, Lower;
  }

  lemma OldProfilesNext(front: seq<Profile>, p: Profile, installed: Installed, order: seq<string>)
    ensures NormalizedProfiles(SavedProfiles(front + [p]), installed, false, order) ==
            AppendNext(NormalizedProfiles(SavedProfiles(front), installed, false, order), SavedProfile(p), installed, false, order)
  {
    hide AppendNext, SavedProfile;
    assert SavedProfiles(front + [p])[..|front|] == SavedProfiles(front);
    assert SavedProfiles(front + [p])[|front|] == SavedProfile(p);
  }

  lemma OldProfileNames(p: Profile, installed: Installed, order: seq<string>)
    ensures OldProfile(p, installed, order).id == p.id && OldProfile(p, installed, order).name == p.name
  {
  }

  lemma OldProfileIsKept(before: seq<Profile>, p: Profile, installed: Installed, order: seq<string>)
    requires ProfileOk(p, installed)
    requires forall i :: 0 <= i < |before| ==> before[i].id != p.id && Lower(before[i].name) != Lower(p.name)
    ensures AppendNext(before, SavedProfile(p), installed, false, order) ==
            before + [OldProfile(p, installed, order)]
  {
    hide AddonsOk, NormalizedAddons, SavedProfile, Get, Trim, Trimmed, Lower;
    TrimIs(p.name);
    ProfileFields(p);
    NewProfile(before, p.id, p.name);
  }

  /** A version 2 document loads with its profiles and their order, names and active profile, and of
      every list exactly the entries of installed addons. */
  lemma OldDocumentLoads(document: Document, installed: Installed, order: seq<string>, i: nat, e: Entry)
    requires Valid(document, installed) && IsListing(installed, order) && i < |document.profiles|
    ensures var loaded := Normalized(SavedOld(document), installed, order);
            && |loaded.profiles| == |document.profiles| && loaded.active == document.active
            && loaded.profiles[i].id == document.profiles[i].id && loaded.profiles[i].name == document.profiles[i].name
            && (e in loaded.profiles[i].addons <==> e in document.profiles[i].addons && e.id in installed)
  {
    hide Valid, ProfilesOk, NormalizedProfiles, Ordered, Unlisted, SavedOld, NormalizedAddons, ProfileIds;
    var addons := document.profiles[i].addons;
    OldProfilesAre(document, installed, order);
    DocumentHasAddons(document, installed, i);
    OldAddons(addons, installed, order, e);
  }

  lemma OldProfilesAre(document: Document, installed: Installed, order: seq<string>)
    requires Valid(document, installed) && IsListing(installed, order)
    ensures var loaded := Normalized(SavedOld(document), installed, order);
            && |loaded.profiles| == |document.profiles| && loaded.active == document.active
            && forall i :: 0 <= i < |loaded.profiles| ==>
                 loaded.profiles[i] == OldProfile(document.profiles[i], installed, order)
  {
    hide NormalizedProfiles, ProfilesOk, IsListing, NormalizedAddons, Unlisted, OldProfile, SavedProfiles, ProfileIds, Get,
         SavedOld;
    SavedOldFields(document);
    NoNilInside(SavedProfiles(document.profiles));
    OldProfilesLoad(document.profiles, installed, order);
    var listed := NormalizedProfiles(SavedProfiles(document.profiles), installed, false, order);
    forall i | 0 <= i < |listed| ensures listed[i].id == document.profiles[i].id {
      OldProfileNames(document.profiles[i], installed, order);
    }
    SameIds(listed, document.profiles);
    assert document.profiles != [] by { ActiveIsSome(document.profiles, document.active); }
  }

  lemma ActiveIsSome(profiles: seq<Profile>, id: string)
    requires id in ProfileIds(profiles)
    ensures profiles != []
  {
  }

  lemma SavedOldFields(document: Document)
    ensures Get(SavedOld(document), "schemaVersion") == Number(2.0)
    ensures Get(SavedOld(document), "profiles") == List(SavedProfiles(document.profiles))
    ensures Get(SavedOld(document), "activeProfileId") == Str(document.active)
  {
  }

  lemma DocumentHasAddons(document: Document, installed: Installed, i: nat)
    requires Valid(document, installed) && i < |document.profiles|
    ensures AddonsOk(document.profiles[i].addons, installed)
  {
    hide AddonsOk, Lower, Trimmed;
    assert ProfileOk(document.profiles[i], installed);
  }

  lemma SameIds(a: seq<Profile>, b: seq<Profile>)
    requires |a| == |b| && forall i :: 0 <= i < |a| ==> a[i].id == b[i].id
    ensures ProfileIds(a) == ProfileIds(b)
  {
  }

  lemma OldAddons(addons: seq<Entry>, installed: Installed, order: seq<string>, e: Entry)
    requires AddonsOk(addons, installed) && IsListing(installed, order)
    ensures e in NormalizedAddons(List(SavedEntries(addons)), installed, false, order) <==> e in addons && e.id in installed
  {
    NoNilInside(SavedEntries(addons));
    InstalledKept(addons, installed, e);
    var kept := Kept(SavedEntries(addons), installed, false);
    hide Kept, EntryOk, SavedEntries, Ordered;
    forall k | 0 <= k < |order| ensures order[k] in Ids(kept) {
      KeptWhenInstalled(addons, installed, order[k]);
    }
    NothingUnlisted(order, kept);
    hide Unlisted;
    assert NormalizedAddons(List(SavedEntries(addons)), installed, false, order) == kept;
  }

  lemma KeptWhenInstalled(addons: seq<Entry>, installed: Installed, id: string)
    requires AddonsOk(addons, installed) && id in installed
    ensures id in Ids(Kept(SavedEntries(addons), installed, false))
  {
    var kept := Kept(SavedEntries(addons), installed, false);
    var at :| 0 <= at < |addons| && Ids(addons)[at] == id;
    InstalledKept(addons, installed, addons[at]);
    hide Kept, EntryOk;
    var j :| 0 <= j < |kept| && kept[j] == addons[at];
    assert Ids(kept)[j] == id;
  }
}
