/** The mutable profile document and whole sequences of edits:
    addon/vanahub/versions/0.1.0/profiles.lua and its callers in main.lua. */
module ProfileDocuments {
  import opened InstalledOrder
  import opened LuaValues
  import opened ProfileEdits
  import opened ProfileNames
  import opened Profiles
  import opened Text
  import opened Wrappers

  datatype RenameOutcome = Renaming | NotUnique | NotFound | Empty

  /** What `normalize_addons` makes of a list; there is only one listing of the installed addons. */
  ghost predicate NormalizesTo(v: Value, installed: Installed, retainMissing: bool, result: seq<Entry>) {
    forall order :: IsListing(installed, order) ==> result == NormalizedAddons(v, installed, retainMissing, order)
  }

  /** The entries `normalize_addons` keeps, and then the installed addons not among them. */
  method NormalizeAddons(v: Value, installed: Installed, retainMissing: bool) returns (result: seq<Entry>)
    ensures NormalizesTo(v, installed, retainMissing, result)
    ensures AllSafe(installed) ==> AddonsOk(result, installed)
  {
    hide EntryWanted, NormalizedEntry, Ordered, EntriesOk, SafeId;
    result := [];
    var items := Items(v);
    var seen: set<string> := {};
    for n := 0 to |items|
      invariant result == Kept(items[..n], installed, retainMissing)
      invariant forall id :: id in seen <==> id in Ids(result)
    {
      assert items[..n + 1][..n] == items[..n];
      var entry := items[n];
      if WantedText(entry, installed, retainMissing) && Get(entry, "id").s !in seen {
        var id := Get(entry, "id").s;
        var normalized := NormalizedEntry(entry, id, installed);
        NormalizedHasId(entry, id, installed);
        JoinedIds(result, normalized);
        result := result + [normalized];
        seen := seen + {id};
      }
    }
    assert items[..|items|] == items;
    var order := SortedInstalledIds(installed);
    result := AppendUnlisted(order, seen, result);
    if AllSafe(installed) { NormalizedAddonsOk(v, installed, retainMissing, order); }
    forall other | IsListing(installed, other) ensures other == order {
      ListingIsUnique(installed, other, order);
    }
  }

  lemma JoinedIds(addons: seq<Entry>, e: Entry)
    ensures Ids(addons + [e]) == Ids(addons) + [e.id]
  {
  }

  lemma NormalizedHasId(v: Value, id: string, installed: Installed)
    ensures NormalizedEntry(v, id, installed).id == id
  {
  }

  predicate WantedText(v: Value, installed: Installed, retainMissing: bool)
    ensures WantedText(v, installed, retainMissing) ==> Get(v, "id").Str?
    ensures WantedText(v, installed, retainMissing) <==> EntryWanted(v, installed, retainMissing)
  {
    EntryWanted(v, installed, retainMissing)
  }

  method AppendUnlisted(order: seq<string>, seen: set<string>, kept: seq<Entry>) returns (result: seq<Entry>)
    requires forall id :: id in seen <==> id in Ids(kept)
    ensures result == kept + Unlisted(order, kept)
  {
    result := kept;
    for n := 0 to |order|
      invariant result + Unlisted(order[n..], kept) == kept + Unlisted(order, kept)
    {
      assert order[n..][1..] == order[n + 1..];
      ghost var before := result;
      if order[n] !in seen { result := result + [Fresh(order[n])]; }
      Associate(before, if order[n] in Ids(kept) then [] else [Fresh(order[n])], Unlisted(order[n + 1..], kept));
    }
  }

  /** What a user, the install job and the catalog can do to a document. */
  datatype Edit =
    | AddProfile(name: string, duplicate: bool)
    | RenameProfile(id: string, name: string)
    | RemoveProfile(id: string)
    | SelectProfile(id: string)
    | MoveAddon(at: nat, from: int, offset: int)
    | ToggleAutoLoad(at: nat, index: nat, autoLoad: bool)
    | ImportProfile(raw: Value)
    | InstallPackage(id: string, display: Option<string>, enableActive: bool)
    | UninstallPackage(id: string)

  /** A document together with the installed addons it was made for. */
  datatype Snapshot = Snapshot(document: Document, installed: Installed)

  /** The profile is gone. If it was active, the one after it is now, or the one before if it was the
      last. */
  ghost predicate RemovesOnly(before: Document, id: string, after: Document)
    requires |before.profiles| >= 2
  {
    forall at :: 0 <= at < |before.profiles| && before.profiles[at].id == id ==>
      && after.profiles == before.profiles[..at] + before.profiles[at + 1..]
      && after.active == if before.active != id then before.active
                         else if at + 1 < |before.profiles| then before.profiles[at + 1].id
                         else before.profiles[at - 1].id
  }

  lemma FoundAt(profiles: seq<Profile>, id: string)
    ensures var at := Position(ProfileIds(profiles), id);
            && (at < |profiles| ==> profiles[at].id == id && id in ProfileIds(profiles))
            && (at == |profiles| ==> id !in ProfileIds(profiles))
  {
  }

  lemma RemovedHere(d: Document, id: string, installed: Installed)
    requires Valid(d, installed) && |d.profiles| >= 2 && Position(ProfileIds(d.profiles), id) < |d.profiles|
    ensures RemovesOnly(d, id, Removed(d, Position(ProfileIds(d.profiles), id)))
  {
    hide Valid, Removed, Position, ProfileIds;
    var here := Position(ProfileIds(d.profiles), id);
    PositionIsOnly(d, id, installed);
    FoundAt(d.profiles, id);
    RemovedIs(d, here);
    forall at | 0 <= at < |d.profiles| && d.profiles[at].id == id ensures at == here {
    }
  }

  lemma SourceIsActive(d: Document, installed: Installed)
    requires Valid(d, installed)
    ensures forall at :: 0 <= at < |d.profiles| && d.profiles[at].id == d.active ==>
              ActiveAddons(d) == d.profiles[at].addons
  {
    hide ProfileOk, Lower, ActiveAddons;
    forall at | 0 <= at < |d.profiles| && d.profiles[at].id == d.active { ActiveAddonsAre(d, at); }
  }

  lemma PositionIsOnly(d: Document, id: string, installed: Installed)
    requires Valid(d, installed)
    ensures forall at :: 0 <= at < |d.profiles| && d.profiles[at].id == id ==> at == Position(ProfileIds(d.profiles), id)
  {
    hide ProfileOk, Lower;
  }

  lemma UninstalledIs(d: Document, id: string, installed: Installed)
    requires Valid(d, installed)
    ensures forall i :: 0 <= i < |d.profiles| ==>
              var before, after := d.profiles[i], WithoutInstalled(d, id).profiles[i];
              after.id == before.id && after.name == before.name && DropsOnly(before.addons, id, after.addons)
  {
    hide Without, EntryOk, Ids, Lower;
    forall i | 0 <= i < |d.profiles| ensures DropsOnly(d.profiles[i].addons, id, Without(d.profiles[i].addons, id)) {
      assert ProfileOk(d.profiles[i], installed);
      WithoutDropsOnly(d.profiles[i].addons, id);
    }
  }

  /** The entries of one addon are gone, and nothing else. */
  ghost predicate DropsOnly(before: seq<Entry>, id: string, after: seq<Entry>) {
    && (id !in Ids(before) ==> after == before)
    && forall at :: 0 <= at < |before| && before[at].id == id ==> after == before[..at] + before[at + 1..]
  }

  lemma WithoutDropsOnly(addons: seq<Entry>, id: string)
    requires forall i, j :: 0 <= i < j < |addons| ==> addons[i].id != addons[j].id
    ensures DropsOnly(addons, id, Without(addons, id))
  {
    hide Without, Ids;
    if id !in Ids(addons) { WithoutAbsent(addons, id); }
    forall at | 0 <= at < |addons| && addons[at].id == id
      ensures Without(addons, id) == addons[..at] + addons[at + 1..]
    {
      WithoutIs(addons, id, at);
    }
  }

  /** Saving and loading gives the document back. */
  ghost predicate Fixed(s: Snapshot) {
    forall order :: IsListing(s.installed, order) ==> Normalized(Saved(s.document), s.installed, order) == s.document
  }

  class ProfileDocument {
    var profiles: seq<Profile>
    var activeProfileId: string
    var installed: Installed

    function Contents(): Document
      reads this
    {
      Document(profiles, activeProfileId)
    }

    ghost predicate Sound()
      reads this
    {
      Valid(Contents(), installed)
    }

    /** `normalize`. */
    constructor (raw: Value, installed: Installed)
      ensures this.installed == installed
      ensures forall order :: IsListing(installed, order) ==> Contents() == Normalized(raw, installed, order)
      ensures AllSafe(installed) ==> Sound()
    {
      var document := Normalize(raw, installed);
      this.installed := installed;
      profiles := document.profiles;
      activeProfileId := document.active;
      new;
      hide Normalized, Valid;
      var order := SortedInstalledIds(installed);
      assert Contents() == document;
      if AllSafe(installed) { NormalizedIsValid(raw, installed, order); }
    }

    /** `add`: a new profile with the active one's addons; auto-load only when duplicating. */
    method Add(requestedName: string, duplicate: bool)
      requires Sound()
      modifies this
      ensures Sound() && installed == old(installed)
      ensures IsNextId(old(profiles), activeProfileId)
      ensures exists name :: IsUniqueName(old(profiles), requestedName, name)
                && Contents() == Appended(old(Contents()),
                                          Profile(activeProfileId, name, Copied(ActiveAddons(old(Contents())), duplicate)))
      ensures |profiles| == |old(profiles)| + 1 && profiles[..|old(profiles)|] == old(profiles)
      ensures profiles[|old(profiles)|].id == activeProfileId
      ensures forall at :: 0 <= at < |old(profiles)| && old(profiles)[at].id == old(activeProfileId) ==>
                var source, added := old(profiles)[at].addons, profiles[|old(profiles)|].addons;
                && |added| == |source|
                && forall k :: 0 <= k < |added| ==>
                     added[k] == source[k].(autoLoad := duplicate && source[k].autoLoad)
    {
      hide AddonsOk, IsUniqueName, IsNextId, Trimmed, Lower;
      var id := NextId(profiles);
      var name := UniqueName(profiles, requestedName);
      var profile := Profile(id, name, Copied(ActiveAddons(Contents()), duplicate));
      NextIdIsFree(profiles, id);
      UniqueNameIsFree(profiles, requestedName, name);
      ActiveAddonsOk(Contents(), installed);
      CopiedOk(ActiveAddons(Contents()), duplicate, installed);
      AppendedIsValid(Contents(), profile, installed);
      SourceIsActive(Contents(), installed);
      profiles := profiles + [profile];
      activeProfileId := id;
    }

    /** `rename`: the first profile of that name, other than the target, decides against it. */
    method Rename(profileId: string, requestedName: string) returns (outcome: RenameOutcome)
      requires Sound()
      modifies this
      ensures Sound() && installed == old(installed)
      ensures var name, at := Trim(requestedName), Position(ProfileIds(old(profiles)), profileId);
              && (outcome == NotUnique <==>
                    exists i :: 0 <= i < |old(profiles)| && i != at && Lower(old(profiles)[i].name) == Lower(name))
              && (outcome == NotFound ==> at == |old(profiles)|)
              && (outcome == Empty ==> at < |old(profiles)| && name == "")
              && (outcome == Renaming ==> at < |old(profiles)| && name != ""
                                          && Contents() == Renamed(old(Contents()), at, name))
      ensures outcome != Renaming ==> Contents() == old(Contents())
      ensures outcome == Renaming ==>
                && activeProfileId == old(activeProfileId) && |profiles| == |old(profiles)|
                && forall i :: 0 <= i < |profiles| ==>
                     profiles[i] == if old(profiles)[i].id == profileId then old(profiles)[i].(name := Trim(requestedName))
                                    else old(profiles)[i]
    {
      hide ProfileOk, Lower, Trim;
      var name := Trim(requestedName);
      TrimIs(requestedName);
      var target := Position(ProfileIds(profiles), profileId);
      for i := 0 to |profiles|
        invariant forall k :: 0 <= k < i && k != target ==> Lower(profiles[k].name) != Lower(name)
      {
        if profiles[i].id != profileId && Lower(profiles[i].name) == Lower(name) { return NotUnique; }
      }
      if target == |profiles| { return NotFound; }
      if name == "" { return Empty; }
      RenamedIsValid(Contents(), target, name, installed);
      PositionIsOnly(Contents(), profileId, installed);
      profiles := profiles[target := profiles[target].(name := name)];
      return Renaming;
    }

    /** `remove`: refuses the last profile and unknown ids. */
    method Remove(profileId: string) returns (removed: bool)
      requires Sound()
      modifies this
      ensures Sound() && installed == old(installed)
      ensures removed <==> |old(profiles)| >= 2 && profileId in ProfileIds(old(profiles))
      ensures Contents() == if removed then Removed(old(Contents()), Position(ProfileIds(old(profiles)), profileId))
                            else old(Contents())
      ensures removed ==> RemovesOnly(old(Contents()), profileId, Contents())
    {
      hide Valid, Position, ProfileIds, RemovesOnly;
      if |profiles| <= 1 { return false; }
      var at := Position(ProfileIds(profiles), profileId);
      FoundAt(profiles, profileId);
      if at == |profiles| { return false; }
      ghost var before := Contents();
      RemovedIsValid(before, at, installed);
      RemovedHere(before, profileId, installed);
      profiles := profiles[..at] + profiles[at + 1..];
      if activeProfileId == profileId { activeProfileId := profiles[Min(at, |profiles| - 1)].id; }
      assert Contents() == Removed(before, at);
      return true;
    }

    /** `add_installed`, with `installed` updated as the caller does. */
    method Install(packageId: string, display: Option<string>, enableActive: bool)
      requires Sound()
      modifies this
      ensures installed == old(installed)[packageId := display]
      ensures Contents() == WithInstalled(old(Contents()), packageId, enableActive)
      ensures activeProfileId == old(activeProfileId) && |profiles| == |old(profiles)|
      ensures forall i :: 0 <= i < |profiles| ==>
                var before, after := old(profiles)[i], profiles[i];
                && after.id == before.id && after.name == before.name
                && (packageId in Ids(before.addons) ==> after.addons == before.addons)
                && (packageId !in Ids(before.addons) ==>
                      && |after.addons| == |before.addons| + 1 && after.addons[..|before.addons|] == before.addons
                      && var e := after.addons[|before.addons|];
                      && e.id == packageId && e.source == None && e.version == None && e.sha256 == None
                      && (e.autoLoad <==> enableActive && packageId != MANAGER && before.id == old(activeProfileId)))
      ensures Sound() <==> SafeId(packageId)
    {
      hide AddonsOk, ProfilesOk, SafeId;
      ghost var before := Contents();
      WithInstalledIsValid(before, packageId, display, enableActive, installed);
      installed := installed[packageId := display];
      for i := 0 to |profiles|
        invariant |profiles| == |before.profiles| && activeProfileId == before.active
        invariant installed == old(installed)[packageId := display]
        invariant forall k :: 0 <= k < |profiles| ==>
                    profiles[k] == (if k < i then WithInstalled(before, packageId, enableActive) else before).profiles[k]
      {
        var profile := profiles[i];
        if packageId !in Ids(profile.addons) {
          var autoLoad := enableActive && packageId != MANAGER && profile.id == activeProfileId;
          profiles := profiles[i := profile.(addons := profile.addons + [Entry(packageId, autoLoad, None, None, None)])];
        }
      }
      assert profiles == WithInstalled(before, packageId, enableActive).profiles;
      hide WithInstalled, Ids;
      forall i | 0 <= i < |profiles| { WithInstalledIs(before, packageId, enableActive, i); }
    }

    /** `remove_installed`, with `installed` updated as the caller does. */
    method Uninstall(packageId: string)
      requires Sound()
      modifies this
      ensures installed == old(installed) - {packageId}
      ensures Contents() == WithoutInstalled(old(Contents()), packageId) && Sound()
      ensures activeProfileId == old(activeProfileId) && |profiles| == |old(profiles)|
      ensures forall i :: 0 <= i < |profiles| ==>
                var before, after := old(profiles)[i], profiles[i];
                after.id == before.id && after.name == before.name && DropsOnly(before.addons, packageId, after.addons)
    {
      hide AddonsOk, ProfilesOk, Without, DropsOnly;
      ghost var before := Contents();
      WithoutInstalledIsValid(before, packageId, installed);
      installed := installed - {packageId};
      for i := 0 to |profiles|
        invariant |profiles| == |before.profiles| && activeProfileId == before.active
        invariant installed == old(installed) - {packageId}
        invariant forall k :: 0 <= k < |profiles| ==>
                    profiles[k] == (if k < i then WithoutInstalled(before, packageId) else before).profiles[k]
      {
        var addons := RemoveEntries(profiles[i].addons, packageId);
        profiles := profiles[i := profiles[i].(addons := addons)];
      }
      assert profiles == WithoutInstalled(before, packageId).profiles;
      UninstalledIs(before, packageId, old(installed));
    }

    /** Backwards, so that removing an entry does not disturb the ones still to be seen. */
    static method RemoveEntries(addons: seq<Entry>, packageId: string) returns (result: seq<Entry>)
      ensures result == Without(addons, packageId)
    {
      result := addons;
      assert addons[..|addons|] == addons && result[|addons|..] == [];
      for index := |addons| downto 0
        invariant index <= |result| && result[..index] == addons[..index]
        invariant Without(addons, packageId) == Without(addons[..index], packageId) + result[index..]
      {
        assert addons[..index + 1][..index] == addons[..index];
        assert result[index] == result[..index + 1][index] == addons[index];
        if result[index].id == packageId {
          ghost var rest := result[index + 1..];
          result := result[..index] + result[index + 1..];
          assert result[index..] == rest;
        } else {
          assert result[index..] == [addons[index]] + result[index + 1..];
        }
      }
      assert addons[..0] == [] && result[0..] == result && addons[..|addons|] == addons;
    }

    /** `move`, within one profile; positions count from one. */
    method Move(at: nat, index: int, offset: int) returns (moved: bool)
      requires Sound() && at < |profiles|
      modifies this
      ensures Sound() && installed == old(installed)
      ensures var addons := old(profiles)[at].addons;
              && (moved <==> 1 <= index <= |addons| && 1 <= index + offset <= |addons|)
              && Contents() == if moved
                               then WithAddons(old(Contents()), at, Swapped(addons, index - 1, index + offset - 1))
                               else old(Contents())
      ensures moved ==>
                var before, after := old(profiles)[at].addons, profiles[at].addons;
                && |after| == |before|
                && after[index - 1] == before[index + offset - 1] && after[index + offset - 1] == before[index - 1]
                && forall k :: 0 <= k < |after| && k != index - 1 && k != index + offset - 1 ==> after[k] == before[k]
      ensures forall i :: 0 <= i < |profiles| && i != at ==> profiles[i] == old(profiles)[i]
    {
      hide AddonsOk;
      var addons := profiles[at].addons;
      var destination := index + offset;
      if index < 1 || index > |addons| || destination < 1 || destination > |addons| { return false; }
      SwappedOk(addons, index - 1, destination - 1, installed);
      addons := addons[index - 1 := addons[destination - 1]][destination - 1 := addons[index - 1]];
      WithAddonsIsValid(Contents(), at, addons, installed);
      profiles := profiles[at := profiles[at].(addons := addons)];
      return true;
    }

    /** The auto-load checkbox, drawn only for installed addons other than the manager. */
    method SetAutoLoad(at: nat, index: nat, autoLoad: bool)
      requires Sound() && at < |profiles| && index < |profiles[at].addons|
      requires profiles[at].addons[index].id in installed && profiles[at].addons[index].id != MANAGER
      modifies this
      ensures Sound() && installed == old(installed)
      ensures var addons := old(profiles)[at].addons;
              Contents() == WithAddons(old(Contents()), at, addons[index := addons[index].(autoLoad := autoLoad)])
      ensures |profiles| == |old(profiles)| && activeProfileId == old(activeProfileId)
      ensures forall i, k :: 0 <= i < |profiles| && 0 <= k < |profiles[i].addons| ==>
                && |profiles[i].addons| == |old(profiles)[i].addons|
                && profiles[i].addons[k] == if i == at && k == index
                                            then old(profiles)[i].addons[k].(autoLoad := autoLoad)
                                            else old(profiles)[i].addons[k]
    {
      hide EntriesOk;
      var addons := profiles[at].addons;
      ToggledOk(addons, index, autoLoad, installed);
      addons := addons[index := addons[index].(autoLoad := autoLoad)];
      hide AddonsOk;
      WithAddonsIsValid(Contents(), at, addons, installed);
      profiles := profiles[at := profiles[at].(addons := addons)];
    }

    method Select(profileId: string)
      requires Sound() && profileId in ProfileIds(profiles)
      modifies this
      ensures Sound() && installed == old(installed) && Contents() == old(Contents()).(active := profileId)
    {
      activeProfileId := profileId;
    }

    /** `import_profile`: a new active profile with every addon of the manifest, in its order. */
    method Import(raw: Value) returns (imported: bool)
      requires Sound()
      modifies this
      ensures Sound() && installed == old(installed)
      ensures imported <==> ImportOk(raw)
      ensures !imported ==> Contents() == old(Contents())
      ensures imported ==> IsNextId(old(profiles), activeProfileId)
      ensures imported ==> exists name, addons ::
                && IsUniqueName(old(profiles), Get(Get(raw, "profile"), "name").s, name)
                && NormalizesTo(Get(Get(raw, "profile"), "addons"), installed, true, addons)
                && Contents() == Appended(old(Contents()), Profile(activeProfileId, name, addons))
      ensures imported ==> && |profiles| == |old(profiles)| + 1 && profiles[..|old(profiles)|] == old(profiles)
                           && profiles[|old(profiles)|].id == activeProfileId
    {
      hide AddonsOk, IsUniqueName, IsNextId, Trimmed, Lower, Get, ImportOk, NormalizesTo, Valid, AllSafe, Appended,
           ProfileIds, FoldedNames;
      if !ImportOk(raw) { return false; }
      var source := Get(raw, "profile");
      NamePresent(raw);
      var id := NextId(profiles);
      var name := UniqueName(profiles, Get(source, "name").s);
      var addons := NormalizeAddons(Get(source, "addons"), installed, true);
      ValidIsSafe(Contents(), installed);
      addons := DisableMissing(addons, installed);
      NextIdIsFree(profiles, id);
      UniqueNameIsFree(profiles, Get(source, "name").s, name);
      AppendedIsValid(Contents(), Profile(id, name, addons), installed);
      AppendedIs(Contents(), Profile(id, name, addons));
      profiles := profiles + [Profile(id, name, addons)];
      activeProfileId := id;
      return true;
    }

    /** Switches off auto-load for what is not installed; normalization has already done so. */
    static method DisableMissing(addons: seq<Entry>, installed: Installed) returns (result: seq<Entry>)
      requires AddonsOk(addons, installed)
      ensures result == addons
    {
      hide SafeId, SourceOk, IsDigest, Ids;
      result := addons;
      for i := 0 to |addons|
        invariant result == addons
      {
        assert EntryOk(addons[i], installed);
        if result[i].id !in installed { result := result[i := result[i].(autoLoad := false)]; }
      }
    }

    function Snap(): Snapshot
      reads this
    {
      Snapshot(Contents(), installed)
    }

    /** One edit; the engine refuses unsafe ids, and the window offers only what exists. */
    method Perform(edit: Edit)
      requires Sound()
      modifies this
      ensures Sound()
    {
      hide Valid, SafeId;
      match edit
      case AddProfile(name, duplicate) => Add(name, duplicate);
      case RenameProfile(id, name) => var _ := Rename(id, name);
      case RemoveProfile(id) => var _ := Remove(id);
      case SelectProfile(id) => if id in ProfileIds(profiles) { Select(id); }
      case MoveAddon(at, from, offset) => if at < |profiles| { var _ := Move(at, from, offset); }
      case ToggleAutoLoad(at, index, autoLoad) =>
        if at < |profiles| && index < |profiles[at].addons| &&
           profiles[at].addons[index].id in installed && profiles[at].addons[index].id != MANAGER {
          SetAutoLoad(at, index, autoLoad);
        }
      case ImportProfile(raw) => var _ := Import(raw);
      case InstallPackage(id, display, enableActive) => if SafeId(id) { Install(id, display, enableActive); }
      case UninstallPackage(id) => Uninstall(id);
    }
  }

  lemma ValidIsFixed(s: Snapshot)
    requires Valid(s.document, s.installed)
    ensures Fixed(s)
  {
    hide Valid, Normalized, Saved, IsListing, AllSafe;
    ValidIsSafe(s.document, s.installed);
    forall order | IsListing(s.installed, order)
      ensures Normalized(Saved(s.document), s.installed, order) == s.document
    {
      SavedDocumentIsFixed(s.document, s.installed, order);
    }
  }

  /** A whole run from whatever was on disk: every document on the way meets the invariant and
      survives saving and loading. */
  method Session(raw: Value, installed: Installed, edits: seq<Edit>)
    returns (document: ProfileDocument, ghost visited: seq<Snapshot>)
    requires AllSafe(installed)
    ensures |visited| == |edits| + 1 && visited[|edits|] == document.Snap()
    ensures forall i :: 0 <= i < |visited| ==> Valid(visited[i].document, visited[i].installed) && Fixed(visited[i])
  {
    hide Valid, Fixed, Normalized, AllSafe, IsListing;
    document := new ProfileDocument(raw, installed);
    visited := [document.Snap()];
    ValidIsFixed(document.Snap());
    for i := 0 to |edits|
      invariant fresh(document) && document.Sound()
      invariant |visited| == i + 1 && visited[i] == document.Snap()
      invariant forall k :: 0 <= k <= i ==> Valid(visited[k].document, visited[k].installed) && Fixed(visited[k])
    {
      document.Perform(edits[i]);
      ValidIsFixed(document.Snap());
      visited := visited + [document.Snap()];
    }
  }

  lemma NamePresent(raw: Value)
    requires ImportOk(raw)
    ensures Get(Get(raw, "profile"), "name").Str?
  {
  }

  method NormalizeProfiles(sources: seq<Value>, installed: Installed, retainMissing: bool, ghost order: seq<string>)
    returns (list: seq<Profile>)
    requires IsListing(installed, order)
    ensures list == NormalizedProfiles(sources, installed, retainMissing, order)
  {
    hide Ordered, NormalizedAddons, Trim, Lower;
    list := [];
    for n := 0 to |sources|
      invariant list == NormalizedProfiles(sources[..n], installed, retainMissing, order)
    {
      assert sources[..n + 1][..n] == sources[..n];
      var source := sources[n];
      if ProfileWanted(source, list) {
        var addons := NormalizeAddons(Get(source, "addons"), installed, retainMissing);
        list := list + [Profile(Get(source, "id").s, Trim(Get(source, "name").s), addons)];
      }
    }
    assert sources[..|sources|] == sources;
  }

  method Normalize(raw: Value, installed: Installed) returns (document: Document)
    ensures forall order :: IsListing(installed, order) ==> document == Normalized(raw, installed, order)
  {
    hide Ordered, NormalizedProfiles, SupportsProfiles;
    var order := SortedInstalledIds(installed);
    var sources := if SupportsProfiles(raw) then Items(Get(raw, "profiles")) else [];
    var list := NormalizeProfiles(sources, installed, Get(raw, "schemaVersion") == Number(3.0), order);
    if list == [] {
      var addons := AppendUnlisted(order, {}, []);
      assert [] + Unlisted(order, []) == Unlisted(order, []);
      list := [Profile("default", "Default", addons)];
    }
    var requested := Get(raw, "activeProfileId");
    document := Document(
      list, if requested.Str? && requested.s in ProfileIds(list) then requested.s else list[0].id);
    forall other | IsListing(installed, other) ensures other == order {
      ListingIsUnique(installed, other, order);
    }
  }
}
