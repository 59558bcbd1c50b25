/** Files of the user inside an addon directory, over whole runs of the package manager. */
module UserFiles {
  import opened Wrappers
  import opened Paths
  import opened JsonText
  import opened Ownership
  import opened Storage
  import opened Disks
  import opened Recovery
  import opened Installation
  import opened Histories
  import SettingsRestore
  import SettingsSteps

  /** What can happen. Jobs may be about any package; the writes are to the directory watched. */
  datatype Event =
    | Deploy(package: string, t: string, fetched: Fetched, refused: Refusals)
    | Remove(package: string)
    | Restore(package: string, t: string, source: Option<Tree>, denied: SettingsRestore.Refusals)
    | Write(path: string, contents: string)

  /** The paths that occur in a run, none of which is a parent directory of another. */
  ghost predicate Universe(paths: set<string>, user: string) {
    ConflictFree(paths) && OWNED_LIST in paths && user in paths && user != OWNED_LIST
  }

  /** What the jobs demand of their callers. */
  ghost predicate Startable(event: Event) {
    match event
    case Deploy(package, _, fetched, _) => SafePackageId(package) && Shippable(fetched)
    case Remove(_) => true
    case Restore(package, t, _, _) => SafePackageId(package) && SettingsSteps.IsJobId(t)
    case Write(_, _) => true
  }

  /** An event that ships nothing at the user's path in the directory watched, and whose ownership
      list can be read back. */
  ghost predicate Admissible(event: Event, watched: string, paths: set<string>, user: string) {
    match event
    case Deploy(package, _, fetched, _) =>
      package == watched && fetched.Accepted? ==> ShipsBeside(fetched.owned, fetched.files, paths, user)
    case Remove(_) => true
    case Restore(_, _, _, _) => true
    case Write(path, _) => path in paths && path != OWNED_LIST
  }

  ghost predicate ShipsBeside(owned: seq<string>, files: Tree, paths: set<string>, user: string) {
    && (forall path :: path in owned <==> path in files)
    && files.Keys <= paths && user !in files && OWNED_LIST !in files
    && AllSafePaths(owned) && SingleLines(owned)
  }

  function AfterEvent(event: Event, user: string, contents: Option<string>): Option<string> {
    if event.Write? && event.path == user then Some(event.contents) else contents
  }

  /** What the user last wrote to the path. */
  function LastWritten(events: seq<Event>, user: string, before: Option<string>): Option<string>
    decreases |events|
  {
    if events == [] then before
    else AfterEvent(events[|events| - 1], user, LastWritten(events[..|events| - 1], user, before))
  }

  ghost predicate Kept(tree: Option<Tree>, paths: set<string>, user: string, contents: Option<string>) {
    && (tree.Some? ==> tree.value.Keys <= paths && user !in OwnedFiles(tree.value))
    && (contents.Some? ==> tree.Some? && user in tree.value && tree.value[user] == contents.value)
  }

  /** Every tree that the package has, or may get from recovery, has the user's file. */
  ghost predicate AllKept(s: Store, package: string, paths: set<string>, user: string, contents: Option<string>) {
    forall tree :: Shows(s, Addon, package, tree) ==> Kept(tree, paths, user, contents)
  }

  /** The copy loop gets to the user's file: no copy is refused up to it. */
  predicate Reached(order: seq<string>, before: Tree, denied: set<string>, files: Tree, user: string) {
    forall i :: 0 <= i < |order| && order[i] == user ==>
                  !RefusedUpTo(order, (set path | path in OwnedFiles(before)), denied, files, i)
  }

  /** An update keeps the user's file exactly if the copy loop gets to it. */
  lemma UpdateKeeps(before: Tree, order: seq<string>, denied: set<string>, owned: seq<string>, files: Tree,
                    paths: set<string>, user: string, contents: Option<string>)
    requires Universe(paths, user) && ShipsBeside(owned, files, paths, user)
    requires Kept(Some(before), paths, user, contents) && Enumerates(order, before)
    ensures Kept(Some(Updated(Some(before), order, denied, owned, files)), paths, user, contents) <==>
            contents.None? || Reached(order, before, denied, files, user)
  {
    var tree := Updated(Some(before), order, denied, owned, files);
    UpdatedShape(before, order, denied, owned, files, paths, user);
    if contents.Some? {
      UserFileCopied(order, before, denied, files, paths, user);
      hide OwnedFiles, Preserve, Reached, Universe, Enumerates;
    }
  }

  lemma UpdatedShape(before: Tree, order: seq<string>, denied: set<string>, owned: seq<string>, files: Tree,
                     paths: set<string>, user: string)
    requires OWNED_LIST in paths && user != OWNED_LIST && ShipsBeside(owned, files, paths, user)
    requires before.Keys <= paths && Enumerates(order, before)
    ensures var tree := Updated(Some(before), order, denied, owned, files);
            var merged := Preserve(order, before, (set path | path in OwnedFiles(before)), denied, files);
            && tree.Keys <= paths && OwnedFiles(tree) == owned && user !in owned
            && (user in tree <==> user in merged) && (user in merged ==> user in before && tree[user] == before[user])
  {
    ListReadsBack(Updated(Some(before), order, denied, owned, files), owned);
    PreserveShape(order, before, (set path | path in OwnedFiles(before)), denied, files);
    hide OwnedFiles, Preserve, Untracked, Distinct;
  }

  lemma UserFileCopied(order: seq<string>, before: Tree, denied: set<string>, files: Tree, paths: set<string>, user: string)
    requires Universe(paths, user) && files.Keys <= paths && before.Keys <= paths && Enumerates(order, before)
    requires IsUserFile(before, user) && user !in files
    ensures user in Preserve(order, before, (set path | path in OwnedFiles(before)), denied, files) <==>
            Reached(order, before, denied, files, user)
  {
    var previous := set path | path in OwnedFiles(before);
    hide OwnedFiles, Preserve, RefusedUpTo, ConflictFree;
    assert user in order && Untracked(previous, user);
    var i :| 0 <= i < |order| && order[i] == user;
    UntrackedFits(order, before, previous, files, paths);
    CopiedUntilRefused(order, before, previous, denied, files, i);
    OnlyPlace(order, i);
    hide Distinct;
  }

  lemma OnlyPlace(order: seq<string>, i: nat)
    requires Distinct(order) && i < |order|
    ensures forall j :: 0 <= j < |order| && order[j] == order[i] ==> j == i
  {
  }

  lemma UntrackedFits(order: seq<string>, before: Tree, previous: set<string>, files: Tree, paths: set<string>)
    requires ConflictFree(paths) && Enumerates(order, before) && before.Keys <= paths && files.Keys <= paths
    ensures ConflictFree(files.Keys + UntrackedIn(order, previous))
  {
    hide ConflictFree, Untracked, Distinct;
    SubsetConflictFree(files.Keys + UntrackedIn(order, previous), paths);
  }

  /** An installation where nothing is installed has what it ships, and nothing of the user. */
  lemma FreshInstallKeeps(order: seq<string>, denied: set<string>, owned: seq<string>, files: Tree, paths: set<string>, user: string,
                          contents: Option<string>)
    requires Universe(paths, user) && ShipsBeside(owned, files, paths, user)
    ensures Kept(Some(Updated(None, order, denied, owned, files)), paths, user, contents) <==> contents.None?
  {
    ListReadsBack(Updated(None, order, denied, owned, files), owned);
    hide OwnedFiles;
  }

  /** Every state of an uninstall keeps it. */
  lemma UninstallKeeps(tree: Tree, rest: Tree, paths: set<string>, user: string, contents: Option<string>)
    requires user != OWNED_LIST && Kept(Some(tree), paths, user, contents) && Between(tree, rest)
    ensures Kept(Some(rest), paths, user, contents)
  {
    if OWNED_LIST in rest {
      assert OwnedFiles(rest) == OwnedFiles(tree);
    } else {
      assert OwnedFiles(rest) == [];
    }
    hide OwnedFiles;
  }

  method ListFiles(tree: Tree) returns (order: seq<string>)
    ensures Enumerates(order, tree)
  {
    order := [];
    var left := tree.Keys;
    while left != {}
      invariant left <= tree.Keys
      invariant forall path :: path in order <==> path in tree && path !in left
      invariant Distinct(order)
      decreases left
    {
      var path :| path in left;
      assert path !in order;
      left, order := left - {path}, order + [path];
    }
  }

  /** Every state since `from` keeps the file. */
  ghost predicate KeptSteps(trace: seq<Store>, from: nat, package: string, paths: set<string>, user: string,
                            contents: Option<string>) {
    forall k :: from <= k < |trace| ==> AllKept(trace[k], package, paths, user, contents)
  }

  /** Every tree of the package that is set aside has the file. */
  ghost predicate HeldKept(s: Store, package: string, paths: set<string>, user: string, contents: Option<string>) {
    forall tree :: Held(s, Addon, package, tree) ==> Kept(tree, paths, user, contents)
  }

  /** The tree that an update puts in place keeps the file. */
  predicate GetsThrough(s: Store, package: string, order: seq<string>, fetched: Fetched, denied: set<string>, user: string)
    requires fetched.Accepted?
  {
    package in s.addons && Reached(order, s.addons[package], denied, fetched.files, user)
  }

  lemma PendingKept(s: Store, package: string, order: seq<string>, fetched: Fetched, denied: set<string>,
                    paths: set<string>, user: string, contents: Option<string>)
    requires Universe(paths, user) && AllKept(s, package, paths, user, contents) && fetched.Accepted?
    requires ShipsBeside(fetched.owned, fetched.files, paths, user)
    requires package in s.addons ==> Enumerates(order, s.addons[package])
    ensures Kept(Pending(s, package, order, denied, fetched), paths, user, contents) <==>
            contents.None? || GetsThrough(s, package, order, fetched, denied, user)
  {
    hide Kept, ShipsBeside, Universe, Reached, Updated;
    if package in s.addons {
      LiveIsShown(s, Addon, package);
      hide Shows;
      UpdateKeeps(s.addons[package], order, denied, fetched.owned, fetched.files, paths, user, contents);
    } else {
      FreshInstallKeeps(order, denied, fetched.owned, fetched.files, paths, user, contents);
    }
  }

  /** An install or update on whatever disk, its id naming no transaction that holds a backup. The file
      is safe at every step if the copy loop gets to it and every tree set aside has it; for a job that
      completes, this condition is exact. */
  method DeployKeeps(disk: Disk, package: string, t: string, fetched: Fetched, order: seq<string>, refused: Refusals,
                     ghost paths: set<string>, ghost user: string, ghost contents: Option<string>)
    returns (outcome: Outcome)
    requires disk.Valid() && !HasBackup(disk.store, t) && SafePackageId(package) && Shippable(fetched)
    requires package in disk.store.addons ==> Enumerates(order, disk.store.addons[package])
    requires Universe(paths, user) && AllKept(disk.store, package, paths, user, contents)
    requires fetched.Accepted? ==> ShipsBeside(fetched.owned, fetched.files, paths, user)
    modifies disk
    ensures disk.Valid() && Extends(old(disk.trace), disk.trace)
    ensures outcome == InstallOutcome(old(disk.store), package, fetched, refused)
    ensures disk.store == AfterInstall(old(disk.store), t, package, order, fetched, refused)
    ensures && HeldKept(old(disk.store), package, paths, user, contents)
            && (contents.None? || !fetched.Accepted? ||
                GetsThrough(old(disk.store), package, order, fetched, refused.copies, user)) ==>
              KeptSteps(disk.trace, |old(disk.trace)| - 1, package, paths, user, contents)
    ensures outcome.Done? ==>
              (KeptSteps(disk.trace, |old(disk.trace)| - 1, package, paths, user, contents) <==>
               && HeldKept(old(disk.store), package, paths, user, contents)
               && (contents.None? || GetsThrough(old(disk.store), package, order, fetched, refused.copies, user)))
  {
    ghost var s0, from := disk.store, |disk.trace| - 1;
    if package in s0.addons { OrderFits(order, s0.addons[package]); }
    hide Shippable, Enumerates, Universe, AllKept, ShipsBeside, AfterInstall, HeldKept, GetsThrough, KeptSteps, AddonStep,
         Ready, SetAside, HasBackup, Pending, SafePackageId;
    outcome := Install(disk, t, package, fetched, order, refused);
    if && HeldKept(s0, package, paths, user, contents)
       && (contents.None? || !fetched.Accepted? || GetsThrough(s0, package, order, fetched, refused.copies, user))
    {
      DeploySuffices(s0, disk.trace, from, t, package, order, fetched, refused, paths, user, contents);
    }
    if outcome.Done? && KeptSteps(disk.trace, from, package, paths, user, contents) {
      DeployNeeds(s0, disk.trace, from, t, package, order, fetched, refused, paths, user, contents);
    }
  }

  lemma DeploySuffices(s0: Store, trace: seq<Store>, from: nat, t: string, package: string, order: seq<string>,
                       fetched: Fetched, refused: Refusals, paths: set<string>, user: string, contents: Option<string>)
    requires package in s0.addons ==> Enumerates(order, s0.addons[package])
    requires from < |trace| && trace[from] == s0 && !HasBackup(s0, t)
    requires var tree := Pending(s0, package, order, refused.copies, fetched);
             forall k :: from < k < |trace| ==> AddonStep(s0, trace[k], t, package, tree)
    requires Universe(paths, user) && AllKept(s0, package, paths, user, contents)
    requires fetched.Accepted? ==> ShipsBeside(fetched.owned, fetched.files, paths, user)
    requires HeldKept(s0, package, paths, user, contents)
    requires contents.None? || !fetched.Accepted? || GetsThrough(s0, package, order, fetched, refused.copies, user)
    ensures KeptSteps(trace, from, package, paths, user, contents)
  {
    var tree := Pending(s0, package, order, refused.copies, fetched);
    if fetched.Accepted? { PendingKept(s0, package, order, fetched, refused.copies, paths, user, contents); }
    AddonStepItself(s0, t, package, tree);
    assert tree.Some? <==> fetched.Accepted?;
    hide AddonStep, Kept, Pending, Enumerates, ShipsBeside, Universe, GetsThrough, HasBackup, AllKept, HeldKept;
    forall k | from <= k < |trace| ensures AllKept(trace[k], package, paths, user, contents) {
      AddonStepKept(s0, trace[k], t, package, tree, paths, user, contents);
    }
  }

  lemma DeployNeeds(s0: Store, trace: seq<Store>, from: nat, t: string, package: string, order: seq<string>,
                    fetched: Fetched, refused: Refusals, paths: set<string>, user: string, contents: Option<string>)
    requires package in s0.addons ==> Enumerates(order, s0.addons[package])
    requires from < |trace| && trace[from] == s0 && !HasBackup(s0, t) && SafePackageId(package)
    requires InstallOutcome(s0, package, fetched, refused).Done?
    requires trace[|trace| - 1] == AfterInstall(s0, t, package, order, fetched, refused)
    requires package in s0.addons ==>
               var ready := Ready(s0, t, package, order, refused.copies, fetched);
               exists k :: from < k < |trace| && trace[k] == SetAside(ready, t, Addon, package)
    requires Universe(paths, user) && AllKept(s0, package, paths, user, contents)
    requires ShipsBeside(fetched.owned, fetched.files, paths, user)
    requires KeptSteps(trace, from, package, paths, user, contents)
    ensures HeldKept(s0, package, paths, user, contents)
    ensures contents.None? || GetsThrough(s0, package, order, fetched, refused.copies, user)
  {
    PendingKept(s0, package, order, fetched, refused.copies, paths, user, contents);
    hide Kept, Pending, Enumerates, ShipsBeside, Universe, GetsThrough, HasBackup, AllKept, HeldKept, AfterInstall, Ready,
         SetAside;
    assert AllKept(trace[|trace| - 1], package, paths, user, contents);
    DoneShows(s0, t, package, order, fetched, refused, paths, user, contents);
    if package in s0.addons {
      var k :| from < k < |trace| && trace[k] ==
        SetAside(Ready(s0, t, package, order, refused.copies, fetched), t, Addon, package);
      ReadyHolds(s0, t, package, order, fetched, refused.copies, paths, user, contents);
    } else {
      AbsentHolds(s0, package, paths, user, contents);
    }
  }

  lemma AddonStepKept(s0: Store, s: Store, t: string, package: string, tree: Option<Tree>, paths: set<string>,
                      user: string, contents: Option<string>)
    requires AddonStep(s0, s, t, package, tree) && AllKept(s0, package, paths, user, contents)
    requires HeldKept(s0, package, paths, user, contents) && (tree.None? || Kept(tree, paths, user, contents))
    ensures AllKept(s, package, paths, user, contents)
  {
    hide Shows, Held, Kept, Modest, SameExcept;
  }

  /** A completed job shows the new tree. */
  lemma DoneShows(s: Store, t: string, package: string, order: seq<string>, fetched: Fetched, refused: Refusals,
                  paths: set<string>, user: string, contents: Option<string>)
    requires package in s.addons ==> Enumerates(order, s.addons[package])
    requires InstallOutcome(s, package, fetched, refused).Done?
    requires AllKept(AfterInstall(s, t, package, order, fetched, refused), package, paths, user, contents)
    ensures Kept(Pending(s, package, order, refused.copies, fetched), paths, user, contents)
  {
    var last := AfterInstall(s, t, package, order, fetched, refused);
    assert Shows(last, Addon, package, LiveTree(last, Addon, package));
    hide Kept, Shows, Updated;
  }

  /** While the old tree is set aside, recovery may put any other one back that is set aside too. */
  lemma ReadyHolds(s: Store, t: string, package: string, order: seq<string>, fetched: Fetched, denied: set<string>,
                   paths: set<string>, user: string, contents: Option<string>)
    requires SafePackageId(package) && package in s.addons && Enumerates(order, s.addons[package])
    requires fetched.Accepted? && !HasBackup(s, t)
    requires AllKept(SetAside(Ready(s, t, package, order, denied, fetched), t, Addon, package), package, paths, user, contents)
    ensures HeldKept(s, package, paths, user, contents)
  {
    var tree := Pending(s, package, order, denied, fetched).value;
    var ready := Prepared(s, t, package, tree);
    PreparedIsReady(s, t, package, tree);
    hide Kept, Names, Pending, HasBackup, Prepared, Shows, Held;
    SetAsideShows(ready, t, Addon, package, Addon, package);
    PreparedHolders(s, t, ready, Addon, package);
  }

  lemma AbsentHolds(s: Store, package: string, paths: set<string>, user: string, contents: Option<string>)
    requires package !in s.addons && AllKept(s, package, paths, user, contents)
    ensures HeldKept(s, package, paths, user, contents)
  {
    hide Kept, Held;
  }

  /** A refused commit whose rollback is refused as well leaves the old tree set aside. The next job
      finds no installation, and the recovery after it deletes the tree with the user's files. */
  lemma SecondInstallLoses(s: Store, t: string, u: string, package: string, order: seq<string>, first: Fetched,
                           second: Fetched, user: string)
    requires t != u && SafePackageId(package) && package in s.addons && Enumerates(order, s.addons[package])
    requires first.Accepted? && second.Accepted? && Alone(s, Addon, package)
    requires IsUserFile(s.addons[package], user) && user !in second.files
    ensures var s1 := AfterInstall(s, t, package, order, first, Refusals({}, false, true, true));
            var s2 := AfterInstall(s1, u, package, [], second, Refusals({}, false, false, false));
            && Shows(s1, Addon, package, LiveTree(s, Addon, package))
            && InstallOutcome(s1, package, second, Refusals({}, false, false, false)).Done?
            && t in s2.transactions && Repaired(s2, t) == s2
            && package in s2.addons && user !in s2.addons[package]
  {
    var tree := Pending(s, package, order, {}, first).value;
    var ready := Prepared(s, t, package, tree);
    PreparedIsReady(s, t, package, tree);
    var s1 := AfterInstall(s, t, package, order, first, Refusals({}, false, true, true));
    hide Pending, Names, Prepared, Enumerates;
    assert s1 == SetAside(ready, t, Addon, package);
    SetAsideShows(ready, t, Addon, package, Addon, package);
    AsideRepaired(s1, t, u, package, second);
    hide Shows, SetAside, Held, Alone;
  }

  lemma AsideRepaired(s1: Store, t: string, u: string, package: string, second: Fetched)
    requires t != u && Holds(s1, t, Addon, package) && package !in s1.addons && second.Accepted?
    ensures var s2 := AfterInstall(s1, u, package, [], second, Refusals({}, false, false, false));
            && t in s2.transactions && Repaired(s2, t) == s2
            && package in s2.addons && s2.addons[package] == second.files[OWNED_LIST := OwnershipText(second.owned)]
  {
    NamesWhatIsRead(s1.transactions[t], Addon, package);
    hide Names, SafePackageId, ReadString;
  }

  lemma UninstallKept(s0: Store, s: Store, package: string, paths: set<string>, user: string, contents: Option<string>)
    requires Alone(s0, Addon, package) && user != OWNED_LIST && AllKept(s0, package, paths, user, contents)
    requires UninstallStep(s0, s, package) || s == s0
    ensures AllKept(s, package, paths, user, contents)
  {
    forall u ensures !Holds(s, u, Addon, package) { assert !Holds(s0, u, Addon, package); }
    OnlyOldOrNew(s0, Addon, package);
    OnlyOldOrNew(s, Addon, package);
    hide Shows, Kept, Alone, Names;
    assert Kept(LiveTree(s0, Addon, package), paths, user, contents);
    if package in s0.addons && package in s.addons && s != s0 {
      UninstallKeeps(s0.addons[package], s.addons[package], paths, user, contents);
    } else if package in s0.addons && s != s0 {
      GoneKeeps(s0.addons[package], paths, user, contents);
    }
  }

  lemma UninstallElsewhere(s0: Store, s: Store, other: string, package: string, paths: set<string>, user: string,
                           contents: Option<string>)
    requires other != package && (UninstallStep(s0, s, other) || s == s0) && AllKept(s0, package, paths, user, contents)
    ensures AllKept(s, package, paths, user, contents)
  {
    hide Names, Kept, Shows;
    SameHolders(s0, s, Addon, package);
  }

  lemma GoneKeeps(tree: Tree, paths: set<string>, user: string, contents: Option<string>)
    requires user != OWNED_LIST && Kept(Some(tree), paths, user, contents) && Leftover(tree) == map[]
    ensures Kept(None, paths, user, contents)
  {
    hide OwnedFiles;
    assert contents.Some? ==> user in Leftover(tree);
  }

  lemma WriteKeeps(tree: Option<Tree>, path: string, text: string, paths: set<string>, user: string, contents: Option<string>)
    requires Universe(paths, user) && Kept(tree, paths, user, contents) && path in paths && path != OWNED_LIST
    ensures Kept(Some((if tree.Some? then tree.value else map[])[path := text]), paths, user,
                 if path == user then Some(text) else contents)
  {
    var before: Tree := if tree.Some? then tree.value else map[];
    assert OwnedFiles(before[path := text]) == OwnedFiles(before);
    assert OwnedFiles(map[]) == [];
    hide OwnedFiles;
  }

  lemma UserIsNotList(paths: set<string>, user: string)
    requires Universe(paths, user)
    ensures user != OWNED_LIST
  {
  }

  /** The trees that an install or update may put in place, whatever the iteration order. */
  ghost predicate NewTree(s: Store, package: string, fetched: Fetched, refused: Refusals, tree: Option<Tree>) {
    exists order: seq<string> ::
      && (package in s.addons ==> Enumerates(order, s.addons[package]))
      && tree == Pending(s, package, order, refused.copies, fetched)
  }

  ghost predicate DeployStep(s0: Store, s: Store, t: string, package: string, fetched: Fetched, refused: Refusals) {
    exists tree :: NewTree(s0, package, fetched, refused, tree) && AddonStep(s0, s, t, package, tree)
  }

  /** A state in which an event may leave the disk, if it is not completed. Nothing is said of a job
      whose id names a transaction with a backup. */
  ghost predicate Reaches(s0: Store, event: Event, watched: string, s: Store) {
    match event
    case Deploy(package, t, fetched, refused) => HasBackup(s0, t) || DeployStep(s0, s, t, package, fetched, refused)
    case Remove(package) => s == s0 || UninstallStep(s0, s, package)
    case Restore(package, t, source, _) =>
      HasBackup(s0, t) || s == s0 || SettingsSteps.RestoreStep(s0, s, t, package, source, false)
    case Write(path, text) => s == s0 || s == WithFile(s0, watched, path, text)
  }

  function WithFile(s: Store, package: string, path: string, text: string): Store {
    WithAddon(s, package, (if package in s.addons then s.addons[package] else map[])[path := text])
  }

  /** An event, perhaps cut short by a crash, and any number of recoveries, each of them complete,
      stuck or interrupted. A write that is cut short has not happened. */
  ghost predicate Follows(s0: Store, event: Event, watched: string, s: Store) {
    exists middle :: Reaches(s0, event, watched, middle) && RecoverStep(middle, s)
                     && (event.Write? ==> middle == WithFile(s0, watched, event.path, event.contents))
  }

  /** What has to hold before an event starts. But for the copies that will be refused, it can be
      tested then. */
  ghost predicate Guarded(s: Store, event: Event, watched: string) {
    match event
    case Deploy(package, t, fetched, refused) =>
      && !HasBackup(s, t)
      && (package == watched ==> Alone(s, Addon, watched) && AllCopied(s, watched, fetched, refused))
    case Remove(package) => package == watched ==> Alone(s, Addon, watched)
    case Restore(_, t, _, _) => !HasBackup(s, t)
    case Write(_, _) => watched in s.addons || Alone(s, Addon, watched)
  }

  /** No copy of a user file is refused. */
  ghost predicate AllCopied(s: Store, package: string, fetched: Fetched, refused: Refusals) {
    fetched.Accepted? && package in s.addons ==>
      var before := s.addons[package];
      Ownership.UserFiles(before, (set path | path in OwnedFiles(before)), fetched.files) !! refused.copies
  }

  lemma CopiedIsReached(order: seq<string>, before: Tree, denied: set<string>, files: Tree, user: string)
    requires Enumerates(order, before)
    requires Ownership.UserFiles(before, (set path | path in OwnedFiles(before)), files) !! denied
    ensures Reached(order, before, denied, files, user)
  {
    hide OwnedFiles, Untracked, Distinct;
    var previous := set path | path in OwnedFiles(before);
    forall j | 0 <= j < |order| ensures !RefusedAt(order, previous, denied, files, j) {
      assert order[j] in before;
    }
    hide RefusedAt;
  }

  lemma DeployStepKept(s0: Store, s: Store, t: string, package: string, fetched: Fetched, refused: Refusals,
                       paths: set<string>, user: string, contents: Option<string>)
    requires DeployStep(s0, s, t, package, fetched, refused) && Alone(s0, Addon, package)
    requires AllCopied(s0, package, fetched, refused) && Universe(paths, user)
    requires fetched.Accepted? ==> ShipsBeside(fetched.owned, fetched.files, paths, user)
    requires AllKept(s0, package, paths, user, contents)
    ensures AllKept(s, package, paths, user, contents)
  {
    var tree :| NewTree(s0, package, fetched, refused, tree) && AddonStep(s0, s, t, package, tree);
    var order: seq<string> :| && (package in s0.addons ==> Enumerates(order, s0.addons[package]))
                              && tree == Pending(s0, package, order, refused.copies, fetched);
    OnlyOldOrNew(s0, Addon, package);
    assert HeldKept(s0, package, paths, user, contents);
    assert Kept(LiveTree(s0, Addon, package), paths, user, contents);
    assert package !in s0.addons ==> contents.None?;
    hide AllKept, HeldKept, Kept, Enumerates, Shows, AddonStep, Alone, Universe, ShipsBeside, Updated, OwnedFiles,
         Ownership.UserFiles, Reached;
    if fetched.Accepted? {
      PendingKept(s0, package, order, fetched, refused.copies, paths, user, contents);
      if package in s0.addons { CopiedIsReached(order, s0.addons[package], refused.copies, fetched.files, user); }
    }
    AddonStepKept(s0, s, t, package, tree, paths, user, contents);
  }

  /** A step of a job on another package. */
  lemma ElsewhereKept(s0: Store, s: Store, package: string, paths: set<string>, user: string, contents: Option<string>)
    requires Narrows(s0, s, Addon, package) && AllKept(s0, package, paths, user, contents)
    ensures AllKept(s, package, paths, user, contents)
  {
    hide Shows, Kept;
  }

  lemma WriteKept(s0: Store, package: string, path: string, text: string, paths: set<string>, user: string,
                  contents: Option<string>)
    requires package in s0.addons || Alone(s0, Addon, package)
    requires Universe(paths, user) && path in paths && path != OWNED_LIST && AllKept(s0, package, paths, user, contents)
    ensures AllKept(WithFile(s0, package, path, text), package, paths, user, if path == user then Some(text) else contents)
  {
    var shown := SomethingIsShown(s0, Addon, package);
    assert Kept(LiveTree(s0, Addon, package), paths, user, contents) by {
      if package in s0.addons { LiveIsShown(s0, Addon, package); } else { OnlyOldOrNew(s0, Addon, package); }
      hide Kept, Shows;
    }
    LiveIsShown(WithFile(s0, package, path, text), Addon, package);
    hide Kept, Shows, Universe, Held;
    WriteKeeps(LiveTree(s0, Addon, package), path, text, paths, user, contents);
  }

  /** A guarded event keeps the file, whatever crashes and recoveries follow. */
  lemma EventKeeps(s0: Store, event: Event, watched: string, s: Store, paths: set<string>, user: string,
                   contents: Option<string>)
    requires Follows(s0, event, watched, s) && Guarded(s0, event, watched)
    requires Universe(paths, user) && Admissible(event, watched, paths, user)
    requires AllKept(s0, watched, paths, user, contents)
    ensures AllKept(s, watched, paths, user, AfterEvent(event, user, contents))
  {
    var middle :| Reaches(s0, event, watched, middle) && RecoverStep(middle, s)
                  && (event.Write? ==> middle == WithFile(s0, watched, event.path, event.contents));
    var after := AfterEvent(event, user, contents);
    UserIsNotList(paths, user);
    hide AllKept, RecoverStep, Kept, Universe, ShipsBeside, Alone, HasBackup, AddonStep, DeployStep, UninstallStep,
         AllCopied, WithFile, SettingsSteps.RestoreStep;
    match event {
      case Deploy(package, t, fetched, refused) =>
        if package == watched {
          DeployStepKept(s0, middle, t, package, fetched, refused, paths, user, contents);
        } else {
          DeployNarrows(s0, middle, t, package, fetched, refused, watched);
          ElsewhereKept(s0, middle, watched, paths, user, contents);
        }
      case Remove(package) =>
        if package == watched {
          UninstallKept(s0, middle, watched, paths, user, contents);
        } else {
          UninstallElsewhere(s0, middle, package, watched, paths, user, contents);
        }
      case Restore(package, t, source, _) =>
        if s0 != middle {
          RestoreNarrows(s0, middle, t, package, source, watched);
          ElsewhereKept(s0, middle, watched, paths, user, contents);
        }
      case Write(path, text) =>
        WriteKept(s0, watched, path, text, paths, user, contents);
    }
    RecoverNarrows(middle, s, watched);
    ElsewhereKept(middle, s, watched, paths, user, after);
  }

  lemma DeployNarrows(s0: Store, s: Store, t: string, package: string, fetched: Fetched, refused: Refusals, watched: string)
    requires DeployStep(s0, s, t, package, fetched, refused) && watched != package
    ensures Narrows(s0, s, Addon, watched)
  {
    hide Shows, NewTree, Modest, SameExcept;
  }

  lemma RestoreNarrows(s0: Store, s: Store, t: string, package: string, source: Option<Tree>, watched: string)
    requires SettingsSteps.RestoreStep(s0, s, t, package, source, false)
    ensures Narrows(s0, s, Addon, watched)
  {
    hide Shows, Modest, Whole;
  }

  lemma RecoverNarrows(s0: Store, s: Store, watched: string)
    requires RecoverStep(s0, s)
    ensures Narrows(s0, s, Addon, watched)
  {
    hide Shows, Whole, Jams, Holds;
  }

  /** The disks of a run: each event leads from one to the next. */
  ghost predicate IsRun(disks: seq<Store>, events: seq<Event>, watched: string) {
    && |disks| == |events| + 1
    && forall i :: 0 <= i < |events| ==> Follows(disks[i], events[i], watched, disks[i + 1])
  }

  /** Over every run of installs, updates, uninstalls and settings restores of all packages, writes of
      the user, crashes at any step, and recoveries complete or not, a file at a path that no version
      ships keeps the contents the user last gave it, as long as every event is guarded. */
  lemma {:induction false} RunKeeps(disks: seq<Store>, events: seq<Event>, watched: string, paths: set<string>,
                                    user: string, contents: Option<string>)
    requires IsRun(disks, events, watched) && Universe(paths, user)
    requires forall i :: 0 <= i < |events| ==> Guarded(disks[i], events[i], watched)
    requires forall i :: 0 <= i < |events| ==> Admissible(events[i], watched, paths, user)
    requires AllKept(disks[0], watched, paths, user, contents)
    ensures AllKept(disks[|events|], watched, paths, user, LastWritten(events, user, contents))
    decreases |events|
  {
    hide AllKept, Follows, Guarded, Admissible, Universe;
    if events != [] {
      var n := |events| - 1;
      RunKeeps(disks[..n + 1], events[..n], watched, paths, user, contents);
      EventKeeps(disks[n], events[n], watched, disks[n + 1], paths, user, LastWritten(events[..n], user, contents));
    }
  }

  /** One event, up to its end or to a crash. */
  method Perform(disk: Disk, event: Event, watched: string)
    requires disk.Valid() && Startable(event)
    modifies disk
    ensures disk.Valid() && Extends(old(disk.trace), disk.trace)
    ensures forall k :: |old(disk.trace)| - 1 <= k < |disk.trace| ==> Reaches(old(disk.store), event, watched, disk.trace[k])
    ensures event.Write? ==> disk.store == WithFile(old(disk.store), watched, event.path, event.contents)
  {
    hide HasBackup, UninstallStep, DeployStep, SettingsSteps.RestoreStep, WithFile;
    match event {
      case Deploy(package, t, fetched, refused) =>
        PerformDeploy(disk, package, t, fetched, refused);
      case Remove(package) =>
        Uninstall(disk, package);
      case Restore(package, t, source, denied) =>
        PerformRestore(disk, package, t, source, denied);
      case Write(path, text) =>
        disk.Commit(WithFile(disk.store, watched, path, text));
    }
  }

  method PerformDeploy(disk: Disk, package: string, t: string, fetched: Fetched, refused: Refusals)
    requires disk.Valid() && SafePackageId(package) && Shippable(fetched)
    modifies disk
    ensures disk.Valid() && Extends(old(disk.trace), disk.trace)
    ensures !HasBackup(old(disk.store), t) ==>
              forall k :: |old(disk.trace)| - 1 <= k < |disk.trace| ==>
                            DeployStep(old(disk.store), disk.trace[k], t, package, fetched, refused)
  {
    ghost var s0, from := disk.store, |disk.trace| - 1;
    hide NewTree, Enumerates, Ready, AddonStep, DeployStep, HasBackup, AfterInstall, SetAside, Shippable, SafePackageId,
         Pending, InstallOutcome;
    var order := [];
    if package in disk.store.addons {
      order := ListFiles(disk.store.addons[package]);
      OrderFits(order, disk.store.addons[package]);
    }
    var _ := Install(disk, t, package, fetched, order, refused);
    if !HasBackup(s0, t) { DeploySteps(s0, disk.trace, from, t, package, order, fetched, refused); }
  }

  lemma DeploySteps(s0: Store, trace: seq<Store>, from: nat, t: string, package: string, order: seq<string>,
                    fetched: Fetched, refused: Refusals)
    requires package in s0.addons ==> Enumerates(order, s0.addons[package])
    requires from < |trace| && trace[from] == s0 && !HasBackup(s0, t)
    requires var tree := Pending(s0, package, order, refused.copies, fetched);
             forall k :: from < k < |trace| ==> AddonStep(s0, trace[k], t, package, tree)
    ensures forall k :: from <= k < |trace| ==> DeployStep(s0, trace[k], t, package, fetched, refused)
  {
    var tree := Pending(s0, package, order, refused.copies, fetched);
    assert NewTree(s0, package, fetched, refused, tree);
    AddonStepItself(s0, t, package, tree);
    hide NewTree, Enumerates, AddonStep, Pending;
    forall k | from <= k < |trace| ensures DeployStep(s0, trace[k], t, package, fetched, refused) {
      assert AddonStep(s0, trace[k], t, package, tree);
    }
  }

  method PerformRestore(disk: Disk, package: string, t: string, source: Option<Tree>, denied: SettingsRestore.Refusals)
    requires disk.Valid() && SafePackageId(package) && SettingsSteps.IsJobId(t)
    modifies disk
    ensures disk.Valid() && Extends(old(disk.trace), disk.trace)
    ensures !HasBackup(old(disk.store), t) ==>
              forall k :: |old(disk.trace)| <= k < |disk.trace| ==>
                            SettingsSteps.RestoreStep(old(disk.store), disk.trace[k], t, package, source, false)
  {
    ghost var s0 := disk.store;
    hide HasBackup, SettingsSteps.RestoreStep, SettingsRestore.Final, SettingsRestore.Fails, Alone;
    var _ := SettingsRestore.Restore(disk, t, package, source, denied);
    if !HasBackup(s0, t) {
      forall k | |old(disk.trace)| <= k < |disk.trace|
        ensures SettingsSteps.RestoreStep(s0, disk.trace[k], t, package, source, false)
      {
        AnyRestoreStep(s0, disk.trace[k], t, package, source, !SettingsRestore.Fails(s0, t, package, source, denied));
      }
    }
  }

  lemma AnyRestoreStep(s0: Store, s: Store, t: string, package: string, source: Option<Tree>, safe: bool)
    requires SettingsSteps.RestoreStep(s0, s, t, package, source, safe)
    ensures SettingsSteps.RestoreStep(s0, s, t, package, source, false)
  {
    hide Modest, Narrows, Whole;
  }

  /** After an event: the next one, or a crash with recoveries, be they interrupted, stuck or
      complete. */
  method Continue(disk: Disk, from: nat, ghost s0: Store, event: Event, ghost watched: string)
    requires disk.Valid() && from < |disk.trace|
    requires forall k :: from <= k < |disk.trace| ==> Reaches(s0, event, watched, disk.trace[k])
    requires event.Write? ==> disk.store == WithFile(s0, watched, event.path, event.contents)
    modifies disk
    ensures disk.Valid() && Follows(s0, event, watched, disk.store)
  {
    hide RecoverStep, Reaches, WithFile, Jammed, Stuck, Shows;
    var interrupted: seq<set<string>>, refused: set<string> := *, *;
    if * {
      RecoverStepItself(disk.store);
      assert Reaches(s0, event, watched, disk.trace[|disk.trace| - 1]);
    } else {
      ghost var crashed, ok := CrashAndRecover(disk, if event.Write? then |disk.trace| - 1 else from, interrupted, refused);
    }
  }

  /** Whatever happens to a disk is such a run. */
  method Run(disk: Disk, watched: string, events: seq<Event>) returns (ghost disks: seq<Store>)
    requires disk.Valid() && forall i :: 0 <= i < |events| ==> Startable(events[i])
    modifies disk
    ensures disk.Valid() && IsRun(disks, events, watched)
    ensures disks[0] == old(disk.store) && disks[|events|] == disk.store
  {
    disks := [disk.store];
    hide Follows, Reaches, Startable, WithFile;
    for i := 0 to |events|
      invariant disk.Valid() && |disks| == i + 1 && disks[i] == disk.store && disks[0] == old(disk.store)
      invariant forall j :: 0 <= j < i ==> Follows(disks[j], events[j], watched, disks[j + 1])
    {
      var from := |disk.trace| - 1;
      ghost var s0 := disk.store;
      Perform(disk, events[i], watched);
      Continue(disk, from, s0, events[i], watched);
      disks := disks + [disk.store];
    }
  }

  /** An update drops what the old version owned and the new one does not ship. */
  lemma UpdateDropsOldFiles(before: Tree, order: seq<string>, denied: set<string>, owned: seq<string>, files: Tree,
                            path: string)
    requires Enumerates(order, before)
    requires path in OwnedFiles(before) && path != OWNED_LIST && path !in files
    ensures path !in Updated(Some(before), order, denied, owned, files)
  {
    var previous := set p | p in OwnedFiles(before);
    hide OwnedFiles;
    PreserveShape(order, before, previous, denied, files);
  }
}
