/** Install, update and uninstall: native/src/engine.cpp. */
module Installation {
  import opened Wrappers
  import opened Paths
  import opened JsonText
  import opened Ownership
  import opened Storage
  import opened Disks
  import opened Recovery

  /** What download, hashing, inspection and extraction deliver; `Rejected` has extracted
      some files before the archive or a Lua source was refused. */
  datatype Fetched =
    | Failed
    | Rejected(staged: Tree)
    | Accepted(owned: seq<string>, files: Tree)

  /** The user files whose copy, and which of the renames, the operating system refuses. */
  datatype Refusals = Refusals(copies: set<string>, backUp: bool, commit: bool, rollback: bool)

  datatype Outcome = Done | NotFetched | BackUpRefused | CommitRefused

  ghost predicate Shippable(f: Fetched) {
    f.Accepted? ==> forall path :: path in f.owned <==> path in f.files
  }

  /** The tree an install or update puts in place of `before`. */
  function Updated(before: Option<Tree>, order: seq<string>, denied: set<string>, owned: seq<string>, files: Tree): Tree
    requires before.Some? ==> forall path :: path in order ==> path in before.value
  {
    var merged := if before.None? then files
                  else Preserve(order, before.value, (set path | path in OwnedFiles(before.value)), denied, files);
    merged[OWNED_LIST := OwnershipText(owned)]
  }

  /** The tree has what is shipped, with the shipped contents. Beside that it has only files of the
      old tree that the old version did not own, unchanged, and the list of what is shipped. */
  ghost predicate Delivered(before: Option<Tree>, owned: seq<string>, files: Tree, tree: Tree) {
    && (forall path :: path in files && path != OWNED_LIST ==> path in tree && tree[path] == files[path])
    && (forall path :: path in tree && path != OWNED_LIST && path !in files ==>
          && before.Some? && path in before.value && path !in OwnedFiles(before.value)
          && tree[path] == before.value[path])
    && OWNED_LIST in tree && (AllSafePaths(owned) && SingleLines(owned) ==> OwnedFiles(tree) == owned)
  }

  lemma UpdatedIs(before: Option<Tree>, order: seq<string>, denied: set<string>, owned: seq<string>, files: Tree)
    requires before.Some? ==> forall path :: path in order ==> path in before.value
    ensures Delivered(before, owned, files, Updated(before, order, denied, owned, files))
  {
    var tree := Updated(before, order, denied, owned, files);
    if AllSafePaths(owned) && SingleLines(owned) { ListReadsBack(tree, owned); }
    hide OwnedFiles, Preserve, AllSafePaths, SingleLines;
    if before.Some? {
      var previous := set path | path in OwnedFiles(before.value);
      var merged := Preserve(order, before.value, previous, denied, files);
      PreserveShape(order, before.value, previous, denied, files);
      assert tree == merged[OWNED_LIST := OwnershipText(owned)];
      hide Updated;
      forall path | path in tree && path != OWNED_LIST && path !in files
        ensures path in before.value && path !in OwnedFiles(before.value) && tree[path] == before.value[path]
      {
        assert path in merged && Untracked(previous, path);
      }
    }
  }

  lemma ListReadsBack(tree: Tree, owned: seq<string>)
    requires OWNED_LIST in tree && tree[OWNED_LIST] == OwnershipText(owned)
    requires AllSafePaths(owned) && SingleLines(owned)
    ensures OwnedFiles(tree) == owned
  {
    hide SafeRelativePath;
    OwnershipReadsBack(owned);
  }

  /** A state of an install of `package`: settings, backups and other transactions are untouched,
      and nothing is set aside but the old tree. */
  ghost predicate AddonStep(s0: Store, s: Store, t: string, package: string, tree: Option<Tree>) {
    && OldOrNew(s0, s, Addon, package, tree)
    && s.config == s0.config && s.backups == s0.backups && SameExcept(s0.transactions, s.transactions, t)
    && Modest(s0, s, t, Addon, package, {})
  }

  /** The tree that a job is about to put in place, if it gets that far. */
  function Pending(s: Store, package: string, order: seq<string>, denied: set<string>, f: Fetched): Option<Tree>
    requires package in s.addons ==> forall path :: path in order ==> path in s.addons[package]
  {
    if f.Accepted? then Some(Updated(LiveTree(s, Addon, package), order, denied, f.owned, f.files)) else None
  }

  function InstallOutcome(s: Store, package: string, f: Fetched, refused: Refusals): Outcome {
    if !f.Accepted? then NotFetched
    else if package in s.addons && refused.backUp then BackUpRefused
    else if refused.commit then CommitRefused
    else Done
  }

  /** The archive's files are written to the staging directory, one by one. */
  method Extract(disk: Disk, t: string, owned: seq<string>, files: Tree)
    requires disk.Valid() && t in disk.store.transactions
    requires forall path :: path in owned <==> path in files
    modifies disk
    ensures disk.Valid() && Extends(old(disk.trace), disk.trace)
    ensures disk.store == WithStaging(old(disk.store), t, files)
    ensures forall k :: |old(disk.trace)| <= k < |disk.trace| ==> StagingOf(old(disk.store), t, disk.trace[k])
  {
    var s0, staged: Tree := disk.store, map[];
    StagingStep(s0, t, staged);
    disk.Commit(WithStaging(s0, t, staged));
    for i := 0 to |owned|
      invariant disk.Valid() && Extends(old(disk.trace), disk.trace)
      invariant disk.store == WithStaging(s0, t, staged)
      invariant forall path :: path in staged <==> path in owned[..i]
      invariant forall path :: path in staged ==> path in files && staged[path] == files[path]
      invariant forall k :: |old(disk.trace)| <= k < |disk.trace| ==> StagingOf(s0, t, disk.trace[k])
    {
      hide StagingOf, WithStaging;
      assert owned[..i + 1] == owned[..i] + [owned[i]];
      staged := staged[owned[i] := files[owned[i]]];
      StagingStep(s0, t, staged);
      disk.Commit(WithStaging(s0, t, staged));
    }
    assert owned[..|owned|] == owned && staged == files;
  }

  /** The copy loop over an existing installation. */
  method CopyUntracked(disk: Disk, t: string, order: seq<string>, target: Tree, previous: set<string>, denied: set<string>)
    requires disk.Valid() && t in disk.store.transactions && disk.store.transactions[t].staging.Some?
    requires forall path :: path in order ==> path in target
    modifies disk
    ensures disk.Valid() && Extends(old(disk.trace), disk.trace)
    ensures var staging := old(disk.store).transactions[t].staging.value;
            disk.store == WithStaging(old(disk.store), t, Preserve(order, target, previous, denied, staging))
    ensures forall k :: |old(disk.trace)| <= k < |disk.trace| ==> StagingOf(old(disk.store), t, disk.trace[k])
  {
    var s0, merged := disk.store, disk.store.transactions[t].staging.value;
    StagingItself(s0, t);
    var i := 0;
    while i < |order|
      invariant disk.Valid() && Extends(old(disk.trace), disk.trace)
      invariant 0 <= i <= |order|
      invariant disk.store == WithStaging(s0, t, merged)
      invariant Preserve(order, target, previous, denied, s0.transactions[t].staging.value) ==
                Preserve(order[i..], target, previous, denied, merged)
      invariant forall k :: |old(disk.trace)| <= k < |disk.trace| ==> StagingOf(s0, t, disk.trace[k])
    {
      hide Occupied, Blocked, Untracked, StagingOf, WithStaging;
      var path := order[i];
      assert order[i..][0] == path && order[i..][1..] == order[i + 1..];
      if Untracked(previous, path) && !Occupied(merged, path) {
        if Blocked(merged, path) || path in denied { return; }
        merged := merged[path := target[path]];
        StagingStep(s0, t, merged);
        disk.Commit(WithStaging(s0, t, merged));
      }
      i := i + 1;
    }
  }

  /** The two renames that replace the live directory, and what follows them. */
  method Activate(disk: Disk, t: string, package: string, refused: Refusals) returns (outcome: Outcome)
    requires disk.Valid() && ReadyToReplace(disk.store, t, package) && disk.store.transactions[t].staging.Some?
    modifies disk
    ensures disk.Valid() && Extends(old(disk.trace), disk.trace)
    ensures outcome == if package in old(disk.store).addons && refused.backUp then BackUpRefused
                       else if refused.commit then CommitRefused else Done
    ensures forall k :: |old(disk.trace)| <= k < |disk.trace| ==>
                          AddonStep(old(disk.store), disk.trace[k], t, package, old(disk.store).transactions[t].staging)
    ensures package in old(disk.store).addons && !outcome.BackUpRefused? ==>
              exists k :: && |old(disk.trace)| <= k < |disk.trace|
                          && disk.trace[k] == SetAside(old(disk.store), t, Addon, package)
    ensures outcome.BackUpRefused? ==> disk.store == old(disk.store)
    ensures outcome.CommitRefused? ==> (disk.store == if package in old(disk.store).addons && refused.rollback
                                                 then SetAside(old(disk.store), t, Addon, package) else old(disk.store))
    ensures outcome.Done? ==> disk.store == Installed(old(disk.store), t, package, old(disk.store).transactions[t].staging.value)
  {
    ghost var s0 := disk.store;
    var tree := disk.store.transactions[t].staging.value;
    hide Names, AddonStep, ReadyToReplace, AboutToActivate, SetAside, Installed;
    if package in disk.store.addons && refused.backUp { return BackUpRefused; }
    MoveAside(disk, t, package, Some(tree));
    ghost var last := |disk.trace| - 1;
    assert package in s0.addons ==> last >= |old(disk.trace)| && disk.trace[last] == SetAside(s0, t, Addon, package);
    if refused.commit {
      RollBack(disk, s0, t, package, Some(tree), refused.rollback);
      return CommitRefused;
    }
    Complete(disk, s0, t, package, tree);
    return Done;
  }

  method MoveAside(disk: Disk, t: string, package: string, ghost tree: Option<Tree>)
    requires disk.Valid() && ReadyToReplace(disk.store, t, package)
    modifies disk
    ensures disk.Valid() && Extends(old(disk.trace), disk.trace)
    ensures AboutToActivate(old(disk.store), disk.store, t, package) && t in disk.store.transactions
    ensures package in old(disk.store).addons ==>
              |disk.trace| > |old(disk.trace)| && disk.store == SetAside(old(disk.store), t, Addon, package)
    ensures forall k :: |old(disk.trace)| <= k < |disk.trace| ==> AddonStep(old(disk.store), disk.trace[k], t, package, tree)
  {
    ghost var s0 := disk.store;
    if package in disk.store.addons {
      AsideStep(s0, t, package, tree);
      disk.Commit(SetAside(disk.store, t, Addon, package));
    }
    ReadyStep(s0, disk.store, t, package);
  }

  method RollBack(disk: Disk, ghost s0: Store, t: string, package: string, ghost tree: Option<Tree>, refused: bool)
    requires disk.Valid() && AboutToActivate(s0, disk.store, t, package)
    modifies disk
    ensures disk.Valid() && Extends(old(disk.trace), disk.trace)
    ensures disk.store == if package in s0.addons && refused then SetAside(s0, t, Addon, package) else s0
    ensures forall k :: |old(disk.trace)| <= k < |disk.trace| ==> AddonStep(s0, disk.trace[k], t, package, tree)
  {
    assert HasBackup(disk.store, t) <==> package in s0.addons;
    if HasBackup(disk.store, t) && !refused {
      BackStep(s0, t, package, tree);
      disk.Commit(PutBack(disk.store, t, Addon, package));
    }
  }

  /** The staged tree becomes the live one and the transaction is removed. */
  method Complete(disk: Disk, ghost s0: Store, t: string, package: string, tree: Tree)
    requires disk.Valid() && AboutToActivate(s0, disk.store, t, package) && t in disk.store.transactions
    modifies disk
    ensures disk.Valid() && Extends(old(disk.trace), disk.trace)
    ensures forall k :: |old(disk.trace)| <= k < |disk.trace| ==> AddonStep(s0, disk.trace[k], t, package, Some(tree))
    ensures disk.store == Installed(s0, t, package, tree)
  {
    ghost var before := disk.store;
    hide AddonStep, Erasing, AboutToActivate, Installed;
    ActivatedStep(s0, before, t, package, tree);
    InstalledStep(s0, before, t, package, tree);
    disk.Commit(Activated(disk.store, t, package, tree));
    ghost var from := |disk.trace|;
    disk.RemoveTransaction(t);
    forall k | from <= k < |disk.trace| ensures AddonStep(s0, disk.trace[k], t, package, Some(tree)) {
      CleanupStep(s0, before, t, package, tree, disk.trace[k]);
    }
  }

  /** Extraction, the merge with the installed version and the new ownership list. */
  method StageAll(disk: Disk, t: string, package: string, owned: seq<string>, files: Tree, order: seq<string>,
                  denied: set<string>)
    requires disk.Valid() && t in disk.store.transactions
    requires forall path :: path in owned <==> path in files
    requires package in disk.store.addons ==> Enumerates(order, disk.store.addons[package])
    modifies disk
    ensures disk.Valid() && Extends(old(disk.trace), disk.trace)
    ensures disk.store == WithStaging(old(disk.store), t, Updated(LiveTree(old(disk.store), Addon, package), order, denied, owned, files))
    ensures forall k :: |old(disk.trace)| <= k < |disk.trace| ==> StagingOf(old(disk.store), t, disk.trace[k])
  {
    var s0, merged := disk.store, files;
    hide Enumerates, WithStaging, StagingOf;
    Extract(disk, t, owned, files);
    StagedTransaction(s0, t, files);
    if package in s0.addons {
      OrderFits(order, s0.addons[package]);
      ghost var s1, from := disk.store, |disk.trace|;
      merged := MergeInstalled(disk, t, order, s0.addons[package], denied, files);
      StagedTwice(s0, t, files, merged);
      forall k | from <= k < |disk.trace| ensures StagingOf(s0, t, disk.trace[k]) {
        StagedAfter(s0, t, files, disk.trace[k]);
      }
    }
    var list := WriteOwnership(owned);
    StagedTwice(s0, t, merged, merged[OWNED_LIST := list]);
    StagingStep(s0, t, merged[OWNED_LIST := list]);
    disk.Commit(WithStaging(disk.store, t, merged[OWNED_LIST := list]));
  }

  method MergeInstalled(disk: Disk, t: string, order: seq<string>, target: Tree, denied: set<string>, files: Tree)
    returns (merged: Tree)
    requires disk.Valid() && t in disk.store.transactions && disk.store.transactions[t].staging == Some(files)
    requires forall path :: path in order ==> path in target
    modifies disk
    ensures disk.Valid() && Extends(old(disk.trace), disk.trace)
    ensures merged == Preserve(order, target, (set path | path in OwnedFiles(target)), denied, files)
    ensures disk.store == WithStaging(old(disk.store), t, merged)
    ensures forall k :: |old(disk.trace)| <= k < |disk.trace| ==> StagingOf(old(disk.store), t, disk.trace[k])
  {
    var previous := ReadOwnership(target);
    merged := Preserve(order, target, (set path | path in previous), denied, files);
    CopyUntracked(disk, t, order, target, (set path | path in previous), denied);
  }

  /** Everything up to the first rename. */
  method Prepare(disk: Disk, t: string, package: string, owned: seq<string>, files: Tree, order: seq<string>,
                 denied: set<string>)
    requires disk.Valid()
    requires forall path :: path in owned <==> path in files
    requires package in disk.store.addons ==> Enumerates(order, disk.store.addons[package])
    modifies disk
    ensures disk.Valid() && Extends(old(disk.trace), disk.trace)
    ensures disk.store == Prepared(old(disk.store), t, package,
                                   Updated(LiveTree(old(disk.store), Addon, package), order, denied, owned, files))
    ensures !HasBackup(old(disk.store), t) ==>
              forall k :: |old(disk.trace)| <= k < |disk.trace| ==> Preparing(old(disk.store), t, disk.trace[k])
  {
    ghost var s0 := disk.store;
    disk.Begin(t, InstallJournal(package));
    ghost var s1, from := disk.store, |disk.trace|;
    assert s1.addons == s0.addons;
    assert !HasBackup(s0, t) ==> Preparing(s0, t, s1);
    hide Enumerates, InstallJournal, WithStaging, StagingOf, Updated, Preparing, HasBackup;
    StageAll(disk, t, package, owned, files, order, denied);
    if !HasBackup(s0, t) { StagedStates(s0, t, s1, disk.trace, from); }
    StagedIsPrepared(s0, t, package, Updated(LiveTree(s0, Addon, package), order, denied, owned, files));
  }

  /** A job that stops before the first rename removes its transaction. */
  method Abandon(disk: Disk, t: string, package: string, staged: Option<Tree>)
    requires disk.Valid()
    modifies disk
    ensures disk.Valid() && Extends(old(disk.trace), disk.trace)
    ensures disk.store == Removed(old(disk.store), t)
    ensures !HasBackup(old(disk.store), t) ==>
              forall k :: |old(disk.trace)| <= k < |disk.trace| ==> Preparing(old(disk.store), t, disk.trace[k])
  {
    ghost var s0 := disk.store;
    disk.Begin(t, InstallJournal(package));
    if staged.Some? { disk.Commit(WithStaging(disk.store, t, staged.value)); }
    ghost var s1, from := disk.store, |disk.trace|;
    assert s1.transactions - {t} == s0.transactions - {t};
    assert !HasBackup(s0, t) ==> Preparing(s0, t, s1);
    disk.RemoveTransaction(t);
    if !HasBackup(s0, t) {
      hide Preparing, Erasing, HasBackup, InstallJournal;
      forall k | from <= k < |disk.trace| ensures Preparing(s0, t, disk.trace[k]) {
        ErasingPrepared(s0, t, s1, disk.trace[k]);
      }
    }
  }

  /** The disk of an install once everything is staged. */
  function Ready(s: Store, t: string, package: string, order: seq<string>, denied: set<string>, f: Fetched): Store
    requires f.Accepted?
    requires package in s.addons ==> forall path :: path in order ==> path in s.addons[package]
  {
    Prepared(s, t, package, Pending(s, package, order, denied, f).value)
  }

  /** The disk once the job has finished. */
  function AfterInstall(s: Store, t: string, package: string, order: seq<string>, f: Fetched, refused: Refusals): Store
    requires package in s.addons ==> forall path :: path in order ==> path in s.addons[package]
  {
    if !f.Accepted? then Removed(s, t)
    else
      var ready, outcome := Ready(s, t, package, order, refused.copies, f), InstallOutcome(s, package, f, refused);
      if outcome.Done? then Installed(s, t, package, Pending(s, package, order, refused.copies, f).value)
      else if outcome.CommitRefused? && package in ready.addons && refused.rollback then SetAside(ready, t, Addon, package)
      else ready
  }

  /** Install or update of one package, on whatever disk. If the id of the job names no transaction
      that holds a backup, the package shows at every step its old tree, the new one, or one that
      was set aside before, and every other package shows its own. */
  method Install(disk: Disk, t: string, package: string, fetched: Fetched, order: seq<string>, refused: Refusals)
    returns (outcome: Outcome)
    requires disk.Valid() && SafePackageId(package) && Shippable(fetched)
    requires package in disk.store.addons ==> Enumerates(order, disk.store.addons[package])
    modifies disk
    ensures disk.Valid() && Extends(old(disk.trace), disk.trace)
    ensures outcome == InstallOutcome(old(disk.store), package, fetched, refused)
    ensures disk.store == AfterInstall(old(disk.store), t, package, order, fetched, refused)
    ensures outcome.Done? <==> && fetched.Accepted? && !refused.commit
                               && !(package in old(disk.store).addons && refused.backUp)
    ensures outcome.Done? ==>
              && package in disk.store.addons
              && Delivered(LiveTree(old(disk.store), Addon, package), fetched.owned, fetched.files,
                           disk.store.addons[package])
    ensures !outcome.Done? && !(outcome.CommitRefused? && refused.rollback) ==> disk.store.addons == old(disk.store).addons
    ensures outcome.CommitRefused? && refused.rollback && package in old(disk.store).addons ==>
              && disk.store.addons == old(disk.store).addons - {package}
              && Holds(disk.store, t, Addon, package)
              && disk.store.transactions[t].backup == Some(old(disk.store).addons[package])
    ensures !HasBackup(old(disk.store), t) ==>
              var tree := Pending(old(disk.store), package, order, refused.copies, fetched);
              forall k :: |old(disk.trace)| <= k < |disk.trace| ==>
                            AddonStep(old(disk.store), disk.trace[k], t, package, tree)
    ensures fetched.Accepted? && package in old(disk.store).addons && !refused.backUp ==>
              var ready := Ready(old(disk.store), t, package, order, refused.copies, fetched);
              exists k :: |old(disk.trace)| <= k < |disk.trace| && disk.trace[k] == SetAside(ready, t, Addon, package)
  {
    var s0 := disk.store;
    ghost var tree := Pending(s0, package, order, refused.copies, fetched);
    if fetched.Accepted? {
      Prepare(disk, t, package, fetched.owned, fetched.files, order, refused.copies);
      PreparedIsReady(s0, t, package, tree.value);
      DoneIs(s0, t, package, order, fetched, refused);
      hide AddonStep, Preparing, ReadyToReplace, Updated, Delivered, Names, HasBackup, SetAside, Prepared, Holds;
      ghost var s1, from := disk.store, |disk.trace|;
      outcome := Activate(disk, t, package, refused);
      if !HasBackup(s0, t) {
        forall k | |old(disk.trace)| <= k < |disk.trace| ensures AddonStep(s0, disk.trace[k], t, package, tree) {
          if k < from {
            PreparingIsAddonStep(s0, t, disk.trace[k], package, tree);
          } else {
            AddonStepAfter(s0, t, s1, disk.trace[k], package, tree);
          }
        }
      }
      PreparedInstalled(s0, t, package, tree.value);
    } else {
      Abandon(disk, t, package, if fetched.Rejected? then Some(fetched.staged) else None);
      hide AddonStep, Preparing, HasBackup;
      if !HasBackup(s0, t) {
        forall k | |old(disk.trace)| <= k < |disk.trace| ensures AddonStep(s0, disk.trace[k], t, package, tree) {
          PreparingIsAddonStep(s0, t, disk.trace[k], package, tree);
        }
      }
      outcome := NotFetched;
    }
  }

  /** The outcomes of a job that has something to install. */
  lemma DoneIs(s: Store, t: string, package: string, order: seq<string>, f: Fetched, refused: Refusals)
    requires SafePackageId(package) && f.Accepted?
    requires package in s.addons ==> Enumerates(order, s.addons[package])
    ensures var last, outcome := AfterInstall(s, t, package, order, f, refused), InstallOutcome(s, package, f, refused);
            && (outcome.Done? ==>
                  && package in last.addons
                  && Delivered(LiveTree(s, Addon, package), f.owned, f.files, last.addons[package]))
            && (!outcome.Done? && !(outcome.CommitRefused? && refused.rollback) ==> last.addons == s.addons)
            && (outcome.CommitRefused? && refused.rollback && package in s.addons ==>
                  && last.addons == s.addons - {package} && Holds(last, t, Addon, package)
                  && last.transactions[t].backup == Some(s.addons[package]))
  {
    var tree := Pending(s, package, order, refused.copies, f).value;
    UpdatedIs(LiveTree(s, Addon, package), order, refused.copies, f.owned, f.files);
    PreparedIsReady(s, t, package, tree);
    hide Updated, Delivered, Names, SafePackageId;
    var ready := Prepared(s, t, package, tree);
    if package in s.addons { SetAsideShows(ready, t, Addon, package, Addon, package); }
    hide Holds, Shows, Held, Narrows;
  }

  /** Of every other package, and of settings, the job leaves exactly what removing transaction `t`
      leaves. */
  lemma InstallIsLocal(s: Store, t: string, package: string, order: seq<string>, f: Fetched, refused: Refusals,
                       k: Kind, p: string, tree: Tree)
    requires SafePackageId(package) && (k != Addon || p != package)
    requires package in s.addons ==> forall path :: path in order ==> path in s.addons[package]
    ensures var last := AfterInstall(s, t, package, order, f, refused);
            && (forall x :: Shows(last, k, p, x) <==> Shows(Removed(s, t), k, p, x))
            && (k.Settings? ==> (Whole(last, p, tree) <==> Whole(Removed(s, t), p, tree)))
  {
    var last, removed := AfterInstall(s, t, package, order, f, refused), Removed(s, t);
    assert SameOutside(s, t, last, k, p) by {
      if f.Accepted? {
        var merged := Pending(s, package, order, refused.copies, f).value;
        hide Updated, Pending, Names, HasBackup, SameOutside, Installed, Prepared;
        PreparedOthers(s, t, package, merged, k, p);
        InstalledOthers(s, t, package, merged, k, p);
      } else {
        hide Names;
      }
    }
    hide AfterInstall, Removed, Shows, Names;
    forall u ensures && (Holds(last, u, k, p) <==> Holds(removed, u, k, p))
                     && (Holds(last, u, k, p) ==> last.transactions[u].backup == removed.transactions[u].backup)
    {
    }
    hide Holds;
    SameHolders(last, removed, k, p);
    assert k.Settings? ==> (Held(last, k, p, Some(tree)) <==> Held(removed, k, p, Some(tree)));
    hide Held;
  }

  ghost predicate SameOutside(s: Store, t: string, last: Store, k: Kind, p: string) {
    var removed := Removed(s, t);
    && last.backups == removed.backups && LiveTree(last, k, p) == LiveTree(removed, k, p)
    && !Holds(last, t, k, p) && !Holds(removed, t, k, p)
    && SameExcept(removed.transactions, last.transactions, t)
  }

  lemma InstalledOthers(s: Store, t: string, package: string, tree: Tree, k: Kind, p: string)
    requires k != Addon || p != package
    ensures SameOutside(s, t, Installed(s, t, package, tree), k, p)
  {
    hide Names;
  }

  lemma PreparedOthers(s: Store, t: string, package: string, tree: Tree, k: Kind, p: string)
    requires SafePackageId(package) && (k != Addon || p != package)
    ensures var ready := Prepared(s, t, package, tree);
            && t in ready.transactions && SameOutside(s, t, ready, k, p)
            && (package in ready.addons ==> SameOutside(s, t, SetAside(ready, t, Addon, package), k, p))
  {
    var ready := Prepared(s, t, package, tree);
    assert SameOutside(s, t, ready, k, p) by { hide Names; }
    PreparedIsReady(s, t, package, tree);
    hide Names, Prepared, SameOutside, SetAside;
    if package in ready.addons { AsideOthers(s, t, package, ready, k, p); }
  }

  lemma AsideOthers(s: Store, t: string, package: string, ready: Store, k: Kind, p: string)
    requires (k != Addon || p != package) && ReadyToReplace(ready, t, package) && package in ready.addons
    requires SameOutside(s, t, ready, k, p)
    ensures SameOutside(s, t, SetAside(ready, t, Addon, package), k, p)
  {
    var aside := SetAside(ready, t, Addon, package);
    AsideIsModest(ready, t, package);
    assert !Holds(aside, t, k, p);
    hide Names, Holds, Modest;
    assert SameExcept(ready.transactions, aside.transactions, t) && aside.backups == ready.backups;
    assert LiveTree(aside, k, p) == LiveTree(ready, k, p);
    hide SetAside, Live, LiveTree;
    SameExceptThen(Removed(s, t).transactions, ready.transactions, aside.transactions, t);
  }

  /** What an uninstall leaves of a tree. */
  function Leftover(tree: Tree): Tree {
    map path | path in tree && IsUserFile(tree, path) :: tree[path]
  }

  /** A state of an uninstall: files of the package may be gone, the user's are not. */
  ghost predicate UninstallStep(s0: Store, s: Store, package: string) {
    && s == s0.(addons := s.addons)
    && (forall p :: p in s0.addons && p != package ==> p in s.addons && s.addons[p] == s0.addons[p])
    && (forall p :: p in s.addons ==> p in s0.addons)
    && (package in s0.addons ==>
          if package in s.addons then Between(s0.addons[package], s.addons[package])
          else Leftover(s0.addons[package]) == map[])
  }

  predicate Between(tree: Tree, rest: Tree) {
    && (forall path :: path in rest ==> path in tree && rest[path] == tree[path])
    && (forall path :: path in tree && IsUserFile(tree, path) ==> path in rest)
  }

  function WithAddon(s: Store, package: string, tree: Tree): Store {
    s.(addons := s.addons[package := tree])
  }

  /** Uninstalling removes the listed files, the list, and the directory once it is empty; the
      directory stays if empty subdirectories, which trees do not show, are left in it. */
  method Uninstall(disk: Disk, package: string)
    requires disk.Valid()
    modifies disk
    ensures disk.Valid() && Extends(old(disk.trace), disk.trace)
    ensures forall k :: |old(disk.trace)| <= k < |disk.trace| ==> UninstallStep(old(disk.store), disk.trace[k], package)
    ensures package !in old(disk.store).addons ==> disk.store == old(disk.store)
    ensures package in old(disk.store).addons ==>
              var rest := Leftover(old(disk.store).addons[package]);
              || disk.store == WithAddon(old(disk.store), package, rest)
              || (rest == map[] && disk.store == old(disk.store).(addons := old(disk.store).addons - {package}))
    ensures package in old(disk.store).addons ==>
              var before, after := old(disk.store).addons[package], LiveTree(disk.store, Addon, package);
              && (forall path :: path in before && path != OWNED_LIST && path !in OwnedFiles(before) ==>
                    after.Some? && path in after.value && after.value[path] == before[path])
              && (after.Some? ==> forall path :: path in after.value ==>
                    path in before && path != OWNED_LIST && path !in OwnedFiles(before))
  {
    if package !in disk.store.addons { return; }
    var s0, tree := disk.store, disk.store.addons[package];
    var owned := ReadOwnership(tree);
    hide OwnedFiles, UninstallStep, WithAddon, Between, Leftover, Without;
    var rest := RemoveOwned(disk, package, owned);
    WithoutAll(tree, owned);
    rest := rest - {OWNED_LIST};
    LeftoverStep(s0, package, rest);
    disk.Commit(WithAddon(s0, package, rest));
    if rest == map[] {
      if * {
        GoneStep(s0, package);
        disk.Commit(s0.(addons := s0.addons - {package}));
      }
    }
  }

  method RemoveOwned(disk: Disk, package: string, owned: seq<string>) returns (rest: Tree)
    requires disk.Valid() && package in disk.store.addons && owned == OwnedFiles(disk.store.addons[package])
    modifies disk
    ensures disk.Valid() && Extends(old(disk.trace), disk.trace)
    ensures forall k :: |old(disk.trace)| <= k < |disk.trace| ==> UninstallStep(old(disk.store), disk.trace[k], package)
    ensures rest == Without(old(disk.store).addons[package], owned[..|owned|])
    ensures disk.store == WithAddon(old(disk.store), package, rest)
  {
    var s0, tree := disk.store, disk.store.addons[package];
    UninstallItself(s0, package);
    rest := tree;
    hide OwnedFiles, UninstallStep, WithAddon, Between, Leftover, Without;
    for i := 0 to |owned|
      invariant disk.Valid() && Extends(old(disk.trace), disk.trace)
      invariant disk.store == WithAddon(s0, package, rest)
      invariant rest == Without(tree, owned[..i])
      invariant forall k :: |old(disk.trace)| <= k < |disk.trace| ==> UninstallStep(s0, disk.trace[k], package)
    {
      WithoutNext(tree, owned, i);
      rest := rest - {owned[i]};
      WithoutIsBetween(tree, owned, i + 1);
      LeftoverStep(s0, package, rest);
      disk.Commit(WithAddon(s0, package, rest));
    }
  }

  function Without(tree: Tree, removed: seq<string>): Tree {
    map path | path in tree && path !in removed :: tree[path]
  }

  lemma UninstallItself(s: Store, package: string)
    requires package in s.addons
    ensures WithAddon(s, package, s.addons[package]) == s
    ensures Without(s.addons[package], []) == s.addons[package]
  {
    assert s.addons[package := s.addons[package]] == s.addons;
  }

  lemma WithoutNext(tree: Tree, owned: seq<string>, i: nat)
    requires i < |owned|
    ensures Without(tree, owned[..i + 1]) == Without(tree, owned[..i]) - {owned[i]}
  {
    assert owned[..i + 1] == owned[..i] + [owned[i]];
  }

  lemma WithoutIsBetween(tree: Tree, owned: seq<string>, i: nat)
    requires i <= |owned| && owned == OwnedFiles(tree)
    ensures Between(tree, Without(tree, owned[..i]))
  {
    hide OwnedFiles;
    assert forall path :: path in owned[..i] ==> path in owned;
  }

  lemma WithoutAll(tree: Tree, owned: seq<string>)
    requires owned == OwnedFiles(tree)
    ensures Without(tree, owned[..|owned|]) - {OWNED_LIST} == Leftover(tree)
    ensures Between(tree, Leftover(tree))
  {
    hide OwnedFiles;
    assert owned[..|owned|] == owned;
  }

  lemma GoneStep(s: Store, package: string)
    requires package in s.addons && Leftover(s.addons[package]) == map[]
    ensures UninstallStep(s, s.(addons := s.addons - {package}), package)
  {
  }

  lemma LeftoverStep(s0: Store, package: string, rest: Tree)
    requires package in s0.addons && Between(s0.addons[package], rest)
    ensures UninstallStep(s0, WithAddon(s0, package, rest), package)
  {
  }

  function Prepared(s: Store, t: string, package: string, tree: Tree): Store {
    WithTransaction(s, t, Transaction(Some(InstallJournal(package)), Some(tree), None))
  }

  lemma StagingStep(s0: Store, t: string, tree: Tree)
    requires t in s0.transactions
    ensures StagingOf(s0, t, WithStaging(s0, t, tree))
  {
  }

  lemma StagingItself(s0: Store, t: string)
    requires t in s0.transactions && s0.transactions[t].staging.Some?
    ensures WithStaging(s0, t, s0.transactions[t].staging.value) == s0
  {
    assert s0.transactions[t := s0.transactions[t]] == s0.transactions;
  }

  function WithStaging(s: Store, t: string, tree: Tree): Store
    requires t in s.transactions
  {
    s.(transactions := s.transactions[t := s.transactions[t].(staging := Some(tree))])
  }

  /** Only the staging directory of `t` differs. */
  ghost predicate StagingOf(s0: Store, t: string, s: Store) {
    && t in s0.transactions && t in s.transactions && s.transactions[t].staging.Some?
    && s == WithStaging(s0, t, s.transactions[t].staging.value)
  }

  /** The rename of the staging directory to the live one. */
  function Activated(s: Store, t: string, package: string, tree: Tree): Store
    requires t in s.transactions
  {
    s.(addons := s.addons[package := tree],
       transactions := s.transactions[t := s.transactions[t].(staging := None)])
  }

  ghost predicate ReadyToReplace(s: Store, t: string, package: string) {
    t in s.transactions && Names(s.transactions[t], Addon, package) && !HasBackup(s, t)
  }

  lemma AsideStep(s0: Store, t: string, package: string, tree: Option<Tree>)
    requires ReadyToReplace(s0, t, package) && package in s0.addons
    ensures AddonStep(s0, SetAside(s0, t, Addon, package), t, package, tree)
    ensures Holds(SetAside(s0, t, Addon, package), t, Addon, package)
  {
    AsideIsModest(s0, t, package);
    hide Names, Holds, Modest, Shows, Held;
    forall k, p ensures k != Addon || p != package ==> Narrows(s0, SetAside(s0, t, Addon, package), k, p) {
      SetAsideShows(s0, t, Addon, package, k, p);
    }
    SetAsideShows(s0, t, Addon, package, Addon, package);
    LiveIsShown(s0, Addon, package);
  }

  lemma LiveIsShown(s: Store, kind: Kind, package: string)
    requires package in Live(s, kind)
    ensures forall tree :: Shows(s, kind, package, tree) <==> tree == LiveTree(s, kind, package)
  {
  }

  lemma AsideIsModest(s0: Store, t: string, package: string)
    requires ReadyToReplace(s0, t, package) && package in s0.addons
    ensures Modest(s0, SetAside(s0, t, Addon, package), t, Addon, package, {})
  {
    var s := SetAside(s0, t, Addon, package);
    hide ReadString, SafePackageId;
    assert Names(s.transactions[t], Addon, package);
    forall k, p | Holds(s, t, k, p) ensures k == Addon && p == package {
      NamesOne(s.transactions[t], Addon, package, k, p);
    }
    hide Names;
    forall u, k, p | u != t && Holds(s, u, k, p)
      ensures Holds(s0, u, k, p) && s.transactions[u].backup == s0.transactions[u].backup
    {
    }
    assert s.backups == s0.backups && s.config == s0.config;
    hide SetAside, Holds, RetainedName;
  }

  lemma BackStep(s0: Store, t: string, package: string, tree: Option<Tree>)
    requires ReadyToReplace(s0, t, package) && package in s0.addons
    ensures HasBackup(SetAside(s0, t, Addon, package), t)
    ensures PutBack(SetAside(s0, t, Addon, package), t, Addon, package) == s0
    ensures AddonStep(s0, s0, t, package, tree)
  {
    hide Names;
    ModestItself(s0, t, Addon, package, {});
    var s1 := SetAside(s0, t, Addon, package);
    assert s1.addons[package := s0.addons[package]] == s0.addons;
    assert s1.transactions[t := s0.transactions[t]] == s0.transactions;
  }

  ghost predicate AboutToActivate(s0: Store, s: Store, t: string, package: string) {
    && ReadyToReplace(s0, t, package)
    && s == if package in s0.addons then SetAside(s0, t, Addon, package) else s0
  }

  /** The state after a completed install. */
  function Installed(s: Store, t: string, package: string, tree: Tree): Store {
    s.(addons := s.addons[package := tree], transactions := s.transactions - {t})
  }

  lemma ReadyStep(s0: Store, s: Store, t: string, package: string)
    requires ReadyToReplace(s0, t, package)
    requires s == if package in s0.addons then SetAside(s0, t, Addon, package) else s0
    ensures AboutToActivate(s0, s, t, package) && t in s.transactions
  {
  }

  lemma InstalledStep(s0: Store, s: Store, t: string, package: string, tree: Tree)
    requires AboutToActivate(s0, s, t, package) && t in s.transactions
    ensures var done := Activated(s, t, package, tree);
            done.(transactions := done.transactions - {t}) == Installed(s0, t, package, tree)
  {
    var done := Activated(s, t, package, tree);
    assert done.transactions - {t} == s0.transactions - {t};
    assert done.addons == s0.addons[package := tree];
  }

  lemma ActivatedStep(s0: Store, s: Store, t: string, package: string, tree: Tree)
    requires AboutToActivate(s0, s, t, package)
    ensures t in s.transactions && package !in s.addons
    ensures AddonStep(s0, Activated(s, t, package, tree), t, package, Some(tree))
    ensures Spent(Activated(s, t, package, tree), t)
  {
    BeforeActivation(s0, s, t, package, Addon, package);
    ActivatedIsModest(s0, s, t, package, tree);
    BeforeActivationLeaves(s0, s, t, package);
    ActivatedShows(s0, s, t, package, tree);
    hide Names, Spent, AboutToActivate, OldOrNew, Modest, ReadyToReplace;
  }

  lemma ActivatedShows(s0: Store, s: Store, t: string, package: string, tree: Tree)
    requires AboutToActivate(s0, s, t, package) && t in s.transactions
    ensures OldOrNew(s0, Activated(s, t, package, tree), Addon, package, Some(tree))
  {
    var s' := Activated(s, t, package, tree);
    BeforeActivation(s0, s, t, package, Addon, package);
    ActivatedIsReplacement(s, t, package, tree);
    ReplaceIsLocal(s, s', t, Addon, package, tree, Addon, package);
    LiveIsShown(s', Addon, package);
    hide Names, AboutToActivate, SetLive, Shows, Held, Holds, ReadyToReplace;
    forall k, p | k != Addon || p != package ensures Narrows(s0, s', k, p) {
      BeforeActivation(s0, s, t, package, k, p);
      ReplaceIsLocal(s, s', t, Addon, package, tree, k, p);
    }
  }

  lemma BeforeActivation(s0: Store, s: Store, t: string, package: string, k: Kind, p: string)
    requires AboutToActivate(s0, s, t, package)
    ensures t in s.transactions && package !in s.addons && Names(s.transactions[t], Addon, package)
    ensures k != Addon || p != package ==> Narrows(s0, s, k, p)
  {
    hide ReadString, SafePackageId;
    if package in s0.addons {
      SetAsideShows(s0, t, Addon, package, k, p);
    }
  }

  lemma BeforeActivationLeaves(s0: Store, s: Store, t: string, package: string)
    requires AboutToActivate(s0, s, t, package)
    ensures s.config == s0.config && s.backups == s0.backups && SameExcept(s0.transactions, s.transactions, t)
  {
  }

  lemma ActivatedIsReplacement(s: Store, t: string, package: string, tree: Tree)
    requires t in s.transactions
    ensures SetLive(s, Addon, Live(s, Addon)[package := tree])
              .(transactions := s.transactions[t := s.transactions[t].(staging := None)])
            == Activated(s, t, package, tree)
  {
  }

  lemma ActivatedIsModest(s0: Store, s: Store, t: string, package: string, tree: Tree)
    requires AboutToActivate(s0, s, t, package) && t in s.transactions
    ensures var s' := Activated(s, t, package, tree);
            Modest(s0, s', t, Addon, package, {}) && Disposable(s', t) && Spent(s', t)
  {
    var s' := Activated(s, t, package, tree);
    if package in s0.addons { AsideIsModest(s0, t, package); } else { ModestItself(s0, t, Addon, package, {}); }
    assert Modest(s0, s, t, Addon, package, {});
    hide ReadString, SafePackageId, SetAside;
    forall u, k, p ensures Holds(s', u, k, p) <==> Holds(s, u, k, p) {
    }
    hide Names;
    BeforeActivationLeaves(s0, s, t, package);
    assert forall k, p :: Holds(s, t, k, p) ==> k == Addon && p == package;
    hide Holds, AboutToActivate;
    assert forall k, p :: Holds(s', t, k, p) ==> k.Addon? && p in s'.addons;
  }

  lemma CleanupStep(s0: Store, s: Store, t: string, package: string, tree: Tree, s': Store)
    requires AboutToActivate(s0, s, t, package) && t in s.transactions
    requires Erasing(Activated(s, t, package, tree), t, s')
    ensures AddonStep(s0, s', t, package, Some(tree))
  {
    var done := Activated(s, t, package, tree);
    ActivatedStep(s0, s, t, package, tree);
    hide Activated, AboutToActivate, Erasing, Spent, OldOrNew, Modest, SameExcept;
    ErasingIsModest(s0, done, t, package, s');
    ErasingLeaves(done, t, s');
    SameExceptThen(s0.transactions, done.transactions, s'.transactions, t);
    CleanupShows(s0, done, t, package, tree, s');
  }

  lemma CleanupShows(s0: Store, s: Store, t: string, package: string, tree: Tree, s': Store)
    requires OldOrNew(s0, s, Addon, package, Some(tree)) && Spent(s, t) && Erasing(s, t, s')
    ensures OldOrNew(s0, s', Addon, package, Some(tree))
  {
    hide Erasing, Spent, Shows, Held;
    ErasingIsInvisible(s, t, s', Addon, package);
    forall k, p | k != Addon || p != package ensures Narrows(s0, s', k, p) {
      ErasingIsInvisible(s, t, s', k, p);
      assert Narrows(s0, s, k, p);
    }
  }

  lemma SameExceptThen(a: map<string, Transaction>, b: map<string, Transaction>, c: map<string, Transaction>, t: string)
    requires SameExcept(a, b, t) && SameExcept(b, c, t)
    ensures SameExcept(a, c, t)
  {
  }

  lemma ErasingIsModest(s0: Store, s: Store, t: string, package: string, s': Store)
    requires Modest(s0, s, t, Addon, package, {}) && Erasing(s, t, s')
    ensures Modest(s0, s', t, Addon, package, {})
  {
    ErasingLeaves(s, t, s');
    forall u, k, p | Holds(s', u, k, p)
      ensures Holds(s, u, k, p) && (u != t ==> s'.transactions[u].backup == s.transactions[u].backup)
    {
      ErasedHolders(s, t, s', u, k, p);
      if u != t { ErasedElsewhere(s, t, s', u); }
    }
    hide Names, Erasing, RetainedName;
  }

  lemma ErasingLeaves(s0: Store, t: string, s: Store)
    requires Erasing(s0, t, s)
    ensures s.addons == s0.addons && s.config == s0.config && s.backups == s0.backups
    ensures SameExcept(s0.transactions, s.transactions, t)
  {
  }

  lemma StagedStates(s0: Store, t: string, s1: Store, trace: seq<Store>, from: nat)
    requires Preparing(s0, t, s1)
    requires forall k :: from <= k < |trace| ==> StagingOf(s1, t, trace[k])
    ensures forall k :: from <= k < |trace| ==> Preparing(s0, t, trace[k])
  {
  }

  lemma StagedTransaction(s: Store, t: string, tree: Tree)
    requires t in s.transactions
    ensures t in WithStaging(s, t, tree).transactions
    ensures WithStaging(s, t, tree).transactions[t] == s.transactions[t].(staging := Some(tree))
  {
  }

  lemma StagedTwice(s: Store, t: string, a: Tree, b: Tree)
    requires t in s.transactions
    ensures t in WithStaging(s, t, a).transactions
    ensures WithStaging(WithStaging(s, t, a), t, b) == WithStaging(s, t, b)
  {
    var twice := WithStaging(WithStaging(s, t, a), t, b);
    assert twice.transactions == WithStaging(s, t, b).transactions;
  }

  lemma OrderFits(order: seq<string>, tree: Tree)
    requires Enumerates(order, tree)
    ensures forall path :: path in order ==> path in tree
  {
  }

  lemma StagedAfter(s0: Store, t: string, tree: Tree, s: Store)
    requires t in s0.transactions && StagingOf(WithStaging(s0, t, tree), t, s)
    ensures StagingOf(s0, t, s)
  {
    assert s.transactions == WithStaging(s0, t, s.transactions[t].staging.value).transactions;
  }

  lemma StagedIsPrepared(s0: Store, t: string, package: string, tree: Tree)
    ensures var s1 := WithTransaction(s0, t, Transaction(Some(InstallJournal(package)), None, None));
            WithStaging(s1, t, tree) == Prepared(s0, t, package, tree)
  {
    var s1 := WithTransaction(s0, t, Transaction(Some(InstallJournal(package)), None, None));
    assert WithStaging(s1, t, tree).transactions == Prepared(s0, t, package, tree).transactions;
  }

  lemma PreparedIsReady(s0: Store, t: string, package: string, tree: Tree)
    requires SafePackageId(package)
    ensures var s := Prepared(s0, t, package, tree);
            && ReadyToReplace(s, t, package) && s.transactions[t].staging == Some(tree)
            && s.addons == s0.addons && (!HasBackup(s0, t) ==> Preparing(s0, t, s))
  {
    JournalNames(package, Prepared(s0, t, package, tree).transactions[t]);
    hide ReadString, SafePackageId, InstallJournal, Names;
  }

  lemma JournalNames(package: string, x: Transaction)
    requires SafePackageId(package) && x.journal == Some(InstallJournal(package))
    ensures Names(x, Addon, package)
  {
    InstallJournalReadsBack(package);
    hide ReadString, SafePackageId, InstallJournal;
  }

  lemma PreparedInstalled(s0: Store, t: string, package: string, tree: Tree)
    ensures Installed(Prepared(s0, t, package, tree), t, package, tree) == Installed(s0, t, package, tree)
  {
    var a, b := Installed(Prepared(s0, t, package, tree), t, package, tree), Installed(s0, t, package, tree);
    assert a.transactions == b.transactions;
  }

  lemma ErasingPrepared(s0: Store, t: string, s1: Store, s: Store)
    requires Preparing(s0, t, s1) && Erasing(s1, t, s)
    ensures Preparing(s0, t, s)
  {
  }

  lemma PreparingIsAddonStep(s0: Store, t: string, s: Store, package: string, tree: Option<Tree>)
    requires !HasBackup(s0, t) && Preparing(s0, t, s)
    ensures AddonStep(s0, s, t, package, tree)
  {
    PreparingIsModest(s0, t, s, package);
    hide Shows, Held, Modest, SameExcept, HasBackup;
    forall k, p ensures Narrows(s0, s, k, p) {
      PreparingNarrows(s0, t, s, k, p);
    }
    PreparingNarrows(s0, t, s, Addon, package);
  }

  lemma PreparingIsModest(s0: Store, t: string, s: Store, package: string)
    requires !HasBackup(s0, t) && Preparing(s0, t, s)
    ensures Modest(s0, s, t, Addon, package, {})
  {
    hide Names, RetainedName;
  }

  lemma AddonStepAfter(s0: Store, t: string, s1: Store, s: Store, package: string, tree: Option<Tree>)
    requires !HasBackup(s0, t) && Preparing(s0, t, s1) && AddonStep(s1, s, t, package, tree)
    ensures AddonStep(s0, s, t, package, tree)
  {
    PreparingIsAddonStep(s0, t, s1, package, tree);
    PreparedHolders(s0, t, s1, Addon, package);
    ModestThen(s0, s1, s, t, Addon, package, {});
    hide Shows, Held, Modest, Preparing, HasBackup;
    forall k, p | k != Addon || p != package ensures Narrows(s0, s, k, p) {
      assert Narrows(s0, s1, k, p) && Narrows(s1, s, k, p);
    }
    PreparingNarrows(s0, t, s1, Addon, package);
  }

  lemma PreparingNarrows(s0: Store, t: string, s: Store, kind: Kind, package: string)
    requires !HasBackup(s0, t) && Preparing(s0, t, s)
    ensures Narrows(s0, s, kind, package)
  {
    PreparingIsInvisible(s0, t, s, kind, package);
  }

  lemma PreparedHolders(s0: Store, t: string, s: Store, kind: Kind, package: string)
    requires !HasBackup(s0, t) && Preparing(s0, t, s)
    ensures forall tree :: Held(s, kind, package, tree) <==> Held(s0, kind, package, tree)
  {
    hide Names;
    assert forall u :: u != t && Holds(s0, u, kind, package) ==> Holds(s, u, kind, package);
    assert forall u :: u != t && Holds(s, u, kind, package) ==> Holds(s0, u, kind, package);
  }
}
