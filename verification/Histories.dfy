/** Whole runs: jobs, crashes at any step, recoveries interrupted any number of times. */
module Histories {
  import opened Wrappers
  import opened Paths
  import opened Ownership
  import opened Storage
  import opened Disks
  import opened Recovery
  import opened Installation
  import SettingsRestore
  import SettingsSteps

  /** The process dies at any step since `from`. Recovery is started once for every entry of
      `interrupted`, with the renames of those transactions refused, and dies at any of its steps;
      the last recovery runs to its end. */
  method CrashAndRecover(disk: Disk, from: nat, interrupted: seq<set<string>>, refused: set<string>)
    returns (ghost crashed: Store, ok: bool)
    requires disk.Valid() && from < |disk.trace|
    modifies disk
    ensures disk.Valid() && disk.trace != []
    ensures exists k :: from <= k < |old(disk.trace)| && crashed == old(disk.trace)[k]
    ensures RecoverStep(crashed, disk.store)
    ensures !Jammed(crashed, refused) ==> ok
    ensures !ok ==> Stuck(disk.store, refused)
    ensures ok ==> disk.store.transactions == map[]
    ensures ok ==> forall k, p :: Shows(crashed, k, p, LiveTree(disk.store, k, p))
  {
    disk.Crash(from);
    crashed := disk.store;
    RecoverStepItself(crashed);
    hide RecoverStep, Shows, Stuck, Jammed, LiveTree, Single;
    for i := 0 to |interrupted|
      invariant disk.Valid() && disk.trace == [disk.store] && RecoverStep(crashed, disk.store)
    {
      ghost var before := disk.store;
      RecoverStepItself(before);
      var _ := Recover(disk, interrupted[i]);
      disk.Crash(0);
      RecoverStepThen(crashed, before, disk.store);
    }
    ghost var last := disk.store;
    RecoverStepJammed(crashed, last, refused);
    ok := Recover(disk, refused);
    RecoverStepThen(crashed, last, disk.store);
    if ok {
      forall k, p ensures Shows(crashed, k, p, LiveTree(disk.store, k, p)) {
        RecoverStepShows(crashed, last, k, p, LiveTree(disk.store, k, p));
      }
    }
  }

  lemma RecoverStepJammed(s0: Store, s: Store, refused: set<string>)
    requires RecoverStep(s0, s)
    ensures Jammed(s, refused) ==> Jammed(s0, refused)
  {
    hide Holds, Narrows, Whole, Jams;
  }

  /** An install or update is atomic under crashes, on whatever disk it starts: if its id names no
      transaction that holds a backup, a completed recovery leaves the addon directory with the old
      tree, the merged new one, or one that was set aside before; every other package has a tree
      that it could have had without the job. No settings are lost, and recovery completes unless
      it could get stuck before. */
  method InstallSurvivesCrashes(disk: Disk, t: string, package: string, fetched: Fetched, order: seq<string>,
                                refused: Refusals, interrupted: seq<set<string>>) returns (ok: bool)
    requires disk.Valid() && !HasBackup(disk.store, t) && SafePackageId(package) && Shippable(fetched)
    requires package in disk.store.addons ==> Enumerates(order, disk.store.addons[package])
    modifies disk
    ensures disk.Valid()
    ensures !Jammed(old(disk.store), {}) ==> ok
    ensures ok ==> disk.store.transactions == map[]
    ensures ok ==> || Shows(old(disk.store), Addon, package, LiveTree(disk.store, Addon, package))
                   || Held(old(disk.store), Addon, package, LiveTree(disk.store, Addon, package))
                   || (&& fetched.Accepted?
                       && LiveTree(disk.store, Addon, package)
                          == Pending(old(disk.store), package, order, refused.copies, fetched)
                       && Delivered(LiveTree(old(disk.store), Addon, package), fetched.owned, fetched.files,
                                    LiveTree(disk.store, Addon, package).value))
    ensures ok ==> forall k: Kind, p :: k != Addon || p != package ==>
                                          Shows(old(disk.store), k, p, LiveTree(disk.store, k, p))
    ensures forall p, tree :: Whole(old(disk.store), p, tree) ==> Whole(disk.store, p, tree)
  {
    ghost var s0, from := disk.store, |disk.trace| - 1;
    ghost var tree := Pending(s0, package, order, refused.copies, fetched);
    assert tree.Some? <==> fetched.Accepted?;
    if fetched.Accepted? {
      UpdatedIs(LiveTree(s0, Addon, package), order, refused.copies, fetched.owned, fetched.files);
    }
    AddonStepItself(s0, t, package, tree);
    var n := |disk.trace| - 1;
    var _ := Install(disk, t, package, fetched, order, refused);
    hide AddonStep, Shows, Held, Stuck, Jammed, RecoverStep, HasBackup, LiveTree, Whole, Pending, AfterInstall, Ready, Delivered, Updated;
    assert forall k :: from <= k < |disk.trace| ==> AddonStep(s0, disk.trace[k], t, package, tree);
    ghost var crashed;
    crashed, ok := CrashAndRecover(disk, n, interrupted, {});
    AddonStepJammed(s0, crashed, t, package, tree);
    if ok {
      AddonStepShows(s0, crashed, t, package, tree, Addon, package, LiveTree(disk.store, Addon, package));
      forall k: Kind, p | k != Addon || p != package ensures Shows(s0, k, p, LiveTree(disk.store, k, p)) {
        AddonStepShows(s0, crashed, t, package, tree, k, p, LiveTree(disk.store, k, p));
      }
    }
    forall p, x | Whole(s0, p, x) ensures Whole(disk.store, p, x) {
      AddonStepWhole(s0, crashed, t, package, tree, p, x);
      RecoverStepWhole(crashed, disk.store, p, x);
    }
  }

  lemma AddonStepItself(s: Store, t: string, package: string, tree: Option<Tree>)
    requires !HasBackup(s, t)
    ensures AddonStep(s, s, t, package, tree)
  {
    PreparingIsAddonStep(s, t, s, package, tree);
  }

  lemma AddonStepShows(s0: Store, s: Store, t: string, package: string, tree: Option<Tree>, k: Kind, p: string,
                       shown: Option<Tree>)
    requires AddonStep(s0, s, t, package, tree) && Shows(s, k, p, shown)
    ensures k != Addon || p != package ==> Shows(s0, k, p, shown)
    ensures k == Addon && p == package ==>
              Shows(s0, k, p, shown) || Held(s0, k, p, shown) || (shown == tree && tree.Some?)
  {
    hide Shows, Held, Modest;
    assert k != Addon || p != package ==> Narrows(s0, s, k, p);
  }

  lemma AddonStepJammed(s0: Store, s: Store, t: string, package: string, tree: Option<Tree>)
    requires AddonStep(s0, s, t, package, tree)
    ensures Jammed(s, {}) ==> Jammed(s0, {})
  {
    hide Shows, Held, Modest, Jams, Narrows;
    var none: set<string> := {};
    if Jammed(s, none) {
      var u :| Jams(s, u, u in none);
      ModestJams(s0, s, t, Addon, package, {}, u);
      JamsWhere(s0, u, none);
    }
  }

  lemma JamsWhere(s: Store, t: string, refused: set<string>)
    requires Jams(s, t, t in refused)
    ensures Jammed(s, refused)
  {
    hide Jams;
  }

  lemma AddonStepWhole(s0: Store, s: Store, t: string, package: string, tree: Option<Tree>, p: string, whole: Tree)
    requires AddonStep(s0, s, t, package, tree) && !HasBackup(s0, t) && Whole(s0, p, whole)
    ensures Whole(s, p, whole)
  {
    if Held(s0, Settings, p, Some(whole)) {
      forall u | Holds(s0, u, Settings, p)
        ensures Holds(s, u, Settings, p) && s.transactions[u].backup == s0.transactions[u].backup
      {
        hide Modest, OldOrNew, Names;
      }
      hide Modest, OldOrNew, Holds;
      HeldElsewhere(s0, s, t, Settings, p, Some(whole));
    }
    hide Modest, OldOrNew, Held;
  }

  lemma RecoverStepWhole(s0: Store, s: Store, p: string, tree: Tree)
    requires RecoverStep(s0, s) && Whole(s0, p, tree)
    ensures Whole(s, p, tree)
  {
    hide Whole, Narrows, Jams, Holds;
  }

  /** Where nothing was set aside before, what is left is the old tree or the new one. */
  lemma OnlyOldOrNew(s: Store, kind: Kind, package: string)
    requires Alone(s, kind, package)
    ensures forall tree :: Shows(s, kind, package, tree) <==> tree == LiveTree(s, kind, package)
    ensures forall tree :: !Held(s, kind, package, tree)
  {
    var _ := SomethingIsShown(s, kind, package);
    hide Names;
  }

  /** Restoring settings is atomic under crashes and loses nothing, on whatever disk it starts, if
      its id names no transaction that holds a backup and the job does not fail. Recovery completes
      unless it could get stuck before, or the place to which it would have to move settings of the
      package is taken. */
  method SettingsSurviveCrashes(disk: Disk, t: string, package: string, source: Tree, refused: SettingsRestore.Refusals,
                                interrupted: seq<set<string>>) returns (ok: bool)
    requires disk.Valid() && !HasBackup(disk.store, t) && SafePackageId(package) && SettingsSteps.IsJobId(t)
    requires !SettingsRestore.Fails(disk.store, t, package, Some(source), refused)
    modifies disk
    ensures disk.Valid()
    ensures !ok ==> Jammed(old(disk.store), {}) ||
                    exists u :: SlotTaken(old(disk.store), u, t, Settings, package, SettingsSteps.Touched(package))
    ensures ok ==> disk.store.transactions == map[]
    ensures ok ==> SettingsSteps.MayShow(old(disk.store), package, Some(source), LiveTree(disk.store, Settings, package))
    ensures ok ==> forall k: Kind, p :: k.Addon? || p !in SettingsSteps.Touched(package) ==>
                                          Shows(old(disk.store), k, p, LiveTree(disk.store, k, p))
    ensures forall p, tree :: p != SettingsSteps.TemporaryName(package) && Whole(old(disk.store), p, tree) ==>
                                Whole(disk.store, p, tree)
  {
    ghost var s0 := disk.store;
    SettingsSteps.RestoreStepItself(s0, t, package, Some(source), true);
    var n := |disk.trace| - 1;
    var _ := SettingsRestore.Restore(disk, t, package, Some(source), refused);
    hide SettingsSteps.RestoreStep, SettingsSteps.MayShow, SettingsRestore.Final, SettingsSteps.TemporaryName,
         SettingsSteps.Touched, Shows, Held, Stuck, Jammed, SlotTaken, RecoverStep, HasBackup, LiveTree, Whole;
    assert forall k :: n <= k < |disk.trace| ==>
                         SettingsSteps.RestoreStep(s0, disk.trace[k], t, package, Some(source), true);
    ghost var crashed;
    crashed, ok := CrashAndRecover(disk, n, interrupted, {});
    RestoreStepJammed(s0, crashed, t, package, source);
    if ok {
      RestoreStepShows(s0, crashed, t, package, source, Settings, package, LiveTree(disk.store, Settings, package));
      forall k: Kind, p | k.Addon? || p !in SettingsSteps.Touched(package)
        ensures Shows(s0, k, p, LiveTree(disk.store, k, p))
      {
        RestoreStepShows(s0, crashed, t, package, source, k, p, LiveTree(disk.store, k, p));
      }
    }
    forall p, tree | p != SettingsSteps.TemporaryName(package) && Whole(s0, p, tree)
      ensures Whole(disk.store, p, tree)
    {
      RestoreStepWhole(s0, crashed, t, package, source, p, tree);
      RecoverStepWhole(crashed, disk.store, p, tree);
    }
  }

  lemma RestoreStepShows(s0: Store, s: Store, t: string, package: string, source: Tree, k: Kind, p: string,
                         shown: Option<Tree>)
    requires SettingsSteps.RestoreStep(s0, s, t, package, Some(source), true) && Shows(s, k, p, shown)
    ensures k.Addon? || p !in SettingsSteps.Touched(package) ==> Shows(s0, k, p, shown)
    ensures k.Settings? && p == package ==> SettingsSteps.MayShow(s0, package, Some(source), shown)
  {
    hide Shows, Modest, Whole, SettingsSteps.MayShow, SettingsSteps.TemporaryName;
    assert k.Addon? || p !in SettingsSteps.Touched(package) ==> Narrows(s0, s, k, p);
  }

  lemma RestoreStepJammed(s0: Store, s: Store, t: string, package: string, source: Tree)
    requires SettingsSteps.RestoreStep(s0, s, t, package, Some(source), true)
    ensures Jammed(s, {}) ==>
              Jammed(s0, {}) || exists u :: SlotTaken(s0, u, t, Settings, package, SettingsSteps.Touched(package))
  {
    hide Shows, Modest, Jams, Narrows, Whole, SlotTaken, SettingsSteps.MayShow, SettingsSteps.TemporaryName;
    var none: set<string> := {};
    if Jammed(s, none) {
      var u :| Jams(s, u, u in none);
      ModestJams(s0, s, t, Settings, package, SettingsSteps.Touched(package), u);
      if Jams(s0, u, false) { JamsWhere(s0, u, none); }
    }
  }

  lemma RestoreStepWhole(s0: Store, s: Store, t: string, package: string, source: Tree, p: string, tree: Tree)
    requires SettingsSteps.RestoreStep(s0, s, t, package, Some(source), true)
    requires p != SettingsSteps.TemporaryName(package) && Whole(s0, p, tree)
    ensures Whole(s, p, tree)
  {
    hide Whole, Shows, Modest, Narrows, SettingsSteps.MayShow;
  }
}
