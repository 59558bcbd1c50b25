/** The steps of the `restoreProfileSettings` job of native/src/engine.cpp, one at a time: what
    each of them shows and keeps. */
module SettingsSteps {
  import opened Wrappers
  import opened Paths
  import opened JsonText
  import opened Ownership
  import opened Storage
  import opened Disks
  import opened Recovery

  function TemporaryName(package: string): string { package + ".vanahub-import" }

  /** Transactions are named after the number of their job. */
  predicate IsJobId(t: string) {
    forall i :: 0 <= i < |t| ==> '0' <= t[i] <= '9'
  }

  /** Besides the live directory and what `t` may have set aside, an equal copy exists. */
  ghost predicate Elsewhere(s: Store, t: string, package: string, tree: Tree) {
    Held(Removed(s, t), Settings, package, Some(tree)) || InBackups(s, package, tree)
  }

  /** The settings among which recovery may later choose: the old ones, any that were set aside
      before, and the new ones. */
  ghost predicate MayShow(s0: Store, package: string, source: Option<Tree>, tree: Option<Tree>) {
    Shows(s0, Settings, package, tree) || Held(s0, Settings, package, tree) || tree == source
  }

  ghost function Touched(package: string): set<string> { {package, TemporaryName(package)} }

  /** A state of the job as anybody else sees it: every package but this one and the one owning the
      temporary name shows its own trees and has its settings whole, and nothing but the old settings
      is set aside in addition. If the job is `safe`, this package shows its old or its new settings,
      and what was whole of them is whole. */
  ghost predicate RestoreStep(s0: Store, s: Store, t: string, package: string, source: Option<Tree>, safe: bool) {
    && (forall k: Kind, p: string :: k.Addon? || p !in Touched(package) ==> Narrows(s0, s, k, p))
    && (forall p, tree :: p !in Touched(package) && Whole(s0, p, tree) ==> Whole(s, p, tree))
    && Modest(s0, s, t, Settings, package, Touched(package))
    && (safe ==> Settled(s0, s, package, source))
  }

  ghost predicate Settled(s0: Store, s: Store, package: string, source: Option<Tree>) {
    && (forall tree :: Shows(s, Settings, package, tree) ==> MayShow(s0, package, source, tree))
    && (forall tree :: Whole(s0, package, tree) ==> Whole(s, package, tree))
  }

  ghost predicate RestoreSteps(s0: Store, trace: seq<Store>, from: nat, t: string, package: string,
                               source: Option<Tree>, safe: bool) {
    forall k :: from <= k < |trace| ==> RestoreStep(s0, trace[k], t, package, source, safe)
  }

  lemma RestoreStepItself(s: Store, t: string, package: string, source: Option<Tree>, safe: bool)
    requires !HasBackup(s, t)
    ensures RestoreStep(s, s, t, package, source, safe)
  {
    ModestItself(s, t, Settings, package, Touched(package));
    hide Shows, Held, Whole, Modest, HasBackup;
  }

  lemma TemporaryDiffers(package: string)
    ensures TemporaryName(package) != package
  {
    assert |TemporaryName(package)| == |package| + 15;
  }

  /** Only the temporary directory differs. */
  predicate ConfigOnly(a: Store, name: string, b: Store) {
    && b == a.(config := b.config)
    && (forall q :: q in a.config && q != name ==> q in b.config && b.config[q] == a.config[q])
    && (forall q :: q in b.config && q != name ==> q in a.config)
  }

  lemma ConfigOnlyIsInvisible(a: Store, name: string, b: Store, k: Kind, p: string)
    requires ConfigOnly(a, name, b)
    ensures k.Addon? || p != name ==> Narrows(a, b, k, p)
  {
    hide Names, Shows;
    if k.Addon? || p != name { SameHolders(a, b, k, p); }
  }

  lemma ConfigOnlyKeeps(a: Store, name: string, b: Store, p: string, tree: Tree)
    requires ConfigOnly(a, name, b) && p != name && Whole(a, p, tree)
    ensures Whole(b, p, tree)
  {
    hide Names, Held;
    if Held(a, Settings, p, Some(tree)) { ConfigOnlyHeld(a, name, b, p, Some(tree)); }
  }

  lemma ConfigOnlyHeld(a: Store, name: string, b: Store, p: string, tree: Option<Tree>)
    requires ConfigOnly(a, name, b) && Held(a, Settings, p, tree)
    ensures Held(b, Settings, p, tree)
  {
    hide Names;
    var u :| Holds(a, u, Settings, p) && a.transactions[u].backup == tree;
    assert Holds(b, u, Settings, p);
  }

  /** A step on the temporary directory. */
  lemma TemporaryStep(s0: Store, a: Store, b: Store, t: string, package: string, source: Option<Tree>, safe: bool)
    requires RestoreStep(s0, a, t, package, source, safe) && ConfigOnly(a, TemporaryName(package), b)
    ensures RestoreStep(s0, b, t, package, source, safe)
  {
    var name := TemporaryName(package);
    TemporaryDiffers(package);
    TemporaryIsModest(a, b, t, package, s0);
    ConfigOnlyIsInvisible(a, name, b, Settings, package);
    hide Shows, Whole, ConfigOnly, TemporaryName, MayShow, Modest;
    forall k: Kind, p: string | k.Addon? || p !in Touched(package) ensures Narrows(s0, b, k, p) {
      ConfigOnlyIsInvisible(a, name, b, k, p);
      assert Narrows(s0, a, k, p);
    }
    forall p, tree | p != name && Whole(a, p, tree) ensures Whole(b, p, tree) {
      ConfigOnlyKeeps(a, name, b, p, tree);
    }
  }

  lemma TemporaryIsModest(a: Store, b: Store, t: string, package: string, s0: Store)
    requires ConfigOnly(a, TemporaryName(package), b) && Modest(s0, a, t, Settings, package, Touched(package))
    ensures Modest(s0, b, t, Settings, package, Touched(package))
  {
    forall u, k, p ensures Holds(b, u, k, p) <==> Holds(a, u, k, p) { SameTransactions(a, b, u, k, p); }
    hide Holds, RetainedName, TemporaryName;
    forall q | q in b.config ensures q in s0.config || q in Touched(package) {
    }
  }

  lemma SameTransactions(a: Store, b: Store, u: string, k: Kind, p: string)
    requires a.transactions == b.transactions
    ensures Holds(a, u, k, p) <==> Holds(b, u, k, p)
  {
  }

  /** A step after which nothing new is shown and everything whole is whole; unless it is `safe`,
      settings of the package itself may get lost. */
  ghost predicate Quiet(a: Store, b: Store, t: string, package: string, safe: bool) {
    && (forall k, p :: safe || k != Settings || p != package ==> Narrows(a, b, k, p))
    && (forall p, tree :: (safe || p != package) && Whole(a, p, tree) ==> Whole(b, p, tree))
    && Modest(a, b, t, Settings, package, Touched(package))
  }

  lemma QuietStep(s0: Store, a: Store, b: Store, t: string, package: string, source: Option<Tree>, safe: bool)
    requires RestoreStep(s0, a, t, package, source, safe) && Quiet(a, b, t, package, safe)
    ensures RestoreStep(s0, b, t, package, source, safe)
  {
    ModestThen(s0, a, b, t, Settings, package, Touched(package));
    hide Shows, Whole, TemporaryName, Modest, MayShow;
    assert safe ==> Narrows(a, b, Settings, package);
    forall k: Kind, p: string | k.Addon? || p !in Touched(package) ensures Narrows(s0, b, k, p) {
      assert Narrows(s0, a, k, p) && Narrows(a, b, k, p);
    }
  }

  /** Filling a transaction that holds nothing is quiet. */
  lemma PreparingIsQuiet(a: Store, t: string, b: Store, package: string)
    requires !HasBackup(a, t) && Preparing(a, t, b)
    ensures Quiet(a, b, t, package, true)
  {
    PreparedIsModest(a, t, b, package);
    hide Shows, Modest, Whole, SameExcept;
    forall k, p ensures Narrows(a, b, k, p) {
      PreparingIsInvisible(a, t, b, k, p);
    }
    forall p, tree | Whole(a, p, tree) ensures Whole(b, p, tree) {
      PreparingKeeps(a, t, b, p, tree);
    }
  }

  lemma PreparedIsModest(a: Store, t: string, b: Store, package: string)
    requires !HasBackup(a, t) && Preparing(a, t, b)
    ensures Modest(a, b, t, Settings, package, Touched(package))
  {
    hide Names, RetainedName;
  }

  lemma PreparingKeeps(a: Store, t: string, b: Store, p: string, tree: Tree)
    requires !HasBackup(a, t) && Preparing(a, t, b) && Whole(a, p, tree)
    ensures Whole(b, p, tree)
  {
    if Held(a, Settings, p, Some(tree)) {
      HeldElsewhere(a, b, t, Settings, p, Some(tree)) by { hide Names; }
    }
    hide Names, Held;
  }

  /** A transaction holds nothing but settings that have a copy elsewhere and are not needed. */
  ghost predicate Spare(s: Store, t: string, package: string) {
    HasBackup(s, t) ==>
      && Holds(s, t, Settings, package) && package in s.config
      && (LiveTree(s, Settings, package) == s.transactions[t].backup
          || Elsewhere(s, t, package, s.transactions[t].backup.value))
  }

  /** A transaction holds nothing but settings of the package. */
  ghost predicate Own(s: Store, t: string, package: string) {
    forall k, p :: Holds(s, t, k, p) ==> k == Settings && p == package
  }

  lemma NothingIsOwn(s: Store, t: string, package: string)
    requires !HasBackup(s, t)
    ensures Own(s, t, package) && Spare(s, t, package)
  {
  }

  lemma HolderIsOwn(s: Store, t: string, package: string)
    requires Holds(s, t, Settings, package)
    ensures Own(s, t, package)
  {
    forall k, p | Holds(s, t, k, p) ensures k == Settings && p == package {
      NamesOne(s.transactions[t], Settings, package, k, p);
    }
  }

  /** Removing a spare transaction is quiet at every step; removing any other one that holds nothing
      else is quiet for the other packages. */
  lemma ErasingIsQuiet(a: Store, t: string, b: Store, package: string, safe: bool)
    requires Own(a, t, package) && (safe ==> Spare(a, t, package)) && Erasing(a, t, b)
    ensures Quiet(a, b, t, package, safe)
  {
    hide Spare, Erasing, Shows, Modest, Whole, Preparing, Holds, Own;
    ErasedIsModest(a, t, b, package);
    forall k, p | safe || k != Settings || p != package ensures Narrows(a, b, k, p) {
      if !HasBackup(a, t) {
        ErasingIsPreparing(a, t, b);
        PreparingIsInvisible(a, t, b, k, p);
      } else if safe {
        SpareIsSpent(a, t, package);
        ErasingIsInvisible(a, t, b, k, p);
      } else {
        ErasingOthers(a, t, b, package, k, p);
      }
    }
    forall p, tree | (safe || p != package) && Whole(a, p, tree) ensures Whole(b, p, tree) {
      ErasingKeeps(a, t, b, package, p, tree);
    }
  }

  lemma ErasingOthers(a: Store, t: string, b: Store, package: string, k: Kind, p: string)
    requires Own(a, t, package) && Erasing(a, t, b) && (k != Settings || p != package)
    ensures Narrows(a, b, k, p)
  {
    forall u ensures Holds(a, u, k, p) <==> Holds(b, u, k, p) {
      ErasedHolders(a, t, b, u, k, p);
    }
    forall u | Holds(a, u, k, p) ensures a.transactions[u].backup == b.transactions[u].backup {
      ErasedElsewhere(a, t, b, u);
    }
    ErasedHolders(a, t, b, t, k, p);
    hide Erasing, Names;
    SameHolders(a, b, k, p);
  }

  lemma SpareIsSpent(s: Store, t: string, package: string)
    requires Own(s, t, package) && Spare(s, t, package) && HasBackup(s, t)
    ensures Spent(s, t)
  {
    hide Names;
  }

  lemma ErasedIsModest(a: Store, t: string, b: Store, package: string)
    requires Own(a, t, package) && Erasing(a, t, b)
    ensures Modest(a, b, t, Settings, package, Touched(package))
  {
    forall u, k, p | Holds(b, u, k, p)
      ensures Holds(a, u, k, p) && (u != t ==> b.transactions[u].backup == a.transactions[u].backup)
    {
      ErasedHolders(a, t, b, u, k, p);
      if u != t { ErasedElsewhere(a, t, b, u); }
    }
    ErasedLeaves(a, t, b, t);
    hide Names, Erasing, RetainedName, Holds;
  }

  lemma ErasingKeeps(a: Store, t: string, b: Store, package: string, p: string, tree: Tree)
    requires Own(a, t, package) && (p == package ==> Spare(a, t, package)) && Erasing(a, t, b) && Whole(a, p, tree)
    ensures Whole(b, p, tree)
  {
    ErasedLeaves(a, t, b, t);
    forall u, x | Held(Removed(a, t), Settings, u, x) ensures Held(b, Settings, u, x) {
      RemovedHeld(a, t, b, u, x);
    }
    hide Names, Erasing, Removed;
    if Held(a, Settings, p, Some(tree)) && !Held(b, Settings, p, Some(tree)) {
      HeldByOne(a, t, b, p, Some(tree));
      assert Holds(a, t, Settings, p) && a.transactions[t].backup == Some(tree);
      hide Held, InBackups;
    } else {
      hide Held;
    }
  }

  lemma RemovedHeld(a: Store, t: string, b: Store, p: string, tree: Option<Tree>)
    requires Erasing(a, t, b) && Held(Removed(a, t), Settings, p, tree)
    ensures Held(b, Settings, p, tree)
  {
    var u :| Holds(Removed(a, t), u, Settings, p) && Removed(a, t).transactions[u].backup == tree;
    ErasedElsewhere(a, t, b, u);
    hide Erasing, Names;
    assert Holds(b, u, Settings, p);
  }

  lemma HeldByOne(a: Store, t: string, b: Store, p: string, tree: Option<Tree>)
    requires Erasing(a, t, b) && Held(a, Settings, p, tree)
    ensures Held(b, Settings, p, tree) || (Holds(a, t, Settings, p) && a.transactions[t].backup == tree)
  {
    var u :| Holds(a, u, Settings, p) && a.transactions[u].backup == tree;
    if u != t {
      ErasedElsewhere(a, t, b, u);
      hide Erasing, Names;
      assert Holds(b, u, Settings, p);
    }
  }

  /** Everything staged and journalled, nothing renamed yet. */
  ghost predicate Staged(s: Store, t: string, package: string) {
    && t in s.transactions && Names(s.transactions[t], Settings, package) && !HasBackup(s, t)
  }

  /** Setting the live settings aside. */
  lemma AsideStep(s0: Store, a: Store, t: string, package: string, source: Option<Tree>, safe: bool)
    requires RestoreStep(s0, a, t, package, source, safe) && Staged(a, t, package) && package in a.config
    ensures RestoreStep(s0, SetAside(a, t, Settings, package), t, package, source, safe)
  {
    var b := SetAside(a, t, Settings, package);
    SetAsideIsModest(a, t, package);
    ModestThen(s0, a, b, t, Settings, package, Touched(package));
    SetAsideShows(a, t, Settings, package, Settings, package);
    SomethingIsLive(a, package);
    forall tree | Held(a, Settings, package, tree) ensures Held(s0, Settings, package, tree) {
      HeldBefore(s0, a, t, package, tree);
    }
    hide Names, Shows, Held, Modest, Whole, SetAside, TemporaryName, Holds;
    forall k: Kind, p: string | k.Addon? || p !in Touched(package) ensures Narrows(s0, b, k, p) {
      SetAsideShows(a, t, Settings, package, k, p);
      assert Narrows(s0, a, k, p);
    }
    forall p, tree | Whole(a, p, tree) ensures Whole(b, p, tree) {
      SetAsideKeeps(a, t, package, p, tree);
    }
  }

  lemma SomethingIsLive(s: Store, package: string)
    requires package in s.config
    ensures Shows(s, Settings, package, LiveTree(s, Settings, package))
  {
  }

  lemma HeldBefore(s0: Store, s: Store, t: string, package: string, tree: Option<Tree>)
    requires Modest(s0, s, t, Settings, package, Touched(package)) && !HasBackup(s, t)
    requires Held(s, Settings, package, tree)
    ensures Held(s0, Settings, package, tree)
  {
    hide Names;
  }

  lemma SetAsideIsModest(a: Store, t: string, package: string)
    requires Staged(a, t, package) && package in a.config
    ensures Modest(a, SetAside(a, t, Settings, package), t, Settings, package, Touched(package))
  {
    var b := SetAside(a, t, Settings, package);
    hide ReadString, SafePackageId;
    assert Names(b.transactions[t], Settings, package);
    forall k, p | Holds(b, t, k, p) ensures k == Settings && p == package {
      NamesOne(b.transactions[t], Settings, package, k, p);
    }
    hide Names;
    forall u, k, p | u != t && Holds(b, u, k, p)
      ensures Holds(a, u, k, p) && b.transactions[u].backup == a.transactions[u].backup
    {
    }
    assert b.backups == a.backups && b.config == a.config - {package};
    hide SetAside, Holds, RetainedName, TemporaryName;
  }

  lemma SetAsideKeeps(a: Store, t: string, package: string, p: string, tree: Tree)
    requires Staged(a, t, package) && package in a.config && Whole(a, p, tree)
    ensures Whole(SetAside(a, t, Settings, package), p, tree)
  {
    var b := SetAside(a, t, Settings, package);
    assert b.backups == a.backups && (p != package ==> LiveTree(b, Settings, p) == LiveTree(a, Settings, p));
    if Held(a, Settings, p, Some(tree)) {
      AsideKeepsHeld(a, t, package, p, Some(tree));
    } else if p == package {
      SetAsideShows(a, t, Settings, package, Settings, package);
      HeldBy(b, t, Settings, package);
    }
    hide Names, Held, SetAside;
  }

  lemma AsideKeepsHeld(a: Store, t: string, package: string, p: string, tree: Option<Tree>)
    requires Staged(a, t, package) && package in a.config && Held(a, Settings, p, tree)
    ensures Held(SetAside(a, t, Settings, package), Settings, p, tree)
  {
    var b := SetAside(a, t, Settings, package);
    forall u | u != t && Holds(a, u, Settings, p)
      ensures Holds(b, u, Settings, p) && b.transactions[u].backup == a.transactions[u].backup
    {
      hide Names;
      assert u in b.transactions && b.transactions[u] == a.transactions[u];
    }
    hide Names, SetAside;
    HeldElsewhere(a, b, t, Settings, p, tree);
  }

  /** Putting them back is quiet. */
  lemma PutBackIsQuiet(a: Store, t: string, package: string)
    requires Holds(a, t, Settings, package) && package !in a.config
    ensures Quiet(a, PutBack(a, t, Settings, package), t, package, true)
  {
    PutBackIsModest(a, t, package);
    hide Names, Holds, Shows, Modest, Whole, PutBack;
    forall k, p ensures Narrows(a, PutBack(a, t, Settings, package), k, p) {
      PutBackIsInvisible(a, t, Settings, package, k, p);
    }
    forall p, tree | Whole(a, p, tree) ensures Whole(PutBack(a, t, Settings, package), p, tree) {
      PutBackKeeps(a, t, Settings, package, p, tree);
    }
  }

  lemma PutBackIsModest(a: Store, t: string, package: string)
    requires Holds(a, t, Settings, package) && package !in a.config
    ensures Modest(a, PutBack(a, t, Settings, package), t, Settings, package, Touched(package))
  {
    var b := PutBack(a, t, Settings, package);
    PutBackLeaves(a, t, Settings, package);
    forall u, k, p | Holds(b, u, k, p) ensures u != t && Holds(a, u, k, p) {
      PutBackIsInvisible(a, t, Settings, package, k, p);
    }
    assert b.config.Keys == a.config.Keys + {package};
    hide Names, PutBack, Holds, RetainedName;
  }

  /** So is moving them to the backups directory, once the new ones are live. */
  lemma RetainIsQuiet(a: Store, t: string, package: string)
    requires Holds(a, t, Settings, package) && package in a.config && (t, package) !in a.backups && IsJobId(t)
    ensures Quiet(a, Retain(a, t, t, package), t, package, true) && !HasBackup(Retain(a, t, t, package), t)
  {
    RetainIsModest(a, t, package);
    hide Names, Holds, Shows, Modest, Whole, IsJobId;
    forall k, p ensures Narrows(a, Retain(a, t, t, package), k, p) {
      RetainIsInvisible(a, t, t, package, k, p);
    }
    forall p, tree | Whole(a, p, tree) ensures Whole(Retain(a, t, t, package), p, tree) {
      RetainKeeps(a, t, t, package, p, tree);
    }
  }

  lemma RetainIsModest(a: Store, t: string, package: string)
    requires Holds(a, t, Settings, package) && IsJobId(t)
    ensures Modest(a, Retain(a, t, t, package), t, Settings, package, Touched(package))
  {
    var b := Retain(a, t, t, package);
    RetainHolders(a, t, t, package);
    forall u ensures RetainedName(u) != t { RetainedIsNoJobId(u); }
    assert forall u :: u != t && u in b.transactions ==> u in a.transactions && b.transactions[u] == a.transactions[u];
    hide Names, Holds, RetainedName, IsJobId;
  }

  lemma RetainedIsNoJobId(u: string)
    ensures !IsJobId(RetainedName(u))
  {
    assert RetainedName(u)[0] == 'r';
  }

  /** The rename of the temporary directory to the live one. */
  function Committed(s: Store, package: string, source: Tree): Store {
    s.(config := (s.config - {TemporaryName(package)})[package := source])
  }

  lemma CommittedStep(s0: Store, a: Store, t: string, package: string, source: Tree, safe: bool)
    requires RestoreStep(s0, a, t, package, Some(source), safe) && package !in a.config
    ensures RestoreStep(s0, Committed(a, package, source), t, package, Some(source), safe)
  {
    TemporaryDiffers(package);
    var b := Committed(a, package, source);
    CommittedIsModest(s0, a, t, package, source);
    assert forall tree :: Shows(b, Settings, package, tree) <==> tree == Some(source);
    hide Names, Shows, Modest, Whole, TemporaryName, Held;
    forall k: Kind, p: string | k.Addon? || p !in Touched(package) ensures Narrows(s0, b, k, p) {
      CommittedIsLocal(a, package, source, k, p);
      assert Narrows(s0, a, k, p);
    }
    forall p, tree | p != TemporaryName(package) && Whole(a, p, tree) ensures Whole(b, p, tree) {
      CommittedKeeps(a, package, source, p, tree);
    }
  }

  lemma CommittedIsModest(s0: Store, a: Store, t: string, package: string, source: Tree)
    requires Modest(s0, a, t, Settings, package, Touched(package))
    ensures Modest(s0, Committed(a, package, source), t, Settings, package, Touched(package))
  {
    var b := Committed(a, package, source);
    forall u, k, p ensures Holds(b, u, k, p) <==> Holds(a, u, k, p) { SameTransactions(a, b, u, k, p); }
    hide Holds, RetainedName, TemporaryName;
  }

  lemma CommittedIsLocal(a: Store, package: string, source: Tree, k: Kind, p: string)
    requires k.Addon? || p !in Touched(package)
    ensures Narrows(a, Committed(a, package, source), k, p)
  {
    hide Names;
    SameHolders(a, Committed(a, package, source), k, p);
  }

  lemma CommittedKeeps(a: Store, package: string, source: Tree, p: string, tree: Tree)
    requires package !in a.config && p != TemporaryName(package) && Whole(a, p, tree)
    ensures Whole(Committed(a, package, source), p, tree)
  {
    var b := Committed(a, package, source);
    if Held(a, Settings, p, Some(tree)) {
      HeldElsewhere(a, b, "", Settings, p, Some(tree)) by { hide Names; }
      if !Held(b, Settings, p, Some(tree)) { HeldBy(b, "", Settings, p); }
    }
    hide Names, Held;
  }
}
