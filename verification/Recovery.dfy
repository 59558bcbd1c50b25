/** `vh_engine_recover` of native/src/engine.cpp. */
module Recovery {
  import opened Wrappers
  import opened Paths
  import opened JsonText
  import opened Ownership
  import opened Storage
  import opened Disks

  function PackageOf(x: Transaction): string { ReadString(JournalText(x), "packageId") }

  function KindOf(x: Transaction): Kind {
    if ReadString(JournalText(x), "kind") == "settings" then Settings else Addon
  }

  function RetainedName(t: string): string { "recovered-" + t }

  /** The backup moves below the backups directory, next to the live settings that replaced it. */
  function Retain(s: Store, t: string, directory: string, package: string): Store
    requires HasBackup(s, t)
  {
    s.(backups := s.backups[(directory, package) := s.transactions[t].backup.value],
       transactions := s.transactions[t := s.transactions[t].(backup := None)])
  }

  /** A rename that recovery has to make for this transaction will fail. */
  predicate ItemStuck(s: Store, t: string, refused: bool) {
    && HasBackup(s, t)
    && var x := s.transactions[t];
    && SafePackageId(PackageOf(x))
    && if PackageOf(x) in Live(s, KindOf(x))
       then KindOf(x).Settings? && (refused || (RetainedName(t), PackageOf(x)) in s.backups)
       else refused
  }

  /** `refused` are the transactions whose rename the operating system refuses. */
  ghost predicate Stuck(s: Store, refused: set<string>) {
    exists t :: ItemStuck(s, t, t in refused)
  }

  /** Such a rename may fail, depending on which transactions recovery meets before. */
  ghost predicate Jams(s: Store, t: string, refused: bool) {
    && HasBackup(s, t)
    && var x := s.transactions[t];
    && SafePackageId(PackageOf(x))
    && if KindOf(x).Addon? then refused && PackageOf(x) !in s.addons
       else refused || ((RetainedName(t), PackageOf(x)) in s.backups
                        && (PackageOf(x) in s.config || Rivalled(s, t, Settings, PackageOf(x))))
  }

  ghost predicate Jammed(s: Store, refused: set<string>) {
    exists t :: Jams(s, t, t in refused)
  }

  /** Another transaction has set a tree of the same package aside. */
  ghost predicate Rivalled(s: Store, t: string, kind: Kind, package: string) {
    exists u :: u != t && Holds(s, u, kind, package)
  }

  /** At most one tree of each package is set aside. */
  ghost predicate Single(s: Store) {
    forall t, u, k, p :: Holds(s, t, k, p) && Holds(s, u, k, p) ==> t == u
  }

  /** Recovery shows nothing new of any package, loses no settings that were whole, overwrites no
      older backup, sets nothing aside and cannot get itself stuck. */
  ghost predicate RecoverStep(s0: Store, s: Store) {
    && (forall k, p :: Narrows(s0, s, k, p))
    && (forall p, tree :: Whole(s0, p, tree) ==> Whole(s, p, tree))
    && (forall key :: key in s0.backups ==> key in s.backups && s.backups[key] == s0.backups[key])
    && (forall t, k, p :: Holds(s, t, k, p) ==> Holds(s0, t, k, p))
    && (forall t, r :: Jams(s, t, r) ==> Jams(s0, t, r))
  }

  lemma RecoverStepThen(a: Store, b: Store, c: Store)
    requires RecoverStep(a, b) && RecoverStep(b, c)
    ensures RecoverStep(a, c)
  {
    hide Shows, Whole, Jams, Holds, Narrows;
    forall k, p ensures Narrows(a, c, k, p) {
      assert Narrows(a, b, k, p) && Narrows(b, c, k, p);
      NarrowsThen(a, b, c, k, p);
    }
  }

  lemma RecoverStepItself(s: Store)
    ensures RecoverStep(s, s)
  {
    hide Shows, Whole, Jams, Holds;
  }

  lemma NamesWhatIsRead(x: Transaction, kind: Kind, package: string)
    ensures Names(x, kind, package) <==>
            SafePackageId(package) && package == PackageOf(x) && kind == KindOf(x)
  {
    hide ReadString, SafePackageId;
  }

  /** Without rivals it does not matter which transactions recovery meets first. */
  lemma JamsIsStuck(s: Store, t: string, refused: bool)
    ensures ItemStuck(s, t, refused) ==> Jams(s, t, refused)
    ensures Single(s) && Jams(s, t, refused) ==> ItemStuck(s, t, refused)
  {
    if HasBackup(s, t) {
      var x := s.transactions[t];
      NamesWhatIsRead(x, KindOf(x), PackageOf(x));
      hide Names, SafePackageId, PackageOf, KindOf;
      assert SafePackageId(PackageOf(x)) ==> Holds(s, t, KindOf(x), PackageOf(x));
    }
  }

  lemma JammedIsStuck(s: Store, refused: set<string>)
    requires Single(s)
    ensures Jammed(s, refused) <==> Stuck(s, refused)
  {
    hide Single, Jams, ItemStuck;
    forall t { JamsIsStuck(s, t, t in refused); }
  }

  /** What jams later jammed before, as long as holders only go away and no package loses or no
      slot gains anything that matters to it. */
  lemma JamsLess(a: Store, b: Store, t: string, refused: bool)
    requires Jams(b, t, refused)
    requires HasBackup(a, t) && a.transactions[t].journal == b.transactions[t].journal
    requires forall u, k, p :: Holds(b, u, k, p) ==> Holds(a, u, k, p)
    requires forall p :: p in a.addons ==> p in b.addons
    requires forall p :: p in b.config ==> p in a.config || Rivalled(a, t, Settings, p)
    requires forall p :: (RetainedName(t), p) in b.backups ==> (RetainedName(t), p) in a.backups
    ensures Jams(a, t, refused)
  {
    hide SafePackageId, ReadString, Names;
    var x := b.transactions[t];
    if KindOf(x).Settings? && Rivalled(b, t, Settings, PackageOf(x)) {
      var u :| u != t && Holds(b, u, Settings, PackageOf(x));
      assert Holds(a, u, Settings, PackageOf(x));
    }
  }

  /** The renames of one iteration of the recovery loop. */
  function Repaired(s: Store, t: string): Store
    requires t in s.transactions
  {
    var x := s.transactions[t];
    if !HasBackup(s, t) || !SafePackageId(PackageOf(x)) then s
    else if PackageOf(x) !in Live(s, KindOf(x)) then PutBack(s, t, KindOf(x), PackageOf(x))
    else if KindOf(x).Settings? then Retain(s, t, RetainedName(t), PackageOf(x))
    else s
  }

  lemma RetainedNamesDiffer(t: string, u: string)
    ensures RetainedName(t) == RetainedName(u) ==> t == u
  {
    assert RetainedName(t)[|"recovered-"|..] == t && RetainedName(u)[|"recovered-"|..] == u;
  }

  /** A name below the backups directory that recovery never uses. */
  ghost predicate OtherDirectory(directory: string, t: string) {
    forall u :: directory == RetainedName(u) ==> u == t
  }

  lemma RetainStep(s: Store, t: string, directory: string, package: string)
    requires Holds(s, t, Settings, package) && package in s.config
    requires (directory, package) !in s.backups && OtherDirectory(directory, t)
    ensures RecoverStep(s, Retain(s, t, directory, package)) && !HasBackup(Retain(s, t, directory, package), t)
  {
    var s' := Retain(s, t, directory, package);
    RetainHolders(s, t, directory, package);
    hide ReadString, SafePackageId, Names, PackageOf, KindOf;
    forall k, p ensures Narrows(s, s', k, p) {
      RetainIsInvisible(s, t, directory, package, k, p);
    }
    forall p, tree | Whole(s, p, tree) ensures Whole(s', p, tree) {
      RetainKeeps(s, t, directory, package, p, tree);
    }
    forall u, r | Jams(s', u, r) ensures Jams(s, u, r) {
      JamsLess(s, s', u, r);
    }
  }

  lemma RetainHolders(s: Store, t: string, directory: string, package: string)
    requires Holds(s, t, Settings, package)
    ensures forall u, k, p :: Holds(Retain(s, t, directory, package), u, k, p) <==> Holds(s, u, k, p) && u != t
  {
    hide ReadString, SafePackageId;
  }

  lemma RetainIsInvisible(s: Store, t: string, directory: string, package: string, k: Kind, p: string)
    requires Holds(s, t, Settings, package) && package in s.config
    ensures Narrows(s, Retain(s, t, directory, package), k, p)
  {
    var s' := Retain(s, t, directory, package);
    RetainHolders(s, t, directory, package);
    if Holds(s, t, k, p) { NamesOne(s.transactions[t], Settings, package, k, p); }
    hide Names;
    SameHolders(s, s', k, p);
  }

  lemma RetainKeeps(s: Store, t: string, directory: string, package: string, p: string, tree: Tree)
    requires Holds(s, t, Settings, package) && package in s.config
    requires (directory, package) !in s.backups && Whole(s, p, tree)
    ensures Whole(Retain(s, t, directory, package), p, tree)
  {
    var s' := Retain(s, t, directory, package);
    RetainHolders(s, t, directory, package);
    if Holds(s, t, Settings, p) { NamesOne(s.transactions[t], Settings, package, Settings, p); }
    hide Names;
    if Held(s, Settings, p, Some(tree)) {
      HeldElsewhere(s, s', t, Settings, p, Some(tree));
      hide Held;
      if !Held(s', Settings, p, Some(tree)) {
        assert s'.backups[(directory, p)] == tree;
      }
    } else if InBackups(s, p, tree) {
      MoreBackups(s, s', p, tree);
    }
  }

  lemma PutBackStep(s: Store, t: string, kind: Kind, package: string)
    requires Holds(s, t, kind, package) && package !in Live(s, kind)
    ensures RecoverStep(s, PutBack(s, t, kind, package)) && !HasBackup(PutBack(s, t, kind, package), t)
  {
    var s' := PutBack(s, t, kind, package);
    hide ReadString, SafePackageId, Names, Whole, Jams, Shows, Holds, Live, Narrows;
    assert s'.backups == s.backups by { PutBackLeaves(s, t, kind, package); }
    PutBackIsInvisible(s, t, kind, package, kind, package);
    forall k, p ensures Narrows(s, s', k, p) {
      PutBackIsInvisible(s, t, kind, package, k, p);
    }
    forall u, k, p | Holds(s', u, k, p) ensures Holds(s, u, k, p) {
      PutBackIsInvisible(s, t, kind, package, k, p);
    }
    forall p, tree | Whole(s, p, tree) ensures Whole(s', p, tree) {
      PutBackKeeps(s, t, kind, package, p, tree);
    }
    forall u, r | Jams(s', u, r) ensures Jams(s, u, r) {
      PutBackJams(s, t, kind, package, u, r);
    }
  }

  lemma PutBackLeaves(s: Store, t: string, kind: Kind, package: string)
    requires HasBackup(s, t)
    ensures var s' := PutBack(s, t, kind, package);
            && s'.backups == s.backups && !HasBackup(s', t)
            && forall u :: HasBackup(s', u) ==> HasBackup(s, u) && s'.transactions[u] == s.transactions[u]
  {
  }

  lemma PutBackJams(s: Store, t: string, kind: Kind, package: string, u: string, refused: bool)
    requires Holds(s, t, kind, package) && package !in Live(s, kind)
    requires Jams(PutBack(s, t, kind, package), u, refused)
    ensures Jams(s, u, refused)
  {
    var s' := PutBack(s, t, kind, package);
    PutBackLeaves(s, t, kind, package);
    forall v, k, p | Holds(s', v, k, p) ensures Holds(s, v, k, p) {
      PutBackIsInvisible(s, t, kind, package, k, p);
    }
    hide ReadString, SafePackageId, Names, PackageOf, KindOf, RetainedName;
    assert kind.Settings? ==> Rivalled(s, u, Settings, package);
    assert forall p :: p in s'.config ==> p in s.config || (kind.Settings? && p == package);
    hide Holds, Rivalled;
    JamsLess(s, s', u, refused);
  }

  lemma PutBackKeeps(s: Store, t: string, kind: Kind, package: string, p: string, tree: Tree)
    requires Holds(s, t, kind, package) && package !in Live(s, kind)
    requires Whole(s, p, tree)
    ensures Whole(PutBack(s, t, kind, package), p, tree)
  {
    var s' := PutBack(s, t, kind, package);
    PutBackIsInvisible(s, t, kind, package, Settings, p);
    PutBackLeaves(s, t, kind, package);
    if Held(s, Settings, p, Some(tree)) {
      if Holds(s, t, Settings, p) { NamesOne(s.transactions[t], kind, package, Settings, p); }
      hide Names, Narrows, PutBack, Shows, LiveTree, Live;
      HeldElsewhere(s, s', t, Settings, p, Some(tree));
    } else if InBackups(s, p, tree) {
      MoreBackups(s, s', p, tree);
    } else {
      hide Names, Holds, Narrows, Shows;
    }
  }

  /** What is left in the transaction is an old version whose replacement is live. */
  ghost predicate Disposable(s: Store, t: string) {
    forall k, p :: Holds(s, t, k, p) ==> k.Addon? && p in s.addons
  }

  /** Every step of one iteration keeps what is shown and what is whole. */
  lemma RepairedStep(s: Store, t: string)
    requires t in s.transactions && !ItemStuck(s, t, false)
    ensures RecoverStep(s, Repaired(s, t)) && Disposable(Repaired(s, t), t)
    ensures !HasBackup(s, t) ==> Repaired(s, t) == s
    ensures t in Repaired(s, t).transactions && Repaired(s, t).transactions.Keys == s.transactions.Keys
  {
    var x := s.transactions[t];
    NamesWhatIsRead(x, KindOf(x), PackageOf(x));
    RetainedNamesDiffer(t, t);
    hide SafePackageId, PackageOf, KindOf, Names, RecoverStep, RetainedName, OtherDirectory;
    if HasBackup(s, t) && SafePackageId(PackageOf(x)) && PackageOf(x) !in Live(s, KindOf(x)) {
      PutBackStep(s, t, KindOf(x), PackageOf(x));
    } else if HasBackup(s, t) && SafePackageId(PackageOf(x)) && KindOf(x).Settings? {
      OwnDirectory(t);
      RetainStep(s, t, RetainedName(t), PackageOf(x));
    } else {
      RecoverStepItself(s);
      forall k, p | Holds(s, t, k, p) ensures k.Addon? && p in s.addons {
        NamesWhatIsRead(x, k, p);
      }
    }
  }

  lemma OwnDirectory(t: string)
    ensures OtherDirectory(RetainedName(t), t)
  {
    forall u { RetainedNamesDiffer(t, u); }
  }

  lemma ErasedStep(s: Store, t: string, s': Store)
    requires Disposable(s, t) && Erasing(s, t, s')
    ensures RecoverStep(s, s')
  {
    assert Spent(s, t);
    forall u, r | Jams(s', u, r) ensures Jams(s, u, r) {
      ErasedJams(s, t, s', u, r);
    }
    forall u, k, p { ErasedHolders(s, t, s', u, k, p); }
    assert s.backups == s'.backups;
    hide Names, Erasing, Shows, Shrunk, Disposable, Spent, Jams, Whole;
    forall k, p ensures Narrows(s, s', k, p) {
      ErasingIsInvisible(s, t, s', k, p);
    }
    forall p, tree | Whole(s, p, tree) ensures Whole(s', p, tree) {
      ErasedKeeps(s, t, s', p, tree);
    }
  }

  lemma ErasedJams(s: Store, t: string, s': Store, u: string, refused: bool)
    requires Disposable(s, t) && Erasing(s, t, s') && Jams(s', u, refused)
    ensures Jams(s, u, refused)
  {
    forall v, k, p | Holds(s', v, k, p) ensures Holds(s, v, k, p) { ErasedHolders(s, t, s', v, k, p); }
    ErasedLeaves(s, t, s', u);
    SafeReading(s'.transactions[u]);
    hide ReadString, SafePackageId, Names, Rivalled, Disposable, PackageOf, KindOf, RetainedName, Erasing, Shrunk,
         Within, Holds;
    assert JournalText(s'.transactions[u]) != "";
    JamsLess(s, s', u, refused);
  }

  lemma ErasedLeaves(s: Store, t: string, s': Store, u: string)
    requires Erasing(s, t, s')
    ensures s'.addons == s.addons && s'.config == s.config && s'.backups == s.backups
    ensures HasBackup(s', u) ==> && HasBackup(s, u)
                                 && s'.transactions[u].journal in {None, s.transactions[u].journal}
  {
  }

  lemma SafeReading(x: Transaction)
    ensures SafePackageId(PackageOf(x)) ==> JournalText(x) != ""
  {
    assert ReadString("", "packageId") == "";
  }

  lemma ErasedKeeps(s: Store, t: string, s': Store, p: string, tree: Tree)
    requires Disposable(s, t) && Erasing(s, t, s') && Whole(s, p, tree)
    ensures Whole(s', p, tree)
  {
    ErasedLeaves(s, t, s', t);
    if Held(s, Settings, p, Some(tree)) {
      forall u | u != t && Holds(s, u, Settings, p)
        ensures Holds(s', u, Settings, p) && s'.transactions[u].backup == s.transactions[u].backup
      {
        ErasedHolders(s, t, s', u, Settings, p);
        ErasedElsewhere(s, t, s', u);
      }
      hide Erasing, Names, Shrunk;
      HeldElsewhere(s, s', t, Settings, p, Some(tree));
    } else if InBackups(s, p, tree) {
      MoreBackups(s, s', p, tree);
    }
  }

  /** One iteration changes what concerns its own transaction and package only. */
  lemma RepairedElsewhere(s: Store, t: string, u: string)
    requires t in s.transactions && u != t
    ensures var s', x := Removed(Repaired(s, t), t), s.transactions[t];
            && (HasBackup(s', u) <==> HasBackup(s, u))
            && (HasBackup(s, u) ==> s'.transactions[u] == s.transactions[u])
            && (forall p :: (RetainedName(u), p) in s'.backups <==> (RetainedName(u), p) in s.backups)
            && (forall k, p :: p in Live(s, k) ==> p in Live(s', k))
            && (forall k, p :: p in Live(s', k) ==>
                  p in Live(s, k) || (HasBackup(s, t) && SafePackageId(PackageOf(x)) && k == KindOf(x) && p == PackageOf(x)))
  {
    RetainedNamesDiffer(t, u);
    hide ReadString, SafePackageId, RetainedName, PackageOf, KindOf;
  }

  lemma StuckElsewhere(s: Store, t: string, u: string, refused: bool)
    requires Single(s) && t in s.transactions && u != t
    ensures ItemStuck(Removed(Repaired(s, t), t), u, refused) <==> ItemStuck(s, u, refused)
  {
    RepairedElsewhere(s, t, u);
    hide ReadString, SafePackageId, RetainedName, PackageOf, KindOf, Names, Holds, Single, Repaired, Removed, HasBackup, Live;
    if HasBackup(s, t) && SafePackageId(PackageOf(s.transactions[t])) && HasBackup(s, u) &&
       SafePackageId(PackageOf(s.transactions[u])) {
      DifferentPackages(s, t, u);
    }
  }

  lemma DifferentPackages(s: Store, t: string, u: string)
    requires Single(s) && t != u && HasBackup(s, t) && HasBackup(s, u)
    requires SafePackageId(PackageOf(s.transactions[t])) && SafePackageId(PackageOf(s.transactions[u]))
    ensures || KindOf(s.transactions[t]) != KindOf(s.transactions[u])
            || PackageOf(s.transactions[t]) != PackageOf(s.transactions[u])
  {
    var x, y := s.transactions[t], s.transactions[u];
    NamesWhatIsRead(x, KindOf(x), PackageOf(x));
    NamesWhatIsRead(y, KindOf(y), PackageOf(y));
    hide ReadString, SafePackageId, Names, PackageOf, KindOf;
    assert Holds(s, t, KindOf(x), PackageOf(x)) && Holds(s, u, KindOf(y), PackageOf(y));
  }

  lemma StuckStep(s: Store, t: string, refused: set<string>)
    requires Single(s) && t in s.transactions && !ItemStuck(s, t, t in refused)
    ensures Stuck(Removed(Repaired(s, t), t), refused) <==> Stuck(s, refused)
  {
    assert !ItemStuck(Removed(Repaired(s, t), t), t, t in refused);
    hide ItemStuck, Repaired, Removed, Single;
    forall u | u != t { StuckElsewhere(s, t, u, u in refused); }
  }

  /** Every state recorded since `from`. */
  ghost predicate RecoverSteps(s0: Store, trace: seq<Store>, from: nat) {
    forall k :: from <= k < |trace| ==> RecoverStep(s0, trace[k])
  }

  lemma RecoverStepsThen(s0: Store, s1: Store, before: seq<Store>, trace: seq<Store>, from: nat)
    requires RecoverStep(s0, s1) && Extends(before, trace) && from <= |before|
    requires RecoverSteps(s0, before, from) && RecoverSteps(s1, trace, |before|)
    ensures RecoverSteps(s0, trace, from)
  {
    hide RecoverStep;
    forall k | from <= k < |trace| ensures RecoverStep(s0, trace[k]) {
      if k < |before| {
        assert trace[k] == before[k];
      } else {
        RecoverStepThen(s0, s1, trace[k]);
      }
    }
  }

  /** One entry of the transactions directory: put back or retained, then removed. */
  method RecoverItem(disk: Disk, t: string, refused: bool) returns (ok: bool)
    requires disk.Valid() && t in disk.store.transactions
    modifies disk
    ensures disk.Valid() && Extends(old(disk.trace), disk.trace)
    ensures ok <==> !ItemStuck(old(disk.store), t, refused)
    ensures ok ==> disk.store == Removed(Repaired(old(disk.store), t), t)
    ensures !ok ==> disk.store == old(disk.store)
    ensures RecoverStep(old(disk.store), disk.store)
    ensures RecoverSteps(old(disk.store), disk.trace, |old(disk.trace)|)
  {
    ghost var s0 := disk.store;
    RecoverStepItself(s0);
    ok := MakeRenames(disk, t, refused);
    hide *;
    if ok { RemoveRepaired(disk, s0, old(disk.trace), t); }
  }

  method MakeRenames(disk: Disk, t: string, refused: bool) returns (ok: bool)
    requires disk.Valid() && t in disk.store.transactions
    modifies disk
    ensures disk.Valid() && Extends(old(disk.trace), disk.trace)
    ensures ok <==> !ItemStuck(old(disk.store), t, refused)
    ensures ok ==> !ItemStuck(old(disk.store), t, false)
    ensures disk.store == if ok then Repaired(old(disk.store), t) else old(disk.store)
    ensures RecoverSteps(old(disk.store), disk.trace, |old(disk.trace)|)
  {
    hide RecoverStep, PutBack, Retain, SafePackageId, ReadString;
    var x := disk.store.transactions[t];
    var package := JsonString(JournalText(x), "packageId");
    if SafePackageId(package) {
      var word := JsonString(JournalText(x), "kind");
      if word == "settings" {
        if package !in disk.store.config && x.backup.Some? {
          if refused { return false; }
          Repair(disk, t, PutBack(disk.store, t, Settings, package));
        } else if package in disk.store.config && x.backup.Some? {
          if refused || (RetainedName(t), package) in disk.store.backups { return false; }
          Repair(disk, t, Retain(disk.store, t, RetainedName(t), package));
        }
      } else if package !in disk.store.addons && x.backup.Some? {
        if refused { return false; }
        Repair(disk, t, PutBack(disk.store, t, Addon, package));
      }
    }
    return true;
  }

  function Removed(s: Store, t: string): Store {
    s.(transactions := s.transactions - {t})
  }

  method Repair(disk: Disk, t: string, next: Store)
    requires disk.Valid() && t in disk.store.transactions
    requires !ItemStuck(disk.store, t, false) && next == Repaired(disk.store, t)
    modifies disk
    ensures disk.Valid() && disk.store == next && disk.trace == old(disk.trace) + [next]
    ensures RecoverStep(old(disk.store), next)
  {
    RepairedStep(disk.store, t);
    disk.Commit(next);
  }

  method RemoveRepaired(disk: Disk, ghost s0: Store, ghost before: seq<Store>, t: string)
    requires disk.Valid() && t in s0.transactions && !ItemStuck(s0, t, false)
    requires disk.store == Repaired(s0, t)
    requires Extends(before, disk.trace) && RecoverSteps(s0, disk.trace, |before|)
    modifies disk
    ensures disk.Valid() && Extends(before, disk.trace)
    ensures disk.store == Removed(Repaired(s0, t), t) && RecoverStep(s0, disk.store)
    ensures RecoverSteps(s0, disk.trace, |before|)
  {
    ghost var s1, middle := disk.store, disk.trace;
    RepairedStep(s0, t);
    disk.RemoveTransaction(t);
    hide RecoverStep, Repaired, ItemStuck, Erasing, Disposable;
    forall k | |middle| <= k < |disk.trace| ensures RecoverStep(s1, disk.trace[k]) {
      ErasedStep(s1, t, disk.trace[k]);
    }
    RecoverStepsThen(s0, s1, middle, disk.trace, |before|);
    RemovedIsErased(s1, t);
    ErasedStep(s1, t, disk.store);
    RecoverStepThen(s0, s1, disk.store);
  }

  lemma RemovedIsErased(s: Store, t: string)
    ensures Erasing(s, t, Removed(s, t))
  {
  }

  lemma RepairedKeys(s: Store, t: string)
    requires t in s.transactions
    ensures Removed(Repaired(s, t), t).transactions.Keys == s.transactions.Keys - {t}
  {
    hide ReadString, SafePackageId;
  }

  lemma NothingPending(s: Store, kind: Kind, package: string)
    requires s.transactions == map[]
    ensures Shows(s, kind, package, LiveTree(s, kind, package))
  {
    hide Names;
  }

  /** Recovery of a whole disk. It completes unless one of its renames fails, shows nothing new of
      any package at any step, and loses no settings that were whole. Once complete, every package
      has live a tree that it showed before. */
  method Recover(disk: Disk, refused: set<string>) returns (ok: bool)
    requires disk.Valid()
    modifies disk
    ensures disk.Valid() && Extends(old(disk.trace), disk.trace)
    ensures !Jammed(old(disk.store), refused) ==> ok
    ensures Single(old(disk.store)) ==> (ok <==> !Stuck(old(disk.store), refused))
    ensures !ok ==> Stuck(disk.store, refused)
    ensures ok ==> disk.store.transactions == map[]
    ensures ok ==> forall k, p :: Shows(old(disk.store), k, p, LiveTree(disk.store, k, p))
    ensures RecoverStep(old(disk.store), disk.store)
    ensures forall k :: |old(disk.trace)| <= k < |disk.trace| ==> RecoverStep(old(disk.store), disk.trace[k])
    ensures old(disk.store).transactions == map[] ==> disk.store == old(disk.store) && disk.trace == old(disk.trace)
  {
    ghost var s0, before := disk.store, disk.trace;
    RecoverStepItself(s0);
    hide RecoverStep, Shows, ItemStuck, Repaired, Removed, Stuck, Single, Jammed, Live;
    var items := disk.store.transactions.Keys;
    while items != {}
      invariant disk.Valid() && Extends(old(disk.trace), disk.trace)
      invariant disk.store.transactions.Keys == items
      invariant RecoverStep(s0, disk.store)
      invariant Single(s0) ==> (Stuck(disk.store, refused) <==> Stuck(s0, refused))
      invariant RecoverSteps(s0, disk.trace, |before|)
      invariant s0.transactions == map[] ==> disk.store == s0 && disk.trace == old(disk.trace)
      decreases items
    {
      var t :| t in items;
      hide RecoverSteps;
      ok := RecoverNext(disk, s0, before, t, refused);
      if !ok { return false; }
      items := items - {t};
    }
    NothingStuck(disk.store, refused);
    forall k, p ensures Shows(s0, k, p, LiveTree(disk.store, k, p)) {
      NothingPending(disk.store, k, p);
      RecoverStepShows(s0, disk.store, k, p, LiveTree(disk.store, k, p));
    }
    return true;
  }

  method RecoverNext(disk: Disk, ghost s0: Store, ghost before: seq<Store>, t: string, refused: set<string>)
    returns (ok: bool)
    requires disk.Valid() && RecoverStep(s0, disk.store) && t in disk.store.transactions
    requires Extends(before, disk.trace) && RecoverSteps(s0, disk.trace, |before|)
    modifies disk
    ensures disk.Valid() && Extends(before, disk.trace)
    ensures RecoverStep(s0, disk.store) && RecoverSteps(s0, disk.trace, |before|)
    ensures ok ==> disk.store.transactions.Keys == old(disk.store).transactions.Keys - {t}
    ensures ok && Single(s0) ==> (Stuck(disk.store, refused) <==> Stuck(old(disk.store), refused))
    ensures !ok ==> Stuck(disk.store, refused) && Jammed(s0, refused) && disk.store == old(disk.store)
  {
    ghost var s1 := disk.store;
    RecoverStepSingle(s0, s1);
    hide RecoverStep, RecoverSteps, ItemStuck, Repaired, Removed, Stuck, Single, Jammed, Jams;
    ok := RecoverItem(disk, t, t in refused);
    RecoverStepThen(s0, s1, disk.store);
    RecoverStepsThen(s0, s1, old(disk.trace), disk.trace, |before|);
    if ok {
      if Single(s0) { StuckStep(s1, t, refused); }
      RepairedKeys(s1, t);
    } else {
      StuckItem(s1, t, refused);
      RecoverStepJams(s0, s1, t, refused);
    }
  }

  lemma RecoverStepSingle(s0: Store, s: Store)
    requires RecoverStep(s0, s)
    ensures Single(s0) ==> Single(s)
  {
    hide Holds, Narrows, Whole, Jams;
  }

  lemma RecoverStepJams(s0: Store, s: Store, t: string, refused: set<string>)
    requires RecoverStep(s0, s) && ItemStuck(s, t, t in refused)
    ensures Jammed(s0, refused)
  {
    JamsIsStuck(s, t, t in refused);
    hide Holds, Narrows, Whole, Jams, ItemStuck, Single;
    assert Jams(s0, t, t in refused);
  }

  lemma StuckItem(s: Store, t: string, refused: set<string>)
    requires ItemStuck(s, t, t in refused)
    ensures Stuck(s, refused)
  {
  }

  lemma NothingStuck(s: Store, refused: set<string>)
    requires s.transactions == map[]
    ensures !Stuck(s, refused)
  {
  }

  lemma RecoverStepShows(s0: Store, s: Store, k: Kind, p: string, tree: Option<Tree>)
    requires RecoverStep(s0, s) && Shows(s, k, p, tree)
    ensures Shows(s0, k, p, tree)
  {
    hide Shows;
    assert Narrows(s0, s, k, p);
  }

  /** Before a job of `t` completes, at most its own backup is set aside in addition, no place that
      recovery moves settings to is filled, and only the named settings appear. */
  ghost predicate Modest(s0: Store, s: Store, t: string, kind: Kind, package: string, appearing: set<string>) {
    && (forall u, k, p :: Holds(s, u, k, p) ==>
          if u == t then k == kind && p == package
          else Holds(s0, u, k, p) && s.transactions[u].backup == s0.transactions[u].backup)
    && (forall u, p :: (RetainedName(u), p) in s.backups ==> (RetainedName(u), p) in s0.backups)
    && (forall p :: p in s.config ==> p in s0.config || p in appearing)
  }

  lemma ModestItself(s: Store, t: string, kind: Kind, package: string, appearing: set<string>)
    requires !HasBackup(s, t)
    ensures Modest(s, s, t, kind, package, appearing)
  {
    hide Names;
  }

  lemma ModestThen(s0: Store, s1: Store, s: Store, t: string, kind: Kind, package: string, appearing: set<string>)
    requires Modest(s0, s1, t, kind, package, appearing) && Modest(s1, s, t, kind, package, appearing)
    ensures Modest(s0, s, t, kind, package, appearing)
  {
    hide Holds, RetainedName;
  }

  /** Recovery could not move the settings it finds in this transaction next to the live ones. */
  ghost predicate SlotTaken(s: Store, u: string, t: string, kind: Kind, package: string, appearing: set<string>) {
    || (u == t && kind.Settings? && (RetainedName(t), package) in s.backups)
    || exists p :: p in appearing && Holds(s, u, Settings, p) && (RetainedName(u), p) in s.backups
  }

  lemma JamsOnSettings(s: Store, u: string, package: string)
    requires Holds(s, u, Settings, package)
    ensures Jams(s, u, false) <==> && (RetainedName(u), package) in s.backups
                                   && (package in s.config || Rivalled(s, u, Settings, package))
  {
    NamesWhatIsRead(s.transactions[u], Settings, package);
  }

  lemma JamsHolds(s: Store, u: string) returns (package: string)
    requires Jams(s, u, false)
    ensures Holds(s, u, Settings, package)
  {
    package := PackageOf(s.transactions[u]);
    NamesWhatIsRead(s.transactions[u], Settings, package);
  }

  /** A job can get recovery stuck only where a place is taken that its own backup, or an earlier
      one of the same package, would have to move to. */
  lemma ModestJams(s0: Store, s: Store, t: string, kind: Kind, package: string, appearing: set<string>, u: string)
    requires Modest(s0, s, t, kind, package, appearing) && Jams(s, u, false)
    requires kind.Settings? ==> package in appearing
    ensures Jams(s0, u, false) || SlotTaken(s0, u, t, kind, package, appearing)
  {
    var p := JamsHolds(s, u);
    JamsOnSettings(s, u, p);
    if Holds(s0, u, Settings, p) { JamsOnSettings(s0, u, p); }
    hide Names, Jams, RetainedName, Holds;
  }
}
