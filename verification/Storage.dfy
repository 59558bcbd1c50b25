/** The directories that a job of native/src/engine.cpp moves trees between, and what a crash
    can leave in them. */
module Storage {
  import opened Wrappers
  import opened Paths
  import opened JsonText
  import opened Ownership

  /** What lies below `transactions/<id>`. */
  datatype Transaction = Transaction(journal: Option<string>, staging: Option<Tree>, backup: Option<Tree>)

  const EMPTY_TRANSACTION := Transaction(None, None, None)

  /** Everything durable. `backups` is keyed by the directory below `vanahub/backups` and the
      addon's directory name in it. */
  datatype Store = Store(
    addons: map<string, Tree>,
    config: map<string, Tree>,
    backups: map<(string, string), Tree>,
    transactions: map<string, Transaction>
  )

  /** The two kinds of directory a transaction replaces. */
  datatype Kind = Addon | Settings

  function Live(s: Store, kind: Kind): map<string, Tree> {
    if kind.Addon? then s.addons else s.config
  }

  function JournalText(x: Transaction): string {
    if x.journal.Some? then x.journal.value else ""
  }

  /** What recovery takes the journal of a transaction to be about. */
  predicate Names(x: Transaction, kind: Kind, package: string) {
    && SafePackageId(package)
    && ReadString(JournalText(x), "packageId") == package
    && (kind.Settings? <==> ReadString(JournalText(x), "kind") == "settings")
  }

  predicate Holds(s: Store, t: string, kind: Kind, package: string) {
    t in s.transactions && s.transactions[t].backup.Some? && Names(s.transactions[t], kind, package)
  }

  predicate HasBackup(s: Store, t: string) {
    t in s.transactions && s.transactions[t].backup.Some?
  }

  /** No transaction has set a tree of the package aside. */
  ghost predicate Alone(s: Store, kind: Kind, package: string) {
    forall t :: !Holds(s, t, kind, package)
  }

  /** Some transaction has set this tree of the package aside. */
  ghost predicate Held(s: Store, kind: Kind, package: string, tree: Option<Tree>) {
    exists t :: Holds(s, t, kind, package) && s.transactions[t].backup == tree
  }

  function LiveTree(s: Store, kind: Kind, package: string): Option<Tree> {
    if package in Live(s, kind) then Some(Live(s, kind)[package]) else None
  }

  /** A tree that the package has, or may get from recovery: the live one, or else any that a
      journalled transaction has set aside, or none at all. */
  ghost predicate Shows(s: Store, kind: Kind, package: string, tree: Option<Tree>) {
    if package in Live(s, kind) then tree == LiveTree(s, kind, package)
    else Held(s, kind, package, tree) || (tree == None && Alone(s, kind, package))
  }

  /** Whatever `b` may show of the package, `a` may show as well. */
  ghost predicate Narrows(a: Store, b: Store, kind: Kind, package: string) {
    forall tree :: Shows(b, kind, package, tree) ==> Shows(a, kind, package, tree)
  }

  lemma NarrowsThen(a: Store, b: Store, c: Store, kind: Kind, package: string)
    requires Narrows(a, b, kind, package) && Narrows(b, c, kind, package)
    ensures Narrows(a, c, kind, package)
  {
    hide Shows;
  }

  /** There is always something to show, and only the live tree as long as nothing is set aside. */
  lemma SomethingIsShown(s: Store, kind: Kind, package: string) returns (tree: Option<Tree>)
    ensures Shows(s, kind, package, tree)
    ensures Alone(s, kind, package) ==>
              forall other :: Shows(s, kind, package, other) <==> other == LiveTree(s, kind, package)
  {
    hide Names;
    tree := LiveTree(s, kind, package);
    if package !in Live(s, kind) && !Alone(s, kind, package) {
      var t :| Holds(s, t, kind, package);
      tree := s.transactions[t].backup;
    }
  }

  /** Two states with the same tree live and the same trees set aside show the same. */
  lemma SameHolders(a: Store, b: Store, kind: Kind, package: string)
    requires LiveTree(a, kind, package) == LiveTree(b, kind, package)
    requires package !in Live(a, kind) ==>
               forall t :: && (Holds(a, t, kind, package) <==> Holds(b, t, kind, package))
                           && (Holds(a, t, kind, package) ==> a.transactions[t].backup == b.transactions[t].backup)
    ensures Narrows(a, b, kind, package) && Narrows(b, a, kind, package)
  {
    hide Names;
  }

  /** A transaction is being filled: only it differs, and it has set nothing aside. */
  ghost predicate Preparing(s0: Store, t: string, s: Store) {
    && s.addons == s0.addons && s.config == s0.config && s.backups == s0.backups
    && SameExcept(s0.transactions, s.transactions, t)
    && !HasBackup(s, t)
  }

  function WithTransaction(s: Store, t: string, x: Transaction): Store {
    s.(transactions := s.transactions[t := x])
  }

  lemma PreparingStep(s0: Store, t: string, s: Store, x: Transaction)
    requires Preparing(s0, t, s) && x.backup.None?
    ensures Preparing(s0, t, WithTransaction(s, t, x))
  {
  }

  predicate SameExcept(a: map<string, Transaction>, b: map<string, Transaction>, t: string) {
    && (forall u :: u in a && u != t ==> u in b && b[u] == a[u])
    && (forall u :: u in b && u != t ==> u in a)
  }

  /** Filling a transaction that holds nothing is not seen by anybody. */
  lemma PreparingIsInvisible(s0: Store, t: string, s: Store, kind: Kind, package: string)
    requires !HasBackup(s0, t) && Preparing(s0, t, s)
    ensures Narrows(s0, s, kind, package) && Narrows(s, s0, kind, package)
    ensures forall u :: HasBackup(s, u) <==> HasBackup(s0, u)
    ensures forall u :: Holds(s, u, kind, package) <==> Holds(s0, u, kind, package)
  {
    hide Names;
    SameHolders(s0, s, kind, package);
  }

  predicate Within(part: Option<Tree>, whole: Option<Tree>) {
    part.None? || (whole.Some? && forall path :: path in part.value ==>
                                    path in whole.value && part.value[path] == whole.value[path])
  }

  /** What an interrupted `remove_all` leaves of a transaction. */
  predicate Shrunk(before: Transaction, after: Transaction) {
    && (after.journal.None? || after.journal == before.journal)
    && Within(after.staging, before.staging)
    && Within(after.backup, before.backup)
  }

  predicate Erasing(s0: Store, t: string, s: Store) {
    || s == s0.(transactions := s0.transactions - {t})
    || (&& t in s0.transactions && t in s.transactions
        && s == s0.(transactions := s0.transactions[t := s.transactions[t]])
        && Shrunk(s0.transactions[t], s.transactions[t]))
  }

  lemma ErasingIsPreparing(s0: Store, t: string, s: Store)
    requires !HasBackup(s0, t) && Erasing(s0, t, s)
    ensures Preparing(s0, t, s)
  {
  }

  /** The tree a transaction has set aside is not needed any more. */
  ghost predicate Spent(s: Store, t: string) {
    forall kind, package :: Holds(s, t, kind, package) ==> package in Live(s, kind)
  }

  lemma ErasedHolders(s0: Store, t: string, s: Store, u: string, kind: Kind, package: string)
    requires Erasing(s0, t, s)
    ensures Holds(s, u, kind, package) ==> Holds(s0, u, kind, package)
    ensures u != t && Holds(s0, u, kind, package) ==> Holds(s, u, kind, package)
    ensures HasBackup(s, u) ==> HasBackup(s0, u)
    ensures Live(s, kind) == Live(s0, kind)
  {
    hide ReadString, SafePackageId;
    if u == t && Holds(s, u, kind, package) {
      NoJournalNamesNothing(s.transactions[t], kind, package);
    }
    hide Names;
  }

  lemma NoJournalNamesNothing(x: Transaction, kind: Kind, package: string)
    ensures Names(x, kind, package) ==> x.journal.Some?
  {
    assert ReadString("", "packageId") == "";
  }

  /** Removing a spent transaction, step by step, changes the tree of no package. */
  lemma ErasingIsInvisible(s0: Store, t: string, s: Store, kind: Kind, package: string)
    requires Spent(s0, t) && Erasing(s0, t, s)
    ensures Spent(s, t) && Narrows(s0, s, kind, package)
  {
    forall u, k, p { ErasedHolders(s0, t, s, u, k, p); }
    forall u | u != t { ErasedElsewhere(s0, t, s, u); }
    ErasedHolders(s0, t, s, t, kind, package);
    hide Erasing, Names, Shrunk, Live;
    if package !in Live(s, kind) {
      assert !Holds(s0, t, kind, package) && !Holds(s, t, kind, package);
      forall u ensures Holds(s0, u, kind, package) <==> Holds(s, u, kind, package) {
      }
      forall u | Holds(s0, u, kind, package) ensures s0.transactions[u].backup == s.transactions[u].backup {
        assert u != t;
      }
    }
    SameHolders(s0, s, kind, package);
  }

  lemma ErasedElsewhere(s0: Store, t: string, s: Store, u: string)
    requires Erasing(s0, t, s) && u != t
    ensures u in s0.transactions ==> u in s.transactions && s.transactions[u] == s0.transactions[u]
  {
  }

  lemma NamesOne(x: Transaction, kind: Kind, package: string, k: Kind, p: string)
    requires Names(x, kind, package) && Names(x, k, p)
    ensures k == kind && p == package
  {
    hide ReadString, SafePackageId;
  }

  function SetLive(s: Store, kind: Kind, trees: map<string, Tree>): Store {
    if kind.Addon? then s.(addons := trees) else s.(config := trees)
  }

  /** The rename of a live directory to the backup of a transaction. */
  function SetAside(s: Store, t: string, kind: Kind, package: string): Store
    requires package in Live(s, kind) && t in s.transactions
  {
    SetLive(s, kind, Live(s, kind) - {package})
      .(transactions := s.transactions[t := s.transactions[t].(backup := Some(Live(s, kind)[package]))])
  }

  /** The rename of the backup of a transaction to the live directory. */
  function PutBack(s: Store, t: string, kind: Kind, package: string): Store
    requires HasBackup(s, t)
  {
    SetLive(s, kind, Live(s, kind)[package := s.transactions[t].backup.value])
      .(transactions := s.transactions[t := s.transactions[t].(backup := None)])
  }

  /** Setting a tree aside changes nothing for other packages; this one shows it, together with
      what other transactions hold of it. */
  lemma SetAsideShows(s: Store, t: string, kind: Kind, package: string, k: Kind, p: string)
    requires package in Live(s, kind) && !HasBackup(s, t)
    requires t in s.transactions && Names(s.transactions[t], kind, package)
    ensures var s' := SetAside(s, t, kind, package);
            && Holds(s', t, kind, package)
            && (k != kind || p != package ==> Narrows(s, s', k, p) && Narrows(s', s, k, p))
            && forall tree :: Shows(s', kind, package, tree) <==>
                                tree == LiveTree(s, kind, package) || Held(s, kind, package, tree)
  {
    hide ReadString, SafePackageId;
    var s' := SetAside(s, t, kind, package);
    assert Names(s'.transactions[t], kind, package);
    forall u ensures Holds(s', u, k, p) <==> Holds(s, u, k, p) || (u == t && k == kind && p == package) {
      if u == t && Holds(s', t, k, p) { NamesOne(s'.transactions[t], kind, package, k, p); }
    }
    forall u ensures Holds(s', u, kind, package) <==> Holds(s, u, kind, package) || u == t {
    }
    hide Names;
    if k != kind || p != package { SameHolders(s, s', k, p); }
    forall tree ensures Shows(s', kind, package, tree) <==>
                          tree == LiveTree(s, kind, package) || Held(s, kind, package, tree)
    {
      if Held(s, kind, package, tree) {
        var u :| Holds(s, u, kind, package) && s.transactions[u].backup == tree;
        assert Holds(s', u, kind, package) && s'.transactions[u].backup == tree;
      }
    }
  }

  /** Putting a tree back leaves it as the only one its package shows, and changes nothing for
      other packages. */
  lemma PutBackIsInvisible(s: Store, t: string, kind: Kind, package: string, k: Kind, p: string)
    requires Holds(s, t, kind, package) && package !in Live(s, kind)
    ensures var s' := PutBack(s, t, kind, package);
            && !HasBackup(s', t) && Narrows(s, s', k, p)
            && LiveTree(s', kind, package) == s.transactions[t].backup
            && forall u :: Holds(s', u, k, p) <==> Holds(s, u, k, p) && u != t
  {
    hide ReadString, SafePackageId;
    var s' := PutBack(s, t, kind, package);
    if Holds(s, t, k, p) { NamesOne(s.transactions[t], kind, package, k, p); }
    hide Names;
    if k != kind || p != package { SameHolders(s, s', k, p); }
  }

  /** Putting a new tree at a vacant place is seen for that package only. */
  lemma ReplaceIsLocal(s: Store, s': Store, t: string, kind: Kind, package: string, tree: Tree, k: Kind, p: string)
    requires package !in Live(s, kind)
    requires t in s.transactions && SetLive(s, kind, Live(s, kind)[package := tree])
      .(transactions := s.transactions[t := s.transactions[t].(staging := None)]) == s'
    ensures LiveTree(s', kind, package) == Some(tree)
    ensures k != kind || p != package ==> Narrows(s, s', k, p) && Narrows(s', s, k, p)
    ensures forall u :: Holds(s', u, k, p) <==> Holds(s, u, k, p)
  {
    hide ReadString, SafePackageId;
    assert Names(s'.transactions[t], k, p) <==> Names(s.transactions[t], k, p);
    hide Names;
    if k != kind || p != package { SameHolders(s, s', k, p); }
  }

  /** The tree is somewhere on disk, complete: live, set aside by a journalled transaction, or in
      the backups directory. */
  ghost predicate Whole(s: Store, package: string, tree: Tree) {
    || LiveTree(s, Settings, package) == Some(tree)
    || Held(s, Settings, package, Some(tree))
    || InBackups(s, package, tree)
  }

  ghost predicate InBackups(s: Store, package: string, tree: Tree) {
    exists directory :: (directory, package) in s.backups && s.backups[(directory, package)] == tree
  }

  lemma MoreBackups(a: Store, b: Store, package: string, tree: Tree)
    requires forall key :: key in a.backups ==> key in b.backups && b.backups[key] == a.backups[key]
    requires InBackups(a, package, tree)
    ensures InBackups(b, package, tree)
  {
    var directory :| (directory, package) in a.backups && a.backups[(directory, package)] == tree;
    assert (directory, package) in b.backups;
  }

  lemma HeldBy(s: Store, t: string, kind: Kind, package: string)
    requires Holds(s, t, kind, package)
    ensures Held(s, kind, package, s.transactions[t].backup)
  {
    hide Names;
  }

  /** Trees set aside in `a` still are in `b`, but for the one that `t` held of one package. */
  lemma HeldElsewhere(a: Store, b: Store, t: string, kind: Kind, package: string, tree: Option<Tree>)
    requires Held(a, kind, package, tree)
    requires forall u :: u != t && Holds(a, u, kind, package) ==>
                           Holds(b, u, kind, package) && b.transactions[u].backup == a.transactions[u].backup
    ensures Held(b, kind, package, tree) || (Holds(a, t, kind, package) && a.transactions[t].backup == tree)
  {
    hide Names;
  }
}
