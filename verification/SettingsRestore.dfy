/** The `restoreProfileSettings` job of native/src/engine.cpp. */
module SettingsRestore {
  import opened Wrappers
  import opened Paths
  import opened JsonText
  import opened Ownership
  import opened Storage
  import opened Disks
  import opened Recovery
  import opened SettingsSteps

  /** What the operating system refuses: the recursive copy, the renames to the transaction's
      backup, to the live directory and back, and the last one to the backups directory. */
  datatype Refusals = Refusals(copy: bool, backUp: bool, commit: bool, rollback: bool, retain: bool)

  datatype Outcome = Done | InvalidArgument | NotFound | CopyFailed | BackUpFailed | CommitFailed

  function RestoreOutcome(s: Store, package: string, source: Option<Tree>, refused: Refusals): Outcome {
    if package == "vanahub" then InvalidArgument
    else if source.None? then NotFound
    else if refused.copy then CopyFailed
    else if package in s.config && refused.backUp then BackUpFailed
    else if refused.commit then CommitFailed
    else Done
  }

  /** The cases in which the job removes the old settings together with its transaction. */
  predicate Drops(s: Store, t: string, package: string, source: Option<Tree>, refused: Refusals) {
    && package in s.config
    && var outcome := RestoreOutcome(s, package, source, refused);
    || (outcome.CommitFailed? && refused.rollback)
    || (outcome.Done? && (refused.retain || (t, package) in s.backups))
  }

  /** The disk once the job has finished. */
  function Final(s: Store, t: string, package: string, source: Option<Tree>, refused: Refusals): Store {
    var outcome := RestoreOutcome(s, package, source, refused);
    var cleared := s.config - {TemporaryName(package)};
    if outcome.InvalidArgument? || outcome.NotFound? then s
    else if outcome.Done? && source.Some? then
      s.(config := cleared[package := source.value],
         backups := if package in s.config && !Drops(s, t, package, source, refused)
                    then s.backups[(t, package) := s.config[package]] else s.backups,
         transactions := s.transactions - {t})
    else
      s.(config := if Drops(s, t, package, source, refused) then cleared - {package} else cleared,
         transactions := s.transactions - {t})
  }

  /** The job takes the old settings away before the new ones are live, or drops the only copy. */
  ghost predicate Fails(s: Store, t: string, package: string, source: Option<Tree>, refused: Refusals) {
    && Drops(s, t, package, source, refused)
    && (|| RestoreOutcome(s, package, source, refused).CommitFailed?
        || (source != Some(s.config[package]) && !Elsewhere(s, t, package, s.config[package])))
  }

  /** What a job is checked against: the disk it started from, whether its id was free there, and
      whether it is safe. */
  datatype Watch = Watch(free: bool, safe: bool, start: Store, before: seq<Store>, t: string, package: string,
                         source: Option<Tree>)

  ghost predicate Good(w: Watch, s: Store) {
    w.free ==> RestoreStep(w.start, s, w.t, w.package, w.source, w.safe)
  }

  ghost predicate Watching(disk: Disk, w: Watch)
    reads disk
  {
    && disk.Valid() && Extends(w.before, disk.trace) && Good(w, disk.store)
    && forall k :: |w.before| <= k < |disk.trace| ==> Good(w, disk.trace[k])
  }

  lemma WatchingHolds(disk: Disk, w: Watch)
    requires Watching(disk, w)
    ensures disk.Valid() && Extends(w.before, disk.trace) && Good(w, disk.store)
  {
  }

  method Step(disk: Disk, ghost w: Watch, next: Store)
    requires Watching(disk, w) && Good(w, next)
    modifies disk
    ensures Watching(disk, w) && disk.store == next
  {
    hide Good;
    disk.Commit(next);
  }

  function WithTemporary(s: Store, package: string, tree: Tree): Store {
    s.(config := s.config[TemporaryName(package) := tree])
  }

  function WithoutTemporary(s: Store, package: string): Store {
    s.(config := s.config - {TemporaryName(package)})
  }

  lemma TemporaryOnly(s: Store, package: string, a: Tree, b: Tree)
    ensures ConfigOnly(s, TemporaryName(package), WithTemporary(s, package, a))
    ensures ConfigOnly(s, TemporaryName(package), WithoutTemporary(s, package))
    ensures WithTemporary(WithTemporary(s, package, a), package, b) == WithTemporary(s, package, b)
    ensures WithoutTemporary(WithTemporary(s, package, a), package) == WithoutTemporary(s, package)
    ensures TemporaryName(package) in s.config ==>
              WithTemporary(s, package, s.config[TemporaryName(package)]) == s
  {
    var name := TemporaryName(package);
    assert s.config[name := a][name := b] == s.config[name := b];
    assert s.config[name := a] - {name} == s.config - {name};
    assert name in s.config ==> s.config[name := s.config[name]] == s.config;
  }

  lemma GoodTemporary(w: Watch, a: Store, b: Store)
    requires Good(w, a) && ConfigOnly(a, TemporaryName(w.package), b)
    ensures Good(w, b)
  {
    hide RestoreStep, ConfigOnly;
    if w.free { TemporaryStep(w.start, a, b, w.t, w.package, w.source, w.safe); }
  }

  lemma GoodQuiet(w: Watch, a: Store, b: Store, safe: bool)
    requires Good(w, a) && (w.free ==> Quiet(a, b, w.t, w.package, safe)) && (w.safe ==> safe)
    ensures Good(w, b)
  {
    hide RestoreStep, Modest, Narrows, Whole;
    if w.free { QuietStep(w.start, a, b, w.t, w.package, w.source, w.safe); }
  }

  /** `fs::remove_all` on the temporary directory. */
  method ClearTemporary(disk: Disk, ghost w: Watch, package: string)
    requires Watching(disk, w) && package == w.package
    modifies disk
    ensures Watching(disk, w)
    ensures disk.store == WithoutTemporary(old(disk.store), package)
  {
    hide Good, Watching, WithTemporary, WithoutTemporary, ConfigOnly;
    var s1 := disk.store;
    if TemporaryName(package) in s1.config {
      var tree := s1.config[TemporaryName(package)];
      TemporaryOnly(s1, package, tree, tree);
      while tree != map[]
        invariant Watching(disk, w)
        invariant disk.store == WithTemporary(s1, package, tree)
        decreases |tree|
      {
        var rest := RemoveFile(tree);
        TemporaryOnly(s1, package, tree, rest);
        tree := rest;
        WriteTemporary(disk, w, package, tree);
      }
      TemporaryOnly(s1, package, tree, tree);
    }
    WatchingHolds(disk, w);
    TemporaryOnly(disk.store, package, map[], map[]);
    GoodTemporary(w, disk.store, WithoutTemporary(disk.store, package));
    Step(disk, w, WithoutTemporary(disk.store, package));
  }

  method WriteTemporary(disk: Disk, ghost w: Watch, package: string, tree: Tree)
    requires Watching(disk, w) && package == w.package
    modifies disk
    ensures Watching(disk, w)
    ensures disk.store == WithTemporary(old(disk.store), package, tree)
  {
    hide Good, Watching, ConfigOnly, WithTemporary;
    WatchingHolds(disk, w);
    TemporaryOnly(disk.store, package, tree, tree);
    GoodTemporary(w, disk.store, WithTemporary(disk.store, package, tree));
    Step(disk, w, WithTemporary(disk.store, package, tree));
  }

  /** The recursive copy of the staged settings, file by file; it may stop anywhere. */
  method CopyIn(disk: Disk, ghost w: Watch, package: string, source: Tree, fails: bool) returns (copied: Tree)
    requires Watching(disk, w) && package == w.package
    modifies disk
    ensures Watching(disk, w)
    ensures disk.store == WithTemporary(old(disk.store), package, copied)
    ensures !fails ==> copied == source
  {
    hide Good, Watching, WithTemporary, ConfigOnly;
    ghost var s1 := disk.store;
    var left := source.Keys;
    copied := map[];
    WriteTemporary(disk, w, package, copied);
    while left != {}
      invariant Watching(disk, w)
      invariant left <= source.Keys && copied.Keys == source.Keys - left
      invariant forall path :: path in copied ==> copied[path] == source[path]
      invariant disk.store == WithTemporary(s1, package, copied)
      decreases left
    {
      if fails {
        if * { return; }
      }
      var path :| path in left;
      var more := copied[path := source[path]];
      TemporaryOnly(s1, package, copied, more);
      left, copied := left - {path}, more;
      WriteTemporary(disk, w, package, copied);
    }
    assert copied == source;
  }

  /** `fs::remove_all` on the transaction. */
  method Discard(disk: Disk, ghost w: Watch, t: string)
    requires Watching(disk, w) && t == w.t
    requires w.free ==> Own(disk.store, t, w.package) && (w.safe ==> Spare(disk.store, t, w.package))
    modifies disk
    ensures Watching(disk, w)
    ensures disk.store == Removed(old(disk.store), t)
  {
    ghost var s1, middle := disk.store, disk.trace;
    WatchingHolds(disk, w);
    disk.RemoveTransaction(t);
    hide Good, Erasing, Quiet, Spare, Own;
    forall k | |middle| <= k < |disk.trace| ensures Good(w, disk.trace[k]) {
      if w.free { ErasingIsQuiet(s1, t, disk.trace[k], w.package, w.safe); }
      GoodQuiet(w, s1, disk.trace[k], w.safe);
    }
    RemovedIsErased(s1, t);
    if w.free { ErasingIsQuiet(s1, t, disk.store, w.package, w.safe); }
    GoodQuiet(w, s1, disk.store, w.safe);
  }

  /** The transaction directory is created and journalled. */
  method Journal(disk: Disk, ghost w: Watch, t: string, package: string)
    requires Watching(disk, w) && t == w.t && package == w.package && !HasBackup(disk.store, t)
    modifies disk
    ensures Watching(disk, w)
    ensures disk.store == WithTransaction(old(disk.store), t, Transaction(Some(SettingsJournal(package)), None, None))
  {
    ghost var s1, middle := disk.store, disk.trace;
    WatchingHolds(disk, w);
    assert Preparing(s1, t, s1);
    disk.Create(s1, t, SettingsJournal(package));
    hide Good, Preparing, Quiet, HasBackup;
    forall k | |middle| <= k < |disk.trace| ensures Good(w, disk.trace[k]) {
      PreparingIsQuiet(s1, t, disk.trace[k], package);
      GoodQuiet(w, s1, disk.trace[k], true);
    }
    PreparingIsQuiet(s1, t, disk.store, package);
    GoodQuiet(w, s1, disk.store, true);
  }

  function Aside(s: Store, t: string, package: string): Store
    requires t in s.transactions
  {
    if package in s.config then SetAside(s, t, Settings, package) else s
  }

  /** The rename of the live settings, if there are any, to the transaction's backup. */
  method MoveAside(disk: Disk, ghost w: Watch, t: string, package: string)
    requires Watching(disk, w) && t == w.t && package == w.package && Staged(disk.store, t, package)
    modifies disk
    ensures Watching(disk, w)
    ensures t in old(disk.store).transactions && disk.store == Aside(old(disk.store), t, package)
  {
    if package in disk.store.config {
      hide Names, RestoreStep, Watching, SetAside;
      WatchingHolds(disk, w);
      if w.free { AsideStep(w.start, disk.store, t, package, w.source, w.safe); }
      Step(disk, w, SetAside(disk.store, t, Settings, package));
    }
  }

  lemma AsideFacts(s: Store, t: string, package: string)
    requires Staged(s, t, package)
    ensures t in s.transactions
    ensures var a := Aside(s, t, package);
            && package !in a.config && t in a.transactions
            && (HasBackup(a, t) <==> package in s.config)
            && (package in s.config ==> Holds(a, t, Settings, package)
                                        && a.transactions[t].backup == Some(s.config[package]))
            && a.backups == s.backups && Removed(a, t) == s.(config := s.config - {package}, transactions := s.transactions - {t})
  {
    hide ReadString, SafePackageId;
    var a := Aside(s, t, package);
    assert Names(a.transactions[t], Settings, package);
    assert a.transactions - {t} == s.transactions - {t};
    assert s.config - {package} == a.config;
  }

  /** A refused commit: the old settings go back, unless that is refused too. */
  method RollBack(disk: Disk, ghost w: Watch, t: string, package: string, ghost s: Store, refused: bool)
    requires Watching(disk, w) && t == w.t && package == w.package && Staged(s, t, package)
    requires t in s.transactions && disk.store == Aside(s, t, package)
    requires w.safe ==> !(package in s.config && refused)
    modifies disk
    ensures Watching(disk, w)
    ensures disk.store == RolledBack(s, t, package, package in s.config && refused)
  {
    AsideFacts(s, t, package);
    TemporaryDiffers(package);
    hide Names, Good, Watching, SetAside, Aside, Holds, TemporaryName, Removed, Quiet, Elsewhere, Own, Spare;
    ClearTemporary(disk, w, package);
    WatchingHolds(disk, w);
    ghost var a := disk.store;
    assert HasBackup(a, t) <==> package in s.config;
    if HasBackup(disk.store, t) {
      assert Holds(a, t, Settings, package) by { SameTransactions(Aside(s, t, package), a, t, Settings, package); }
      if refused {
        HolderIsOwn(a, t, package);
        Discard(disk, w, t);
        LostBackup(s, t, package);
        return;
      }
      PutBackIsQuiet(disk.store, t, package);
      GoodQuiet(w, disk.store, PutBack(disk.store, t, Settings, package), true);
      Step(disk, w, PutBack(disk.store, t, Settings, package));
      BackInPlace(s, t, package);
    }
    NothingIsOwn(disk.store, t, package);
    Discard(disk, w, t);
    PlainRollBack(s, t, package);
  }

  function RolledBack(s: Store, t: string, package: string, lost: bool): Store {
    var cleared := s.config - {TemporaryName(package)};
    s.(config := if lost then cleared - {package} else cleared, transactions := s.transactions - {t})
  }

  lemma LostBackup(s: Store, t: string, package: string)
    requires Staged(s, t, package) && package in s.config
    ensures Removed(WithoutTemporary(Aside(s, t, package), package), t) == RolledBack(s, t, package, true)
  {
    AsideFacts(s, t, package);
    var a := Aside(s, t, package);
    assert a.transactions - {t} == s.transactions - {t};
    assert a.config - {TemporaryName(package)} == s.config - {TemporaryName(package)} - {package};
  }

  lemma BackInPlace(s: Store, t: string, package: string)
    requires Staged(s, t, package) && package in s.config
    ensures HasBackup(WithoutTemporary(Aside(s, t, package), package), t)
    ensures Removed(PutBack(WithoutTemporary(Aside(s, t, package), package), t, Settings, package), t)
            == RolledBack(s, t, package, false)
  {
    AsideFacts(s, t, package);
    TemporaryDiffers(package);
    var a := WithoutTemporary(Aside(s, t, package), package);
    var b := PutBack(a, t, Settings, package);
    assert b.transactions - {t} == s.transactions - {t};
    assert b.config == s.config - {TemporaryName(package)};
  }

  lemma PlainRollBack(s: Store, t: string, package: string)
    requires Staged(s, t, package)
    ensures package !in s.config ==>
              Removed(WithoutTemporary(Aside(s, t, package), package), t) == RolledBack(s, t, package, false)
  {
  }

  /** The new settings go live and the old ones to the backups directory; the transaction is
      removed whether or not that last rename succeeded. */
  method PutInPlace(disk: Disk, ghost w: Watch, t: string, package: string, source: Tree, ghost s: Store, refused: bool)
    requires Watching(disk, w) && t == w.t && package == w.package && w.source == Some(source)
    requires Staged(s, t, package) && t in s.transactions && disk.store == Aside(s, t, package) && IsJobId(t)
    requires w.safe && package in s.config && (refused || (t, package) in s.backups) ==>
               source == s.config[package] || Elsewhere(s, t, package, s.config[package])
    modifies disk
    ensures Watching(disk, w)
    ensures disk.store == InPlace(s, t, package, source, package in s.config && (refused || (t, package) in s.backups))
  {
    hide Names, RestoreStep, Watching, SetAside, Staged, Aside, Holds, TemporaryName, Committed, Retain, InPlace, Quiet,
         Elsewhere, Removed, IsJobId, Own;
    AsideFacts(s, t, package);
    WatchingHolds(disk, w);
    if w.free { CommittedStep(w.start, disk.store, t, package, source, w.safe); }
    Step(disk, w, Committed(disk.store, package, source));
    CommittedFacts(s, t, package, source);
    WatchingHolds(disk, w);
    if HasBackup(disk.store, t) {
      if refused || (t, package) in disk.store.backups {
        HolderIsOwn(disk.store, t, package);
        Discard(disk, w, t);
        return;
      }
      RetainIsQuiet(disk.store, t, package);
      GoodQuiet(w, disk.store, Retain(disk.store, t, t, package), true);
      Step(disk, w, Retain(disk.store, t, t, package));
      RetainedFacts(s, t, package, source);
    }
    NothingIsOwn(disk.store, t, package);
    Discard(disk, w, t);
  }

  function InPlace(s: Store, t: string, package: string, source: Tree, lost: bool): Store {
    s.(config := (s.config - {TemporaryName(package)})[package := source],
       backups := if package in s.config && !lost then s.backups[(t, package) := s.config[package]] else s.backups,
       transactions := s.transactions - {t})
  }

  lemma CommittedFacts(s: Store, t: string, package: string, source: Tree)
    requires Staged(s, t, package)
    ensures t in s.transactions
    ensures var c := Committed(Aside(s, t, package), package, source);
            && c.backups == s.backups && LiveTree(c, Settings, package) == Some(source)
            && (HasBackup(c, t) <==> package in s.config)
            && (package in s.config ==>
                  && Holds(c, t, Settings, package) && c.transactions[t].backup == Some(s.config[package])
                  && (Elsewhere(c, t, package, s.config[package]) <==> Elsewhere(s, t, package, s.config[package]))
                  && Removed(c, t) == InPlace(s, t, package, source, true))
            && (package !in s.config ==> Removed(c, t) == InPlace(s, t, package, source, false))
  {
    AsideFacts(s, t, package);
    hide ReadString, SafePackageId, Names;
    var a := Aside(s, t, package);
    var c := Committed(a, package, source);
    SameTransactions(a, c, t, Settings, package);
    assert c.transactions - {t} == s.transactions - {t};
    TemporaryDiffers(package);
    assert c.config == (s.config - {TemporaryName(package)})[package := source];
    if package in s.config { SameElsewhere(s, c, t, package, s.config[package]); }
    hide Elsewhere, Holds;
  }

  lemma SameElsewhere(a: Store, b: Store, t: string, package: string, tree: Tree)
    requires a.transactions - {t} == b.transactions - {t} && a.backups == b.backups
    ensures Elsewhere(a, t, package, tree) <==> Elsewhere(b, t, package, tree)
  {
    forall u { SameTransactions(Removed(a, t), Removed(b, t), u, Settings, package); }
    hide Holds;
  }

  lemma RetainedFacts(s: Store, t: string, package: string, source: Tree)
    requires Staged(s, t, package) && package in s.config
    ensures t in s.transactions && HasBackup(Committed(Aside(s, t, package), package, source), t)
    ensures var r := Retain(Committed(Aside(s, t, package), package, source), t, t, package);
            !HasBackup(r, t) && Removed(r, t) == InPlace(s, t, package, source, false)
  {
    AsideFacts(s, t, package);
    CommittedFacts(s, t, package, source);
    hide ReadString, SafePackageId, Elsewhere;
    var r := Retain(Committed(Aside(s, t, package), package, source), t, t, package);
    assert r.transactions - {t} == s.transactions - {t};
    TemporaryDiffers(package);
    assert r.config == (s.config - {TemporaryName(package)})[package := source];
  }

  /** The renames, from a disk on which everything is staged. */
  method Exchange(disk: Disk, ghost w: Watch, t: string, package: string, source: Tree, refused: Refusals)
    returns (outcome: Outcome)
    requires Watching(disk, w) && t == w.t && package == w.package && w.source == Some(source)
    requires Staged(disk.store, t, package) && IsJobId(t)
    requires package != "vanahub" && !refused.copy
    requires w.safe ==> !Fails(disk.store, t, package, Some(source), refused)
    modifies disk
    ensures Watching(disk, w)
    ensures outcome == RestoreOutcome(old(disk.store), package, Some(source), refused)
    ensures disk.store == Final(old(disk.store), t, package, Some(source), refused)
  {
    ghost var s := disk.store;
    FinalCases(s, t, package, source, refused);
    hide Names, Good, Watching, SetAside, Holds, TemporaryName, Final, Fails, Drops, RolledBack, InPlace, Removed,
         WithoutTemporary, Elsewhere, IsJobId, Own, Spare;
    if package in disk.store.config && refused.backUp {
      ClearTemporary(disk, w, package);
      WithoutTemporaryHolds(s, t, package);
      NothingIsOwn(disk.store, t, package);
      Discard(disk, w, t);
      return BackUpFailed;
    }
    MoveAside(disk, w, t, package);
    hide Aside, Staged;
    if refused.commit {
      RollBack(disk, w, t, package, s, refused.rollback);
      return CommitFailed;
    }
    PutInPlace(disk, w, t, package, source, s, refused.retain);
    return Done;
  }

  lemma WithoutTemporaryHolds(s: Store, t: string, package: string)
    ensures HasBackup(WithoutTemporary(s, package), t) <==> HasBackup(s, t)
  {
  }

  lemma FinalCases(s: Store, t: string, package: string, source: Tree, refused: Refusals)
    requires package != "vanahub" && !refused.copy
    ensures var outcome := RestoreOutcome(s, package, Some(source), refused);
            && (outcome.BackUpFailed? ==>
                  Final(s, t, package, Some(source), refused) == Removed(WithoutTemporary(s, package), t))
            && (outcome.CommitFailed? ==>
                  var lost := package in s.config && refused.rollback;
                  && (lost ==> Fails(s, t, package, Some(source), refused))
                  && Final(s, t, package, Some(source), refused) == RolledBack(s, t, package, lost))
            && (outcome.Done? ==>
                  var lost := package in s.config && (refused.retain || (t, package) in s.backups);
                  && (lost && !Fails(s, t, package, Some(source), refused) ==>
                        source == s.config[package] || Elsewhere(s, t, package, s.config[package]))
                  && Final(s, t, package, Some(source), refused) == InPlace(s, t, package, source, lost))
  {
    hide Elsewhere;
  }

  /** Restoring the settings of one package, on whatever disk. If the id of the job names no
      transaction that holds a backup, every state of the disk leaves the other packages alone, and
      shows the old settings or the new ones and holds the old ones whole unless the job fails; where
      no settings of the package were set aside before, this condition is exact. */
  method Restore(disk: Disk, t: string, package: string, source: Option<Tree>, refused: Refusals)
    returns (outcome: Outcome)
    requires disk.Valid() && SafePackageId(package) && IsJobId(t)
    modifies disk
    ensures disk.Valid() && Extends(old(disk.trace), disk.trace)
    ensures outcome == RestoreOutcome(old(disk.store), package, source, refused)
    ensures disk.store == Final(old(disk.store), t, package, source, refused)
    ensures outcome.Done? <==> && package != "vanahub" && source.Some? && !refused.copy && !refused.commit
                               && !(package in old(disk.store).config && refused.backUp)
    ensures outcome.Done? ==> package in disk.store.config && Some(disk.store.config[package]) == source
    ensures outcome.Done? && package in old(disk.store).config && !refused.retain
            && (t, package) !in old(disk.store).backups ==>
              && (t, package) in disk.store.backups
              && disk.store.backups[(t, package)] == old(disk.store).config[package]
    ensures !outcome.Done? ==>
              LiveTree(disk.store, Settings, package) ==
              if outcome.CommitFailed? && refused.rollback then None else LiveTree(old(disk.store), Settings, package)
    ensures !HasBackup(old(disk.store), t) ==>
              RestoreSteps(old(disk.store), disk.trace, |old(disk.trace)|, t, package, source,
                           !Fails(old(disk.store), t, package, source, refused))
    ensures !HasBackup(old(disk.store), t) && Alone(old(disk.store), Settings, package) ==>
              (RestoreSteps(old(disk.store), disk.trace, |old(disk.trace)|, t, package, source, true) <==>
               !Fails(old(disk.store), t, package, source, refused))
  {
    if package == "vanahub" { return InvalidArgument; }
    if source.None? { return NotFound; }
    ghost var s0 := disk.store;
    ghost var w := Watch(!HasBackup(s0, t), !Fails(s0, t, package, source, refused), s0, disk.trace, t, package, source);
    if w.free { RestoreStepItself(s0, t, package, source, w.safe); }
    hide RestoreStep, RestoreSteps, Fails, Alone, Final;
    outcome := Perform(disk, w, t, package, source.value, refused);
    OutcomeIs(s0, t, package, source, refused);
    hide *;
    Judge(disk, w, refused);
  }

  lemma OutcomeIs(s: Store, t: string, package: string, source: Option<Tree>, refused: Refusals)
    requires Starts(package, source)
    ensures var last, outcome := Final(s, t, package, source, refused), RestoreOutcome(s, package, source, refused);
            && (outcome.Done? <==> !refused.copy && !refused.commit && !(package in s.config && refused.backUp))
            && (outcome.Done? ==> package in last.config && Some(last.config[package]) == source)
            && (outcome.Done? && package in s.config && !refused.retain && (t, package) !in s.backups ==>
                  (t, package) in last.backups && last.backups[(t, package)] == s.config[package])
            && (!outcome.Done? ==>
                  LiveTree(last, Settings, package) ==
                  if outcome.CommitFailed? && refused.rollback then None else LiveTree(s, Settings, package))
  {
    TemporaryDiffers(package);
    hide TemporaryName;
  }

  /** The job past its first two checks. */
  method Perform(disk: Disk, ghost w: Watch, t: string, package: string, source: Tree, refused: Refusals)
    returns (outcome: Outcome)
    requires Watching(disk, w) && t == w.t && package == w.package && w.source == Some(source) && disk.store == w.start
    requires SafePackageId(package) && IsJobId(t) && package != "vanahub"
    requires (w.free ==> !HasBackup(w.start, t)) && (w.safe ==> !Fails(w.start, t, package, w.source, refused))
    modifies disk
    ensures Watching(disk, w)
    ensures outcome == RestoreOutcome(w.start, package, w.source, refused)
    ensures disk.store == Final(w.start, t, package, w.source, refused)
  {
    ghost var s0 := disk.store;
    WithoutTemporaryHolds(s0, t, package);
    if w.free { NothingIsOwn(WithoutTemporary(s0, package), t, package); }
    hide Good, Watching, SafePackageId, Removed, Fails, Spare, Own, Staged, WithTemporary, WithoutTemporary, WithTransaction,
         Final, RestoreOutcome, IsJobId, HasBackup;
    ClearTemporary(disk, w, package);
    Discard(disk, w, t);
    ghost var base := disk.store;
    var copied := CopyIn(disk, w, package, source, refused.copy);
    TemporaryOnly(base, package, copied, copied);
    StagedFacts(s0, t, package, copied, w.source, refused);
    if refused.copy {
      ClearTemporary(disk, w, package);
      outcome := CopyFailed;
    } else {
      Journal(disk, w, t, package);
      outcome := Exchange(disk, w, t, package, source, refused);
    }
  }

  /** Whether all states were good ones. */
  lemma Judge(disk: Disk, w: Watch, refused: Refusals)
    requires Watching(disk, w) && w.before != [] && w.before[|w.before| - 1] == w.start
    requires w.free <==> !HasBackup(w.start, w.t)
    requires w.safe <==> !Fails(w.start, w.t, w.package, w.source, refused)
    requires disk.store == Final(w.start, w.t, w.package, w.source, refused)
    ensures disk.Valid() && Extends(w.before, disk.trace)
    ensures w.free ==> RestoreSteps(w.start, disk.trace, |w.before|, w.t, w.package, w.source, w.safe)
    ensures w.free && Alone(w.start, Settings, w.package) && !w.safe ==>
              !RestoreSteps(w.start, disk.trace, |w.before|, w.t, w.package, w.source, true)
  {
    hide RestoreStep, RestoreSteps, Fails, Alone, Final, HasBackup;
    if w.free { WatchingSteps(disk, w); }
    if w.free && Alone(w.start, Settings, w.package) && !w.safe {
      FailureShows(w.start, w.t, w.package, w.source, refused);
      RestoreStepItself(w.start, w.t, w.package, w.source, true);
      LastStep(disk, w);
    }
  }

  lemma WatchingSteps(disk: Disk, w: Watch)
    requires Watching(disk, w) && w.free
    ensures RestoreSteps(w.start, disk.trace, |w.before|, w.t, w.package, w.source, w.safe)
  {
    hide RestoreStep;
  }

  lemma LastStep(disk: Disk, w: Watch)
    requires disk.Valid() && Extends(w.before, disk.trace) && w.before != [] && w.before[|w.before| - 1] != disk.store
    requires !RestoreStep(w.start, disk.store, w.t, w.package, w.source, true)
    ensures !RestoreSteps(w.start, disk.trace, |w.before|, w.t, w.package, w.source, true)
  {
    hide RestoreStep;
    assert disk.trace[|disk.trace| - 1] == disk.store;
  }

  /** What the last part of the job starts from, and that it ends as if it started from `s`. */
  lemma StagedFacts(s: Store, t: string, package: string, tree: Tree, source: Option<Tree>, refused: Refusals)
    requires SafePackageId(package) && source.Some? && package != "vanahub"
    ensures var base := Removed(WithoutTemporary(s, package), t);
            var copied := WithTemporary(base, package, tree);
            var staged := WithTransaction(copied, t, Transaction(Some(SettingsJournal(package)), None, None));
            && !HasBackup(copied, t) && Staged(staged, t, package)
            && RestoreOutcome(staged, package, source, refused) == RestoreOutcome(s, package, source, refused)
            && (Fails(staged, t, package, source, refused) <==> Fails(s, t, package, source, refused))
            && Final(staged, t, package, source, refused) == Final(s, t, package, source, refused)
            && (refused.copy ==> WithoutTemporary(copied, package) == Final(s, t, package, source, refused)
                                 && RestoreOutcome(s, package, source, refused) == CopyFailed)
  {
    var base := Removed(WithoutTemporary(s, package), t);
    var copied := WithTemporary(base, package, tree);
    var staged := WithTransaction(copied, t, Transaction(Some(SettingsJournal(package)), None, None));
    JournalNamesSettings(package, staged.transactions[t]);
    hide Names, SettingsJournal, SafePackageId, Fails, Elsewhere;
    SameButStaging(s, t, package, tree, staged.transactions[t]);
    FinalIsSame(s, staged, t, package, source, refused);
    assert !HasBackup(copied, t);
    if refused.copy {
      TemporaryOnly(base, package, tree, tree);
    }
  }

  /** `a` and `b` differ in the temporary directory and in transaction `t` only. */
  ghost predicate SameBut(a: Store, b: Store, t: string, package: string) {
    && a.addons == b.addons && a.backups == b.backups
    && a.transactions - {t} == b.transactions - {t}
    && a.config - {TemporaryName(package)} == b.config - {TemporaryName(package)}
    && (package in a.config <==> package in b.config)
    && (package in a.config ==> a.config[package] == b.config[package])
  }

  lemma SameButStaging(s: Store, t: string, package: string, tree: Tree, x: Transaction)
    ensures SameBut(s, WithTransaction(WithTemporary(Removed(WithoutTemporary(s, package), t), package, tree), t, x), t, package)
  {
    TemporaryDiffers(package);
    var name := TemporaryName(package);
    assert (s.config - {name})[name := tree] - {name} == s.config - {name};
    assert (s.transactions - {t})[t := x] - {t} == s.transactions - {t};
  }

  lemma FinalIsSame(a: Store, b: Store, t: string, package: string, source: Option<Tree>, refused: Refusals)
    requires SameBut(a, b, t, package) && source.Some? && package != "vanahub"
    ensures RestoreOutcome(a, package, source, refused) == RestoreOutcome(b, package, source, refused)
    ensures Fails(a, t, package, source, refused) <==> Fails(b, t, package, source, refused)
    ensures Final(a, t, package, source, refused) == Final(b, t, package, source, refused)
  {
    hide Elsewhere;
    if package in a.config { SameElsewhere(a, b, t, package, a.config[package]); }
  }

  lemma JournalNamesSettings(package: string, x: Transaction)
    requires SafePackageId(package) && x.journal == Some(SettingsJournal(package))
    ensures Names(x, Settings, package)
  {
    SettingsJournalReadsBack(package);
    hide ReadString, SafePackageId, SettingsJournal;
  }

  /** The job gets past its first two checks. */
  predicate Starts(package: string, source: Option<Tree>) {
    package != "vanahub" && source.Some?
  }

  /** What is whole of the package when the job has finished: the old settings exactly if an equal
      copy is left elsewhere, or the job did not drop them, or put equal ones in their place. */
  lemma WholeAfter(s: Store, t: string, package: string, source: Option<Tree>, refused: Refusals, tree: Tree)
    requires Starts(package, source)
    ensures Whole(Final(s, t, package, source, refused), package, tree) <==>
            || Elsewhere(s, t, package, tree)
            || (LiveTree(s, Settings, package) == Some(tree) && !Drops(s, t, package, source, refused))
            || (RestoreOutcome(s, package, source, refused).Done? && source == Some(tree))
  {
    var last := Final(s, t, package, source, refused);
    TemporaryDiffers(package);
    SameHeld(last, Removed(s, t), package, Some(tree));
    hide Held, TemporaryName;
    BackupsAfter(s, t, package, source, refused, tree);
    hide InBackups;
  }

  lemma SameHeld(a: Store, b: Store, package: string, tree: Option<Tree>)
    requires a.transactions == b.transactions
    ensures Held(a, Settings, package, tree) <==> Held(b, Settings, package, tree)
  {
    forall u { SameTransactions(a, b, u, Settings, package); }
    hide Holds;
  }

  lemma BackupsAfter(s: Store, t: string, package: string, source: Option<Tree>, refused: Refusals, tree: Tree)
    requires Starts(package, source)
    ensures InBackups(Final(s, t, package, source, refused), package, tree) <==>
            || InBackups(s, package, tree)
            || (&& LiveTree(s, Settings, package) == Some(tree) && RestoreOutcome(s, package, source, refused).Done?
                && !Drops(s, t, package, source, refused))
  {
    var last := Final(s, t, package, source, refused);
    hide TemporaryName;
    if InBackups(s, package, tree) {
      MoreBackups(s, last, package, tree);
    }
    if && LiveTree(s, Settings, package) == Some(tree) && RestoreOutcome(s, package, source, refused).Done?
       && !Drops(s, t, package, source, refused)
    {
      assert last.backups[(t, package)] == tree;
    }
  }

  /** Of every other package the job leaves exactly what removing transaction `t` leaves. */
  lemma RestoreIsLocal(s: Store, t: string, package: string, source: Option<Tree>, refused: Refusals, k: Kind, p: string,
                       tree: Tree)
    requires Starts(package, source) && (k.Addon? || p !in Touched(package))
    ensures var last := Final(s, t, package, source, refused);
            && (forall x :: Shows(last, k, p, x) <==> Shows(Removed(s, t), k, p, x))
            && (k.Settings? ==> (Whole(last, p, tree) <==> Whole(Removed(s, t), p, tree)))
  {
    var last := Final(s, t, package, source, refused);
    FinalOthers(s, t, package, source, refused, k, p);
    hide TemporaryName, Shows, Final, Touched, Removed;
    if k.Settings? {
      SameHeld(last, Removed(s, t), p, Some(tree));
    }
    forall u ensures Holds(last, u, k, p) <==> Holds(Removed(s, t), u, k, p) {
      SameTransactions(last, Removed(s, t), u, k, p);
    }
    hide Names, Held;
    SameHolders(last, Removed(s, t), k, p);
  }

  lemma FinalOthers(s: Store, t: string, package: string, source: Option<Tree>, refused: Refusals, k: Kind, p: string)
    requires Starts(package, source) && (k.Addon? || p !in Touched(package))
    ensures var last := Final(s, t, package, source, refused);
            && last.transactions == Removed(s, t).transactions && LiveTree(last, k, p) == LiveTree(Removed(s, t), k, p)
            && (k.Settings? ==> forall d :: ((d, p) in last.backups <==> (d, p) in s.backups)
                                            && ((d, p) in s.backups ==> last.backups[(d, p)] == s.backups[(d, p)]))
  {
    hide TemporaryName;
  }

  /** The old settings are lost exactly if the job drops them and nothing equal is left. */
  lemma OldSettingsSurvive(s: Store, t: string, package: string, source: Option<Tree>, refused: Refusals)
    requires package in s.config
    ensures Whole(Final(s, t, package, source, refused), package, s.config[package]) <==>
            || !Drops(s, t, package, source, refused)
            || Elsewhere(s, t, package, s.config[package])
            || (RestoreOutcome(s, package, source, refused).Done? && source == Some(s.config[package]))
  {
    hide Elsewhere, Whole;
    if Starts(package, source) {
      WholeAfter(s, t, package, source, refused, s.config[package]);
    } else {
      LiveIsWhole(s, package);
    }
  }

  lemma LiveIsWhole(s: Store, package: string)
    requires package in s.config
    ensures Whole(s, package, s.config[package])
  {
  }

  /** A job that fails ends in a state that is not a good one. */
  lemma FailureShows(s: Store, t: string, package: string, source: Option<Tree>, refused: Refusals)
    requires !HasBackup(s, t) && Alone(s, Settings, package) && Fails(s, t, package, source, refused)
    ensures !RestoreStep(s, Final(s, t, package, source, refused), t, package, source, true)
  {
    var last := Final(s, t, package, source, refused);
    TemporaryDiffers(package);
    if RestoreOutcome(s, package, source, refused).CommitFailed? {
      assert last.transactions == Removed(s, t).transactions && package !in last.config;
      hide Final, Elsewhere, Drops, RestoreOutcome, Narrows, Whole, Modest;
      NothingShown(s, t, last, package);
      assert !MayShow(s, package, source, None);
    } else {
      hide Names, TemporaryName, Shows, Modest, Final, Elsewhere, Whole;
      LiveIsWhole(s, package);
      OldSettingsSurvive(s, t, package, source, refused);
    }
  }

  lemma NothingShown(s: Store, t: string, last: Store, package: string)
    requires Alone(s, Settings, package) && package in s.config && package !in last.config
    requires last.transactions == Removed(s, t).transactions
    ensures Shows(last, Settings, package, None)
    ensures !Shows(s, Settings, package, None) && !Held(s, Settings, package, None)
  {
    forall u ensures !Holds(last, u, Settings, package) {
      SameTransactions(last, Removed(s, t), u, Settings, package);
      assert !Holds(s, u, Settings, package);
    }
    hide Names;
  }

  /** The settings of a package called like the temporary directory are gone exactly when the job
      gets past its first two checks. */
  lemma TemporaryIsGone(s: Store, t: string, package: string, source: Option<Tree>, refused: Refusals)
    requires TemporaryName(package) in s.config
    ensures TemporaryName(package) !in Final(s, t, package, source, refused).config <==> Starts(package, source)
  {
    TemporaryDiffers(package);
  }

  /** A backup directory that is occupied: the settings are replaced and the old ones lost. */
  lemma OccupiedSlotLoses(s: Store, mine: Tree, source: Tree, older: Tree)
    requires s == Store(map[], map["aht" := mine], map[("1", "aht") := older], map[]) && source != mine && older != mine
    ensures Whole(s, "aht", mine)
    ensures var last := Final(s, "1", "aht", Some(source), Refusals(false, false, false, false, false));
            RestoreOutcome(s, "aht", Some(source), Refusals(false, false, false, false, false)).Done?
            && !Whole(last, "aht", mine)
  {
    OldSettingsSurvive(s, "1", "aht", Some(source), Refusals(false, false, false, false, false));
  }

  /** Recovery is stuck on an occupied place; a job that is given the same id deletes the only whole
      copy of settings that have nothing to do with it. */
  lemma TakenIdLoses(s: Store, t: string, owner: string, mine: Tree, newer: Tree, package: string, source: Tree,
                     refused: Refusals)
    requires newer != mine && SafePackageId(owner) && owner !in Touched(package) && package != "vanahub"
    requires s == Store(map[], map[owner := newer], map[(RetainedName(t), owner) := newer],
                        map[t := Transaction(Some(SettingsJournal(owner)), None, Some(mine))])
    ensures Stuck(s, {}) && Whole(s, owner, mine)
    ensures !Whole(Final(s, t, package, Some(source), refused), owner, mine)
  {
    hide SettingsJournal, SafePackageId, ReadString, RetainedName, TemporaryName, Final;
    var x := s.transactions[t];
    JournalNamesSettings(owner, x);
    NamesWhatIsRead(x, Settings, owner);
    hide Names, PackageOf, KindOf;
    assert Holds(s, t, Settings, owner);
    StuckItem(s, t, {});
    HeldBy(s, t, Settings, owner);
    RestoreIsLocal(s, t, package, Some(source), refused, Settings, owner, mine);
    assert Removed(s, t).transactions == map[];
    NothingHeld(Removed(s, t), owner, Some(mine));
    hide Held, Holds, Shows;
  }

  lemma NothingHeld(s: Store, package: string, tree: Option<Tree>)
    requires s.transactions == map[]
    ensures !Held(s, Settings, package, tree)
  {
  }
}
