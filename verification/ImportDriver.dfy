/** The profile import, driven frame by frame:
    addon/vanahub/versions/0.1.0/main.lua lines 244 to 259, 408 to 506 and 645 to 723. */
module ImportDriver {
  import opened AddonActions
  import opened LuaValues
  import opened Wrappers

  datatype Phase = Review | Repositories | Installing | Unloading | Restoring | Cleanup | Summary

  /** One line of the review: the addon, its check boxes and what is known about its source. */
  datatype Item = Item(
    id: string, install: bool, settings: bool, skipSettings: bool, trusted: bool, sourceMismatch: bool,
    autoLoad: bool, version: Option<string>)

  datatype Operation =
    | Refresh
    | InstallJob(item: nat)
    | RestoreJob(item: nat)
    | CleanupJob
    | Other(installed: set<string>) // a job of the user's, and what is installed once it succeeds

  datatype Problem =
    | Untrusted(id: string)
    | VersionDiffers(id: string)
    | NotStarted(id: string)
    | NoPackage(id: string)
    | StillLoaded(id: string)
    | JobFailed(id: string)
    | NotCleanedUp

  /** What one frame finds: how a finished job ended and which addons a fetched catalog turned out
      to have installed, which addons are loaded when asked, the time,
      the catalog's versions by package id, and which jobs the engine refuses to start. */
  datatype Frame = Frame(
    done: Option<bool>, found: set<string>, seen: Answers, loaded: Answers, now: int,
    catalog: map<string, string>, refused: set<nat>, refreshStarts: bool, cleanupStarts: bool)

  function Rank(p: Phase): nat {
    match p
    case Review => 6
    case Repositories => 5
    case Installing => 4
    case Unloading => 3
    case Restoring => 2
    case Cleanup => 1
    case Summary => 0
  }

  ghost predicate Increasing(s: seq<nat>, bound: int) {
    && (forall i, j :: 0 <= i < j < |s| ==> s[i] < s[j])
    && (forall i :: 0 <= i < |s| ==> s[i] < bound)
  }

  lemma NothingIncreasing()
    ensures forall bound: int :: Increasing([], bound)
  {
  }

  /** A bound on the frames until the summary, not counting those spent waiting: the phases first,
      then what is left within the phase. */
  function Far(phase: Phase, entries: nat, repositories: nat, left: int): int {
    var most := 2 * entries + repositories + 1;
    match phase
    case Review => 6 * most + left
    case Repositories => 5 * most + left
    case Installing => 4 * most + left
    case Unloading => 3 * most + left
    case Restoring => 2 * most + left
    case Cleanup => most + left
    case Summary => left
  }

  lemma Closer(p: Phase, left: int, q: Phase, right: int, entries: nat, before: nat, after: nat)
    requires after <= before && Rank(q) <= Rank(p)
    requires 0 <= left <= 2 * entries + before && 0 <= right <= 2 * entries + after
    requires p == q ==> right <= left
    ensures Far(q, entries, after, right) <= Far(p, entries, before, left)
    ensures Rank(q) < Rank(p) || right < left ==> Far(q, entries, after, right) < Far(p, entries, before, left)
  {
  }

  predicate NeedsSettings(item: Item, installed: set<string>) {
    item.settings && !item.skipSettings && item.id in installed
  }

  predicate Pending(i: nat, queue: seq<nat>, current: Option<nat>) {
    i in queue || current == Some(i)
  }

  ghost predicate QueueFits(entries: seq<Item>, queue: seq<nat>, current: Option<nat>) {
    && |queue| + (if current.Some? then 1 else 0) <= |entries|
    && (forall k :: 0 <= k < |queue| ==> queue[k] < |entries|)
    && (forall j, k :: 0 <= j < k < |queue| ==> queue[j] != queue[k])
    && (current.Some? ==> current.value < |entries| && current.value !in queue)
  }

  /** Settings are skipped only where the last check found the addon loaded. */
  ghost predicate SkipsFit(entries: seq<Item>, queue: seq<nat>, current: Option<nat>, last: map<nat, bool>) {
    forall i :: 0 <= i < |entries| && entries[i].skipSettings ==> i in last && last[i] && !Pending(i, queue, current)
  }

  /** Settings to be restored belong to an addon that is still to be checked, was found not loaded,
      or was adopted from a catalog after the queue of checks had been made. */
  ghost predicate Covers(entries: seq<Item>, installed: set<string>, queue: seq<nat>, current: Option<nat>,
                         last: map<nat, bool>, adopted: set<nat>)
  {
    forall i :: 0 <= i < |entries| && NeedsSettings(entries[i], installed) ==>
      Pending(i, queue, current) || (i in last && !last[i]) || i in adopted
  }

  /** Only what was installed when the queue was made is checked, and that is never adopted. */
  ghost predicate Apart(entries: seq<Item>, installed: set<string>, queue: seq<nat>, current: Option<nat>,
                        last: map<nat, bool>, adopted: set<nat>)
  {
    forall i: nat :: Pending(i, queue, current) || i in last ==>
      i < |entries| && entries[i].id in installed && i !in adopted
  }

  ghost predicate Checked(entries: seq<Item>, installed: set<string>, queue: seq<nat>, current: Option<nat>,
                          last: map<nat, bool>, adopted: set<nat>)
  {
    && QueueFits(entries, queue, current)
    && SkipsFit(entries, queue, current, last)
    && Covers(entries, installed, queue, current, last, adopted)
    && Apart(entries, installed, queue, current, last, adopted)
  }

  /** The entries with settings that a catalog turns out to have installed. */
  ghost function Adopted(entries: seq<Item>, installed: set<string>, found: set<string>): set<nat> {
    set i | 0 <= i < |entries| && entries[i].settings && entries[i].id in found && entries[i].id !in installed
  }

  lemma AdoptedChecked(entries: seq<Item>, installed: set<string>, found: set<string>, queue: seq<nat>,
                       current: Option<nat>, last: map<nat, bool>, adopted: set<nat>)
    requires Checked(entries, installed, queue, current, last, adopted) && last.Keys !! adopted
    ensures Checked(entries, installed + found, queue, current, last, adopted + Adopted(entries, installed, found))
    ensures last.Keys !! adopted + Adopted(entries, installed, found)
  {
    hide QueueFits, SkipsFit, Pending;
  }

  lemma NextChecked(entries: seq<Item>, installed: set<string>, queue: seq<nat>, last: map<nat, bool>,
                    adopted: set<nat>, loaded: bool)
    requires queue != [] && Checked(entries, installed, queue, None, last, adopted)
    ensures Checked(entries, installed, queue[1..], if loaded then Some(queue[0]) else None, last[queue[0] := loaded],
                    adopted)
    ensures queue[0] !in adopted
  {
    hide NeedsSettings;
    assert forall k :: k in queue <==> k == queue[0] || k in queue[1..];
  }

  function Skipping(entries: seq<Item>, i: nat): seq<Item>
    requires i < |entries|
  {
    entries[i := entries[i].(skipSettings := true)]
  }

  lemma CurrentChecked(entries: seq<Item>, installed: set<string>, queue: seq<nat>, i: nat, last: map<nat, bool>,
                       adopted: set<nat>, still: bool)
    requires Checked(entries, installed, queue, Some(i), last, adopted)
    ensures Checked(if still then Skipping(entries, i) else entries, installed, queue, None, last[i := still], adopted)
    ensures i !in adopted
  {
  }

  lemma NeedsWasChecked(entries: seq<Item>, installed: set<string>, last: map<nat, bool>, adopted: set<nat>, i: nat)
    requires Covers(entries, installed, [], None, last, adopted) && i < |entries| && NeedsSettings(entries[i], installed)
    ensures (i in last && !last[i]) || i in adopted
    ensures entries[i].settings
  {
  }

  /** A catalog fetched while addons are being unloaded can add an entry that nobody will check. */
  lemma AdoptionIsUnchecked(item: Item)
    requires item.settings && !item.skipSettings
    ensures Checked([item], {}, [], None, map[], {})
    ensures NeedsSettings(item, {item.id})
    ensures !Covers([item], {item.id}, [], None, map[], {}) && Adopted([item], {}, {item.id}) == {0}
  {
    assert [item][0] == item;
    assert !Pending(0, [], None);
  }

  /** An install that is wanted and can be started. */
  predicate Startable(item: Item, index: nat, installed: set<string>, f: Frame) {
    item.id !in installed && item.install && item.trusted && item.id in f.catalog && index !in f.refused
  }

  /** The first entry from `from` on whose install can be started, or the end. */
  function NextInstall(entries: seq<Item>, from: nat, installed: set<string>, f: Frame): (r: nat)
    requires from <= |entries|
    ensures from <= r <= |entries| && (r < |entries| ==> Startable(entries[r], r, installed, f))
    ensures forall k :: from <= k < r ==> !Startable(entries[k], k, installed, f)
    decreases |entries| - from
  {
    if from == |entries| || Startable(entries[from], from, installed, f) then from
    else NextInstall(entries, from + 1, installed, f)
  }

  /** The entry is missing, chosen and trusted, and its package can be installed. */
  ghost predicate Installs(item: Item, index: nat, installed: set<string>, f: Frame) {
    item.id !in installed && item.install && item.trusted && item.id in f.catalog && index !in f.refused
  }

  /** The first such entry is the next, and there is none before it. */
  lemma NextInstallIs(entries: seq<Item>, from: nat, installed: set<string>, f: Frame)
    requires from <= |entries|
    ensures var next := NextInstall(entries, from, installed, f);
            && (next < |entries| ==> Installs(entries[next], next, installed, f))
            && forall k :: from <= k < next ==> !Installs(entries[k], k, installed, f)
  {
    hide NextInstall;
    var next := NextInstall(entries, from, installed, f);
    forall k | from <= k < next ensures !Installs(entries[k], k, installed, f) {
      assert !Startable(entries[k], k, installed, f);
    }
  }

  lemma NextInstallMeans(entries: seq<Item>, from: nat, installed: set<string>, f: Frame)
    requires from <= |entries|
    ensures var next := NextInstall(entries, from, installed, f);
            && (next < |entries| ==>
                  var e := entries[next];
                  e.id !in installed && e.install && e.trusted && e.id in f.catalog && next !in f.refused)
            && forall k :: from <= k < next ==>
                 var e := entries[k]; e.id in installed || !e.install || !e.trusted || e.id !in f.catalog || k in f.refused
  {
    NextInstallIs(entries, from, installed, f);
    hide NextInstall;
  }

  lemma NextRestoreIs(entries: seq<Item>, from: nat, installed: set<string>, f: Frame)
    requires from <= |entries|
    ensures var next := NextRestore(entries, from, installed, f);
            && (next < |entries| ==>
                  var e := entries[next]; e.settings && !e.skipSettings && e.id in installed && next !in f.refused)
            && forall k :: from <= k < next ==>
                 var e := entries[k]; !e.settings || e.skipSettings || e.id !in installed || k in f.refused
  {
    hide NextRestore;
  }

  lemma SameChoicesItself(entries: seq<Item>)
    ensures SameChoices(entries, entries)
  {
  }

  /** Only the two flags that the driver sets may differ; what the user chose stays. */
  ghost predicate SameChoices(before: seq<Item>, after: seq<Item>) {
    && |after| == |before|
    && forall i :: 0 <= i < |after| ==>
         after[i] == before[i].(skipSettings := after[i].skipSettings, autoLoad := after[i].autoLoad)
  }

  lemma ChoicesStay(before: seq<Item>, after: seq<Item>, last: seq<Item>)
    requires SameChoices(before, after) && SameChoices(after, last)
    ensures SameChoices(before, last)
  {
  }

  lemma SettledChoices(before: seq<Item>, after: seq<Item>, installed: set<string>)
    requires AutoLoadSettled(before, after, installed)
    ensures SameChoices(before, after)
  {
  }

  predicate NothingToInstall(entries: seq<Item>, from: nat, installed: set<string>, f: Frame) {
    from <= |entries| && NextInstall(entries, from, installed, f) == |entries|
  }

  /** What is reported when the driver passes an entry. */
  function InstallProblems(item: Item, index: nat, installed: set<string>, f: Frame): seq<Problem> {
    if item.id in installed || !item.install then []
    else if !item.trusted then [Untrusted(item.id)]
    else if item.id !in f.catalog then [NoPackage(item.id)]
    else
      (if item.version.Some? && item.version.value != f.catalog[item.id] then [VersionDiffers(item.id)] else []) +
      if index in f.refused then [NotStarted(item.id)] else []
  }

  /** What is reported of an entry, and why: nothing if it is there or not chosen. */
  lemma InstallProblemsAre(item: Item, index: nat, installed: set<string>, f: Frame)
    ensures var wanted, problems := item.id !in installed && item.install, InstallProblems(item, index, installed, f);
            && (Untrusted(item.id) in problems <==> wanted && !item.trusted)
            && (NoPackage(item.id) in problems <==> wanted && item.trusted && item.id !in f.catalog)
            && (VersionDiffers(item.id) in problems <==>
                  wanted && item.trusted && item.id in f.catalog && item.version.Some? && item.version.value != f.catalog[item.id])
            && (NotStarted(item.id) in problems <==>
                  wanted && item.trusted && item.id in f.catalog && index in f.refused)
            && forall p :: p in problems ==>
                 p in {Untrusted(item.id), NoPackage(item.id), VersionDiffers(item.id), NotStarted(item.id)}
  {
  }

  function PassedProblems(entries: seq<Item>, from: nat, to: nat, installed: set<string>, f: Frame): seq<Problem>
    requires from <= to <= |entries|
  {
    if from == to then []
    else
      PassedProblems(entries, from, to - 1, installed, f) + InstallProblems(entries[to - 1], to - 1, installed, f)
  }

  /** The installed addons whose settings are to be restored, in order. */
  function ToUnload(entries: seq<Item>, installed: set<string>): seq<nat> {
    if entries == [] then []
    else
      var last := |entries| - 1;
      ToUnload(entries[..last], installed) +
      if entries[last].settings && entries[last].id in installed then [last] else []
  }

  function IdOf(entries: seq<Item>, i: nat): string { if i < |entries| then entries[i].id else "" }

  /** How many addons at the head of the queue need no unloading. */
  function LeadingIdle(queue: seq<nat>, entries: seq<Item>, loaded: Answers): (r: nat)
    ensures r <= |queue|
  {
    if queue == [] || IsLoaded(loaded, IdOf(entries, queue[0])) then 0
    else 1 + LeadingIdle(queue[1..], entries, loaded)
  }

  /** They are not loaded, and the one after them is. */
  lemma {:induction false} LeadingIdleIs(queue: seq<nat>, entries: seq<Item>, loaded: Answers)
    ensures var n := LeadingIdle(queue, entries, loaded);
            && (forall k :: 0 <= k < n ==> !IsLoaded(loaded, IdOf(entries, queue[k])))
            && (n < |queue| ==> IsLoaded(loaded, IdOf(entries, queue[n])))
  {
    hide IsLoaded, IdOf;
    if queue != [] && !IsLoaded(loaded, IdOf(entries, queue[0])) {
      LeadingIdleIs(queue[1..], entries, loaded);
    }
  }

  /** The first entry from `from` on whose restore can be started, or the end. */
  function NextRestore(entries: seq<Item>, from: nat, installed: set<string>, f: Frame): (r: nat)
    requires from <= |entries|
    ensures from <= r <= |entries|
    ensures r < |entries| ==> NeedsSettings(entries[r], installed) && r !in f.refused
    ensures forall k :: from <= k < r ==> !NeedsSettings(entries[k], installed) || k in f.refused
    decreases |entries| - from
  {
    if from == |entries| || (NeedsSettings(entries[from], installed) && from !in f.refused) then from
    else NextRestore(entries, from + 1, installed, f)
  }

  method ListToUnload(entries: seq<Item>, installed: set<string>) returns (queue: seq<nat>)
    ensures queue == ToUnload(entries, installed)
  {
    queue := [];
    for i := 0 to |entries|
      invariant queue == ToUnload(entries[..i], installed)
    {
      assert entries[..i + 1][..i] == entries[..i];
      if entries[i].settings && entries[i].id in installed { queue := queue + [i]; }
    }
    assert entries[..|entries|] == entries;
  }

  /** They are exactly the installed ones with settings. */
  lemma {:induction false} ToUnloadMembers(entries: seq<Item>, installed: set<string>)
    ensures forall i: nat :: i in ToUnload(entries, installed) <==>
                               i < |entries| && entries[i].settings && entries[i].id in installed
  {
    if entries != [] {
      var front, last := entries[..|entries| - 1], |entries| - 1;
      ToUnloadMembers(front, installed);
      var before, queue := ToUnload(front, installed), ToUnload(entries, installed);
      assert queue == before + if entries[last].settings && entries[last].id in installed then [last] else [];
      hide ToUnload;
      assert forall i :: 0 <= i < last ==> front[i] == entries[i];
    }
  }

  lemma {:induction false} ToUnloadInOrder(entries: seq<Item>, installed: set<string>)
    ensures var queue := ToUnload(entries, installed);
            && |queue| <= |entries|
            && (forall k :: 0 <= k < |queue| ==> queue[k] < |entries|)
            && (forall j, k :: 0 <= j < k < |queue| ==> queue[j] < queue[k])
  {
    if entries != [] { ToUnloadInOrder(entries[..|entries| - 1], installed); }
  }

  lemma QueueChecked(entries: seq<Item>, installed: set<string>)
    requires forall i :: 0 <= i < |entries| ==> !entries[i].skipSettings
    ensures Checked(entries, installed, ToUnload(entries, installed), None, map[], {})
  {
    ToUnloadMembers(entries, installed);
    ToUnloadInOrder(entries, installed);
    hide ToUnload;
  }

  lemma RestoreStep(entries: seq<Item>, at: nat, installed: set<string>, f: Frame)
    requires at < |entries|
    ensures NextRestore(entries, at, installed, f) ==
            if NeedsSettings(entries[at], installed) && at !in f.refused then at
            else NextRestore(entries, at + 1, installed, f)
  {
  }

  /** Auto-load survives only for installed addons of the expected source; nothing else changes. */
  ghost predicate AutoLoadSettled(before: seq<Item>, after: seq<Item>, installed: set<string>) {
    && |after| == |before|
    && forall i :: 0 <= i < |after| ==>
         after[i] == before[i].(autoLoad := before[i].autoLoad && !before[i].sourceMismatch && before[i].id in installed)
  }

  lemma NothingPassed(entries: seq<Item>, from: nat, installed: set<string>, f: Frame)
    requires from <= |entries|
    ensures PassedProblems(entries, from, from, installed, f) == []
  {
  }

  lemma PassStep(entries: seq<Item>, from: nat, at: nat, installed: set<string>, f: Frame)
    requires from <= at < |entries|
    ensures PassedProblems(entries, from, at + 1, installed, f) ==
            PassedProblems(entries, from, at, installed, f) + InstallProblems(entries[at], at, installed, f)
    ensures NextInstall(entries, at, installed, f) ==
            if Startable(entries[at], at, installed, f) then at else NextInstall(entries, at + 1, installed, f)
  {
  }

  class Import {
    var phase: Phase
    var entries: seq<Item>
    var repositories: seq<string>
    var installIndex: nat
    var unloadQueue: seq<nat>
    var unloadCurrent: Option<nat>
    var restoreIndex: nat
    var problems: seq<Problem>
    var operation: Option<Operation>
    var action: Option<Action>
    var installed: set<string>
    var hasStaging: bool

    ghost var installs: seq<nat>        // entries whose install was started, oldest first
    ghost var restores: seq<nat>        // entries whose restore was started
    ghost var lastCheck: map<nat, bool> // what the last load check in `unloading` said
    ghost var adopted: set<nat>         // entries found installed while others were being unloaded
    ghost var imports: nat              // calls of `import_profile`

    /** The review, before anything was started. */
    constructor (items: seq<Item>, installed: set<string>, hasStaging: bool)
      requires forall i :: 0 <= i < |items| ==> SafeId(items[i].id) && !items[i].skipSettings
      ensures Sound() && phase == Review && entries == items && imports == 0 && installs == [] && restores == []
      ensures Idle() && this.installed == installed && this.hasStaging == hasStaging && adopted == {}
    {
      phase, entries, repositories, installIndex := Review, items, [], 0;
      unloadQueue, unloadCurrent, restoreIndex, problems := [], None, 0, [];
      operation, action, this.installed, this.hasStaging := None, None, installed, hasStaging;
      installs, restores, lastCheck, adopted, imports := [], [], map[], {}, 0;
    }

    predicate Idle()
      reads this
    {
      operation.None? && action.None?
    }

    /** Between frames the driver always waits for something, from the first install on. While it
        waits for an addon to unload, a catalog may be being fetched, because that only takes that
        no other job is in flight. */
    ghost predicate Waiting()
      reads this
    {
      match phase
      case Installing => installIndex > 0 && operation == Some(InstallJob(installIndex - 1)) && action.None?
      case Unloading => unloadCurrent.Some? && (operation.Some? || action.Some?) && (operation.Some? ==> operation.value.Refresh?)
      case Restoring => restoreIndex > 0 && operation == Some(RestoreJob(restoreIndex - 1)) && action.None?
      case Cleanup => operation == Some(CleanupJob) && action.None?
      case _ => operation.Some? ==> operation.value.Refresh? || operation.value.Other?
    }

    ghost predicate Jobs()
      reads this`phase, this`entries, this`installIndex, this`restoreIndex
      reads this`installs, this`restores, this`lastCheck, this`adopted, this`imports
    {
      && Increasing(installs, installIndex) && installIndex <= |entries|
      && Increasing(restores, restoreIndex) && restoreIndex <= |entries|
      && (forall i :: 0 <= i < |installs| ==> entries[installs[i]].install && entries[installs[i]].trusted)
      && (forall i :: 0 <= i < |restores| ==>
            Justified(restores[i]) && entries[restores[i]].settings)
      && lastCheck.Keys !! adopted
      && (Rank(phase) >= 4 ==> lastCheck == map[] && adopted == {})
      && (Rank(phase) >= 5 ==> installs == [])
      && (Rank(phase) >= 3 ==> restores == [])
      && imports == if Rank(phase) <= 1 then 1 else 0
    }

    /** Why the settings of an entry may be restored. */
    ghost predicate Justified(i: nat)
      reads this`lastCheck, this`adopted
    {
      (i in lastCheck && !lastCheck[i]) || i in adopted
    }

    /** Every entry with settings to restore is still to be checked, was found not loaded, was
        adopted, or is skipped. */
    ghost predicate Checks()
      reads this`phase, this`entries, this`unloadQueue, this`unloadCurrent, this`lastCheck, this`installed
      reads this`adopted
    {
      && (forall i :: 0 <= i < |entries| ==> SafeId(entries[i].id))
      && QueueOk() && SkipsJustified()
      && (phase == Unloading || phase == Restoring ==> Covered() && StaysApart())
      && (phase != Unloading ==> unloadQueue == [] && unloadCurrent == None)
      && (Rank(phase) >= 4 ==> forall i :: 0 <= i < |entries| ==> !entries[i].skipSettings)
    }

    ghost predicate QueueOk()
      reads this`entries, this`unloadQueue, this`unloadCurrent
    {
      QueueFits(entries, unloadQueue, unloadCurrent)
    }

    ghost predicate SkipsJustified()
      reads this`entries, this`unloadQueue, this`unloadCurrent, this`lastCheck
    {
      SkipsFit(entries, unloadQueue, unloadCurrent, lastCheck)
    }

    ghost predicate Covered()
      reads this`entries, this`unloadQueue, this`unloadCurrent, this`lastCheck, this`installed, this`adopted
    {
      Covers(entries, installed, unloadQueue, unloadCurrent, lastCheck, adopted)
    }

    ghost predicate StaysApart()
      reads this`entries, this`unloadQueue, this`unloadCurrent, this`lastCheck, this`installed, this`adopted
    {
      Apart(entries, installed, unloadQueue, unloadCurrent, lastCheck, adopted)
    }

    /** What holds at every point, inside a frame too. */
    ghost predicate Steady()
      reads this
    {
      Jobs() && Checks()
    }

    ghost predicate Sound()
      reads this
    {
      Steady() && Waiting()
    }

    /** What is left to do within the phase. */
    function Left(): int
      reads this
    {
      match phase
      case Repositories => |repositories|
      case Installing => |entries| - installIndex
      case Unloading => 2 * |unloadQueue| + if unloadCurrent.Some? then 1 else 0
      case Restoring => |entries| - restoreIndex
      case _ => 0
    }

    /** How far the summary is. */
    ghost function Distance(): int
      reads this
    {
      Far(phase, |entries|, |repositories|, Left())
    }

    lemma LeftIsBounded()
      requires Steady()
      ensures 0 <= Left() <= 2 * |entries| + |repositories|
    {
      hide SafeId, Increasing, SkipsFit, Covers;
    }

    /** `confirm_profile_import`: newly trusted repositories are to be fetched first. */
    method Confirm(added: seq<string>)
      requires Sound() && phase == Review
      modifies this`repositories, this`phase, this`installIndex
      ensures Sound() && phase == Repositories && repositories == added && installs == [] && restores == []
    {
      hide SafeId;
      repositories, phase, installIndex := added, Repositories, 0;
    }

    /** The user starts a job or a command of their own, where the window lets them. */
    method UserStarts(job: Option<set<string>>, command: Option<Action>)
      requires Sound()
      modifies this`operation, this`action
      ensures Sound()
      ensures Rank(phase) in {1, 2, 3, 4} ==> operation == old(operation) && action == old(action)
    {
      hide Jobs, Checks;
      if !Idle() { return; }
      if job.Some? { operation := Some(Other(job.value)); }
      else if command.Some? { action := command; }
    }

    /** The user fetches a catalog: the button and `start_repository_refresh` only ask whether another
        job is in flight, not whether a command is. */
    method UserRefreshes()
      requires Sound()
      modifies this`operation
      ensures Sound()
      ensures operation == if old(operation).None? then Some(Refresh) else old(operation)
    {
      hide Jobs, Checks;
      if operation.None? { operation := Some(Refresh); }
    }

    /** `complete_operation`, for the jobs that can run during an import. */
    method CompleteOperation(success: bool, found: set<string>)
      requires Sound() && operation.Some?
      modifies this`operation, this`installed, this`problems, this`phase, this`adopted
      ensures Steady() && operation == None && (phase == Unloading ==> Idle() || Waiting())
      ensures phase == if old(phase) == Cleanup then Summary else old(phase)
      ensures adopted == old(adopted) +
                         if phase == Unloading && success then Adopted(entries, old(installed), found) else {}
      ensures installed == if !success then old(installed)
                           else match old(operation).value
                             case InstallJob(i) => old(installed) + {IdOf(entries, i)}
                             case Refresh => old(installed) + found
                             case Other(after) => after
                             case _ => old(installed)
      ensures problems == old(problems) +
                          if success then []
                          else match old(operation).value
                            case InstallJob(i) => [JobFailed(IdOf(entries, i))]
                            case RestoreJob(i) => [JobFailed(IdOf(entries, i))]
                            case CleanupJob => [NotCleanedUp]
                            case _ => []
    {
      hide SafeId, Increasing, Covered, QueueOk, SkipsJustified, StaysApart, Justified, Adopted;
      OperationFits();
      match operation.value {
      case InstallJob(i) =>
        if success { installed := installed + {entries[i].id}; }
        else { problems := problems + [JobFailed(entries[i].id)]; }
      case RestoreJob(i) => if !success { problems := problems + [JobFailed(entries[i].id)]; }
      case CleanupJob =>
        if !success { problems := problems + [NotCleanedUp]; }
        phase := Summary;
      case Other(after) => if success { installed := after; }
      case Refresh => if success { Found(found); }
      }
      operation := None;
    }

    /** `rebuild_packages` takes over what a catalog knows and the disk has. */
    method Found(found: set<string>)
      requires Steady() && phase != Restoring
      modifies this`installed, this`adopted
      ensures Steady() && installed == old(installed) + found
      ensures adopted == old(adopted) + if phase == Unloading then Adopted(entries, old(installed), found) else {}
    {
      hide SafeId, Increasing, QueueFits, SkipsFit, Covers, Apart;
      if phase == Unloading {
        AdoptedChecked(entries, installed, found, unloadQueue, unloadCurrent, lastCheck, adopted);
        adopted := adopted + Adopted(entries, installed, found);
      }
      installed := installed + found;
    }

    lemma OperationFits()
      requires Sound() && operation.Some?
      ensures phase == Unloading ==> operation.value.Refresh?
      ensures phase == Restoring ==> operation.value.RestoreJob?
      ensures operation.value.InstallJob? ==> phase == Installing && operation.value.item < |entries|
      ensures operation.value.RestoreJob? ==> phase == Restoring && operation.value.item < |entries|
    {
      hide SafeId, Increasing, Checks;
    }

    lemma AdoptedIsUnchecked(i: nat)
      requires Jobs() && i in adopted
      ensures i !in lastCheck
    {
    }

    /** `tick_addon_action`. */
    method TickAddonAction(seen: Answers, now: int)
      modifies this`action
      ensures action == if old(action).Some? && Over(old(action).value, seen, now) then None else old(action)
    {
      var next, _ := TickAction(action, seen, now);
      action := next;
    }

    /** Installs what is chosen and missing, up to the first job that starts; then lists what has
        to be unloaded. */
    method RunInstalling(f: Frame)
      requires Steady() && phase == Installing && Idle()
      modifies this`installIndex, this`installs, this`problems, this`operation, this`phase, this`unloadQueue
      modifies this`unloadCurrent
      ensures Steady() && action == None && old(installIndex) <= |entries|
      ensures var next := NextInstall(entries, old(installIndex), installed, f);
              if next < |entries|
              then phase == Installing && Waiting() && installIndex == next + 1 && installs == old(installs) + [next]
                   && problems == old(problems) + PassedProblems(entries, old(installIndex), next + 1, installed, f)
              else phase == Unloading && Idle() && installs == old(installs)
                   && unloadQueue == ToUnload(entries, installed) && unloadCurrent == None
                   && problems == old(problems) + PassedProblems(entries, old(installIndex), |entries|, installed, f)
      ensures phase == Installing ==>
                && old(installIndex) < installIndex <= |entries| && operation == Some(InstallJob(installIndex - 1))
                && var e := entries[installIndex - 1];
                && e.id !in installed && e.install && e.trusted && e.id in f.catalog && installIndex - 1 !in f.refused
      ensures forall k :: old(installIndex) <= k < (if phase == Installing then installIndex - 1 else |entries|) ==>
                var e := entries[k];
                e.id in installed || !e.install || !e.trusted || e.id !in f.catalog || k in f.refused
      ensures phase == Unloading ==>
                forall i: nat :: i in unloadQueue <==> i < |entries| && entries[i].settings && entries[i].id in installed
    {
      hide Jobs, Checks, ToUnload, NextInstall, PassedProblems, Startable, Installs, SafeId;
      IndexFits();
      ToUnloadMembers(entries, installed);
      NextInstallMeans(entries, installIndex, installed, f);
      InstallNext(f);
    }

    /** The loop of it. */
    method InstallNext(f: Frame)
      requires Steady() && phase == Installing && Idle()
      modifies this`installIndex, this`installs, this`problems, this`operation, this`phase, this`unloadQueue
      modifies this`unloadCurrent
      ensures Steady() && action == None && old(installIndex) <= |entries|
      ensures var next := NextInstall(entries, old(installIndex), installed, f);
              if next < |entries|
              then phase == Installing && Waiting() && installIndex == next + 1 && installs == old(installs) + [next]
                   && problems == old(problems) + PassedProblems(entries, old(installIndex), next + 1, installed, f)
              else phase == Unloading && Idle() && installs == old(installs)
                   && unloadQueue == ToUnload(entries, installed) && unloadCurrent == None
                   && problems == old(problems) + PassedProblems(entries, old(installIndex), |entries|, installed, f)
    {
      hide Checks, SafeId, PassedProblems, InstallProblems, Startable;
      IndexFits();
      ghost var start := installIndex;
      NothingPassed(entries, start, installed, f);
      while installIndex < |entries|
        invariant Steady() && phase == Installing && Idle() && start <= installIndex <= |entries|
        invariant installs == old(installs)
        invariant NextInstall(entries, start, installed, f) == NextInstall(entries, installIndex, installed, f)
        invariant problems == old(problems) + PassedProblems(entries, start, installIndex, installed, f)
        decreases |entries| - installIndex
      {
        PassStep(entries, start, installIndex, installed, f);
        TryInstall(f);
        if operation.Some? { return; }
      }
      BuildUnloadQueue();
    }

    lemma IndexFits()
      requires Jobs()
      ensures installIndex <= |entries| && Increasing(installs, installIndex)
    {
    }

    /** One entry: its install is started, or the reason why not is noted. */
    method TryInstall(f: Frame)
      requires Steady() && phase == Installing && Idle() && installIndex < |entries|
      modifies this`installIndex, this`installs, this`problems, this`operation
      ensures Steady() && action == None && installIndex == old(installIndex) + 1
      ensures operation == if Startable(entries[old(installIndex)], old(installIndex), installed, f)
                           then Some(InstallJob(old(installIndex))) else None
      ensures installs == old(installs) + if operation.Some? then [old(installIndex)] else []
      ensures problems == old(problems) + InstallProblems(entries[old(installIndex)], old(installIndex), installed, f)
    {
      hide Checks;
      var index := installIndex;
      var item := entries[index];
      PassInstall(Startable(item, index, installed, f));
      if item.id in installed || !item.install { return; }
      if !item.trusted { problems := problems + [Untrusted(item.id)]; return; }
      if item.id !in f.catalog { problems := problems + [NoPackage(item.id)]; return; }
      if item.version.Some? && item.version.value != f.catalog[item.id] {
        problems := problems + [VersionDiffers(item.id)];
      }
      if index in f.refused { problems := problems + [NotStarted(item.id)]; return; }
      operation := Some(InstallJob(index));
    }

    method PassInstall(ghost starts: bool)
      requires Jobs() && phase == Installing && installIndex < |entries|
      requires starts ==> entries[installIndex].install && entries[installIndex].trusted
      modifies this`installIndex, this`installs
      ensures Jobs() && installIndex == old(installIndex) + 1
      ensures installs == old(installs) + if starts then [old(installIndex)] else []
    {
      installs := installs + if starts then [installIndex] else [];
      installIndex := installIndex + 1;
    }

    method BuildUnloadQueue()
      requires Steady() && phase == Installing && Idle()
      modifies this`phase, this`unloadQueue, this`unloadCurrent
      ensures Steady() && phase == Unloading && Idle()
      ensures unloadQueue == ToUnload(entries, installed) && unloadCurrent == None
    {
      hide SafeId, Increasing, QueueFits, SkipsFit, Covers, Apart, ToUnload, NeedsSettings;
      QueueChecked(entries, installed);
      var queue := ListToUnload(entries, installed);
      unloadQueue, unloadCurrent, phase := queue, None, Unloading;
    }

    /** The entries once the addon that was told to unload has been looked at again. */
    function Looked(f: Frame): seq<Item>
      reads this`entries, this`unloadCurrent
    {
      if unloadCurrent.Some? && unloadCurrent.value < |entries|
         && IsLoaded(f.loaded, IdOf(entries, unloadCurrent.value))
      then Skipping(entries, unloadCurrent.value) else entries
    }

    /** Checks what was to be unloaded, and unloads the next loaded addon. */
    method RunUnloading(f: Frame)
      requires Steady() && phase == Unloading && Idle()
      modifies this`unloadCurrent, this`unloadQueue, this`entries, this`problems, this`action, this`phase
      modifies this`restoreIndex, this`lastCheck
      ensures Steady() && operation == None && |entries| == |old(entries)| && entries == old(Looked(f))
      ensures var queue := old(unloadQueue);
              var n := LeadingIdle(queue, entries, f.loaded);
              if n < |queue|
              then phase == Unloading && Waiting() && unloadQueue == queue[n + 1..] && unloadCurrent == Some(queue[n])
                   && action == Some(Action(IdOf(entries, queue[n]), false, f.now, false))
              else phase == Restoring && Idle() && restoreIndex == 0
      ensures forall k :: 0 <= k < |old(unloadQueue)| - (if phase == Unloading then |unloadQueue| + 1 else 0) ==>
                !IsLoaded(f.loaded, IdOf(entries, old(unloadQueue)[k]))
      ensures phase == Unloading ==> action.Some? && IsLoaded(f.loaded, action.value.packageId)
      ensures SameChoices(old(entries), entries)
      ensures phase == Unloading ==> Left() < old(Left())
    {
      hide Jobs, Checks, IdOf, IsLoaded, SameChoices;
      LeadingIdleIs(unloadQueue, Looked(f), f.loaded);
      LookedChoices(f);
      UnloadNext(f);
    }

    /** The loop of it. */
    method UnloadNext(f: Frame)
      requires Steady() && phase == Unloading && Idle()
      modifies this`unloadCurrent, this`unloadQueue, this`entries, this`problems, this`action, this`phase
      modifies this`restoreIndex, this`lastCheck
      ensures Steady() && operation == None && |entries| == |old(entries)| && entries == old(Looked(f))
      ensures var queue := old(unloadQueue);
              var n := LeadingIdle(queue, entries, f.loaded);
              if n < |queue|
              then phase == Unloading && Waiting() && unloadQueue == queue[n + 1..] && unloadCurrent == Some(queue[n])
                   && action == Some(Action(IdOf(entries, queue[n]), false, f.now, false))
              else phase == Restoring && Idle() && restoreIndex == 0
      ensures phase == Unloading ==> Left() < old(Left())
    {
      hide Jobs, Checks, IdOf, IsLoaded;
      CheckCurrent(f);
      ghost var queue := unloadQueue;
      ghost var n := 0;
      assert queue[0..] == queue;
      while unloadQueue != []
        invariant Steady() && phase == Unloading && Idle() && unloadCurrent == None
        invariant Left() <= old(Left()) && entries == old(Looked(f))
        invariant n <= |queue| && unloadQueue == queue[n..]
        invariant LeadingIdle(queue, entries, f.loaded) == n + LeadingIdle(unloadQueue, entries, f.loaded)
        decreases |unloadQueue|
      {
        CheckNext(f);
        if action.Some? { return; }
        n := n + 1;
      }
      EndUnloading();
    }

    lemma LookedChoices(f: Frame)
      ensures SameChoices(entries, Looked(f))
    {
    }

    method EndUnloading()
      requires Steady() && phase == Unloading && unloadQueue == [] && unloadCurrent == None
      modifies this`phase, this`restoreIndex
      ensures Steady() && phase == Restoring && restoreIndex == 0
    {
      hide SafeId, QueueOk, SkipsJustified, Covered, Increasing;
      assert Increasing(restores, 0) by { NothingIncreasing(); }
      phase, restoreIndex := Restoring, 0;
    }

    ghost method Record(i: nat, loaded: bool)
      requires Jobs() && phase == Unloading && i !in adopted && restores == []
      modifies this`lastCheck
      ensures Jobs() && lastCheck == old(lastCheck)[i := loaded]
    {
      lastCheck := lastCheck[i := loaded];
    }

    lemma NothingRestored()
      requires Jobs() && phase == Unloading
      ensures restores == []
    {
    }

    method SkipSettings(i: nat)
      requires Jobs() && i < |entries|
      modifies this`entries, this`problems
      ensures Jobs() && entries == Skipping(old(entries), i)
      ensures problems == old(problems) + [StillLoaded(entries[i].id)]
    {
      entries := entries[i := entries[i].(skipSettings := true)];
      problems := problems + [StillLoaded(entries[i].id)];
    }

    /** The unload command has been seen or has timed out: an addon that is still loaded keeps its
        settings. */
    method CheckCurrent(f: Frame)
      requires Steady() && phase == Unloading && Idle()
      modifies this`unloadCurrent, this`entries, this`problems, this`lastCheck
      ensures Steady() && unloadCurrent == None && |entries| == |old(entries)| && entries == old(Looked(f))
      ensures Left() == old(Left()) - if old(unloadCurrent).Some? then 1 else 0
    {
      hide SafeId, Jobs, QueueFits, SkipsFit, Covers, Apart;
      if unloadCurrent.None? { return; }
      var i := unloadCurrent.value;
      CurrentFits();
      var still := IsLoaded(f.loaded, entries[i].id);
      CurrentChecked(entries, installed, unloadQueue, i, lastCheck, adopted, still);
      NothingRestored();
      Record(i, still);
      if still { SkipSettings(i); }
      unloadCurrent := None;
    }

    lemma CurrentFits()
      requires QueueOk() && unloadCurrent.Some?
      ensures unloadCurrent.value < |entries|
    {
    }

    lemma NextFits()
      requires QueueOk() && unloadQueue != []
      ensures unloadQueue[0] < |entries|
    {
    }

    method CheckNext(f: Frame)
      requires Steady() && phase == Unloading && Idle() && unloadCurrent == None && unloadQueue != []
      modifies this`unloadCurrent, this`unloadQueue, this`action, this`lastCheck
      ensures Steady() && unloadQueue == old(unloadQueue)[1..]
      ensures var i := old(unloadQueue)[0];
              if IsLoaded(f.loaded, IdOf(entries, i))
              then unloadCurrent == Some(i) && action == Some(Action(IdOf(entries, i), false, f.now, false))
              else unloadCurrent == None && action == None
    {
      hide SafeId, Jobs, QueueFits, SkipsFit, Covers, Apart;
      NextFits();
      var i := unloadQueue[0];
      var loaded := IsLoaded(f.loaded, entries[i].id);
      NextChecked(entries, installed, unloadQueue, lastCheck, adopted, loaded);
      NothingRestored();
      unloadQueue := unloadQueue[1..];
      Record(i, loaded);
      if loaded {
        unloadCurrent := Some(i);
        action := Some(Action(entries[i].id, false, f.now, false));
      }
    }

    /** Restores what is to be restored, up to the first job that starts. */
    method RunRestoring(f: Frame)
      requires Steady() && phase == Restoring && Idle()
      modifies this
      ensures Steady() && Waiting() && |entries| == |old(entries)| && old(restoreIndex) <= |old(entries)|
      ensures var next := NextRestore(old(entries), old(restoreIndex), old(installed), f);
              if next < |entries|
              then phase == Restoring && restoreIndex == next + 1 && restores == old(restores) + [next]
                   && entries == old(entries) && imports == old(imports)
              else phase == (if hasStaging && f.cleanupStarts then Cleanup else Summary)
                   && restores == old(restores) && imports == old(imports) + 1
                   && AutoLoadSettled(old(entries), entries, installed)
      ensures phase == Restoring ==>
                && old(restoreIndex) < restoreIndex <= |entries| && operation == Some(RestoreJob(restoreIndex - 1))
                && var e := old(entries)[restoreIndex - 1];
                e.settings && !e.skipSettings && e.id in installed && restoreIndex - 1 !in f.refused
      ensures forall k :: old(restoreIndex) <= k < (if phase == Restoring then restoreIndex - 1 else |entries|) ==>
                var e := old(entries)[k];
                !e.settings || e.skipSettings || e.id !in installed || k in f.refused
      ensures SameChoices(old(entries), entries)
      ensures repositories == old(repositories) && installs == old(installs) && installed == old(installed)
      ensures adopted == old(adopted)
    {
      hide Jobs, Checks, NextRestore, NeedsSettings, AutoLoadSettled, SameChoices;
      RestoreFits();
      NextRestoreIs(entries, restoreIndex, installed, f);
      SameChoicesItself(entries);
      ghost var before := entries;
      RestoreNext(f);
      if phase != Restoring { SettledChoices(before, entries, installed); }
    }

    /** The loop of it. */
    method RestoreNext(f: Frame)
      requires Steady() && phase == Restoring && Idle()
      modifies this
      ensures Steady() && Waiting() && |entries| == |old(entries)| && old(restoreIndex) <= |old(entries)|
      ensures var next := NextRestore(old(entries), old(restoreIndex), old(installed), f);
              if next < |entries|
              then phase == Restoring && restoreIndex == next + 1 && restores == old(restores) + [next]
                   && entries == old(entries) && imports == old(imports)
              else phase == (if hasStaging && f.cleanupStarts then Cleanup else Summary)
                   && restores == old(restores) && imports == old(imports) + 1
                   && AutoLoadSettled(old(entries), entries, installed)
      ensures repositories == old(repositories) && installs == old(installs) && installed == old(installed)
      ensures adopted == old(adopted)
    {
      hide Jobs, Checks, SafeId, NextRestore, NeedsSettings, AutoLoadSettled;
      RestoreFits();
      ghost var start := restoreIndex;
      while restoreIndex < |entries|
        invariant Steady() && phase == Restoring && Idle() && start <= restoreIndex <= |entries|
        invariant repositories == old(repositories) && installs == old(installs) && restores == old(restores)
        invariant entries == old(entries) && installed == old(installed) && imports == old(imports)
        invariant adopted == old(adopted)
        invariant NextRestore(entries, start, installed, f) == NextRestore(entries, restoreIndex, installed, f)
        decreases |entries| - restoreIndex
      {
        RestoreStep(entries, restoreIndex, installed, f);
        TryRestore(f);
        if operation.Some? { return; }
      }
      FinishImport(f);
    }

    lemma RestoreFits()
      requires Jobs()
      ensures restoreIndex <= |entries|
    {
    }

    method TryRestore(f: Frame)
      requires Steady() && phase == Restoring && Idle() && restoreIndex < |entries|
      modifies this`restoreIndex, this`restores, this`problems, this`operation
      ensures Steady() && action == None && restoreIndex == old(restoreIndex) + 1
      ensures var index := old(restoreIndex);
              var needed := NeedsSettings(entries[index], installed);
              && operation == (if needed && index !in f.refused then Some(RestoreJob(index)) else None)
              && problems == old(problems) + if needed && index in f.refused then [JobFailed(entries[index].id)] else []
      ensures restores == old(restores) + if operation.Some? then [old(restoreIndex)] else []
    {
      hide Checks;
      var index := restoreIndex;
      var needed := NeedsSettings(entries[index], installed);
      if needed { RestoreWasChecked(index); }
      PassRestore(needed && index !in f.refused);
      if needed {
        if index in f.refused { problems := problems + [JobFailed(entries[index].id)]; }
        else { operation := Some(RestoreJob(index)); }
      }
    }

    lemma RestoreWasChecked(index: nat)
      requires Steady() && phase == Restoring && index < |entries| && NeedsSettings(entries[index], installed)
      ensures Justified(index) && entries[index].settings
    {
      hide SafeId, QueueFits, SkipsFit, Jobs, Covers, Apart;
      NeedsWasChecked(entries, installed, lastCheck, adopted, index);
    }

    method PassRestore(ghost starts: bool)
      requires Jobs() && phase == Restoring && restoreIndex < |entries|
      requires starts ==> Justified(restoreIndex) && entries[restoreIndex].settings
      modifies this`restoreIndex, this`restores
      ensures Jobs() && restoreIndex == old(restoreIndex) + 1
      ensures restores == old(restores) + if starts then [old(restoreIndex)] else []
    {
      restores := restores + if starts then [restoreIndex] else [];
      restoreIndex := restoreIndex + 1;
    }

    /** Imports the profile, with auto-load only for addons of the right source, and cleans up. */
    method FinishImport(f: Frame)
      requires Steady() && phase == Restoring && Idle()
      modifies this`entries, this`imports, this`phase, this`operation
      ensures Steady() && Waiting() && |entries| == |old(entries)| && imports == old(imports) + 1
      ensures phase == if hasStaging && f.cleanupStarts then Cleanup else Summary
      ensures AutoLoadSettled(old(entries), entries, installed)
    {
      hide SafeId, Increasing, QueueOk, Covered, SkipsJustified, StaysApart, Justified, AutoLoadSettled;
      DisableAutoLoad();
      imports := imports + 1;
      if hasStaging && f.cleanupStarts {
        phase, operation := Cleanup, Some(CleanupJob);
      } else {
        phase := Summary;
      }
    }

    method DisableAutoLoad()
      requires Steady() && phase == Restoring
      modifies this`entries
      ensures Steady() && |entries| == |old(entries)|
      ensures AutoLoadSettled(old(entries), entries, installed)
    {
      hide SafeId;
      for i := 0 to |entries|
        invariant |entries| == |old(entries)|
        invariant forall k :: i <= k < |entries| ==> entries[k] == old(entries)[k]
        invariant forall k :: 0 <= k < i ==>
                    entries[k] == old(entries)[k].(autoLoad := old(entries)[k].autoLoad && !old(entries)[k].sourceMismatch
                                                               && old(entries)[k].id in installed)
      {
        if entries[i].sourceMismatch || entries[i].id !in installed {
          entries := entries[i := entries[i].(autoLoad := false)];
        }
      }
    }

    /** `advance_profile_import`. When the driver was waiting for nothing, it gets closer to the
        summary. */
    method Advance(f: Frame)
      requires Steady() && (Idle() || Waiting()) && (phase == Cleanup ==> Waiting())
      modifies this
      ensures Sound() && SameChoices(old(entries), entries) && |repositories| <= |old(repositories)|
      ensures Rank(phase) <= old(Rank(phase))
      ensures old(installs) <= installs && old(restores) <= restores
      ensures !old(Idle()) ==> phase == old(phase) && Left() == old(Left())
      ensures old(Idle()) && 2 <= old(Rank(phase)) <= 5 ==>
                Rank(phase) < old(Rank(phase)) || (phase == old(phase) && Left() < old(Left()))
      ensures old(phase) == Review || old(phase) == Summary ==> phase == old(phase)
      ensures old(Idle()) && old(phase) == Installing && Rank(phase) < Rank(Installing) ==>
                NothingToInstall(old(entries), old(installIndex), old(installed), f)
      ensures installed == old(installed) && adopted == old(adopted)
    {
      SameChoicesItself(entries);
      hide Jobs, Checks, NothingToInstall;
      if phase == Review || phase == Summary || operation.Some? || action.Some? { return; }
      if phase == Repositories {
        if repositories != [] {
          repositories := repositories[1..];
          if f.refreshStarts { operation := Some(Refresh); }
          return;
        }
        EnterInstalling();
      }
      Proceed(f);
    }

    /** The phases that follow one another within a frame. */
    method Proceed(f: Frame)
      requires Steady() && Idle() && (phase == Installing || phase == Unloading || phase == Restoring)
      modifies this
      ensures Sound() && SameChoices(old(entries), entries) && repositories == old(repositories)
      ensures Rank(phase) <= old(Rank(phase)) && installed == old(installed) && adopted == old(adopted)
      ensures old(installs) <= installs && old(restores) <= restores
      ensures phase == old(phase) ==> Left() < old(Left())
      ensures old(phase) == Installing && Rank(phase) < Rank(Installing) ==>
                NothingToInstall(old(entries), old(installIndex), installed, f)
    {
      hide Jobs, Checks, NextInstall, PassedProblems, ToUnload, NextRestore, LeadingIdle, AutoLoadSettled, Looked,
           IdOf, Startable, NeedsSettings, SameChoices, IsLoaded;
      ghost var before := entries;
      SameChoicesItself(entries);
      if phase == Installing { RunInstalling(f); }
      if phase == Unloading { RunUnloading(f); }
      ghost var looked := entries;
      if phase == Restoring {
        RunRestoring(f);
        ChoicesStay(before, looked, entries);
      }
    }

    method EnterInstalling()
      requires Steady() && phase == Repositories
      modifies this`phase, this`installIndex
      ensures Steady() && phase == Installing && installIndex == 0
    {
      hide Checked, QueueFits, SkipsFit, Covers, Apart, SafeId;
      phase, installIndex := Installing, 0;
    }

    /** The first half of a frame: what was in flight may come to an end. */
    method Settle(f: Frame)
      requires Sound()
      modifies this`operation, this`action, this`installed, this`problems, this`phase, this`adopted
      ensures Steady() && (Idle() || Waiting()) && (phase == Cleanup ==> Waiting())
      ensures phase == old(phase) || (old(phase) == Cleanup && phase == Summary)
      ensures Finished(old(operation), old(action), f) ==> Idle() && phase != Cleanup
      ensures adopted == old(adopted) +
                         if old(phase) == Unloading && old(operation).Some? && f.done == Some(true)
                         then Adopted(entries, old(installed), f.found) else {}
    {
      hide Jobs, Checks, Adopted, Seen;
      if operation.Some? && f.done.Some? { CompleteOperation(f.done.value, f.found); }
      TickAddonAction(f.seen, f.now);
    }

    /** One rendered frame: phases never go back, and the summary comes closer unless something is
        still in flight. */
    method Render(f: Frame)
      requires Sound()
      modifies this
      ensures Sound() && SameChoices(old(entries), entries) && |repositories| <= |old(repositories)|
      ensures Rank(phase) <= old(Rank(phase))
      ensures old(installs) <= installs && old(restores) <= restores
      ensures adopted == old(adopted) +
                         if old(phase) == Unloading && old(operation).Some? && f.done == Some(true)
                         then Adopted(old(entries), old(installed), f.found) else {}
      ensures Distance() <= old(Distance())
      ensures Finished(old(operation), old(action), f) && 1 <= old(Rank(phase)) <= 5 ==> Distance() < old(Distance())
    {
      hide Jobs, Checks, Far, Waiting, Adopted, Finished, NothingToInstall;
      LeftIsBounded();
      ghost var p, left, entries0, before := phase, Left(), |entries|, |repositories|;
      Settle(f);
      Advance(f);
      LeftIsBounded();
      Closer(p, left, phase, Left(), entries0, before, |repositories|);
    }
  }

  /** What was in flight, if anything, has come to an end in this frame. */
  predicate Finished(operation: Option<Operation>, action: Option<Action>, f: Frame) {
    && (operation.Some? ==> f.done.Some?)
    && (action.Some? ==> Over(action.value, f.seen, f.now))
  }

  /** What can happen once an import is confirmed: frames, and jobs and commands of the user's. */
  datatype Event =
    | Present(frame: Frame)
    | UserJob(installed: set<string>)
    | UserCommand(command: Action)
    | UserRefresh

  /** Whole runs. Each entry is installed at most once and restored at most once. What is restored
      was not loaded when last checked, unless it was never checked: that is so exactly for the entries
      that a catalog fetched during the unloading turned out to have installed. The profile is imported
      exactly once, and the number of frames that do not wait is bounded. */
  method Run(items: seq<Item>, installed: set<string>, hasStaging: bool, added: seq<string>, events: seq<Event>)
    returns (d: Import, ghost active: nat)
    requires forall i :: 0 <= i < |items| ==> SafeId(items[i].id) && !items[i].skipSettings
    ensures fresh(d) && d.Sound() && SameChoices(items, d.entries)
    ensures forall i :: 0 <= i < |d.installs| ==>
              d.installs[i] < |items| && items[d.installs[i]].install && items[d.installs[i]].trusted
    ensures forall i :: 0 <= i < |d.restores| ==> d.restores[i] < |items| && items[d.restores[i]].settings
    ensures Increasing(d.installs, |items|) && Increasing(d.restores, |items|)
    ensures forall i :: 0 <= i < |d.restores| ==>
              && (d.restores[i] in d.lastCheck <==> d.restores[i] !in d.adopted)
              && (d.restores[i] in d.lastCheck ==> !d.lastCheck[d.restores[i]])
    ensures d.imports == if d.phase == Cleanup || d.phase == Summary then 1 else 0
    ensures active + d.Distance() <= Far(Repositories, |items|, |added|, |added|) && 0 <= d.Distance()
  {
    hide Import.Jobs, Import.Checks, Import.Waiting, Far, SameChoices;
    d := new Import(items, installed, hasStaging);
    SameChoicesItself(items);
    d.Confirm(added);
    active := 0;
    for i := 0 to |events|
      invariant fresh(d) && d.Sound() && SameChoices(items, d.entries) && Rank(d.phase) <= 5
      invariant active + d.Distance() <= Far(Repositories, |items|, |added|, |added|)
    {
      match events[i]
      case UserJob(after) => d.UserStarts(Some(after), None);
      case UserCommand(command) => d.UserStarts(None, Some(command));
      case UserRefresh => d.UserRefreshes();
      case Present(f) =>
        ghost var counts := Finished(d.operation, d.action, f) && d.phase != Summary;
        ghost var before := d.entries;
        d.Render(f);
        ChoicesStay(items, before, d.entries);
        active := active + if counts then 1 else 0;
    }
    JobsAre(d, items);
  }

  lemma JobsAre(d: Import, items: seq<Item>)
    requires d.Sound() && SameChoices(items, d.entries)
    ensures |d.entries| == |items|
    ensures forall i :: 0 <= i < |d.installs| ==>
              d.installs[i] < |items| && items[d.installs[i]].install && items[d.installs[i]].trusted
    ensures forall i :: 0 <= i < |d.restores| ==> d.restores[i] < |items| && items[d.restores[i]].settings
    ensures Increasing(d.installs, |d.entries|) && Increasing(d.restores, |d.entries|)
    ensures forall i :: 0 <= i < |d.restores| ==>
              && (d.restores[i] in d.lastCheck <==> d.restores[i] !in d.adopted)
              && (d.restores[i] in d.lastCheck ==> !d.lastCheck[d.restores[i]])
    ensures d.imports == if d.phase == Cleanup || d.phase == Summary then 1 else 0
    ensures 0 <= d.Distance()
  {
    hide Import.Checks;
    d.LeftIsBounded();
  }

  function Plain(id: string): Item { Item(id, false, true, false, true, false, false, None) }

  /** The frame in which the first addon is told to unload. */
  function FirstFrame(): Frame {
    Frame(None, {}, map[], map["aa" := true], 0, map[], {}, true, true)
  }

  /** The frame in which the catalog arrives and the addon has gone. */
  function SecondFrame(): Frame {
    Frame(Some(true), {"bb"}, map["aa" := false], map["aa" := false, "bb" := true], 1, map[], {}, true, true)
  }

  lemma PlanOfTwo(entries: seq<Item>)
    requires entries == [Plain("aa"), Plain("bb")]
    ensures NextInstall(entries, 0, {"aa"}, FirstFrame()) == 2
    ensures ToUnload(entries, {"aa"}) == [0]
    ensures LeadingIdle([0], entries, FirstFrame().loaded) == 0 && LeadingIdle([], entries, SecondFrame().loaded) == 0
    ensures NextRestore(entries, 0, {"aa", "bb"}, SecondFrame()) == 0
    ensures NextRestore(entries, 1, {"aa", "bb"}, SecondFrame()) == 1
    ensures Adopted(entries, {"aa"}, {"bb"}) == {1}
  {
    assert entries[0] == Plain("aa") && entries[1] == Plain("bb");
    assert entries[..1] == [Plain("aa")];
    assert ToUnload(entries[..1], {"aa"}) == [0] by { assert entries[..1][..0] == []; }
  }

  /** An import of two addons, of which the installed one is being unloaded. */
  method UnloadsFirst() returns (d: Import)
    ensures fresh(d) && d.Sound() && d.phase == Unloading && d.operation == None && d.action.Some?
    ensures d.action == Some(Action("aa", false, 0, false)) && d.unloadQueue == [] && d.unloadCurrent == Some(0)
    ensures d.entries == [Plain("aa"), Plain("bb")] && d.installed == {"aa"} && d.restores == [] && d.adopted == {}
  {
    hide Import.Jobs, Import.Checks, NextInstall, ToUnload, NextRestore, LeadingIdle, Adopted, NeedsSettings, PassedProblems;
    var items := [Plain("aa"), Plain("bb")];
    PlanOfTwo(items);
    d := new Import(items, {"aa"}, false);
    d.Confirm([]);
    d.EnterInstalling();
    d.RunInstalling(FirstFrame());
    assert d.phase == Unloading && d.unloadQueue == [0];
    NothingRestoredYet(d);
    d.RunUnloading(FirstFrame());
    NothingRestoredYet(d);
  }

  lemma NothingRestoredYet(d: Import)
    requires d.Steady() && d.phase == Unloading
    ensures d.restores == []
  {
    hide Import.Checks;
  }

  /** Meanwhile a catalog arrives that knows the other one, and the first has gone. */
  method AdoptsMeanwhile() returns (d: Import)
    ensures fresh(d) && d.Steady() && d.phase == Unloading && d.Idle() && d.unloadQueue == []
    ensures d.unloadCurrent == Some(0) && d.entries == [Plain("aa"), Plain("bb")] && d.installed == {"aa", "bb"}
    ensures d.restores == [] && d.adopted == {1}
  {
    hide Import.Jobs, Import.Checks, Adopted, Import.Waiting;
    d := UnloadsFirst();
    PlanOfTwo(d.entries);
    d.UserRefreshes();
    var second := SecondFrame();
    d.CompleteOperation(true, second.found);
    d.TickAddonAction(second.seen, second.now);
  }

  /** A run in which settings are restored while their addon is loaded: it was not installed when the
      queue of checks was made, and a catalog that the user fetched during the unloading adopted it. */
  method RestoresUnchecked() returns (d: Import)
    ensures fresh(d) && d.operation == Some(RestoreJob(1)) && d.entries == [Plain("aa"), Plain("bb")]
    ensures d.restores == [0, 1] && 1 !in d.lastCheck && IsLoaded(SecondFrame().loaded, "bb")
  {
    hide Import.Jobs, Import.Checks, NextRestore, LeadingIdle, NeedsSettings, Adopted, AutoLoadSettled;
    d := AdoptsMeanwhile();
    PlanOfTwo(d.entries);
    var second := SecondFrame();
    d.RunUnloading(second);
    assert d.entries == [Plain("aa"), Plain("bb")] && d.phase == Restoring;
    d.RunRestoring(second);
    d.CompleteOperation(true, {});
    d.RunRestoring(second);
    d.AdoptedIsUnchecked(1);
  }
}
