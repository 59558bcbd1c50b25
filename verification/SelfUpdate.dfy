/** The hand-off of a staged manager version from the engine (native/src/engine.cpp lines 995 to
    1014) to the bootstrap (addon/vanahub/vanahub.lua lines 9 to 41). */
module SelfUpdate {
  import opened LuaValues
  import opened Ownership
  import opened Paths
  import opened Text
  import opened Wrappers

  /** The manager's directory: the version directories and the two marker files with their
      temporaries. */
  datatype Store = Store(
    versions: map<string, Tree>,
    active: Option<string>, activeTmp: Option<string>, pending: Option<string>, pendingTmp: Option<string>)

  const ENTRY := "main.lua"

  predicate IsVersionCharacter(c: char) { IsAlpha(c) || IsDigit(c) || c == '.' || c == '_' || c == '-' }

  /** The bootstrap's pattern for version names. */
  predicate IsVersionName(s: string) {
    s != "" && forall i :: 0 <= i < |s| ==> IsVersionCharacter(s[i])
  }

  /** What the bootstrap would start without looking at `pending.txt`. */
  function Current(s: Store, shipped: string): string {
    if s.active.Some? then TrimRight(s.active.value) else shipped
  }

  /** A version directory is exactly as it was renamed into place. */
  ghost predicate Whole(s: Store, staged: map<string, Tree>, version: string) {
    version in staged && version in s.versions && s.versions[version] == staged[version]
  }

  /** Every version that was renamed into place is whole, and a marker holds the beginning of the
      name of one. */
  ghost predicate Safe(s: Store, staged: map<string, Tree>, shipped: string) {
    && AllWhole(s, staged) && shipped in staged && IsVersionName(shipped)
    && (s.pending.Some? ==> Begins(s.pending.value, staged))
    && (s.active.Some? ==> Begins(s.active.value, staged))
  }

  ghost predicate AllWhole(s: Store, staged: map<string, Tree>) {
    forall v :: v in staged ==> Whole(s, staged, v)
  }

  /** The beginning of the name of a whole version. */
  ghost predicate Begins(text: string, staged: map<string, Tree>) {
    exists v :: v in staged && IsVersionName(v) && TrimRight(text) <= v
  }

  /** Markers name whole versions. */
  ghost predicate Named(s: Store, staged: map<string, Tree>) {
    && (s.pending.Some? ==> Marks(s.pending.value, s, staged))
    && (s.active.Some? ==> Marks(s.active.value, s, staged))
  }

  ghost predicate Marks(text: string, s: Store, staged: map<string, Tree>) {
    Whole(s, staged, TrimRight(text)) && IsVersionName(TrimRight(text))
  }

  /** What a write leaves in a file that is cut short after `written` characters. */
  function Cut(text: string, written: nat): string {
    if written < |text| then text[..written] else text
  }

  /** What is read back of a version name whose writing was cut short. */
  lemma CutIsRead(version: string, written: nat)
    requires IsVersionName(version)
    ensures TrimRight(Cut(version + "\n", written)) == Cut(version, written)
    ensures IsVersionName(Cut(version, written)) <==> written > 0
  {
    if written > |version| {
      NameIsRead(version);
    } else if written > 0 {
      var read := Cut(version, written);
      assert Cut(version + "\n", written) == read && !IsSpace(read[|read| - 1]);
    }
  }

  lemma NameIsRead(version: string)
    requires IsVersionName(version)
    ensures TrimRight(version + "\n") == version
  {
    var text := version + "\n";
    var r := TrimRight(text);
    assert !IsSpace(version[|version| - 1]) && text[|version| - 1] == version[|version| - 1];
    assert r <= text && |r| >= |version|;
    assert r[|r| - 1] == text[|r| - 1] && IsSpace(text[|version|]);
  }

  lemma SafeIdIsVersionName(id: string)
    requires SafePackageId(id)
    ensures IsVersionName(id)
  {
  }

  /** The disk together with what was put on it whole. */
  datatype Snapshot = Snapshot(store: Store, staged: map<string, Tree>)

  ghost predicate AllHold(trace: seq<Snapshot>, shipped: string) {
    |trace| > 0 && forall k :: 0 <= k < |trace| ==> Safe(trace[k].store, trace[k].staged, shipped)
  }

  ghost predicate AllNamed(trace: seq<Snapshot>) {
    forall k :: 0 <= k < |trace| ==> Named(trace[k].store, trace[k].staged)
  }

  /** What can go wrong with a job: the renames can be refused, and the marker's text cut short. */
  datatype Refusals = Refusals(version: bool, marker: bool, written: nat)

  /** What can go wrong at a launch. */
  datatype Trouble = Trouble(cannotWrite: bool, written: nat, cannotRemove: bool, cannotRename: bool, keepsPending: bool)

  /** How a launch ends: `vanahub.lua` rejects the marker, finds no entry file, or starts. */
  datatype Launched = Invalid | Missing(version: string) | Started(version: string)

  function LaunchOf(s: Store, shipped: string): Launched {
    var version := Current(s, shipped);
    if !IsVersionName(version) then Invalid
    else if version in s.versions && ENTRY in s.versions[version] then Started(version)
    else Missing(version)
  }

  /** Steps that leave every marked version alone. */
  lemma SafeUnder(s: Store, staged: map<string, Tree>, next: Store, whole: map<string, Tree>, shipped: string)
    requires Safe(s, staged, shipped)
    requires staged.Keys <= whole.Keys && AllWhole(next, whole)
    requires next.pending == s.pending || next.pending == None
    requires next.active == s.active || next.active == None
    ensures Safe(next, whole, shipped) && (Named(s, staged) ==> Named(next, whole))
  {
    hide IsVersionName, TrimRight;
  }

  /** Marking a version, with a text that may be cut short: the marker names a whole version
      exactly if what was written does. */
  lemma SafeMark(s: Store, staged: map<string, Tree>, version: string, written: nat, shipped: string)
    requires Safe(s, staged, shipped) && IsVersionName(version) && Begins(version, staged)
    ensures var text := Cut(version + "\n", written);
            && Safe(s.(pending := Some(text), pendingTmp := None), staged, shipped)
            && Safe(s.(active := Some(text), activeTmp := None), staged, shipped)
            && (Marks(text, s, staged) <==> Cut(version, written) in staged && written > 0)
  {
    var text := Cut(version + "\n", written);
    CutIsRead(version, written);
    NoSpaceNoTrim(version);
    var v :| v in staged && IsVersionName(v) && TrimRight(version) <= v;
    hide IsVersionName, TrimRight;
    assert TrimRight(text) <= v;
  }

  lemma NoSpaceNoTrim(version: string)
    requires IsVersionName(version)
    ensures TrimRight(version) == version
  {
  }

  lemma ItBegins(version: string, staged: map<string, Tree>)
    requires version in staged && IsVersionName(version)
    ensures Begins(version, staged)
  {
    NoSpaceNoTrim(version);
  }

  class Manager {
    const shipped: string
    var store: Store
    var staged: map<string, Tree>
    var trace: seq<Snapshot> // every state since the last crash

    ghost predicate Sound()
      reads this
    {
      AllHold(trace, shipped) && trace[|trace| - 1] == Snapshot(store, staged)
    }

    /** A fresh installation: the shipped version and no markers. */
    constructor (shipped: string, tree: Tree)
      requires IsVersionName(shipped)
      ensures Sound() && AllNamed(trace) && this.shipped == shipped
      ensures store == Store(map[shipped := tree], None, None, None, None) && staged == map[shipped := tree]
    {
      this.shipped := shipped;
      store := Store(map[shipped := tree], None, None, None, None);
      staged := map[shipped := tree];
      trace := [Snapshot(Store(map[shipped := tree], None, None, None, None), map[shipped := tree])];
    }

    method Commit(next: Store, whole: map<string, Tree>)
      requires Sound() && Safe(next, whole, shipped)
      modifies this
      ensures Sound() && store == next && staged == whole && trace == old(trace) + [Snapshot(next, whole)]
      ensures old(AllNamed(trace)) && Named(next, whole) ==> AllNamed(trace)
    {
      hide Safe, Named;
      store, staged, trace := next, whole, trace + [Snapshot(next, whole)];
    }

    /** The process dies and the disk is as some step left it. */
    method Crash(step: nat)
      requires Sound() && step < |trace|
      modifies this
      ensures Sound() && trace == [old(trace)[step]] && Snapshot(store, staged) == old(trace)[step]
      ensures old(AllNamed(trace)) ==> AllNamed(trace)
    {
      hide Safe, Named;
      store, staged, trace := trace[step].store, trace[step].staged, [trace[step]];
    }

    /** The job or launch is over; later crashes do not reach back to before it. */
    method Settle()
      requires Sound()
      modifies this
      ensures Sound() && store == old(store) && staged == old(staged) && |trace| == 1
      ensures old(AllNamed(trace)) ==> AllNamed(trace)
    {
      hide Safe, Named;
      trace := [Snapshot(store, staged)];
    }

    lemma SafeNow()
      requires Sound()
      ensures Safe(store, staged, shipped) && AllWhole(store, staged)
      ensures forall v :: v in staged ==> v in store.versions
      ensures AllNamed(trace) ==> Named(store, staged)
    {
      assert trace[|trace| - 1].store == store;
    }

    /** A step that leaves every marked version alone. */
    method Proceed(next: Store, whole: map<string, Tree>)
      requires Sound() && staged.Keys <= whole.Keys && AllWhole(next, whole)
      requires next.pending == store.pending || next.pending == None
      requires next.active == store.active || next.active == None
      modifies this
      ensures Sound() && store == next && staged == whole && trace == old(trace) + [Snapshot(next, whole)]
      ensures old(AllNamed(trace)) ==> AllNamed(trace)
    {
      hide Safe, AllHold, Named, AllNamed, AllWhole;
      SafeNow();
      SafeUnder(store, staged, next, whole, shipped);
      Commit(next, whole);
    }

    /** A file is opened, which empties it, and then written, perhaps not to the end. */
    method WritePendingTmp(text: string)
      requires Sound()
      modifies this
      ensures Sound() && store == old(store).(pendingTmp := Some(text)) && staged == old(staged)
      ensures old(trace) <= trace && (old(AllNamed(trace)) ==> AllNamed(trace))
    {
      hide Safe, AllHold, Named, AllNamed;
      SafeNow();
      Proceed(store.(pendingTmp := Some("")), staged);
      Proceed(store.(pendingTmp := Some(text)), staged);
    }

    method WriteActiveTmp(text: string)
      requires Sound()
      modifies this
      ensures Sound() && store == old(store).(activeTmp := Some(text)) && staged == old(staged)
      ensures old(trace) <= trace && (old(AllNamed(trace)) ==> AllNamed(trace))
    {
      hide Safe, AllHold, Named, AllNamed;
      SafeNow();
      Proceed(store.(activeTmp := Some("")), staged);
      Proceed(store.(activeTmp := Some(text)), staged);
    }

    /** `fs::remove_all` on a version that no marker names, one file at a time. */
    method RemoveVersion(version: string)
      requires Sound() && version in store.versions && version !in staged
      modifies this
      ensures Sound() && staged == old(staged) && old(trace) <= trace
      ensures store == old(store).(versions := old(store).versions - {version})
      ensures old(AllNamed(trace)) ==> AllNamed(trace)
    {
      hide Safe, AllHold, Named, AllNamed;
      var s0 := store;
      var tree := store.versions[version];
      assert s0.versions[version := tree] == s0.versions;
      while tree != map[]
        invariant Sound() && staged == old(staged) && old(trace) <= trace
        invariant store == s0.(versions := s0.versions[version := tree])
        invariant old(AllNamed(trace)) ==> AllNamed(trace)
        decreases |tree|
      {
        var file :| file in tree;
        tree := tree - {file};
        SafeNow();
        Proceed(s0.(versions := s0.versions[version := tree]), staged);
      }
      SafeNow();
      Proceed(s0.(versions := s0.versions - {version}), staged);
    }

    /** The end of a `stageSelfUpdate` job: the complete staging directory is renamed into place
        and then marked. */
    method Stage(version: string, tree: Tree, refused: Refusals) returns (ok: bool)
      requires Sound()
      modifies this
      ensures Sound() && old(trace) <= trace
      ensures ok <==> SafePackageId(version) && version !in old(store).versions && !refused.version && !refused.marker
      ensures store.active == old(store).active && store.activeTmp == old(store).activeTmp
      ensures ok ==> && store.pending == Some(Cut(version + "\n", refused.written))
                     && store.versions == old(store).versions[version := tree] && staged == old(staged)[version := tree]
                     && (Marks(store.pending.value, store, staged) <==>
                         refused.written > 0 && Cut(version, refused.written) in staged)
      ensures !ok ==> store.pending == old(store).pending && store.versions == old(store).versions
                      && staged == old(staged)
      ensures old(AllNamed(trace)) && (!ok || Marks(store.pending.value, store, staged)) ==> AllNamed(trace)
    {
      hide Safe, AllHold, Named, AllNamed, SafePackageId, IsVersionName, Marks, Begins;
      if !SafePackageId(version) || version in store.versions || refused.version { return false; }
      SafeNow();
      var text := Cut(version + "\n", refused.written);
      Proceed(store.(versions := store.versions[version := tree]),
              if refused.marker then staged else staged[version := tree]);
      WritePendingTmp(text);
      if refused.marker {
        RemoveVersion(version);
        assert store.versions == old(store).versions;
        return false;
      }
      SafeIdIsVersionName(version);
      ItBegins(version, staged);
      MarkPending(version, refused.written);
      return true;
    }

    method MarkPending(version: string, written: nat)
      requires Sound() && IsVersionName(version) && Begins(version, staged)
      modifies this
      ensures Sound() && staged == old(staged) && old(trace) <= trace
      ensures store == old(store).(pending := Some(Cut(version + "\n", written)), pendingTmp := None)
      ensures Marks(store.pending.value, store, staged) <==> written > 0 && Cut(version, written) in staged
      ensures old(AllNamed(trace)) && Marks(store.pending.value, store, staged) ==> AllNamed(trace)
    {
      hide Safe, AllHold, AllNamed, IsVersionName, Begins, TrimRight;
      SafeNow();
      SafeMark(store, staged, version, written, shipped);
      Commit(store.(pending := Some(Cut(version + "\n", written)), pendingTmp := None), staged);
    }

    method MarkActive(version: string, written: nat)
      requires Sound() && IsVersionName(version) && Begins(version, staged)
      modifies this
      ensures Sound() && staged == old(staged) && old(trace) <= trace
      ensures store == old(store).(active := Some(Cut(version + "\n", written)), activeTmp := None)
      ensures Marks(store.active.value, store, staged) <==> written > 0 && Cut(version, written) in staged
      ensures old(AllNamed(trace)) && Marks(store.active.value, store, staged) ==> AllNamed(trace)
    {
      hide Safe, AllHold, AllNamed, IsVersionName, Begins, TrimRight;
      SafeNow();
      SafeMark(store, staged, version, written, shipped);
      Commit(store.(active := Some(Cut(version + "\n", written)), activeTmp := None), staged);
    }

    /** The old marker is removed before the new one is renamed into place; a crash in between
        leaves none. Only the opening of the new one is checked, not what is written to it. */
    method Activate(version: string, trouble: Trouble)
      requires Sound() && Begins(version, staged) && IsVersionName(version) && store.pending.Some?
      modifies this
      ensures Sound() && staged == old(staged) && store.versions == old(store).versions && old(trace) <= trace
      ensures store.active == if trouble.cannotWrite then old(store).active
                              else if !trouble.cannotRename then Some(Cut(version + "\n", trouble.written))
                              else if trouble.cannotRemove then old(store).active else None
      ensures store.pending == if trouble.cannotWrite || trouble.cannotRename || trouble.keepsPending
                               then old(store).pending else None
      ensures !trouble.cannotWrite && !trouble.cannotRename ==>
                (Marks(store.active.value, store, staged) <==>
                 trouble.written > 0 && Cut(version, trouble.written) in staged)
      ensures old(AllNamed(trace)) ==>
                trouble.cannotWrite || trouble.cannotRename || Marks(store.active.value, store, staged) ==> AllNamed(trace)
    {
      hide Safe, AllHold, Named, AllNamed, IsVersionName, Begins, TrimRight;
      if trouble.cannotWrite { return; }
      WriteActiveTmp(Cut(version + "\n", trouble.written));
      SafeNow();
      if store.active.Some? && !trouble.cannotRemove {
        Proceed(store.(active := None), staged);
      }
      if trouble.cannotRename { return; }
      MarkActive(version, trouble.written);
      if trouble.keepsPending { return; }
      SafeNow();
      Proceed(store.(pending := None), staged);
    }

    /** The bootstrap: activates a pending version that has an entry file and starts what is active
        then. From markers that name whole versions it starts a whole one exactly if what was written
        of the new marker still names one. */
    method Launch(trouble: Trouble) returns (end: Launched)
      requires Sound()
      modifies this
      ensures Sound() && staged == old(staged) && store.versions == old(store).versions && old(trace) <= trace
      ensures end == LaunchOf(store, shipped)
      ensures var version := if store.active.Some? then TrimRight(store.active.value) else shipped;
              && (end.Invalid? <==> !IsVersionName(version))
              && (end.Started? <==> IsVersionName(version) && version in store.versions && "main.lua" in store.versions[version])
              && (end.Started? ==> end.version == version)
      ensures old(store).pending.None? ==> store == old(store)
      ensures Activates(old(store), trouble) ==>
                var version := TrimRight(old(store).pending.value);
                && store.active == Some(Cut(version + "\n", trouble.written))
                && (Marks(store.active.value, store, staged) <==>
                    trouble.written > 0 && Cut(version, trouble.written) in staged)
      ensures Activates(old(store), trouble) && !trouble.keepsPending ==> store.pending == None
      ensures !Activates(old(store), trouble) ==>
                store.pending == old(store).pending && (store.active == old(store).active || store.active == None)
      ensures old(AllNamed(trace)) && !Torn(old(store), staged, trouble) ==>
                AllNamed(trace) && Whole(store, staged, Current(store, shipped)) && !end.Invalid?
      ensures Torn(old(store), staged, trouble) ==> !Marks(store.active.value, store, staged)
    {
      hide Safe, AllHold, Named, AllNamed, IsVersionName, TrimRight, Marks, Whole, Begins;
      SafeNow();
      ghost var s0 := store;
      if store.pending.Some? {
        var pending := TrimRight(store.pending.value);
        if IsVersionName(pending) && pending in store.versions && ENTRY in store.versions[pending] {
          PendingBegins(store, staged, shipped);
          Activate(pending, trouble);
        }
      }
      end := LaunchOf(store, shipped);
      SafeNow();
      if AllNamed(trace) { MarkedIsWhole(store, staged, shipped); }
    }
  }

  lemma PendingBegins(s: Store, staged: map<string, Tree>, shipped: string)
    requires Safe(s, staged, shipped) && s.pending.Some? && IsVersionName(TrimRight(s.pending.value))
    ensures Begins(TrimRight(s.pending.value), staged)
  {
    NoSpaceNoTrim(TrimRight(s.pending.value));
  }

  /** A pending version is taken up when it has an entry file and the marker can be replaced. */
  predicate Activates(s: Store, trouble: Trouble) {
    && s.pending.Some? && !trouble.cannotWrite && !trouble.cannotRename
    && var pending := TrimRight(s.pending.value);
       IsVersionName(pending) && pending in s.versions && ENTRY in s.versions[pending]
  }

  /** What is written of the new marker names no whole version. */
  ghost predicate Torn(s: Store, staged: map<string, Tree>, trouble: Trouble) {
    && Activates(s, trouble)
    && (trouble.written == 0 || Cut(TrimRight(s.pending.value), trouble.written) !in staged)
  }

  lemma MarkedIsWhole(s: Store, staged: map<string, Tree>, shipped: string)
    requires Safe(s, staged, shipped) && Named(s, staged)
    ensures Whole(s, staged, Current(s, shipped)) && IsVersionName(Current(s, shipped))
    ensures s.pending.Some? ==> Whole(s, staged, TrimRight(s.pending.value))
  {
    hide TrimRight, IsVersionName;
  }

  /** Once an empty marker is active and nothing is pending, no launch starts anything any more. */
  method StaysDown(m: Manager, launches: seq<Trouble>) returns (ends: seq<Launched>)
    requires m.Sound() && m.store.pending.None? && !IsVersionName(Current(m.store, m.shipped))
    modifies m
    ensures m.Sound() && m.store == old(m.store) && |ends| == |launches|
    ensures forall i :: 0 <= i < |ends| ==> ends[i] == Invalid
  {
    hide AllHold, AllNamed, IsVersionName, TrimRight, Marks, Whole;
    ends := [];
    for i := 0 to |launches|
      invariant m.Sound() && m.store == old(m.store) && |ends| == i
      invariant forall j :: 0 <= j < i ==> ends[j] == Invalid
    {
      var end := m.Launch(launches[i]);
      ends := ends + [end];
    }
  }

  /** A launch that cannot write the marker it has opened starts nothing, and no later one does. */
  method EmptyMarkerBlocks(m: Manager, version: string, trouble: Trouble, later: seq<Trouble>) returns (ends: seq<Launched>)
    requires m.Sound() && m.store.pending == Some(version + "\n") && IsVersionName(version)
    requires version in m.store.versions && ENTRY in m.store.versions[version]
    requires trouble == Trouble(false, 0, false, false, false)
    modifies m
    ensures |ends| == 1 + |later| && forall i :: 0 <= i < |ends| ==> ends[i] == Invalid
  {
    NameIsRead(version);
    CutIsRead(version, 0);
    hide AllHold, AllNamed, IsVersionName, TrimRight, Marks, Whole;
    var end := m.Launch(trouble);
    var more := StaysDown(m, later);
    ends := [end] + more;
  }

  /** A job or a launch, which may die at any of its steps. */
  datatype Event =
    | StageUpdate(version: string, tree: Tree, refused: Refusals, dies: Option<nat>)
    | StartUp(trouble: Trouble, dies: Option<nat>)

  /** Nothing of a version name is cut off when a marker is written. */
  predicate Intact(event: Event, s: Store) {
    match event
    case StageUpdate(version, _, refused, _) => |version| <= refused.written
    case StartUp(trouble, _) => s.pending.Some? ==> |TrimRight(s.pending.value)| <= trouble.written
  }

  /** Any interleaving of staging, launches and crashes. At every state the versions that were renamed
      into place are whole; as long as no marker is cut short, the markers name such versions, so that
      every launch finds one. `befores` are the disks on which the events start. */
  method Run(shipped: string, tree: Tree, events: seq<Event>) returns (m: Manager, befores: seq<Store>)
    requires IsVersionName(shipped)
    ensures fresh(m) && m.Sound() && m.shipped == shipped && |befores| == |events|
    ensures AllWhole(m.store, m.staged)
    ensures (forall i :: 0 <= i < |events| ==> Intact(events[i], befores[i])) ==>
              && Whole(m.store, m.staged, Current(m.store, shipped))
              && (m.store.pending.Some? ==> Whole(m.store, m.staged, TrimRight(m.store.pending.value)))
  {
    hide Safe, AllHold, AllNamed, Named, IsVersionName, TrimRight, Whole, Intact;
    m := new Manager(shipped, tree);
    befores := [];
    for i := 0 to |events|
      invariant fresh(m) && m.Sound() && m.shipped == shipped && |befores| == i
      invariant (forall j :: 0 <= j < i ==> Intact(events[j], befores[j])) ==> AllNamed(m.trace)
    {
      m.Settle();
      befores := befores + [m.store];
      Perform(m, events[i]);
    }
    m.SafeNow();
    if AllNamed(m.trace) { MarkedIsWhole(m.store, m.staged, shipped); }
  }

  method Perform(m: Manager, event: Event)
    requires m.Sound()
    modifies m
    ensures m.Sound()
    ensures old(AllNamed(m.trace)) && Intact(event, old(m.store)) ==> AllNamed(m.trace)
  {
    hide Safe, AllHold, AllNamed, IsVersionName, TrimRight, Marks, Whole;
    match event {
      case StageUpdate(version, content, refused, _) =>
        var ok := m.Stage(version, content, refused);
        if ok { SafeIdIsNotEmpty(version); }
      case StartUp(trouble, _) =>
        m.SafeNow();
        if AllNamed(m.trace) && Intact(event, m.store) { NotTorn(m.store, m.staged, trouble); }
        var _ := m.Launch(trouble);
    }
    if event.dies.Some? && event.dies.value < |m.trace| { m.Crash(event.dies.value); }
  }

  lemma SafeIdIsNotEmpty(version: string)
    requires SafePackageId(version)
    ensures version != ""
  {
  }

  lemma NotTorn(s: Store, staged: map<string, Tree>, trouble: Trouble)
    requires Named(s, staged) && (s.pending.Some? ==> |TrimRight(s.pending.value)| <= trouble.written)
    ensures !Torn(s, staged, trouble)
  {
    hide TrimRight;
  }
}
