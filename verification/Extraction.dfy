/** Inspecting and unpacking a package archive: `inspect_and_extract` in native/src/engine.cpp
    lines 438 to 525, over archives given as the list of their entries. */
module Extraction {
  import opened Ownership
  import opened Paths
  import opened Text
  import opened Wrappers
  import LuaScan
  import Installation

  /** An archive entry as the ZIP reader reports it; sizes are signed 64-bit numbers. */
  datatype ZipEntry = ZipEntry(
    readable: bool, path: string, isDirectory: bool, isLink: bool, encrypted: bool, supported: bool,
    uncompressed: int, compressed: int, content: string)

  const EXPANSION_LIMIT := 200 * 1024 * 1024
  const FILE_LIMIT := 50 * 1024 * 1024
  const RATIO_LIMIT := 200
  const COUNT_LIMIT := 4096
  const ALLOWED_EXTENSIONS :=
    [".lua", ".json", ".ini", ".xml", ".txt", ".md", ".png", ".jpg", ".jpeg", ".dds", ".wav"]
  const ENGINE_BINARY := "bin/vanahub_engine.dll"

  /** What a job asks for. */
  datatype Request = Request(root: string, entrypoint: string, allowElevated: bool, allowEngineBinary: bool)

  function WithoutTrailingSlashes(s: string): (r: string)
    ensures r <= s && (r != "" ==> r[|r| - 1] != '/')
  {
    if s != "" && s[|s| - 1] == '/' then WithoutTrailingSlashes(s[..|s| - 1]) else s
  }

  function Name(e: ZipEntry): string { WithoutTrailingSlashes(e.path) }

  /** `find_last_of`, or -1. */
  function LastIndex(s: string, c: char): (r: int)
    ensures -1 <= r < |s| && (r >= 0 ==> s[r] == c) && forall k :: r < k < |s| ==> s[k] != c
  {
    if s == "" then -1 else if s[|s| - 1] == c then |s| - 1 else LastIndex(s[..|s| - 1], c)
  }

  /** The folded extension of the last path component, or nothing. */
  function Extension(path: string): string {
    var dot := LastIndex(path, '.');
    if dot < 0 || dot < LastIndex(path, '/') || dot < LastIndex(path, '\\') then "" else Lower(path[dot..])
  }

  predicate AllowedExtension(path: string) { Extension(path) in ALLOWED_EXTENSIONS }

  predicate IsRootItself(e: ZipEntry, root: string) {
    root != "" && Name(e) == root && e.isDirectory
  }

  predicate UnderRoot(name: string, root: string) { root == "" || root + "/" <= name }

  function Relative(name: string, root: string): string
    requires UnderRoot(name, root)
  {
    if root == "" then name else name[|root| + 1..]
  }

  /** An entry that is neither nameless nor the archive root itself. */
  predicate Counts(e: ZipEntry, root: string) { Name(e) != "" && !IsRootItself(e, root) }

  predicate Permitted(e: ZipEntry, r: Request) {
    && e.readable
    && (Name(e) != "" ==>
          && SafeRelativePath(Name(e)) && !e.isLink && !e.encrypted && e.supported
          && e.uncompressed <= FILE_LIMIT
          && !(e.compressed > 0 && e.uncompressed / e.compressed > RATIO_LIMIT))
    && (Counts(e, r.root) ==> UnderRoot(Name(e), r.root) && TypeAllowed(e, r))
  }

  predicate TypeAllowed(e: ZipEntry, r: Request)
    requires UnderRoot(Name(e), r.root)
  {
    var relative := Relative(Name(e), r.root);
    || e.isDirectory || AllowedExtension(relative)
    || (r.allowEngineBinary && Lower(relative) == ENGINE_BINARY)
  }

  predicate AllPermitted(entries: seq<ZipEntry>, r: Request) {
    forall i :: 0 <= i < |entries| ==> Permitted(entries[i], r)
  }

  /** Addition in an unsigned 64-bit accumulator. */
  function Add64(a: nat, b: int): nat { (a + b) % 0x1_0000_0000_0000_0000 }

  /** The running 64-bit total of the sizes. */
  function Expanded(entries: seq<ZipEntry>): (total: nat) {
    if entries == [] then 0
    else
      var e := entries[|entries| - 1];
      var before := Expanded(entries[..|entries| - 1]);
      if Name(e) == "" then before else Add64(before, e.uncompressed)
  }

  ghost predicate WithinLimit(entries: seq<ZipEntry>) {
    forall n :: 0 <= n <= |entries| ==> Expanded(entries[..n]) <= EXPANSION_LIMIT
  }

  /** Where the entries go, in the order of the archive. */
  function Destinations(entries: seq<ZipEntry>, r: Request): seq<string>
    requires AllPermitted(entries, r)
  {
    if entries == [] then []
    else
      var e := entries[|entries| - 1];
      Destinations(entries[..|entries| - 1], r) + if Counts(e, r.root) then [Relative(Name(e), r.root)] else []
  }

  /** The files among them. */
  function Files(entries: seq<ZipEntry>, r: Request): seq<string>
    requires AllPermitted(entries, r)
  {
    if entries == [] then []
    else
      var e := entries[|entries| - 1];
      Files(entries[..|entries| - 1], r) +
      if Counts(e, r.root) && !e.isDirectory then [Relative(Name(e), r.root)] else []
  }

  ghost predicate FoldDistinct(paths: seq<string>) {
    forall i, j :: 0 <= i < j < |paths| ==> Lower(paths[i]) != Lower(paths[j])
  }

  /** What an archive has to be. */
  ghost predicate Approved(entries: seq<ZipEntry>, r: Request) {
    && AllPermitted(entries, r) && WithinLimit(entries)
    && var paths := Destinations(entries, r);
       && FoldDistinct(paths) && |paths| <= COUNT_LIMIT
       && exists i :: 0 <= i < |paths| && Lower(paths[i]) == Lower(r.entrypoint)
  }

  /** The checks on one entry, in the order of the source. */
  method CheckEntry(e: ZipEntry, r: Request) returns (ok: bool)
    requires e.readable && Name(e) != ""
    ensures ok <==> Permitted(e, r)
  {
    hide SafeRelativePath, Extension;
    var safe := IsSafeRelativePath(Name(e));
    if !safe || e.isLink || e.encrypted || !e.supported || e.uncompressed > FILE_LIMIT { return false; }
    if e.compressed > 0 && e.uncompressed / e.compressed > RATIO_LIMIT { return false; }
    if IsRootItself(e, r.root) { return true; }
    if !UnderRoot(Name(e), r.root) { return false; }
    var relative := Relative(Name(e), r.root);
    var engineBinary := r.allowEngineBinary && Lower(relative) == ENGINE_BINARY;
    return AllowedExtension(relative) || engineBinary || e.isDirectory;
  }

  /** What the first pass has established about the entries it has seen. */
  ghost predicate Sofar(entries: seq<ZipEntry>, r: Request) {
    && AllPermitted(entries, r) && WithinLimit(entries)
    && FoldDistinct(Destinations(entries, r)) && |Destinations(entries, r)| <= COUNT_LIMIT
  }

  lemma {:induction false} SofarPrefix(entries: seq<ZipEntry>, r: Request, n: nat)
    requires Sofar(entries, r) && n <= |entries|
    ensures Sofar(entries[..n], r)
    ensures Destinations(entries[..n], r) <= Destinations(entries, r)
    decreases |entries| - n
  {
    hide Permitted, Expanded, Counts, UnderRoot, Relative;
    if n == |entries| {
      assert entries[..n] == entries;
    } else {
      SofarPrefix(entries, r, n + 1);
      var longer := entries[..n + 1];
      assert longer[..n] == entries[..n];
      assert Destinations(longer[..n], r) <= Destinations(longer, r);
      DistinctPrefix(Destinations(longer, r), Destinations(longer[..n], r));
      forall k | 0 <= k <= n ensures Expanded(entries[..n][..k]) <= EXPANSION_LIMIT {
        assert entries[..n][..k] == longer[..k];
      }
    }
  }

  lemma DistinctPrefix(paths: seq<string>, front: seq<string>)
    requires FoldDistinct(paths) && front <= paths
    ensures FoldDistinct(front)
  {
  }

  ghost predicate Folds(paths: seq<string>, folded: set<string>) {
    |folded| == |paths| && forall s :: s in folded <==> exists i :: 0 <= i < |paths| && Lower(paths[i]) == s
  }

  lemma FoldsStep(paths: seq<string>, folded: set<string>, path: string)
    requires Folds(paths, folded) && FoldDistinct(paths)
    ensures FoldDistinct(paths + [path]) <==> Lower(path) !in folded
    ensures Lower(path) !in folded ==> Folds(paths + [path], folded + {Lower(path)})
  {
    var all := paths + [path];
    assert all[|paths|] == path && forall i :: 0 <= i < |paths| ==> all[i] == paths[i];
    hide Lower;
    if Lower(path) in folded {
      var i :| 0 <= i < |paths| && Lower(paths[i]) == Lower(path);
      assert Lower(all[i]) == Lower(all[|paths|]);
    } else {
      var more := folded + {Lower(path)};
      forall s ensures s in more <==> exists i :: 0 <= i < |all| && Lower(all[i]) == s {
        if s == Lower(path) { assert Lower(all[|paths|]) == s; }
        if s in folded {
          var i :| 0 <= i < |paths| && Lower(paths[i]) == s;
          assert Lower(all[i]) == s;
        }
      }
    }
  }

  lemma LimitStep(entries: seq<ZipEntry>, e: ZipEntry)
    ensures WithinLimit(entries + [e]) <==> WithinLimit(entries) && Expanded(entries + [e]) <= EXPANSION_LIMIT
  {
    hide Expanded;
    var all := entries + [e];
    assert all[..|all|] == all;
    forall n | 0 <= n <= |entries| ensures all[..n] == entries[..n] {
    }
  }

  lemma SofarStep(entries: seq<ZipEntry>, r: Request, e: ZipEntry)
    requires Sofar(entries, r)
    ensures Sofar(entries + [e], r) <==>
            && Permitted(e, r) && Expanded(entries + [e]) <= EXPANSION_LIMIT
            && (Counts(e, r.root) ==>
                  && FoldDistinct(Destinations(entries, r) + [Relative(Name(e), r.root)])
                  && |Destinations(entries, r)| < COUNT_LIMIT)
  {
    hide Permitted, Expanded, UnderRoot, Relative, Counts, WithinLimit, AllPermitted, Destinations, FoldDistinct, Name;
    LimitStep(entries, e);
    PermittedStep(entries, r, e);
    assert Destinations(entries, r) + [] == Destinations(entries, r);
  }

  lemma PermittedStep(entries: seq<ZipEntry>, r: Request, e: ZipEntry)
    requires AllPermitted(entries, r)
    ensures AllPermitted(entries + [e], r) <==> Permitted(e, r)
    ensures Permitted(e, r) && Counts(e, r.root) ==> UnderRoot(Name(e), r.root)
    ensures Permitted(e, r) ==>
              Destinations(entries + [e], r) ==
              Destinations(entries, r) + if Counts(e, r.root) then [Relative(Name(e), r.root)] else []
  {
    var all := entries + [e];
    assert all[..|entries|] == entries && all[|entries|] == e;
    hide SafeRelativePath, Extension, WithoutTrailingSlashes;
    if AllPermitted(all, r) { assert Permitted(all[|entries|], r); }
  }

  lemma NothingSofar(r: Request)
    ensures Sofar([], r) && Destinations([], r) == [] && Expanded([]) == 0 && Folds([], {})
  {
  }

  ghost predicate HasEntrypoint(paths: seq<string>, entrypoint: string) {
    exists i :: 0 <= i < |paths| && Lower(paths[i]) == Lower(entrypoint)
  }

  lemma ApprovedIs(entries: seq<ZipEntry>, r: Request)
    ensures Approved(entries, r) <==>
            Sofar(entries, r) && HasEntrypoint(Destinations(entries, r), r.entrypoint)
  {
    hide Permitted, Destinations, WithinLimit, FoldDistinct, Lower;
  }

  lemma SkippedStep(seen: seq<ZipEntry>, r: Request, e: ZipEntry)
    requires Sofar(seen, r) && e.readable && Name(e) == ""
    ensures Sofar(seen + [e], r) && Expanded(seen + [e]) == Expanded(seen)
    ensures Destinations(seen + [e], r) == Destinations(seen, r)
  {
    ExpandedStep(seen, e);
    assert Permitted(e, r);
    SofarStep(seen, r, e);
    PermittedStep(seen, r, e);
    assert Expanded(seen) <= EXPANSION_LIMIT by { assert seen[..|seen|] == seen; }
  }

  lemma ExpandedStep(seen: seq<ZipEntry>, e: ZipEntry)
    ensures Expanded(seen + [e]) ==
            if Name(e) == "" then Expanded(seen) else Add64(Expanded(seen), e.uncompressed)
  {
    assert (seen + [e])[..|seen|] == seen;
  }

  /** One turn of the first loop. */
  method VisitEntry(ghost seen: seq<ZipEntry>, e: ZipEntry, r: Request, expanded: nat, folded: set<string>, found: bool)
    returns (keep: bool, expandedNow: nat, foldedNow: set<string>, foundNow: bool)
    requires Sofar(seen, r) && expanded == Expanded(seen) && Folds(Destinations(seen, r), folded)
    requires found <==> Lower(r.entrypoint) in folded
    ensures keep <==> Sofar(seen + [e], r)
    ensures keep ==> expandedNow == Expanded(seen + [e]) && Folds(Destinations(seen + [e], r), foldedNow)
    ensures keep ==> (foundNow <==> Lower(r.entrypoint) in foldedNow)
  {
    hide Sofar, Folds, Destinations, Expanded, SafeRelativePath, Extension, TypeAllowed, Lower, WithoutTrailingSlashes;
    SofarIs(seen, r);
    SofarStep(seen, r, e);
    expandedNow, foldedNow, foundNow := expanded, folded, found;
    if !e.readable { return false, expandedNow, foldedNow, foundNow; }
    if Name(e) == "" {
      SkippedStep(seen, r, e);
      return true, expandedNow, foldedNow, foundNow;
    }
    var ok := CheckEntry(e, r);
    ExpandedStep(seen, e);
    PermittedStep(seen, r, e);
    expandedNow := Add64(expanded, e.uncompressed);
    if !ok || expandedNow > EXPANSION_LIMIT { return false, expandedNow, foldedNow, foundNow; }
    assert Destinations(seen, r) + [] == Destinations(seen, r);
    if IsRootItself(e, r.root) { return true, expandedNow, foldedNow, foundNow; }
    var relative := Relative(Name(e), r.root);
    FoldsStep(Destinations(seen, r), folded, relative);
    CountFolded(Destinations(seen, r), folded);
    if Lower(relative) in folded || |folded| == COUNT_LIMIT { return false, expandedNow, foldedNow, foundNow; }
    foldedNow := folded + {Lower(relative)};
    if Lower(relative) == Lower(r.entrypoint) { foundNow := true; }
    return true, expandedNow, foldedNow, foundNow;
  }

  lemma SofarIs(entries: seq<ZipEntry>, r: Request)
    requires Sofar(entries, r)
    ensures AllPermitted(entries, r) && FoldDistinct(Destinations(entries, r))
    ensures |Destinations(entries, r)| <= COUNT_LIMIT
  {
    hide Permitted, Destinations;
  }

  lemma CountFolded(paths: seq<string>, folded: set<string>)
    requires Folds(paths, folded)
    ensures |folded| == |paths|
  {
  }

  lemma FoundIs(paths: seq<string>, folded: set<string>, entrypoint: string)
    requires Folds(paths, folded)
    ensures HasEntrypoint(paths, entrypoint) <==> Lower(entrypoint) in folded
  {
  }

  /** The first pass accepts exactly the approved archives. */
  method FirstPass(entries: seq<ZipEntry>, r: Request) returns (ok: bool)
    ensures ok <==> Approved(entries, r)
  {
    hide Permitted, Sofar, Expanded, Counts, UnderRoot, Relative, Lower, Folds, Destinations;
    var folded: set<string> := {};
    var expanded, found := 0, false;
    NothingSofar(r);
    assert entries[..0] == [];
    for i := 0 to |entries|
      invariant AllPermitted(entries[..i], r) && Sofar(entries[..i], r)
      invariant expanded == Expanded(entries[..i])
      invariant Folds(Destinations(entries[..i], r), folded)
      invariant found <==> Lower(r.entrypoint) in folded
    {
      assert entries[..i + 1] == entries[..i] + [entries[i]];
      assert Sofar(entries, r) ==> Sofar(entries[..i + 1], r) by {
        if Sofar(entries, r) { SofarPrefix(entries, r, i + 1); }
      }
      SofarStep(entries[..i], r, entries[i]);
      ghost var paths := Destinations(entries[..i], r);
      var keep;
      keep, expanded, folded, found := VisitEntry(entries[..i], entries[i], r, expanded, folded, found);
      if !keep {
        ApprovedIs(entries, r);
        return false;
      }
      SofarIs(entries[..i + 1], r);
    }
    assert entries[..|entries|] == entries;
    ApprovedIs(entries, r);
    FoundIs(Destinations(entries, r), folded, r.entrypoint);
    return found;
  }

  /** What can go wrong while unpacking: entries that cannot be written, and a cancellation seen
      before some entry. */
  datatype Troubles = Troubles(unwritable: set<nat>, cancelledAt: Option<nat>)

  /** `scan_lua` has nothing to say about a script. */
  ghost predicate Clean(path: string, content: string) {
    IsScript(path) ==> LuaScan.Findings(content, [])
  }

  /** `destination.extension() == ".lua"`: the file name ends in `.lua` and is more than that. */
  predicate IsScript(path: string) {
    && |path| >= 5 && path[|path| - 4..] == ".lua" && path[|path| - 5] != '/'
  }

  /** No file and no directory of `staging` is in the way of a file at `path`. */
  ghost predicate Room(staging: Tree, path: string) {
    forall k :: k in staging ==> !Conflict(k, path)
  }

  function FileOf(e: ZipEntry, root: string): string {
    if UnderRoot(Name(e), root) then Relative(Name(e), root) else ""
  }

  predicate IsFile(e: ZipEntry, root: string) { Counts(e, root) && !e.isDirectory }

  /** What unpacking has put into the staging directory, and the list of it. */
  ghost predicate Unpacked(entries: seq<ZipEntry>, r: Request, owned: seq<string>, staging: Tree) {
    && AllPermitted(entries, r) && owned == Files(entries, r)
    && (forall path :: path in owned <==> path in staging)
    && (forall i :: 0 <= i < |entries| && IsFile(entries[i], r.root) ==> Holds(staging, entries[i], r.root))
    && ConflictFree(staging.Keys)
    && (!r.allowElevated ==> forall path :: path in staging ==> Clean(path, staging[path]))
  }

  ghost predicate Holds(staging: Tree, e: ZipEntry, root: string) {
    FileOf(e, root) in staging && staging[FileOf(e, root)] == e.content
  }

  lemma {:induction false} FilesAreDestinations(entries: seq<ZipEntry>, r: Request, path: string)
    requires AllPermitted(entries, r) && path in Files(entries, r)
    ensures path in Destinations(entries, r)
  {
    hide Permitted, UnderRoot, Relative, Counts, Name;
    if entries != [] {
      var front := entries[..|entries| - 1];
      if path in Files(front, r) { FilesAreDestinations(front, r, path); }
    }
  }

  /** A file that is new among the destinations is new in the staging directory. */
  lemma NewFile(seen: seq<ZipEntry>, r: Request, e: ZipEntry, staging: Tree)
    requires Sofar(seen + [e], r) && Sofar(seen, r) && Counts(e, r.root)
    requires Unpacked(seen, r, Files(seen, r), staging)
    ensures FileOf(e, r.root) !in staging
  {
    hide Permitted, UnderRoot, Relative, Counts, Name, Holds, Clean, ConflictFree, Destinations, Files, FileOf;
    var path := FileOf(e, r.root);
    LastDestination(seen, r, e);
    if path in staging {
      FilesAreDestinations(seen, r, path);
      LastIsNew(Destinations(seen, r), path);
    }
  }

  lemma LastIsNew(paths: seq<string>, path: string)
    requires FoldDistinct(paths + [path])
    ensures path !in paths
  {
    var all := paths + [path];
    assert all[|paths|] == path && forall i :: 0 <= i < |paths| ==> all[i] == paths[i];
    hide Lower;
  }

  lemma LastDestination(seen: seq<ZipEntry>, r: Request, e: ZipEntry)
    requires AllPermitted(seen, r) && AllPermitted(seen + [e], r) && Counts(e, r.root)
    ensures Destinations(seen + [e], r) == Destinations(seen, r) + [FileOf(e, r.root)]
  {
    PermittedStep(seen, r, e);
  }

  lemma LastFile(seen: seq<ZipEntry>, r: Request, e: ZipEntry)
    requires AllPermitted(seen, r) && AllPermitted(seen + [e], r)
    ensures Files(seen + [e], r) == Files(seen, r) + if IsFile(e, r.root) then [FileOf(e, r.root)] else []
    ensures IsFile(e, r.root) ==> UnderRoot(Name(e), r.root)
  {
    assert (seen + [e])[..|seen|] == seen;
    PermittedStep(seen, r, e);
  }

  lemma UnpackedStep(seen: seq<ZipEntry>, r: Request, e: ZipEntry, staging: Tree)
    requires AllPermitted(seen, r) && Unpacked(seen, r, Files(seen, r), staging)
    requires AllPermitted(seen + [e], r) && IsFile(e, r.root)
    requires FileOf(e, r.root) !in staging && Room(staging, FileOf(e, r.root))
    requires r.allowElevated || Clean(FileOf(e, r.root), e.content)
    ensures Unpacked(seen + [e], r, Files(seen + [e], r), staging[FileOf(e, r.root) := e.content])
  {
    hide Permitted, Counts, Name, FileOf, Clean, Files, IsFile;
    LastFile(seen, r, e);
    var next := staging[FileOf(e, r.root) := e.content];
    forall i | 0 <= i <= |seen| && IsFile((seen + [e])[i], r.root) ensures Holds(next, (seen + [e])[i], r.root) {
      if i < |seen| { assert Holds(staging, seen[i], r.root); }
    }
    NoSelfConflict(FileOf(e, r.root));
  }

  lemma NoSelfConflict(path: string)
    ensures !Conflict(path, path)
  {
  }

  /** Unpacking succeeds: nothing is cancelled, everything can be written, no two files are in
      each other's way, and every script is clean unless the package may do anything. */
  ghost predicate Extractable(entries: seq<ZipEntry>, r: Request, t: Troubles) {
    && t.cancelledAt.None? && AllPermitted(entries, r)
    && (forall i :: 0 <= i < |entries| ==> EntryExtractable(entries[i], r, i in t.unwritable))
    && ConflictFree(set path | path in Files(entries, r))
  }

  ghost predicate EntryExtractable(e: ZipEntry, r: Request, unwritable: bool) {
    && (Counts(e, r.root) ==> !unwritable)
    && (IsFile(e, r.root) ==> r.allowElevated || Clean(FileOf(e, r.root), e.content))
  }

  lemma {:induction false} FilesPrefix(entries: seq<ZipEntry>, r: Request, n: nat)
    requires AllPermitted(entries, r) && n <= |entries|
    ensures AllPermitted(entries[..n], r) && Files(entries[..n], r) <= Files(entries, r)
    decreases |entries| - n
  {
    hide Permitted, UnderRoot, Relative, Counts, Name;
    if n == |entries| {
      assert entries[..n] == entries;
    } else {
      FilesPrefix(entries, r, n + 1);
      assert entries[..n + 1][..n] == entries[..n];
      assert Files(entries[..n], r) <= Files(entries[..n + 1], r);
    }
  }

  /** A file in the way of another one makes the archive impossible to unpack. */
  lemma NoRoom(entries: seq<ZipEntry>, r: Request, i: nat, owned: seq<string>, staging: Tree)
    requires AllPermitted(entries, r) && i < |entries| && IsFile(entries[i], r.root)
    requires Unpacked(entries[..i], r, owned, staging) && !Room(staging, FileOf(entries[i], r.root))
    ensures !ConflictFree(set path | path in Files(entries, r))
  {
    hide Permitted, Counts, Name, FileOf, Files, Holds, IsFile, Clean, Conflict;
    var path := FileOf(entries[i], r.root);
    FilesPrefix(entries, r, i);
    FilesPrefix(entries, r, i + 1);
    assert entries[..i + 1] == entries[..i] + [entries[i]];
    LastFile(entries[..i], r, entries[i]);
    var k :| k in staging && Conflict(k, path);
    assert path in Files(entries[..i + 1], r) && k in Files(entries[..i], r);
    var all := set p | p in Files(entries, r);
    assert k in all && path in all;
  }

  lemma SkippedUnpack(seen: seq<ZipEntry>, r: Request, e: ZipEntry, staging: Tree)
    requires AllPermitted(seen, r) && Unpacked(seen, r, Files(seen, r), staging)
    requires AllPermitted(seen + [e], r) && !IsFile(e, r.root)
    ensures Unpacked(seen + [e], r, Files(seen + [e], r), staging) && Files(seen + [e], r) == Files(seen, r)
  {
    hide Permitted, Counts, Name, FileOf, Clean, Files, IsFile, Holds, ConflictFree;
    LastFile(seen, r, e);
    assert Files(seen, r) + [] == Files(seen, r);
    forall i | 0 <= i <= |seen| && IsFile((seen + [e])[i], r.root) ensures Holds(staging, (seen + [e])[i], r.root) {
      assert (seen + [e])[i] == if i < |seen| then seen[i] else e;
    }
  }

  /** The second loop: unpacks what the first one approved. */
  method SecondPass(entries: seq<ZipEntry>, r: Request, t: Troubles)
    returns (ok: bool, owned: seq<string>, staging: Tree)
    requires Approved(entries, r)
    ensures ok <==> Extractable(entries, r, t)
    ensures ok ==> Unpacked(entries, r, owned, staging)
  {
    hide Permitted, Sofar, Destinations, Files, Counts, FileOf, IsFile, Unpacked, ConflictFree, EntryExtractable,
         Approved, Room;
    ApprovedIs(entries, r);
    SofarIs(entries, r);
    owned, staging := [], map[];
    NothingUnpacked(r);
    assert entries[..0] == [];
    for i := 0 to |entries|
      invariant AllPermitted(entries[..i], r) && owned == Files(entries[..i], r)
      invariant Unpacked(entries[..i], r, owned, staging)
      invariant forall k :: 0 <= k < i ==> EntryExtractable(entries[k], r, k in t.unwritable)
      invariant t.cancelledAt.Some? ==> t.cancelledAt.value >= i
    {
      if t.cancelledAt == Some(i) { return false, owned, staging; }
      assert entries[..i + 1] == entries[..i] + [entries[i]];
      SofarPrefix(entries, r, i);
      SofarPrefix(entries, r, i + 1);
      SofarIs(entries[..i + 1], r);
      ghost var room := Room(staging, FileOf(entries[i], r.root));
      if IsFile(entries[i], r.root) && !room { NoRoom(entries, r, i, owned, staging); }
      var keep;
      keep, owned, staging := UnpackEntry(entries[..i], entries[i], r, i in t.unwritable, owned, staging);
      if !keep { return false, owned, staging; }
    }
    assert entries[..|entries|] == entries;
    ConflictFreeFiles(entries, r, owned, staging);
    return t.cancelledAt.None?, owned, staging;
  }

  lemma NothingUnpacked(r: Request)
    ensures Unpacked([], r, [], map[]) && Files([], r) == []
  {
  }

  lemma ConflictFreeFiles(entries: seq<ZipEntry>, r: Request, owned: seq<string>, staging: Tree)
    requires AllPermitted(entries, r) && Unpacked(entries, r, owned, staging)
    ensures ConflictFree(set path | path in Files(entries, r))
  {
    hide Permitted, Files, Holds, Clean, Conflict;
  }

  /** One turn of the second loop. */
  method UnpackEntry(ghost seen: seq<ZipEntry>, e: ZipEntry, r: Request, unwritable: bool, owned: seq<string>, staging: Tree)
    returns (keep: bool, ownedNow: seq<string>, stagingNow: Tree)
    requires AllPermitted(seen, r) && owned == Files(seen, r) && Unpacked(seen, r, owned, staging)
    requires Sofar(seen, r) && Sofar(seen + [e], r) && AllPermitted(seen + [e], r)
    ensures keep <==> EntryExtractable(e, r, unwritable) &&
                      (IsFile(e, r.root) ==> Room(staging, FileOf(e, r.root)))
    ensures keep ==> ownedNow == Files(seen + [e], r) && Unpacked(seen + [e], r, ownedNow, stagingNow)
  {
    hide Permitted, Sofar, Files, Unpacked, SafeRelativePath, WithoutTrailingSlashes, Clean, Room;
    ownedNow, stagingNow := owned, staging;
    PermittedStep(seen, r, e);
    LastFile(seen, r, e);
    if Name(e) == "" || IsRootItself(e, r.root) {
      SkippedUnpack(seen, r, e, staging);
      return true, ownedNow, stagingNow;
    }
    if unwritable { return false, ownedNow, stagingNow; }
    if e.isDirectory {
      SkippedUnpack(seen, r, e, staging);
      return true, ownedNow, stagingNow;
    }
    var path := Relative(Name(e), r.root);
    var free := HasRoom(staging, path);
    if !free { return false, ownedNow, stagingNow; }
    NewFile(seen, r, e, staging);
    stagingNow := staging[path := e.content];
    ownedNow := owned + [path];
    var clean := IsClean(path, e.content);
    if !r.allowElevated && !clean { return false, ownedNow, stagingNow; }
    UnpackedStep(seen, r, e, staging);
    return true, ownedNow, stagingNow;
  }

  /** Whether the operating system can create a file there. */
  method HasRoom(staging: Tree, path: string) returns (free: bool)
    ensures free <==> Room(staging, path)
  {
    return forall k :: k in staging ==> !Conflict(k, path);
  }

  method IsClean(path: string, content: string) returns (clean: bool)
    ensures clean <==> Clean(path, content)
  {
    hide LuaScan.Findings;
    if !IsScript(path) { return true; }
    var found := LuaScan.ScanLua(content);
    FindingsUnique(content, found);
    return found == [];
  }

  lemma FindingsUnique(content: string, found: seq<LuaScan.Finding>)
    requires LuaScan.Findings(content, found)
    ensures found == [] <==> LuaScan.Findings(content, [])
  {
    hide LuaScan.SymbolFindings, LuaScan.LongRun, LuaScan.BLOCKED_SYMBOLS;
  }

  /** `inspect_and_extract`. */
  method InspectAndExtract(entries: seq<ZipEntry>, r: Request, t: Troubles)
    returns (ok: bool, owned: seq<string>, staging: Tree)
    ensures ok <==> Approved(entries, r) && Extractable(entries, r, t)
    ensures ok ==> Unpacked(entries, r, owned, staging)
  {
    hide Approved, Extractable, Unpacked;
    var approved := FirstPass(entries, r);
    if !approved { return false, [], map[]; }
    ok, owned, staging := SecondPass(entries, r, t);
  }

  lemma LastPermitted(e: ZipEntry, r: Request)
    requires Permitted(e, r) && IsFile(e, r.root)
    ensures SafeRelativePath(FileOf(e, r.root))
    ensures AllowedExtension(FileOf(e, r.root)) || (r.allowEngineBinary && Lower(FileOf(e, r.root)) == ENGINE_BINARY)
  {
    hide SafeRelativePath, Extension, WithoutTrailingSlashes;
    var name, path := Name(e), FileOf(e, r.root);
    if r.root != "" {
      assert name == r.root + "/" + path;
      SafeJoin(r.root, path);
    }
  }

  lemma TypesAre(path: string)
    ensures AllowedExtension(path) ==>
              Extension(path) in [".lua", ".json", ".ini", ".xml", ".txt", ".md", ".png", ".jpg", ".jpeg", ".dds", ".wav"]
    ensures ENGINE_BINARY == "bin/vanahub_engine.dll"
  {
    hide Extension;
  }

  lemma ListIsNoAllowedType()
    ensures !AllowedExtension(OWNED_LIST) && Lower(OWNED_LIST) != ENGINE_BINARY
  {
    var path := OWNED_LIST;
    assert path[0] == '.' && forall k :: 0 < k < |path| ==> path[k] != '.' && path[k] != '/' && path[k] != '\\';
    assert |Extension(path)| == |path|;
    assert |Lower(path)| == |path| != |ENGINE_BINARY|;
  }

  /** Every owned path is safe, of a permitted type, and not the ownership list itself. */
  lemma {:induction false} OwnedAreSafe(entries: seq<ZipEntry>, r: Request, path: string)
    requires AllPermitted(entries, r) && path in Files(entries, r)
    ensures SafeRelativePath(path) && path != OWNED_LIST
    ensures || Extension(path) in [".lua", ".json", ".ini", ".xml", ".txt", ".md", ".png", ".jpg", ".jpeg", ".dds", ".wav"]
            || (r.allowEngineBinary && Lower(path) == "bin/vanahub_engine.dll")
    ensures AllowedExtension(path) || (r.allowEngineBinary && Lower(path) == ENGINE_BINARY)
  {
    hide Permitted, AllowedExtension, SafeRelativePath, Name, Counts;
    if entries != [] {
      var front, e := entries[..|entries| - 1], entries[|entries| - 1];
      assert entries == front + [e];
      LastFile(front, r, e);
      if path in Files(front, r) {
        OwnedAreSafe(front, r, path);
      } else {
        LastPermitted(e, r);
        ListIsNoAllowedType();
        TypesAre(path);
      }
    }
  }

  /** Owned paths differ, whatever their case. */
  lemma {:induction false} OwnedAreDistinct(entries: seq<ZipEntry>, r: Request)
    requires Sofar(entries, r)
    ensures FoldDistinct(Files(entries, r))
    decreases |entries|
  {
    if entries != [] {
      var front, e := entries[..|entries| - 1], entries[|entries| - 1];
      assert entries == front + [e];
      SofarPrefix(entries, r, |front|);
      hide Permitted, Name, Counts, Sofar, Destinations, Files, FileOf, Lower;
      OwnedAreDistinct(front, r);
      SofarIs(front, r);
      SofarIs(entries, r);
      LastFile(front, r, e);
      if IsFile(e, r.root) {
        LastDestination(front, r, e);
        forall path | path in Files(front, r) ensures path in Destinations(front, r) {
          FilesAreDestinations(front, r, path);
        }
        DistinctSubset(Destinations(front, r), Files(front, r), FileOf(e, r.root));
      }
    }
  }

  lemma DistinctSubset(paths: seq<string>, some: seq<string>, path: string)
    requires FoldDistinct(paths + [path]) && FoldDistinct(some)
    requires forall p :: p in some ==> p in paths
    ensures FoldDistinct(some + [path])
  {
    var all := paths + [path];
    assert all[|paths|] == path && forall i :: 0 <= i < |paths| ==> all[i] == paths[i];
    hide Lower;
    forall i | 0 <= i < |some| ensures Lower(some[i]) != Lower(path) {
      assert some[i] in paths;
      var j :| 0 <= j < |paths| && paths[j] == some[i];
      assert Lower(all[j]) != Lower(all[|paths|]);
    }
  }

  /** A successful extraction delivers what an installation needs: the list names exactly the
      files, each safe and no two equal up to case; and no script of a restricted package uses a
      blocked symbol. */
  lemma ExtractedIsInstallable(entries: seq<ZipEntry>, r: Request, owned: seq<string>, staging: Tree)
    requires Approved(entries, r) && Unpacked(entries, r, owned, staging)
    ensures owned == Files(entries, r) && FoldDistinct(owned)
    ensures forall path :: path in owned ==> SafeRelativePath(path) && path != OWNED_LIST
    ensures Installation.Shippable(Installation.Accepted(owned, staging)) && ConflictFree(staging.Keys)
  {
    hide Permitted, SafeRelativePath, Files, Destinations, Holds, Clean, ConflictFree, WithinLimit, FoldDistinct;
    forall path | path in owned ensures SafeRelativePath(path) && path != OWNED_LIST {
      OwnedAreSafe(entries, r, path);
    }
    OwnedAreDistinct(entries, r);
  }

  lemma ScriptsAreClean(entries: seq<ZipEntry>, r: Request, owned: seq<string>, staging: Tree, path: string, symbol: string)
    requires Unpacked(entries, r, owned, staging) && !r.allowElevated
    requires path in owned && IsScript(path) && LuaScan.IsBlocked(symbol)
    ensures !LuaScan.Appears(staging[path], symbol)
  {
    hide Permitted, Files, Holds, ConflictFree, LuaScan.Appears, LuaScan.IsBlocked, LuaScan.Findings;
    assert Clean(path, staging[path]);
    if LuaScan.Appears(staging[path], symbol) {
      LuaScan.AppearanceIsFound(staging[path], [], symbol);
    }
  }

  /** Files are accepted as Lua sources in any spelling of the extension, but scanned in one: the scan
      keeps the content of such a file clean, whatever it is, exactly if the extension is in lower case
      and not the whole file name. */
  lemma ScanDependsOnSpelling(path: string)
    requires Extension(path) == ".lua"
    ensures AllowedExtension(path)
    ensures (forall content :: Clean(path, content) ==> LuaScan.Findings(content, [])) <==>
            path[|path| - 4..] == ".lua" && |path| > 4 && path[|path| - 5] != '/'
  {
    assert ALLOWED_EXTENSIONS[0] == ".lua";
    BlockedContent();
    hide LuaScan.Findings, Extension;
    if !IsScript(path) {
      assert Clean(path, "os");
    }
  }

  lemma BlockedContent()
    ensures !LuaScan.Findings("os", [])
  {
    assert LuaScan.BLOCKED_SYMBOLS[3] == "os";
    assert Lower("os") == "os";
    assert LuaScan.WordAt(Lower("os"), Lower("os"), 0);
    hide LuaScan.Findings;
    if LuaScan.Findings("os", []) { LuaScan.AppearanceIsFound("os", [], "os"); }
  }

  lemma UpperCaseIsNotScanned()
    ensures Extension("Init.LUA") == ".lua" && !IsScript("Init.LUA")
  {
    assert "Init.LUA"[4] == '.' && LastIndex("Init.LUA", '.') == 4;
    assert Lower(".LUA") == ".lua" && "Init.LUA"[4..] == ".LUA";
  }

  function TotalSize(entries: seq<ZipEntry>): int {
    if entries == [] then 0
    else
      var e := entries[|entries| - 1];
      TotalSize(entries[..|entries| - 1]) + if Name(e) == "" then 0 else e.uncompressed
  }

  lemma NoWrap(a: int, b: int)
    requires 0 <= a <= EXPANSION_LIMIT && 0 <= b <= FILE_LIMIT
    ensures Add64(a, b) == a + b
  {
  }

  /** The wrapping total is the true one as long as no size is negative. */
  lemma {:induction false} ExpansionIsBounded(entries: seq<ZipEntry>, r: Request)
    requires Sofar(entries, r) && forall i :: 0 <= i < |entries| ==> entries[i].uncompressed >= 0
    ensures TotalSize(entries) == Expanded(entries) <= EXPANSION_LIMIT
    decreases |entries|
  {
    hide Sofar, WithoutTrailingSlashes, Add64, Name;
    if entries == [] {
      assert TotalSize(entries) == 0 && Expanded(entries) == 0;
    } else {
      var front, e := entries[..|entries| - 1], entries[|entries| - 1];
      assert entries == front + [e] && TotalSize(entries) == TotalSize(front) + if Name(e) == "" then 0 else e.uncompressed;
      hide Expanded, TotalSize;
      SofarPrefix(entries, r, |front|);
      ExpansionIsBounded(front, r);
      ExpandedStep(front, e);
      LastSize(entries, r);
      if Name(e) != "" { NoWrap(Expanded(front), e.uncompressed); }
    }
  }

  lemma LastSize(entries: seq<ZipEntry>, r: Request)
    requires Sofar(entries, r) && entries != []
    ensures var e := entries[|entries| - 1];
            Expanded(entries) <= EXPANSION_LIMIT && (Name(e) != "" ==> e.uncompressed <= FILE_LIMIT)
  {
    hide SafeRelativePath, Destinations, TypeAllowed, WithoutTrailingSlashes, Expanded;
    assert entries[..|entries|] == entries;
    assert Permitted(entries[|entries| - 1], r);
  }

  /** What every entry of an accepted archive is checked for. */
  lemma EntriesAreChecked(entries: seq<ZipEntry>, r: Request, i: nat)
    requires Approved(entries, r) && i < |entries| && Name(entries[i]) != ""
    ensures var e := entries[i];
            && e.readable && SafeRelativePath(Name(e)) && !e.isLink && !e.encrypted && e.supported
            && e.uncompressed <= 50 * 1024 * 1024
            && (e.compressed > 0 ==> e.uncompressed / e.compressed <= 200)
            && (r.root != "" && Name(e) != r.root ==> r.root + "/" <= Name(e))
    ensures Expanded(entries) <= 200 * 1024 * 1024 && |Destinations(entries, r)| <= 4096
  {
    hide SafeRelativePath, WithoutTrailingSlashes, Expanded, Destinations, AllowedExtension;
    assert Permitted(entries[i], r);
    assert entries[..|entries|] == entries;
  }

  /** The extension is what follows the last dot of the last component, in lower case. */
  lemma ExtensionIs(stem: string, extension: string)
    requires forall c :: c in extension ==> c != '.' && c != '/' && c != '\\'
    ensures Extension(stem + "." + extension) == "." + Lower(extension)
    ensures Extension(extension) == ""
  {
    var path := stem + "." + extension;
    forall k | |stem| < k < |path| ensures path[k] != '.' && path[k] != '/' && path[k] != '\\' {
      assert path[k] == extension[k - |stem| - 1] && extension[k - |stem| - 1] in extension;
    }
    assert path[|stem|] == '.';
    LastIndexIs(path, '.', |stem|);
    NotAfter(path, '/', |stem|);
    NotAfter(path, '\\', |stem|);
    assert path[|stem|..] == "." + extension;
    assert Lower("." + extension) == "." + Lower(extension);
    NotIn(extension, '.');
  }

  lemma {:induction false} LastIndexIs(s: string, c: char, i: nat)
    requires i < |s| && s[i] == c && forall k :: i < k < |s| ==> s[k] != c
    ensures LastIndex(s, c) == i
  {
    var r := LastIndex(s, c);
    assert r >= i;
  }

  lemma NotAfter(s: string, c: char, i: nat)
    requires i < |s| && forall k :: i <= k < |s| ==> s[k] != c
    ensures LastIndex(s, c) < i
  {
    assert s[i] != c;
  }

  lemma NotIn(s: string, c: char)
    requires c !in s
    ensures LastIndex(s, c) == -1
  {
  }
}
