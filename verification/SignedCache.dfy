/** The signed catalog cache of native/src/engine.cpp: content-addressed generations, a pointer
    to the current one, activation of a new one and the loader that verifies and repairs. */
module SignedCache {
  import opened Wrappers
  import opened Text

  /** SHA-256 in hexadecimal and the Ed25519 check of an index against a signature document. */
  datatype Trust = Trust(hash: string -> string, check: (string, string) -> bool)

  datatype Generation = Generation(index: Option<string>, signature: Option<string>)

  const EMPTY_GENERATION := Generation(None, None)

  /** One repository directory: the texts of `current` and `current.part`, the generations,
      and the two downloaded parts. */
  datatype Cache = Cache(
    pointer: string,
    part: Option<string>,
    generations: map<string, Generation>,
    index: Option<string>,
    signature: Option<string>
  )

  /** The text of a small file without its trailing line breaks. */
  function ReadSmallText(s: string): string {
    if s != "" && (s[|s| - 1] == '\r' || s[|s| - 1] == '\n') then ReadSmallText(s[..|s| - 1]) else s
  }

  lemma PointerReadsBack(digest: string)
    requires IsDigest(digest)
    ensures ReadSmallText(digest + "\n") == digest
  {
    assert (digest + "\n")[..64] == digest;
    assert IsHex(digest[63]);
  }

  /** Exactly the carriage returns and line feeds at the end are dropped. */
  lemma {:induction false} ReadSmallTextIs(s: string)
    ensures ReadSmallText(s) <= s
    ensures forall i :: |ReadSmallText(s)| <= i < |s| ==> s[i] == '\r' || s[i] == '\n'
    ensures ReadSmallText(s) != "" ==> s[|ReadSmallText(s)| - 1] != '\r' && s[|ReadSmallText(s)| - 1] != '\n'
    decreases |s|
  {
    if s != "" && (s[|s| - 1] == '\r' || s[|s| - 1] == '\n') {
      ReadSmallTextIs(s[..|s| - 1]);
      assert s[..|s| - 1] <= s;
    }
  }

  function CurrentName(s: Cache): string { ReadSmallText(s.pointer) }

  /** The index hashes to the directory name and the signature is valid for it. */
  predicate Verified(trust: Trust, g: Generation, name: string) {
    && g.index.Some? && g.index.value != "" && trust.hash(g.index.value) == name
    && g.signature.Some? && trust.check(g.index.value, g.signature.value)
  }

  predicate GoodAt(trust: Trust, s: Cache, name: string) {
    IsDigest(name) && name in s.generations && Verified(trust, s.generations[name], name)
  }

  lemma DigestIs(name: string)
    requires IsDigest(name)
    ensures |name| == 64 && forall c :: c in name ==> '0' <= c <= '9' || 'a' <= c <= 'f'
  {
  }

  /** The name is a digest, the index hashes to it, and the signature is valid for the index. */
  lemma GoodIs(trust: Trust, s: Cache, name: string)
    ensures GoodAt(trust, s, name) <==>
            && IsDigest(name) && name in s.generations
            && s.generations[name].index.Some? && s.generations[name].index.value != ""
            && trust.hash(s.generations[name].index.value) == name
            && s.generations[name].signature.Some?
            && trust.check(s.generations[name].index.value, s.generations[name].signature.value)
  {
  }

  /** What the loader would return without searching. */
  predicate Points(trust: Trust, s: Cache, name: string) {
    CurrentName(s) == name && GoodAt(trust, s, name)
  }

  function WithGeneration(s: Cache, name: string, g: Generation): Cache {
    s.(generations := s.generations[name := g])
  }

  function WithoutGeneration(s: Cache, name: string): Cache {
    s.(generations := s.generations - {name})
  }

  /** Only the generation `name` differs, and it has lost files or is gone. */
  predicate Eroded(s0: Cache, name: string, s: Cache) {
    || s == WithoutGeneration(s0, name)
    || (&& name in s0.generations && name in s.generations
        && s == WithGeneration(s0, name, s.generations[name])
        && (s.generations[name].index.None? || s.generations[name].index == s0.generations[name].index)
        && (s.generations[name].signature.None? || s.generations[name].signature == s0.generations[name].signature))
  }

  /** The downloaded parts are a verified catalog with this digest. */
  predicate GoodParts(trust: Trust, s: Cache, digest: string) {
    IsDigest(digest) && Verified(trust, Generation(s.index, s.signature), digest)
  }

  /** Which steps fail: creating the cache directory or the generation directory, the renames
      of the two parts, writing the new pointer and moving it into place. */
  datatype Faults = Faults(root: bool, generation: bool, index: bool, signature: bool, write: bool, move: bool)

  predicate Completes(f: Faults) {
    !f.root && !f.generation && !f.index && !f.signature && !f.write && !f.move
  }

  ghost predicate Extends(a: seq<Cache>, b: seq<Cache>) {
    |a| <= |b| && forall k :: 0 <= k < |a| ==> b[k] == a[k]
  }

  class Repository {
    var state: Cache
    var trace: seq<Cache>
    const trust: Trust

    ghost predicate Valid()
      reads this
    {
      |trace| > 0 && trace[|trace| - 1] == state
    }

    constructor (trust: Trust, initial: Cache)
      ensures Valid() && state == initial && trace == [initial] && this.trust == trust
    {
      state, trace, this.trust := initial, [initial], trust;
    }

    method Commit(next: Cache)
      requires Valid()
      modifies this
      ensures Valid() && state == next && trace == old(trace) + [next]
    {
      state, trace := next, trace + [next];
    }

    /** The process dies at any step since `from`. */
    method Crash(from: nat)
      requires Valid() && from < |trace|
      modifies this
      ensures Valid() && exists k :: from <= k < |old(trace)| && state == old(trace)[k]
      ensures trace == [state]
    {
      var k :| from <= k < |trace|;
      state := trace[k];
      trace := [state];
    }

    /** `fs::remove_all` on a generation: its files in either order, then the directory. */
    method RemoveGeneration(name: string)
      requires Valid()
      modifies this
      ensures Valid() && Extends(old(trace), trace)
      ensures state == WithoutGeneration(old(state), name)
      ensures forall k :: |old(trace)| <= k < |trace| ==> Eroded(old(state), name, trace[k])
    {
      var s0 := state;
      if name !in s0.generations {
        assert s0.generations - {name} == s0.generations;
        return;
      }
      var g := s0.generations[name];
      assert s0.generations[name := g] == s0.generations;
      while g != EMPTY_GENERATION
        invariant Valid() && Extends(old(trace), trace)
        invariant state == WithGeneration(s0, name, g)
        invariant g.index.None? || g.index == s0.generations[name].index
        invariant g.signature.None? || g.signature == s0.generations[name].signature
        invariant forall k :: |old(trace)| <= k < |trace| ==> Eroded(s0, name, trace[k])
        decreases (if g.index.Some? then 1 else 0) + if g.signature.Some? then 1 else 0
      {
        if {
          case g.index.Some? => g := g.(index := None);
          case g.signature.Some? => g := g.(signature := None);
        }
        Commit(WithGeneration(s0, name, g));
      }
      Commit(WithoutGeneration(s0, name));
    }

    /** The pointer is written beside the old one, then moved over it. */
    method ActivatePointer(digest: string, writeFails: bool, moveFails: bool) returns (ok: bool)
      requires Valid()
      modifies this
      ensures Valid() && Extends(old(trace), trace)
      ensures ok <==> !writeFails && !moveFails
      ensures ok ==> state == old(state).(pointer := digest + "\n", part := None)
      ensures !ok ==> state == old(state).(part := state.part)
      ensures forall k :: |old(trace)| <= k < |trace| ==> PointerStep(old(state), digest, ok, trace[k])
    {
      var text := digest + "\n";
      var cut :| 0 <= cut <= |text|;
      Commit(state.(part := Some(text[..cut])));
      if writeFails { return false; }
      Commit(state.(part := Some(text)));
      if moveFails {
        Commit(state.(part := None));
        return false;
      }
      Commit(state.(pointer := text, part := None));
      return true;
    }
  }

  /** Only the pointer files differ; the pointer itself is the old one or, once moved, the new. */
  predicate PointerStep(s0: Cache, digest: string, moved: bool, s: Cache) {
    s == s0.(part := s.part) || (moved && s == s0.(pointer := digest + "\n", part := None))
  }

  /** A state in which a restarted loader finds the old catalog or the new one at once. */
  predicate OldOrNew(trust: Trust, s0: Cache, digest: string, s: Cache) {
    Points(trust, s, CurrentName(s0)) || Points(trust, s, digest)
  }

  /** The pointer and every generation but `digest` are as before. */
  ghost predicate Elsewhere(s0: Cache, digest: string, s: Cache) {
    && s.pointer == s0.pointer
    && (forall name :: name in s0.generations && name != digest ==>
                         name in s.generations && s.generations[name] == s0.generations[name])
    && (forall name :: name in s.generations && name != digest ==> name in s0.generations)
  }

  lemma ElsewhereKeeps(trust: Trust, s0: Cache, digest: string, s: Cache)
    requires Elsewhere(s0, digest, s) && CurrentName(s0) != digest && Points(trust, s0, CurrentName(s0))
    ensures OldOrNew(trust, s0, digest, s)
  {
  }

  lemma ErodedElsewhere(s0: Cache, digest: string, s1: Cache, s: Cache)
    requires Elsewhere(s0, digest, s1) && Eroded(s1, digest, s)
    ensures Elsewhere(s0, digest, s)
  {
  }

  /** Generations other than `kept` may have lost files; nothing else differs. */
  ghost predicate Trimmed(s0: Cache, kept: set<string>, s: Cache) {
    && s == s0.(generations := s.generations)
    && (forall name :: name in kept && name in s0.generations ==>
                         name in s.generations && s.generations[name] == s0.generations[name])
    && (forall name :: name in s.generations ==> name in s0.generations)
  }

  lemma TrimmedStep(s0: Cache, kept: set<string>, s1: Cache, name: string, s: Cache)
    requires Trimmed(s0, kept, s1) && name !in kept && Eroded(s1, name, s)
    ensures Trimmed(s0, kept, s)
  {
  }

  /** Removes every generation that is not kept, in the order of a directory iterator. */
  method Prune(repository: Repository, kept: set<string>)
    requires repository.Valid()
    modifies repository
    ensures repository.Valid() && Extends(old(repository.trace), repository.trace)
    ensures repository.state == old(repository.state).(
              generations := map name | name in old(repository.state).generations && name in kept
                                 :: old(repository.state).generations[name])
    ensures forall k :: |old(repository.trace)| <= k < |repository.trace| ==>
                          Trimmed(old(repository.state), kept, repository.trace[k])
  {
    ghost var s0 := repository.state;
    var left := repository.state.generations.Keys - kept;
    assert Trimmed(s0, kept, s0);
    while left != {}
      invariant repository.Valid() && Extends(old(repository.trace), repository.trace)
      invariant left !! kept && repository.state.generations.Keys == s0.generations.Keys * kept + left
      invariant Trimmed(s0, kept, repository.state)
      invariant forall k :: |old(repository.trace)| <= k < |repository.trace| ==> Trimmed(s0, kept, repository.trace[k])
      decreases left
    {
      hide Eroded, Trimmed;
      var name :| name in left;
      ghost var s1, from := repository.state, |repository.trace|;
      assert forall other :: other in kept && other in s1.generations ==> other in s1.generations - {name};
      repository.RemoveGeneration(name);
      forall k | from <= k < |repository.trace| ensures Trimmed(s0, kept, repository.trace[k]) {
        TrimmedStep(s0, kept, s1, name, repository.trace[k]);
      }
      GoneIsEroded(s1, name);
      TrimmedStep(s0, kept, s1, name, repository.state);
      left := left - {name};
    }
  }

  lemma GoneIsEroded(s: Cache, name: string)
    ensures Eroded(s, name, WithoutGeneration(s, name))
  {
  }

  /** The repository after a completed activation. */
  function Activated(s: Cache, digest: string): Cache {
    var kept := map name | name in s.generations && name == CurrentName(s) && name != digest :: s.generations[name];
    Cache(digest + "\n", None, kept[digest := Generation(s.index, s.signature)], None, None)
  }

  /** Emptying the generation directory and moving the downloaded parts into it. */
  method StageGeneration(repository: Repository, digest: string, faults: Faults) returns (ok: bool)
    requires repository.Valid()
    modifies repository
    ensures repository.Valid() && Extends(old(repository.trace), repository.trace)
    ensures ok <==> && !faults.generation && !faults.index && !faults.signature
                    && old(repository.state).index.Some? && old(repository.state).signature.Some?
    ensures ok ==> repository.state == Staged(old(repository.state), digest)
    ensures !ok ==> Elsewhere(old(repository.state), digest, repository.state)
    ensures forall k :: |old(repository.trace)| <= k < |repository.trace| ==>
                          Elsewhere(old(repository.state), digest, repository.trace[k])
    ensures digest in old(repository.state).generations ==>
              exists k :: |old(repository.trace)| <= k < |repository.trace| &&
                          repository.trace[k] == WithoutGeneration(old(repository.state), digest)
  {
    ghost var s0, before := repository.state, repository.trace;
    repository.RemoveGeneration(digest);
    ghost var removed := |repository.trace| - 1;
    ElsewhereItself(s0, digest);
    GoneIsEroded(s0, digest);
    ErodedElsewhere(s0, digest, s0, repository.state);
    hide Eroded, Elsewhere, Staged;
    forall k | |before| <= k < |repository.trace| ensures Elsewhere(s0, digest, repository.trace[k]) {
      ErodedElsewhere(s0, digest, s0, repository.trace[k]);
    }
    assert repository.trace[removed] == WithoutGeneration(s0, digest);
    assert removed >= |before| || digest !in s0.generations by { RemovalShows(s0, digest, before, repository.trace); }
    ok := MoveParts(repository, s0, digest, faults);
    assert repository.trace[removed] == WithoutGeneration(s0, digest);
  }

  /** Creating the generation directory and renaming the two parts into it. */
  method MoveParts(repository: Repository, ghost s0: Cache, digest: string, faults: Faults) returns (ok: bool)
    requires repository.Valid() && repository.state == WithoutGeneration(s0, digest)
    requires Elsewhere(s0, digest, repository.state)
    modifies repository
    ensures repository.Valid() && Extends(old(repository.trace), repository.trace)
    ensures ok <==> && !faults.generation && !faults.index && !faults.signature
                    && s0.index.Some? && s0.signature.Some?
    ensures ok ==> repository.state == Staged(s0, digest)
    ensures !ok ==> Elsewhere(s0, digest, repository.state)
    ensures forall k :: |old(repository.trace)| <= k < |repository.trace| ==> Elsewhere(s0, digest, repository.trace[k])
  {
    if faults.generation { return false; }
    hide Elsewhere, Eroded, Staged, WithGeneration;
    var index, signature := repository.state.index, repository.state.signature;
    Place(repository, s0, digest, EMPTY_GENERATION, index, signature);
    if !faults.index && index.Some? {
      Place(repository, s0, digest, Generation(index, None), None, signature);
      if !faults.signature && signature.Some? {
        Place(repository, s0, digest, Generation(index, signature), None, None);
        return true;
      }
    }
    ghost var s1, from := repository.state, |repository.trace|;
    repository.RemoveGeneration(digest);
    forall k | from <= k < |repository.trace| ensures Elsewhere(s0, digest, repository.trace[k]) {
      ErodedElsewhere(s0, digest, s1, repository.trace[k]);
    }
    GoneIsEroded(s1, digest);
    ErodedElsewhere(s0, digest, s1, repository.state);
    return false;
  }

  /** One step inside the generation directory. */
  method Place(repository: Repository, ghost s0: Cache, digest: string, g: Generation,
               index: Option<string>, signature: Option<string>)
    requires repository.Valid() && Elsewhere(s0, digest, repository.state)
    requires repository.state.part == s0.part
    modifies repository
    ensures repository.Valid() && repository.trace == old(repository.trace) + [repository.state]
    ensures repository.state.part == s0.part && Elsewhere(s0, digest, repository.state)
    ensures g == Generation(s0.index, s0.signature) && index == signature == None ==> repository.state == Staged(s0, digest)
  {
    var next := WithGeneration(repository.state, digest, g).(index := index, signature := signature);
    assert next.generations == s0.generations[digest := g];
    repository.Commit(next);
  }

  lemma ElsewhereItself(s: Cache, digest: string)
    ensures Elsewhere(s, digest, s)
  {
  }

  lemma RemovalShows(s0: Cache, digest: string, before: seq<Cache>, trace: seq<Cache>)
    requires Extends(before, trace) && |before| > 0 && before[|before| - 1] == s0
    requires |trace| > 0 && trace[|trace| - 1] == WithoutGeneration(s0, digest)
    ensures |trace| - 1 >= |before| || digest !in s0.generations
  {
    assert digest in s0.generations ==> s0.generations != s0.generations - {digest};
  }

  function Staged(s: Cache, digest: string): Cache {
    WithGeneration(s, digest, Generation(s.index, s.signature)).(index := None, signature := None)
  }

  /** A generation other than `digest` is good. */
  ghost predicate Another(trust: Trust, s: Cache, digest: string) {
    exists name :: name != digest && GoodAt(trust, s, name)
  }

  /** The loader finds a catalog, if it can move the pointer. */
  ghost predicate Finds(trust: Trust, s: Cache) {
    exists name :: GoodAt(trust, s, name)
  }

  /** Activation of a verified catalog. Provided the current generation verifies, every state
      shows the old catalog or the new one exactly when the new digest is not the current one;
      otherwise the first step deletes the current generation, and every state has a catalog to find
      exactly when another generation is good. */
  method ActivateSignedRepository(repository: Repository, digest: string, faults: Faults) returns (ok: bool)
    requires repository.Valid() && GoodParts(repository.trust, repository.state, digest)
    modifies repository
    ensures repository.Valid() && Extends(old(repository.trace), repository.trace)
    ensures ok <==> Completes(faults)
    ensures ok ==> repository.state == Activated(old(repository.state), digest)
    ensures ok ==> && CurrentName(repository.state) == digest && digest in repository.state.generations
                   && var g := repository.state.generations[digest];
                   && g.index.Some? && g.signature.Some?
                   && g.index == old(repository.state).index && g.signature == old(repository.state).signature
                   && repository.trust.hash(g.index.value) == digest
                   && repository.trust.check(g.index.value, g.signature.value)
    ensures ok ==> && repository.state.part == repository.state.index == repository.state.signature == None
                   && forall name :: name in repository.state.generations && name != digest <==>
                        name in old(repository.state).generations && name != digest
                        && name == CurrentName(old(repository.state))
    ensures ok ==> forall name :: name in repository.state.generations && name != digest ==>
                     repository.state.generations[name] == old(repository.state).generations[name]
    ensures !ok ==> Elsewhere(old(repository.state), digest, repository.state)
    ensures forall k :: |old(repository.trace)| <= k < |repository.trace| ==>
                          || Elsewhere(old(repository.state), digest, repository.trace[k])
                          || OldOrNew(repository.trust, old(repository.state), digest, repository.trace[k])
    ensures Points(repository.trust, old(repository.state), CurrentName(old(repository.state))) ==>
              ((forall k :: |old(repository.trace)| <= k < |repository.trace| ==>
                  OldOrNew(repository.trust, old(repository.state), digest, repository.trace[k]))
               <==> digest != CurrentName(old(repository.state)) || faults.root)
    ensures Points(repository.trust, old(repository.state), digest) && !faults.root ==>
              ((forall k :: |old(repository.trace)| <= k < |repository.trace| ==>
                  Finds(repository.trust, repository.trace[k]))
               <==> Another(repository.trust, old(repository.state), digest))
  {
    ghost var s0, trust, before := repository.state, repository.trust, repository.trace;
    var previous := CurrentName(repository.state);
    PointerReadsBack(digest);
    if faults.root { return false; }
    ok := StageGeneration(repository, digest, faults);
    if ok {
      ghost var staged := repository.trace;
      ok := SwapAndPrune(repository, s0, digest, previous, faults);
      hide Elsewhere, OldOrNew, Activated;
      Joined(trust, s0, digest, |before|, staged, repository.trace);
    }
    hide Elsewhere, OldOrNew, Finds, Another;
    AllOldOrNew(trust, s0, digest, before, repository.trace);
    if Points(trust, s0, digest) { AllFind(trust, s0, digest, before, repository.trace); }
  }

  /** Moving the pointer, then removing every generation but the new and the previous one. */
  method SwapAndPrune(repository: Repository, ghost s0: Cache, digest: string, previous: string, faults: Faults)
    returns (ok: bool)
    requires repository.Valid() && GoodParts(repository.trust, s0, digest)
    requires repository.state == Staged(s0, digest) && previous == CurrentName(s0)
    modifies repository
    ensures repository.Valid() && Extends(old(repository.trace), repository.trace)
    ensures ok <==> !faults.write && !faults.move
    ensures ok ==> repository.state == Activated(s0, digest)
    ensures !ok ==> Elsewhere(s0, digest, repository.state)
    ensures forall k :: |old(repository.trace)| <= k < |repository.trace| ==>
                          Elsewhere(s0, digest, repository.trace[k])
                          || OldOrNew(repository.trust, s0, digest, repository.trace[k])
  {
    ghost var trust, s1 := repository.trust, repository.state;
    hide Elsewhere, OldOrNew, Activated;
    ok := repository.ActivatePointer(digest, faults.write, faults.move);
    forall k | |old(repository.trace)| <= k < |repository.trace|
      ensures Elsewhere(s0, digest, repository.trace[k]) || OldOrNew(trust, s0, digest, repository.trace[k])
    {
      PointerStates(trust, s0, digest, s1, ok, repository.trace[k]);
    }
    if !ok {
      PointerStates(trust, s0, digest, s1, false, repository.state);
      return;
    }
    ghost var s2, middle := repository.state, |repository.trace|;
    Prune(repository, {digest, previous});
    forall k | middle <= k < |repository.trace| ensures OldOrNew(trust, s0, digest, repository.trace[k]) {
      PrunedStates(trust, s0, digest, s2, repository.trace[k]);
    }
    PrunedIsActivated(s0, digest);
  }

  lemma Joined(trust: Trust, s0: Cache, digest: string, from: nat, staged: seq<Cache>, trace: seq<Cache>)
    requires Extends(staged, trace) && from <= |staged|
    requires forall k :: from <= k < |staged| ==> Elsewhere(s0, digest, staged[k])
    requires forall k :: |staged| <= k < |trace| ==>
                           Elsewhere(s0, digest, trace[k]) || OldOrNew(trust, s0, digest, trace[k])
    ensures forall k :: from <= k < |trace| ==>
                          Elsewhere(s0, digest, trace[k]) || OldOrNew(trust, s0, digest, trace[k])
  {
  }

  lemma PointerStates(trust: Trust, s0: Cache, digest: string, s1: Cache, moved: bool, s: Cache)
    requires GoodParts(trust, s0, digest) && s1 == Staged(s0, digest) && PointerStep(s1, digest, moved, s)
    ensures Elsewhere(s0, digest, s) || OldOrNew(trust, s0, digest, s)
    ensures !moved ==> Elsewhere(s0, digest, s)
  {
    PointerReadsBack(digest);
    hide ReadSmallText;
  }

  lemma PrunedStates(trust: Trust, s0: Cache, digest: string, s2: Cache, s: Cache)
    requires GoodParts(trust, s0, digest)
    requires s2 == Staged(s0, digest).(pointer := digest + "\n", part := None)
    requires Trimmed(s2, {digest, CurrentName(s0)}, s)
    ensures OldOrNew(trust, s0, digest, s)
  {
    PointerReadsBack(digest);
    hide ReadSmallText;
  }

  lemma PrunedIsActivated(s0: Cache, digest: string)
    ensures var s2 := Staged(s0, digest).(pointer := digest + "\n", part := None);
            s2.(generations := map name | name in s2.generations && name in {digest, CurrentName(s0)} :: s2.generations[name])
            == Activated(s0, digest)
  {
    hide ReadSmallText;
  }

  lemma AllOldOrNew(trust: Trust, s0: Cache, digest: string, before: seq<Cache>, trace: seq<Cache>)
    requires Points(trust, s0, CurrentName(s0)) ==>
               (digest in s0.generations ==>
                  exists k :: |before| <= k < |trace| && trace[k] == WithoutGeneration(s0, digest))
    requires forall k :: |before| <= k < |trace| ==>
                           Elsewhere(s0, digest, trace[k]) || OldOrNew(trust, s0, digest, trace[k])
    ensures Points(trust, s0, CurrentName(s0)) ==>
              ((forall k :: |before| <= k < |trace| ==> OldOrNew(trust, s0, digest, trace[k]))
               <==> digest != CurrentName(s0))
  {
    hide ReadSmallText, Verified, IsDigest;
    if Points(trust, s0, CurrentName(s0)) {
      if digest != CurrentName(s0) {
        forall k | |before| <= k < |trace| ensures OldOrNew(trust, s0, digest, trace[k]) {
          if Elsewhere(s0, digest, trace[k]) { ElsewhereKeeps(trust, s0, digest, trace[k]); }
        }
      } else {
        var k :| |before| <= k < |trace| && trace[k] == WithoutGeneration(s0, digest);
        assert !OldOrNew(trust, s0, digest, trace[k]);
      }
    }
  }

  lemma AllFind(trust: Trust, s0: Cache, digest: string, before: seq<Cache>, trace: seq<Cache>)
    requires Points(trust, s0, digest)
    requires exists k :: |before| <= k < |trace| && trace[k] == WithoutGeneration(s0, digest)
    requires forall k :: |before| <= k < |trace| ==>
                           Elsewhere(s0, digest, trace[k]) || OldOrNew(trust, s0, digest, trace[k])
    ensures (forall k :: |before| <= k < |trace| ==> Finds(trust, trace[k])) <==> Another(trust, s0, digest)
  {
    hide ReadSmallText, Verified, IsDigest;
    if Another(trust, s0, digest) {
      var name :| name != digest && GoodAt(trust, s0, name);
      forall k | |before| <= k < |trace| ensures Finds(trust, trace[k]) {
        if Elsewhere(s0, digest, trace[k]) { assert GoodAt(trust, trace[k], name); }
      }
    } else {
      var k :| |before| <= k < |trace| && trace[k] == WithoutGeneration(s0, digest);
      assert forall name :: GoodAt(trust, trace[k], name) ==> name != digest && GoodAt(trust, s0, name);
    }
  }

  /** The names the loader tries: the current one first, then the others as they are listed. */
  function Candidates(current: string, listed: seq<string>): seq<string> {
    (if IsDigest(current) then [current] else []) + Others(current, listed)
  }

  function Others(current: string, listed: seq<string>): seq<string> {
    if listed == [] then []
    else (if IsDigest(listed[0]) && listed[0] != current then [listed[0]] else []) + Others(current, listed[1..])
  }

  lemma {:induction false} OthersAre(current: string, listed: seq<string>, name: string)
    ensures name in Others(current, listed) <==> name in listed && IsDigest(name) && name != current
  {
    hide IsDigest;
    if listed != [] {
      assert name in listed <==> name == listed[0] || name in listed[1..];
      OthersAre(current, listed[1..], name);
    }
  }

  /** `listed` is what a directory iterator shows of the generations. */
  ghost predicate Lists(listed: seq<string>, s: Cache) {
    forall name :: name in listed <==> name in s.generations
  }

  lemma CandidatesAre(listed: seq<string>, s: Cache, name: string)
    requires Lists(listed, s)
    ensures name in Candidates(CurrentName(s), listed) <==>
            IsDigest(name) && (name == CurrentName(s) || name in s.generations)
  {
    hide IsDigest, ReadSmallText;
    OthersAre(CurrentName(s), listed, name);
  }

  predicate Fewer(whole: Generation, part: Generation) {
    (part.index.None? || part.index == whole.index) && (part.signature.None? || part.signature == whole.signature)
  }

  /** A state of the loader: no good generation is touched, and the pointer is the old one or
      names a good generation. */
  ghost predicate LoaderStep(trust: Trust, s0: Cache, s: Cache) {
    && (forall name :: GoodAt(trust, s0, name) ==>
                         name in s.generations && s.generations[name] == s0.generations[name])
    && (forall name :: name in s.generations ==>
                         name in s0.generations && Fewer(s0.generations[name], s.generations[name]))
    && (s.pointer == s0.pointer || Points(trust, s, CurrentName(s)))
  }

  lemma LoaderStepItself(trust: Trust, s: Cache)
    ensures LoaderStep(trust, s, s)
  {
  }

  lemma BadIsRemoved(trust: Trust, s0: Cache, s1: Cache, name: string, s: Cache)
    requires LoaderStep(trust, s0, s1) && s1.pointer == s0.pointer && !GoodAt(trust, s0, name) && Eroded(s1, name, s)
    ensures LoaderStep(trust, s0, s) && s.pointer == s0.pointer
  {
    hide ReadSmallText, IsDigest, Verified;
  }

  /** Searching, verifying and repairing. With a good current generation nothing is written. The
      loader finds a catalog exactly when some generation is good and, unless it is the current
      one, the pointer can be moved; it returns a good one, and leaves the pointer naming it. */
  method LoadSignedRepositoryCache(repository: Repository, listed: seq<string>, pointerFails: bool)
    returns (result: Option<string>)
    requires repository.Valid() && Lists(listed, repository.state)
    modifies repository
    ensures repository.Valid() && Extends(old(repository.trace), repository.trace)
    ensures result.Some? ==>
              && |result.value| == 64 && (forall c :: c in result.value ==> '0' <= c <= '9' || 'a' <= c <= 'f')
              && IsDigest(result.value) && result.value in old(repository.state).generations
              && var g := old(repository.state).generations[result.value];
              && g.index.Some? && g.index.value != "" && repository.trust.hash(g.index.value) == result.value
              && g.signature.Some? && repository.trust.check(g.index.value, g.signature.value)
    ensures result.None? && !pointerFails ==>
              forall name :: IsDigest(name) && name in old(repository.state).generations ==>
                var g := old(repository.state).generations[name];
                !(&& g.index.Some? && g.index.value != "" && repository.trust.hash(g.index.value) == name
                  && g.signature.Some? && repository.trust.check(g.index.value, g.signature.value))
    ensures result.Some? ==> GoodAt(repository.trust, old(repository.state), result.value)
    ensures result.Some? ==> Points(repository.trust, repository.state, result.value)
    ensures result.Some? <==>
            || Points(repository.trust, old(repository.state), CurrentName(old(repository.state)))
            || (!pointerFails && exists name :: GoodAt(repository.trust, old(repository.state), name))
    ensures Points(repository.trust, old(repository.state), CurrentName(old(repository.state))) ==>
              && result == Some(CurrentName(old(repository.state)))
              && repository.state == old(repository.state) && repository.trace == old(repository.trace)
    ensures (forall name :: !GoodAt(repository.trust, old(repository.state), name)) ==>
              forall name :: name in repository.state.generations ==> !IsDigest(name)
    ensures LoaderStep(repository.trust, old(repository.state), repository.state)
    ensures LoaderSteps(repository.trust, old(repository.state), repository.trace, |old(repository.trace)|)
  {
    ghost var s0, trust := repository.state, repository.trust;
    hide Points, Lists, LoaderStep, LoaderSteps, Verified, IsDigest, CurrentName;
    result := SearchCandidates(repository, listed, pointerFails);
    forall name { GoodIs(trust, s0, name); }
    if result.Some? { DigestIs(result.value); }
    hide GoodAt;
  }

  /** The loop over the candidates. */
  method SearchCandidates(repository: Repository, listed: seq<string>, pointerFails: bool)
    returns (result: Option<string>)
    requires repository.Valid() && Lists(listed, repository.state)
    modifies repository
    ensures repository.Valid() && Extends(old(repository.trace), repository.trace)
    ensures result.Some? ==> GoodAt(repository.trust, old(repository.state), result.value)
    ensures result.Some? ==> Points(repository.trust, repository.state, result.value)
    ensures result.Some? <==>
            || Points(repository.trust, old(repository.state), CurrentName(old(repository.state)))
            || (!pointerFails && exists name :: GoodAt(repository.trust, old(repository.state), name))
    ensures Points(repository.trust, old(repository.state), CurrentName(old(repository.state))) ==>
              && result == Some(CurrentName(old(repository.state)))
              && repository.state == old(repository.state) && repository.trace == old(repository.trace)
    ensures (forall name :: !GoodAt(repository.trust, old(repository.state), name)) ==>
              forall name :: name in repository.state.generations ==> !IsDigest(name)
    ensures LoaderStep(repository.trust, old(repository.state), repository.state)
    ensures LoaderSteps(repository.trust, old(repository.state), repository.trace, |old(repository.trace)|)
  {
    hide LoaderStep, Candidates, IsDigest, Verified, ReadSmallText, Eroded, Others, Searching, Points, GoodAt,
         Lists, CurrentName;
    ghost var s0, trust, before := repository.state, repository.trust, repository.trace;
    var current := CurrentName(repository.state);
    var candidates := Candidates(current, listed);
    LoaderStepItself(trust, s0);
    forall name ensures IsDigest(name) && name in s0.generations ==> name in candidates {
      CandidatesAre(listed, s0, name);
    }
    CurrentComesFirst(current, listed);
    SearchStarts(trust, s0);
    for i := 0 to |candidates|
      invariant repository.Valid() && Extends(before, repository.trace)
      invariant Searching(trust, s0, repository.state, candidates[..i])
      invariant i == 0 ==> repository.state == s0 && repository.trace == before
      invariant LoaderSteps(trust, s0, repository.trace, |before|)
    {
      hide LoaderSteps;
      var candidate := candidates[i];
      SearchTest(trust, s0, repository.state, candidates[..i], candidate);
      if GoodAt(repository.trust, repository.state, candidate) {
        SearchFinds(trust, s0, repository.state, candidates, i, current);
        if candidate != current {
          var ok := Repoint(repository, s0, before, candidates[..i], candidate, pointerFails);
          if !ok { return None; }
        }
        return Some(candidate);
      }
      assert candidates[..i + 1] == candidates[..i] + [candidate];
      RemoveBad(repository, s0, before, candidates[..i], candidate);
    }
    assert candidates[..|candidates|] == candidates;
    SearchFails(trust, s0, repository.state, candidates);
    return None;
  }

  ghost predicate LoaderSteps(trust: Trust, s0: Cache, trace: seq<Cache>, from: nat) {
    forall k :: from <= k < |trace| ==> LoaderStep(trust, s0, trace[k])
  }

  /** The generations `tried` were bad and are gone; all others are untouched. */
  ghost predicate Searching(trust: Trust, s0: Cache, s: Cache, tried: seq<string>) {
    && LoaderStep(trust, s0, s) && s.pointer == s0.pointer && (tried == [] ==> s == s0)
    && (forall name :: name in tried ==> !GoodAt(trust, s0, name) && name !in s.generations)
    && (forall name :: name !in tried && name in s0.generations ==>
                         name in s.generations && s.generations[name] == s0.generations[name])
  }

  lemma SearchStarts(trust: Trust, s: Cache)
    ensures Searching(trust, s, s, [])
  {
    LoaderStepItself(trust, s);
  }

  lemma SearchTest(trust: Trust, s0: Cache, s: Cache, tried: seq<string>, candidate: string)
    requires Searching(trust, s0, s, tried)
    ensures GoodAt(trust, s, candidate) <==> GoodAt(trust, s0, candidate)
    ensures LoaderStep(trust, s0, s)
  {
    hide IsDigest, Verified;
  }

  lemma CurrentComesFirst(current: string, listed: seq<string>)
    ensures IsDigest(current) ==> |Candidates(current, listed)| > 0 && Candidates(current, listed)[0] == current
  {
  }

  lemma SearchFinds(trust: Trust, s0: Cache, s: Cache, candidates: seq<string>, i: nat, current: string)
    requires i < |candidates| && Searching(trust, s0, s, candidates[..i]) && current == CurrentName(s0)
    requires GoodAt(trust, s, candidates[i])
    requires IsDigest(current) ==> candidates[0] == current
    ensures candidates[i] == current ==> i == 0 && s == s0 && Points(trust, s, current)
    ensures candidates[i] != current ==> !Points(trust, s0, current)
    ensures GoodAt(trust, s0, candidates[i])
  {
    SearchTest(trust, s0, s, candidates[..i], candidates[i]);
    hide Verified, ReadSmallText;
    if i > 0 && IsDigest(current) {
      assert candidates[..i][0] == current && current in candidates[..i];
    }
  }

  lemma SearchFails(trust: Trust, s0: Cache, s: Cache, candidates: seq<string>)
    requires Searching(trust, s0, s, candidates)
    requires forall name :: IsDigest(name) && name in s0.generations ==> name in candidates
    ensures forall name :: !GoodAt(trust, s0, name)
    ensures !Points(trust, s0, CurrentName(s0))
    ensures forall name :: name in s.generations ==> !IsDigest(name)
  {
    hide IsDigest, Verified;
  }

  /** A bad generation is deleted. */
  method RemoveBad(repository: Repository, ghost s0: Cache, ghost before: seq<Cache>, ghost tried: seq<string>,
                   candidate: string)
    requires repository.Valid() && Extends(before, repository.trace)
    requires Searching(repository.trust, s0, repository.state, tried) && !GoodAt(repository.trust, s0, candidate)
    requires LoaderSteps(repository.trust, s0, repository.trace, |before|)
    modifies repository
    ensures repository.Valid() && Extends(before, repository.trace)
    ensures Searching(repository.trust, s0, repository.state, tried + [candidate])
    ensures LoaderSteps(repository.trust, s0, repository.trace, |before|)
  {
    ghost var s1, from := repository.state, |repository.trace|;
    repository.RemoveGeneration(candidate);
    hide ReadSmallText, IsDigest, Verified, LoaderStep, Eroded;
    forall k | from <= k < |repository.trace| ensures LoaderStep(repository.trust, s0, repository.trace[k]) {
      BadIsRemoved(repository.trust, s0, s1, candidate, repository.trace[k]);
    }
    GoneIsEroded(s1, candidate);
    BadIsRemoved(repository.trust, s0, s1, candidate, repository.state);
  }

  /** The pointer is repaired. */
  method Repoint(repository: Repository, ghost s0: Cache, ghost before: seq<Cache>, ghost tried: seq<string>,
                 candidate: string, fails: bool) returns (ok: bool)
    requires repository.Valid() && Extends(before, repository.trace)
    requires Searching(repository.trust, s0, repository.state, tried)
    requires GoodAt(repository.trust, repository.state, candidate)
    requires LoaderSteps(repository.trust, s0, repository.trace, |before|)
    modifies repository
    ensures repository.Valid() && Extends(before, repository.trace)
    ensures ok <==> !fails
    ensures ok ==> Points(repository.trust, repository.state, candidate)
    ensures LoaderStep(repository.trust, s0, repository.state)
    ensures LoaderSteps(repository.trust, s0, repository.trace, |before|)
  {
    ghost var s1, from := repository.state, |repository.trace|;
    ok := repository.ActivatePointer(candidate, fails, false);
    hide LoaderStep;
    forall k | from <= k < |repository.trace| ensures LoaderStep(repository.trust, s0, repository.trace[k]) {
      RepointStep(repository.trust, s0, s1, candidate, ok, repository.trace[k]);
    }
    RepointStep(repository.trust, s0, s1, candidate, ok, repository.state);
    PointerReadsBack(candidate);
  }

  lemma RepointStep(trust: Trust, s0: Cache, s1: Cache, candidate: string, moved: bool, s: Cache)
    requires LoaderStep(trust, s0, s1) && s1.pointer == s0.pointer && GoodAt(trust, s1, candidate)
    requires PointerStep(s1, candidate, moved, s)
    ensures LoaderStep(trust, s0, s)
  {
    PointerReadsBack(candidate);
    hide ReadSmallText;
  }

  /** Whatever step an activation is interrupted at, the loader then returns the old catalog or
      the new one, without a search. */
  method ActivationSurvivesCrash(repository: Repository, digest: string, faults: Faults, listed: seq<string>,
                                 pointerFails: bool) returns (result: Option<string>)
    requires repository.Valid() && GoodParts(repository.trust, repository.state, digest)
    requires Points(repository.trust, repository.state, CurrentName(repository.state))
    requires digest != CurrentName(repository.state)
    modifies repository
    ensures repository.Valid()
    ensures result == Some(CurrentName(old(repository.state))) || result == Some(digest)
    ensures Points(repository.trust, repository.state, result.value)
  {
    ghost var s0 := repository.state;
    var from := |repository.trace| - 1;
    var _ := ActivateSignedRepository(repository, digest, faults);
    hide ReadSmallText, Verified, IsDigest, Activated, LoaderStep;
    assert forall k :: from <= k < |repository.trace| ==> OldOrNew(repository.trust, s0, digest, repository.trace[k]);
    repository.Crash(from);
    var order := ListGenerations(repository.state);
    result := LoadSignedRepositoryCache(repository, order, pointerFails);
  }

  /** Refreshing an unchanged catalog, interrupted at any step: the loader then returns a catalog if
      another generation is good, and otherwise this one or none. */
  method RefreshSurvivesCrash(repository: Repository, digest: string, faults: Faults, pointerFails: bool)
    returns (result: Option<string>)
    requires repository.Valid() && GoodParts(repository.trust, repository.state, digest)
    requires Points(repository.trust, repository.state, digest)
    modifies repository
    ensures repository.Valid()
    ensures Another(repository.trust, old(repository.state), digest) && !pointerFails ==> result.Some?
    ensures result.Some? && result.value != digest ==> GoodAt(repository.trust, old(repository.state), result.value)
  {
    ghost var s0, trust := repository.state, repository.trust;
    var from := |repository.trace| - 1;
    var _ := ActivateSignedRepository(repository, digest, faults);
    hide ReadSmallText, Verified, IsDigest, Activated, LoaderStep, Another, Finds;
    PointsFinds(trust, s0, digest);
    assert Another(trust, s0, digest) ==> forall k :: from <= k < |repository.trace| ==> Finds(trust, repository.trace[k]);
    forall k | from <= k < |repository.trace|
      ensures Points(trust, repository.trace[k], digest) || OnlyDigest(trust, s0, digest, repository.trace[k])
    {
      if k > from && Elsewhere(s0, digest, repository.trace[k]) { ElsewhereOnly(trust, s0, digest, repository.trace[k]); }
    }
    hide Elsewhere, OldOrNew, Points, OnlyDigest;
    repository.Crash(from);
    FindsSome(trust, repository.state);
    var order := ListGenerations(repository.state);
    ghost var crashed := repository.state;
    result := LoadSignedRepositoryCache(repository, order, pointerFails);
    ReturnedWasGood(trust, s0, digest, crashed, result);
  }

  lemma PointsFinds(trust: Trust, s: Cache, digest: string)
    requires Points(trust, s, digest)
    ensures Finds(trust, s) && CurrentName(s) == digest
  {
    hide ReadSmallText, Verified, IsDigest;
  }

  lemma FindsSome(trust: Trust, s: Cache)
    ensures Finds(trust, s) <==> exists name :: GoodAt(trust, s, name)
  {
  }

  lemma ElsewhereOnly(trust: Trust, s0: Cache, digest: string, s: Cache)
    requires Elsewhere(s0, digest, s)
    ensures OnlyDigest(trust, s0, digest, s)
  {
    hide ReadSmallText, Verified, IsDigest;
  }

  lemma ReturnedWasGood(trust: Trust, s0: Cache, digest: string, s: Cache, result: Option<string>)
    requires Points(trust, s, digest) || OnlyDigest(trust, s0, digest, s)
    requires Points(trust, s, CurrentName(s)) ==> result == Some(CurrentName(s))
    requires result.Some? ==> GoodAt(trust, s, result.value)
    ensures result.Some? && result.value != digest ==> GoodAt(trust, s0, result.value)
  {
    hide ReadSmallText, Verified, IsDigest;
  }

  /** No generation but `digest` is good that was not before. */
  ghost predicate OnlyDigest(trust: Trust, s0: Cache, digest: string, s: Cache) {
    forall name :: name != digest && GoodAt(trust, s, name) ==> GoodAt(trust, s0, name)
  }

  method ListGenerations(s: Cache) returns (listed: seq<string>)
    ensures Lists(listed, s)
  {
    listed := [];
    var left := s.generations.Keys;
    while left != {}
      invariant left <= s.generations.Keys
      invariant forall name :: name in listed <==> name in s.generations && name !in left
      decreases left
    {
      var name :| name in left;
      left, listed := left - {name}, listed + [name];
    }
  }

  /** A search interrupted at any step can be repeated: the next one finds a catalog exactly when
      the first could have. */
  method LoadSurvivesCrash(repository: Repository, listed: seq<string>, pointerFails: bool) returns (result: Option<string>)
    requires repository.Valid() && Lists(listed, repository.state)
    modifies repository
    ensures repository.Valid()
    ensures result.Some? <==> exists name :: GoodAt(repository.trust, old(repository.state), name)
    ensures result.Some? ==> Points(repository.trust, repository.state, result.value)
  {
    ghost var s0, trust := repository.state, repository.trust;
    LoaderStepItself(trust, s0);
    var from := |repository.trace| - 1;
    var _ := LoadSignedRepositoryCache(repository, listed, pointerFails);
    hide LoaderStep, ReadSmallText, IsDigest, Verified;
    assert forall k :: from <= k < |repository.trace| ==> LoaderStep(trust, s0, repository.trace[k]);
    repository.Crash(from);
    SameGood(trust, s0, repository.state);
    var order := ListGenerations(repository.state);
    result := LoadSignedRepositoryCache(repository, order, false);
  }

  lemma SameGood(trust: Trust, s0: Cache, s: Cache)
    requires LoaderStep(trust, s0, s)
    ensures (exists name :: GoodAt(trust, s0, name)) <==> exists name :: GoodAt(trust, s, name)
  {
    hide ReadSmallText, IsDigest;
    assert forall name :: GoodAt(trust, s0, name) <==> GoodAt(trust, s, name);
  }
}
