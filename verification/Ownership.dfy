/** The ownership list of an installed addon and the merge that carries user files over an
    update: native/src/engine.cpp. A directory tree is the map from the relative paths of
    its files to their contents. */
module Ownership {
  import opened Text
  import opened Wrappers
  import opened Paths

  type Tree = map<string, string>

  const OWNED_LIST := ".vanahub-owned"

  function OwnershipText(files: seq<string>): string {
    if files == [] then "" else files[0] + "\n" + OwnershipText(files[1..])
  }

  method WriteOwnership(files: seq<string>) returns (text: string)
    ensures text == OwnershipText(files)
  {
    text := "";
    for i := 0 to |files|
      invariant text + OwnershipText(files[i..]) == OwnershipText(files)
    {
      var line := files[i] + "\n";
      assert files[i..][1..] == files[i + 1..];
      assert text + OwnershipText(files[i..]) == text + line + OwnershipText(files[i + 1..]);
      text := text + line;
    }
  }

  /** What successive `std::getline` calls deliver. */
  function Lines(text: string): seq<string>
    decreases |text|
  {
    if text == "" then []
    else if '\n' !in text then [text]
    else
      var i := FirstIndex(text, '\n');
      [text[..i]] + Lines(text[i + 1..])
  }

  function KeepSafe(lines: seq<string>): seq<string> {
    if lines == [] then []
    else (if SafeRelativePath(lines[0]) then [lines[0]] else []) + KeepSafe(lines[1..])
  }

  function ListText(root: Tree): string {
    if OWNED_LIST in root then root[OWNED_LIST] else ""
  }

  function OwnedFiles(root: Tree): seq<string> {
    KeepSafe(Lines(ListText(root)))
  }

  method ReadOwnership(root: Tree) returns (files: seq<string>)
    ensures files == OwnedFiles(root)
  {
    hide Lines, KeepSafe, SafeRelativePath, FirstIndex;
    var rest := ListText(root);
    files := [];
    assert [] + KeepSafe(Lines(rest)) == OwnedFiles(root);
    while rest != ""
      invariant files + KeepSafe(Lines(rest)) == OwnedFiles(root)
      decreases |rest|
    {
      LineStep(rest);
      var line, after := FirstLine(rest);
      var safe := IsSafeRelativePath(line);
      if safe {
        Associate(files, [line], KeepSafe(Lines(after)));
        files := files + [line];
      }
      rest := after;
    }
    NoLines(files);
  }

  lemma NoLines(files: seq<string>)
    ensures files + KeepSafe(Lines("")) == files
  {
  }

  function LineEnd(text: string): (end: nat)
    requires text != ""
    ensures end <= |text|
  {
    if '\n' in text then FirstIndex(text, '\n') else |text|
  }

  /** The next line of a text that is not used up, and the text after it. */
  method FirstLine(text: string) returns (line: string, after: string)
    requires text != ""
    ensures line == text[..LineEnd(text)]
    ensures after == if LineEnd(text) < |text| then text[LineEnd(text) + 1..] else ""
    ensures |after| < |text|
  {
    if '\n' in text {
      var i := FirstIndex(text, '\n');
      line, after := text[..i], text[i + 1..];
    } else {
      line, after := text, "";
    }
  }

  lemma LineStep(text: string)
    requires text != ""
    ensures var line, after := text[..LineEnd(text)], if LineEnd(text) < |text| then text[LineEnd(text) + 1..] else "";
            KeepSafe(Lines(text)) ==
            (if SafeRelativePath(line) then [line] else []) + KeepSafe(Lines(after))
  {
    hide SafeRelativePath;
    var line, after := text[..LineEnd(text)], if LineEnd(text) < |text| then text[LineEnd(text) + 1..] else "";
    if '\n' !in text {
      assert line == text && Lines(after) == [];
    }
    assert Lines(text) == [line] + Lines(after);
    assert ([line] + Lines(after))[1..] == Lines(after);
  }

  lemma LinesFirst(line: string, rest: string)
    requires '\n' !in line
    ensures Lines(line + "\n" + rest) == [line] + Lines(rest)
  {
    var text := line + ['\n'] + rest;
    FirstIndexConcat(line, '\n', rest);
    assert text == line + "\n" + rest && text[|line|] == '\n';
    assert text[..|line|] == line && text[|line| + 1..] == rest;
  }

  predicate SingleLines(files: seq<string>) {
    forall i :: 0 <= i < |files| ==> '\n' !in files[i]
  }

  lemma {:induction false} LinesAreSingle(text: string)
    ensures SingleLines(Lines(text))
    decreases |text|
  {
    if text != "" && '\n' in text {
      LinesAreSingle(text[FirstIndex(text, '\n') + 1..]);
    }
  }

  lemma {:induction false} KeepSafeSelects(lines: seq<string>)
    ensures SingleLines(lines) ==> SingleLines(KeepSafe(lines))
    ensures AllSafePaths(KeepSafe(lines))
    ensures forall path :: path in KeepSafe(lines) <==> path in lines && SafeRelativePath(path)
  {
    hide SafeRelativePath;
    if lines != [] {
      KeepSafeSelects(lines[1..]);
      assert forall path :: path in lines <==> path == lines[0] || path in lines[1..];
    }
  }

  /** The lines are what the text is made of: none contains a line break, and written one below the
      other they are the text, whose last line break may be missing. */
  lemma {:induction false} LinesAre(text: string)
    ensures SingleLines(Lines(text))
    ensures OwnershipText(Lines(text)) == text || OwnershipText(Lines(text)) == text + "\n"
    decreases |text|
  {
    LinesAreSingle(text);
    if text != "" && '\n' !in text {
      ConsText(text, []);
    } else if text != "" {
      var i := FirstIndex(text, '\n');
      assert text == text[..i] + "\n" + text[i + 1..];
      hide Lines, SingleLines, OwnershipText;
      LinesAre(text[i + 1..]);
      LinesAreStep(text[..i], text[i + 1..]);
    }
  }

  lemma LinesAreStep(head: string, tail: string)
    requires '\n' !in head && OwnershipText(Lines(tail)) in {tail, tail + "\n"}
    ensures var text := head + "\n" + tail; OwnershipText(Lines(text)) in {text, text + "\n"}
  {
    hide Lines, OwnershipText;
    LinesFirst(head, tail);
    ConsText(head, Lines(tail));
    assert head + "\n" + tail + "\n" == head + "\n" + (tail + "\n");
  }

  lemma ConsText(line: string, rest: seq<string>)
    ensures OwnershipText([line] + rest) == line + "\n" + OwnershipText(rest)
    ensures OwnershipText([line]) == line + "\n"
  {
    assert ([line] + rest)[1..] == rest && [line][1..] == [];
  }

  /** A file is owned exactly if the list has it as a line and its path is safe. */
  lemma OwnedIsListed(root: Tree, path: string)
    ensures path in OwnedFiles(root) <==> path in Lines(ListText(root)) && SafeRelativePath(path)
    ensures OWNED_LIST !in root ==> OwnedFiles(root) == []
  {
    hide SafeRelativePath;
    KeepSafeSelects(Lines(ListText(root)));
  }

  predicate AllSafePaths(files: seq<string>) {
    forall i :: 0 <= i < |files| ==> SafeRelativePath(files[i])
  }

  lemma {:induction false} OwnershipLines(files: seq<string>)
    requires SingleLines(files)
    ensures Lines(OwnershipText(files)) == files
  {
    if files != [] {
      hide Lines;
      LinesFirst(files[0], OwnershipText(files[1..]));
      OwnershipLines(files[1..]);
    }
  }

  lemma {:induction false} KeepSafeAll(files: seq<string>)
    requires AllSafePaths(files)
    ensures KeepSafe(files) == files
  {
    hide SafeRelativePath;
    if files != [] {
      KeepSafeAll(files[1..]);
    }
  }

  /** The list reads back exactly when no path contains a line break. */
  lemma OwnershipReadsBack(files: seq<string>)
    requires AllSafePaths(files)
    ensures KeepSafe(Lines(OwnershipText(files))) == files <==> SingleLines(files)
  {
    if SingleLines(files) {
      OwnershipLines(files);
      KeepSafeAll(files);
    }
    LinesAreSingle(OwnershipText(files));
    KeepSafeSelects(Lines(OwnershipText(files)));
  }

  /** A file at one path leaves no room for a file at the other. */
  predicate Conflict(a: string, b: string) {
    a + "/" <= b || b + "/" <= a
  }

  ghost predicate ConflictFree(paths: set<string>) {
    forall a, b :: a in paths && b in paths ==> !Conflict(a, b)
  }

  /** `fs::exists`: a file at `path`, or a directory holding files. */
  predicate Occupied(tree: Tree, path: string) {
    path in tree || exists k :: k in tree && path + "/" <= k
  }

  /** A file stands where a parent directory of `path` would have to be created. */
  predicate Blocked(tree: Tree, path: string) {
    exists k :: k in tree && k + "/" <= path
  }

  /** `order` lists the files of `tree`, each once, as a directory iterator does. */
  ghost predicate Enumerates(order: seq<string>, tree: Tree) {
    && Distinct(order)
    && (forall path :: path in order <==> path in tree)
  }

  predicate Distinct(order: seq<string>) {
    forall i, j :: 0 <= i < j < |order| ==> order[i] != order[j]
  }

  /** Not put there by the installed version. */
  predicate IsUserFile(tree: Tree, path: string) {
    path in tree && path != OWNED_LIST && path !in OwnedFiles(tree)
  }

  predicate Untracked(previous: set<string>, path: string) {
    path != OWNED_LIST && path !in previous
  }

  /** The copy loop. A copy fails where a file stands in the way of a directory, and wherever else
      the operating system refuses it (`denied`); the loop condition tests the error code, so the
      first failure ends the loop. */
  function Preserve(order: seq<string>, target: Tree, previous: set<string>, denied: set<string>, staging: Tree): Tree
    requires forall path :: path in order ==> path in target
  {
    if order == [] then staging
    else if !Untracked(previous, order[0]) || Occupied(staging, order[0]) then
      Preserve(order[1..], target, previous, denied, staging)
    else if Blocked(staging, order[0]) || order[0] in denied then staging
    else Preserve(order[1..], target, previous, denied, staging[order[0] := target[order[0]]])
  }

  lemma Vacant(tree: Tree, path: string)
    requires !Occupied(tree, path)
    ensures path !in tree
  {
  }

  /** The merge adds user files unchanged and touches nothing staged. */
  lemma {:induction false} PreserveShape(order: seq<string>, target: Tree, previous: set<string>, denied: set<string>,
                                         staging: Tree)
    requires forall path :: path in order ==> path in target
    ensures var merged := Preserve(order, target, previous, denied, staging);
            && (forall path :: path in staging ==> path in merged && merged[path] == staging[path])
            && (forall path :: path in merged ==>
                  path in staging || (path in order && Untracked(previous, path) && merged[path] == target[path]))
    decreases |order|
  {
    hide Occupied, Blocked;
    if order != [] {
      assert forall path :: path in order <==> path == order[0] || path in order[1..];
      if !Untracked(previous, order[0]) || Occupied(staging, order[0]) {
        PreserveShape(order[1..], target, previous, denied, staging);
      } else if !Blocked(staging, order[0]) && order[0] !in denied {
        assert order[0] !in staging by { Vacant(staging, order[0]); }
        PreserveShape(order[1..], target, previous, denied, staging[order[0] := target[order[0]]]);
      }
    }
  }

  /** A user file in conflict with a staged one is never copied, nor is one whose copy is
      refused. */
  lemma {:induction false} FailingIsLost(order: seq<string>, target: Tree, previous: set<string>, denied: set<string>,
                                         staging: Tree, path: string)
    requires forall p :: p in order ==> p in target
    requires path !in staging
    requires path in denied || exists shipped :: shipped in staging && Conflict(path, shipped)
    ensures path !in Preserve(order, target, previous, denied, staging)
    decreases |order|
  {
    if order != [] {
      assert Occupied(staging, path) || Blocked(staging, path) || path in denied;
      hide Occupied, Blocked;
      assert forall p :: p in order[1..] ==> p in order;
      if !Untracked(previous, order[0]) || Occupied(staging, order[0]) {
        FailingIsLost(order[1..], target, previous, denied, staging, path);
      } else if !Blocked(staging, order[0]) && order[0] !in denied {
        FailingIsLost(order[1..], target, previous, denied, staging[order[0] := target[order[0]]], path);
      }
    }
  }

  ghost function UntrackedIn(order: seq<string>, previous: set<string>): set<string> {
    set path | path in order && Untracked(previous, path)
  }

  /** The copy of the user file at a place in the iteration is asked for and refused. */
  predicate RefusedAt(order: seq<string>, previous: set<string>, denied: set<string>, staging: Tree, i: nat)
    requires i < |order|
  {
    Untracked(previous, order[i]) && order[i] !in staging && order[i] in denied
  }

  predicate RefusedUpTo(order: seq<string>, previous: set<string>, denied: set<string>, staging: Tree, i: nat)
    requires i < |order|
  {
    exists j :: 0 <= j <= i && RefusedAt(order, previous, denied, staging, j)
  }

  /** Without conflicts a user file that the new version does not ship is copied exactly if its
      copy and those of the user files before it are not refused. */
  lemma {:induction false} CopiedUntilRefused(order: seq<string>, target: Tree, previous: set<string>,
                                              denied: set<string>, staging: Tree, i: nat)
    requires forall path :: path in order ==> path in target
    requires Distinct(order)
    requires ConflictFree(staging.Keys + UntrackedIn(order, previous))
    requires i < |order| && Untracked(previous, order[i]) && order[i] !in staging
    ensures order[i] in Preserve(order, target, previous, denied, staging) <==>
            !RefusedUpTo(order, previous, denied, staging, i)
    decreases |order|
  {
    var first, rest := order[0], order[1..];
    var skipped := !Untracked(previous, first) || first in staging;
    var next := if skipped then staging else staging[first := target[first]];
    RoomAtFirst(order, previous, staging, next);
    assert forall path :: path in order <==> path == first || path in rest;
    assert Distinct(rest);
    if i > 0 {
      assert rest[i - 1] == order[i] && order[i] != first;
    }
    hide Occupied, Blocked, ConflictFree, UntrackedIn, Untracked, RefusedUpTo, Distinct;
    if !skipped && first in denied {
      assert Preserve(order, target, previous, denied, staging) == staging;
      RefusedFirst(order, previous, denied, staging, i);
    } else {
      assert Preserve(order, target, previous, denied, staging) == Preserve(rest, target, previous, denied, next);
      hide Preserve;
      if i > 0 {
        RefusedLater(order, previous, denied, staging, next, i);
        CopiedUntilRefused(rest, target, previous, denied, next, i - 1);
      } else {
        RefusedFirst(order, previous, denied, staging, i);
        PreserveShape(rest, target, previous, denied, next);
      }
    }
  }

  lemma RefusedFirst(order: seq<string>, previous: set<string>, denied: set<string>, staging: Tree, i: nat)
    requires i < |order|
    ensures RefusedAt(order, previous, denied, staging, 0) ==> RefusedUpTo(order, previous, denied, staging, i)
    ensures i == 0 && RefusedUpTo(order, previous, denied, staging, i) ==> RefusedAt(order, previous, denied, staging, 0)
  {
    hide RefusedAt;
  }

  lemma RoomAtFirst(order: seq<string>, previous: set<string>, staging: Tree, next: Tree)
    requires order != [] && ConflictFree(staging.Keys + UntrackedIn(order, previous))
    requires next.Keys == staging.Keys + if Untracked(previous, order[0]) then {order[0]} else {}
    ensures ConflictFree(next.Keys + UntrackedIn(order[1..], previous))
    ensures Untracked(previous, order[0]) ==>
              !Blocked(staging, order[0]) && (Occupied(staging, order[0]) <==> order[0] in staging)
  {
    var first, all := order[0], staging.Keys + UntrackedIn(order, previous);
    assert UntrackedIn(order, previous) ==
           UntrackedIn(order[1..], previous) + if Untracked(previous, first) then {first} else {};
    if Untracked(previous, first) { RoomFor(first, staging, all); }
    hide Occupied, Blocked, ConflictFree, UntrackedIn, Untracked;
    SubsetConflictFree(next.Keys + UntrackedIn(order[1..], previous), all);
  }

  lemma RefusedLater(order: seq<string>, previous: set<string>, denied: set<string>, staging: Tree, next: Tree, i: nat)
    requires 0 < i < |order| && !RefusedAt(order, previous, denied, staging, 0)
    requires Distinct(order)
    requires staging.Keys <= next.Keys <= staging.Keys + {order[0]}
    ensures RefusedUpTo(order, previous, denied, staging, i) <==> RefusedUpTo(order[1..], previous, denied, next, i - 1)
  {
    hide Untracked;
    forall j | 0 < j <= i
      ensures RefusedAt(order, previous, denied, staging, j) <==> RefusedAt(order[1..], previous, denied, next, j - 1)
    {
      assert order[1..][j - 1] == order[j];
    }
    if RefusedUpTo(order, previous, denied, staging, i) {
      var j :| 0 <= j <= i && RefusedAt(order, previous, denied, staging, j);
      assert RefusedAt(order[1..], previous, denied, next, j - 1);
    }
    if RefusedUpTo(order[1..], previous, denied, next, i - 1) {
      var j :| 0 <= j <= i - 1 && RefusedAt(order[1..], previous, denied, next, j);
      assert RefusedAt(order, previous, denied, staging, j + 1);
    }
  }

  lemma RoomFor(path: string, tree: Tree, all: set<string>)
    requires tree.Keys <= all && path in all && ConflictFree(all)
    ensures !Blocked(tree, path) && (Occupied(tree, path) <==> path in tree)
  {
  }

  lemma SubsetConflictFree(a: set<string>, b: set<string>)
    requires a <= b && ConflictFree(b)
    ensures ConflictFree(a)
  {
  }

  /** Files of `target` that the merge has to keep: the user's, unless shipped again. */
  ghost function UserFiles(target: Tree, previous: set<string>, staging: Tree): set<string> {
    set path | path in target && Untracked(previous, path) && path !in staging
  }

  /** Updating keeps every user file exactly when none of them conflicts with a shipped one and
      the operating system copies all of them. */
  lemma MergeKeepsUserFiles(order: seq<string>, target: Tree, previous: set<string>, denied: set<string>, staging: Tree)
    requires Enumerates(order, target) && ConflictFree(target.Keys) && ConflictFree(staging.Keys)
    ensures UserFiles(target, previous, staging) <= Preserve(order, target, previous, denied, staging).Keys <==>
            ConflictFree(staging.Keys + UserFiles(target, previous, staging)) && UserFiles(target, previous, staging) !! denied
  {
    var users := UserFiles(target, previous, staging);
    if path :| path in users && path in denied {
      FailingIsLost(order, target, previous, denied, staging, path);
    } else if ConflictFree(staging.Keys + users) {
      assert UntrackedIn(order, previous) <= staging.Keys + users;
      SubsetConflictFree(staging.Keys + UntrackedIn(order, previous), staging.Keys + users);
      forall path | path in users ensures path in Preserve(order, target, previous, denied, staging) {
        var i :| 0 <= i < |order| && order[i] == path;
        hide Untracked;
        CopiedUntilRefused(order, target, previous, denied, staging, i);
      }
    } else {
      var a, b :| a in staging.Keys + users && b in staging.Keys + users && Conflict(a, b);
      if a in users && b in staging {
        FailingIsLost(order, target, previous, denied, staging, a);
      } else if b in users && a in staging {
        FailingIsLost(order, target, previous, denied, staging, b);
      } else {
        assert false;
      }
    }
  }

  /** Then the merged tree is the shipped files and the user's, whatever the iteration order. */
  lemma MergedTree(order: seq<string>, target: Tree, previous: set<string>, denied: set<string>, staging: Tree)
    requires Enumerates(order, target) && ConflictFree(target.Keys) && ConflictFree(staging.Keys)
    requires ConflictFree(staging.Keys + UserFiles(target, previous, staging))
    requires UserFiles(target, previous, staging) !! denied
    ensures Preserve(order, target, previous, denied, staging) ==
            staging + map path | path in UserFiles(target, previous, staging) :: target[path]
  {
    MergeKeepsUserFiles(order, target, previous, denied, staging);
    PreserveShape(order, target, previous, denied, staging);
  }

  /** A refused copy of one user file loses the later ones as well, although nothing conflicts. */
  lemma RefusedCopyLosesLater(order: seq<string>)
    requires order == ["data/a.txt", "data/b.txt"]
    ensures var target := map["data/a.txt" := "mine", "data/b.txt" := "mine too"];
            var shipped := map["main.lua" := "new"];
            && Enumerates(order, target)
            && ConflictFree(shipped.Keys + UserFiles(target, {}, shipped))
            && Preserve(order, target, {}, {"data/a.txt"}, shipped) == shipped
  {
    var target := map["data/a.txt" := "mine", "data/b.txt" := "mine too"];
    var shipped := map["main.lua" := "new"];
    assert order[0] == "data/a.txt" && order[1] == "data/b.txt";
    var users := UserFiles(target, {}, shipped);
    assert forall path :: path in shipped.Keys + users ==> path in {"main.lua", "data/a.txt", "data/b.txt"};
    assert "main.lua/"[8] == '/' && "data/a.txt/"[10] == '/' && "data/b.txt/"[10] == '/';
    assert "data/a.txt"[5] == 'a' && "data/b.txt"[5] == 'b' && "main.lua"[0] == 'm' && "data/a.txt"[0] == 'd';
  }
}
