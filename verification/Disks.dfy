/** The disk as the jobs of native/src/engine.cpp change it, one durable step at a time.
    `trace` records every state, so a crash at any step leaves any one of them. */
module Disks {
  import opened Wrappers
  import opened Paths
  import opened JsonText
  import opened Ownership
  import opened Storage

  ghost predicate Extends(a: seq<Store>, b: seq<Store>) {
    |a| <= |b| && forall k :: 0 <= k < |a| ==> b[k] == a[k]
  }

  /** `s` shows of one package what `s0` showed or had set aside, or the new tree, if there is one,
      and of every other package nothing that `s0` did not show. */
  ghost predicate OldOrNew(s0: Store, s: Store, kind: Kind, package: string, tree: Option<Tree>) {
    && (forall x :: Shows(s, kind, package, x) ==>
                      Shows(s0, kind, package, x) || Held(s0, kind, package, x) || (x == tree && tree.Some?))
    && forall k, p :: k != kind || p != package ==> Narrows(s0, s, k, p)
  }

  function TransactionSize(x: Transaction): nat {
    (if x.journal.Some? then 1 else 0)
    + (if x.staging.Some? then 1 + |x.staging.value| else 0)
    + (if x.backup.Some? then 1 + |x.backup.value| else 0)
  }

  class Disk {
    var store: Store
    var trace: seq<Store>

    ghost predicate Valid()
      reads this
    {
      |trace| > 0 && trace[|trace| - 1] == store
    }

    constructor (initial: Store)
      ensures Valid() && store == initial && trace == [initial]
    {
      store, trace := initial, [initial];
    }

    /** One atomic durable step. */
    method Commit(next: Store)
      requires Valid()
      modifies this
      ensures Valid() && store == next && trace == old(trace) + [next]
    {
      store, trace := next, trace + [next];
    }

    /** The process dies: the disk is as some step since `from` left it. */
    method Crash(from: nat)
      requires Valid() && from < |trace|
      modifies this
      ensures Valid() && exists k :: from <= k < |old(trace)| && store == old(trace)[k]
      ensures trace == [store]
    {
      var k :| from <= k < |trace|;
      store := trace[k];
      trace := [store];
    }

    /** `fs::remove_all` on a transaction directory: one file or directory at a time, in any
        order. */
    method RemoveTransaction(t: string)
      requires Valid()
      modifies this
      ensures Valid() && Extends(old(trace), trace)
      ensures store == old(store).(transactions := old(store).transactions - {t})
      ensures forall k :: |old(trace)| <= k < |trace| ==> Erasing(old(store), t, trace[k])
    {
      var s0 := store;
      if t !in s0.transactions {
        assert s0.transactions - {t} == s0.transactions;
        return;
      }
      var x := s0.transactions[t];
      ShrunkItself(x);
      assert WithTransaction(s0, t, x) == s0 by { assert s0.transactions[t := x] == s0.transactions; }
      while x != EMPTY_TRANSACTION
        invariant Valid() && Extends(old(trace), trace)
        invariant store == WithTransaction(s0, t, x)
        invariant Shrunk(s0.transactions[t], x)
        invariant forall k :: |old(trace)| <= k < |trace| ==> Erasing(s0, t, trace[k])
        decreases TransactionSize(x)
      {
        hide Erasing, Shrunk, WithTransaction;
        var y := RemoveOne(x);
        ErasingStep(s0, t, x, y);
        x := y;
        Commit(WithTransaction(s0, t, x));
      }
      Commit(s0.(transactions := s0.transactions - {t}));
    }

    /** A transaction directory is created and given its journal; a crash can leave any part
        of the journal. */
    method Create(ghost s0: Store, t: string, journal: string)
      requires Valid() && Preparing(s0, t, store)
      modifies this
      ensures Valid() && Extends(old(trace), trace)
      ensures store == WithTransaction(old(store), t, Transaction(Some(journal), None, None))
      ensures Preparing(s0, t, store)
      ensures forall k :: |old(trace)| <= k < |trace| ==> Preparing(s0, t, trace[k])
    {
      var cut :| 0 <= cut <= |journal|;
      hide Preparing;
      Enter(s0, t, EMPTY_TRANSACTION);
      Enter(s0, t, Transaction(Some(journal[..cut]), None, None));
      Enter(s0, t, Transaction(Some(journal), None, None));
      assert store.transactions == old(store).transactions[t := Transaction(Some(journal), None, None)];
    }

    /** A transaction directory is emptied before it is created. If it held nothing, nobody sees
        any of that. */
    method Begin(t: string, journal: string)
      requires Valid()
      modifies this
      ensures Valid() && Extends(old(trace), trace)
      ensures store == WithTransaction(old(store), t, Transaction(Some(journal), None, None))
      ensures !HasBackup(old(store), t) ==>
                forall k :: |old(trace)| <= k < |trace| ==> Preparing(old(store), t, trace[k])
    {
      ghost var s0 := store;
      RemoveTransaction(t);
      hide Preparing, Erasing, HasBackup;
      ghost var s1, from := store, |trace|;
      RemovedIsErasing(s0, t);
      Create(s1, t, journal);
      assert store.transactions == s0.transactions[t := Transaction(Some(journal), None, None)];
      if !HasBackup(s0, t) {
        forall k | |old(trace)| <= k < |trace| ensures Preparing(s0, t, trace[k]) {
          if k < from {
            ErasingIsPreparing(s0, t, trace[k]);
          } else {
            ErasingIsPreparing(s0, t, s1);
            PreparingThen(s0, t, s1, trace[k]);
          }
        }
      }
    }

    /** A step that changes a transaction holding nothing. */
    method Enter(ghost s0: Store, t: string, x: Transaction)
      requires Valid() && Preparing(s0, t, store) && x.backup.None?
      modifies this
      ensures Valid() && trace == old(trace) + [store]
      ensures store == WithTransaction(old(store), t, x) && Preparing(s0, t, store)
    {
      PreparingStep(s0, t, store, x);
      Commit(WithTransaction(store, t, x));
    }
  }

  lemma RemovedIsErasing(s: Store, t: string)
    ensures var s' := s.(transactions := s.transactions - {t});
            Erasing(s, t, s') && Preparing(s', t, s')
  {
  }

  lemma PreparingThen(s0: Store, t: string, s1: Store, s: Store)
    requires Preparing(s0, t, s1) && Preparing(s1, t, s)
    ensures Preparing(s0, t, s)
  {
  }

  lemma ShrunkItself(x: Transaction)
    ensures Shrunk(x, x)
  {
  }

  lemma ErasingStep(s0: Store, t: string, x: Transaction, y: Transaction)
    requires t in s0.transactions && Shrunk(s0.transactions[t], x) && Shrunk(x, y)
    ensures Shrunk(s0.transactions[t], y) && Erasing(s0, t, WithTransaction(s0, t, y))
  {
  }

  /** An arbitrary entry of a transaction directory is deleted. */
  method RemoveOne(x: Transaction) returns (y: Transaction)
    requires x != EMPTY_TRANSACTION
    ensures Shrunk(x, y) && TransactionSize(y) < TransactionSize(x)
  {
    if {
      case x.journal.Some? => y := x.(journal := None);
      case x.staging.Some? && x.staging.value == map[] => y := x.(staging := None);
      case x.staging.Some? && x.staging.value != map[] =>
        var rest := RemoveFile(x.staging.value);
        y := x.(staging := Some(rest));
      case x.backup.Some? && x.backup.value == map[] => y := x.(backup := None);
      case x.backup.Some? && x.backup.value != map[] =>
        var rest := RemoveFile(x.backup.value);
        y := x.(backup := Some(rest));
    }
  }

  method RemoveFile(tree: Tree) returns (rest: Tree)
    requires tree != map[]
    ensures |rest| < |tree| && forall path :: path in rest ==> path in tree && rest[path] == tree[path]
  {
    var path :| path in tree;
    rest := tree - {path};
    assert tree == rest[path := tree[path]];
  }
}
