/** Auto-loading the active profile, one command at a time:
    addon/vanahub/versions/0.1.0/main.lua lines 225 to 259 and 508 to 548. */
module AutoLoad {
  import opened AddonActions
  import opened LuaValues
  import opened Profiles
  import opened Text
  import opened Wrappers

  datatype Failure = NotInstalled(id: string) | Revoked(id: string) | Unconfirmed(id: string)

  /** What the driver can look up: installed addons with their hash, the directories that carry
      an ownership list, and the revoked hashes. */
  datatype World = World(installed: map<string, Option<string>>, owned: set<string>, revoked: set<string>)

  predicate Wanted(e: Entry) { e.autoLoad && e.id != MANAGER }

  function Refusal(id: string, w: World): (r: Option<Failure>)
    ensures r.None? ==> SafeId(id)
  {
    if id !in w.installed || !SafeId(id) || id !in w.owned then Some(NotInstalled(id))
    else if w.installed[id].Some? && w.installed[id].value in w.revoked then Some(Revoked(id))
    else None
  }

  /** The addons to load, in the order of the profile. */
  function Eligible(addons: seq<Entry>, w: World): (r: seq<string>)
    ensures forall i :: 0 <= i < |r| ==> SafeId(r[i])
  {
    if addons == [] then []
    else
      var e := addons[|addons| - 1];
      Eligible(addons[..|addons| - 1], w) + if Wanted(e) && Refusal(e.id, w).None? then [e.id] else []
  }

  function Rejected(addons: seq<Entry>, w: World): seq<Failure> {
    if addons == [] then []
    else
      var e := addons[|addons| - 1];
      Rejected(addons[..|addons| - 1], w) +
      if Wanted(e) && Refusal(e.id, w).Some? then [Refusal(e.id, w).value] else []
  }

  function WantedCount(addons: seq<Entry>): nat {
    if addons == [] then 0
    else WantedCount(addons[..|addons| - 1]) + if Wanted(addons[|addons| - 1]) then 1 else 0
  }

  /** `a` is what is left of `b` when some elements are dropped. */
  predicate Subsequence(a: seq<string>, b: seq<string>) {
    if b == [] then a == []
    else
      || Subsequence(a, b[..|b| - 1])
      || (a != [] && a[|a| - 1] == b[|b| - 1] && Subsequence(a[..|a| - 1], b[..|b| - 1]))
  }

  lemma SubsequenceGrows(a: seq<string>, b: seq<string>, x: string)
    requires Subsequence(a, b)
    ensures Subsequence(a, b + [x]) && Subsequence(a + [x], b + [x])
  {
    assert (b + [x])[..|b|] == b && (a + [x])[..|a|] == a;
  }

  lemma {:induction false} SubsequenceTransitive(a: seq<string>, b: seq<string>, c: seq<string>)
    requires Subsequence(a, b) && Subsequence(b, c)
    ensures Subsequence(a, c)
    decreases |b| + |c|
  {
    if b != [] && c != [] {
      if Subsequence(b, c[..|c| - 1]) {
        SubsequenceTransitive(a, b, c[..|c| - 1]);
      } else if Subsequence(a, b[..|b| - 1]) {
        SubsequenceTransitive(a, b[..|b| - 1], c[..|c| - 1]);
      } else {
        SubsequenceTransitive(a[..|a| - 1], b[..|b| - 1], c[..|c| - 1]);
      }
    }
  }

  lemma {:induction false} SubsequenceMembers(a: seq<string>, b: seq<string>, x: string)
    requires Subsequence(a, b) && x in a
    ensures x in b
    decreases |b|
  {
    if Subsequence(a, b[..|b| - 1]) {
      SubsequenceMembers(a, b[..|b| - 1], x);
    } else if x != a[|a| - 1] {
      assert a == a[..|a| - 1] + [a[|a| - 1]];
      SubsequenceMembers(a[..|a| - 1], b[..|b| - 1], x);
    }
  }

  lemma {:induction false} SubsequenceNoRepeats(a: seq<string>, b: seq<string>)
    requires Subsequence(a, b) && NoRepeats(b)
    ensures NoRepeats(a)
    decreases |b|
  {
    if b != [] {
      if Subsequence(a, b[..|b| - 1]) {
        SubsequenceNoRepeats(a, b[..|b| - 1]);
      } else {
        var front := a[..|a| - 1];
        SubsequenceNoRepeats(front, b[..|b| - 1]);
        forall i | 0 <= i < |front| ensures a[i] != a[|a| - 1] {
          assert front[i] in front;
          SubsequenceMembers(front, b[..|b| - 1], front[i]);
        }
      }
    }
  }

  /** What is eligible keeps the profile's order, and with what is rejected makes up what is
      wanted. */
  lemma {:induction false} EligibleIs(addons: seq<Entry>, w: World)
    ensures Subsequence(Eligible(addons, w), Ids(addons))
    ensures |Eligible(addons, w)| + |Rejected(addons, w)| == WantedCount(addons)
  {
    if addons != [] {
      var front, e := addons[..|addons| - 1], addons[|addons| - 1];
      EligibleIs(front, w);
      SubsequenceGrows(Eligible(front, w), Ids(front), e.id);
      assert Ids(addons) == Ids(front) + [e.id];
      assert Eligible(front, w) + [] == Eligible(front, w);
    }
  }

  /** Why an addon is loaded: it is ticked, is not the manager, is installed under a safe id with its
      list of files on disk, and its package is not revoked. */
  lemma {:induction false} EligibleMembers(addons: seq<Entry>, w: World, id: string)
    ensures id in Eligible(addons, w) <==>
            && (exists i :: 0 <= i < |addons| && addons[i].id == id && addons[i].autoLoad)
            && id != "vanahub" && id in w.installed && SafeId(id) && id in w.owned
            && !(w.installed[id].Some? && w.installed[id].value in w.revoked)
    decreases |addons|
  {
    hide SafeId;
    if addons != [] {
      var front := addons[..|addons| - 1];
      EligibleMembers(front, w, id);
      assert forall i :: 0 <= i < |front| ==> front[i] == addons[i];
    }
  }

  /** Why one is reported instead. */
  lemma {:induction false} RejectedMembers(addons: seq<Entry>, w: World, id: string)
    ensures Revoked(id) in Rejected(addons, w) || NotInstalled(id) in Rejected(addons, w) <==>
            && (exists i :: 0 <= i < |addons| && addons[i].id == id && addons[i].autoLoad)
            && id != "vanahub"
            && !(&& id in w.installed && SafeId(id) && id in w.owned
                 && !(w.installed[id].Some? && w.installed[id].value in w.revoked))
    ensures Revoked(id) in Rejected(addons, w) ==> id in w.installed && SafeId(id) && id in w.owned
    ensures NotInstalled(id) in Rejected(addons, w) ==> id !in w.installed || !SafeId(id) || id !in w.owned
    decreases |addons|
  {
    hide SafeId;
    if addons != [] {
      var front := addons[..|addons| - 1];
      RejectedMembers(front, w, id);
      assert forall i :: 0 <= i < |front| ==> front[i] == addons[i];
    }
  }

  method SortOut(addons: seq<Entry>, w: World) returns (queue: seq<string>, failures: seq<Failure>)
    ensures queue == Eligible(addons, w) && failures == Rejected(addons, w)
  {
    queue, failures := [], [];
    for i := 0 to |addons|
      invariant queue == Eligible(addons[..i], w) && failures == Rejected(addons[..i], w)
    {
      assert addons[..i + 1][..i] == addons[..i];
      var e := addons[i];
      if Wanted(e) {
        var refusal := Refusal(e.id, w);
        if refusal.Some? { failures := failures + [refusal.value]; }
        else { queue := queue + [e.id]; }
      }
    }
    assert addons[..|addons|] == addons;
  }

  /** How many addons at the head of the queue are loaded already. */
  function LeadingLoaded(queue: seq<string>, answers: Answers): (r: nat)
    ensures r <= |queue|
  {
    if queue != [] && IsLoaded(answers, queue[0]) then 1 + LeadingLoaded(queue[1..], answers) else 0
  }

  /** They are loaded, and the one after them is not. */
  lemma {:induction false} LeadingLoadedIs(queue: seq<string>, answers: Answers)
    ensures var n := LeadingLoaded(queue, answers);
            && (forall k :: 0 <= k < n ==> queue[k] in answers && answers[queue[k]])
            && (n < |queue| ==> !(queue[n] in answers && answers[queue[n]]))
  {
    if queue != [] && IsLoaded(answers, queue[0]) { LeadingLoadedIs(queue[1..], answers); }
  }

  class Startup {
    var ready: bool
    var started: bool
    var completed: bool
    var queue: seq<string>
    var loaded: nat
    var alreadyLoaded: nat
    var failures: seq<Failure>
    var total: nat
    var action: Option<Action>

    ghost var listed: seq<Entry>  // the active profile when startup began
    ghost var world: World        // and what was installed then
    ghost var issued: seq<string> // load commands sent by startup, oldest first

    constructor ()
      ensures Sound() && !ready && !started && !completed && action == None && issued == []
    {
      ready, started, completed, queue, loaded, alreadyLoaded := false, false, false, [], 0, 0;
      failures, total, action := [], 0, None;
      listed, world, issued := [], World(map[], {}, {}), [];
    }

    function InFlight(): nat
      reads this
    {
      if action.Some? && action.value.startup then 1 else 0
    }

    ghost function Plan(): seq<string>
      reads this
    {
      Eligible(listed, world)
    }

    ghost function Done(): int
      reads this
    {
      |Plan()| - |queue|
    }

    /** Every addon of the plan is queued, in flight, loaded, already loaded or failed; nothing is
        sent twice or out of order. */
    ghost predicate Accounted()
      reads this
    {
      && 0 <= Done() && queue == Plan()[Done()..]
      && total == |Plan()| + |Rejected(listed, world)|
      && loaded + alreadyLoaded + |failures| + |queue| + InFlight() == total
      && Rejected(listed, world) <= failures
      && alreadyLoaded + |issued| == Done()
      && Subsequence(issued, Plan()[..Done()])
    }

    ghost predicate Sound()
      reads this
    {
      && (completed ==> started && queue == [] && InFlight() == 0)
      && (started ==> Accounted())
      && (!started ==> InFlight() == 0 && issued == [])
    }

    /** How much is left to do. */
    function Remaining(): nat
      reads this
    {
      2 * |queue| + InFlight()
    }

    /** `set_addon_loaded`: sends a command unless the id is unsafe. */
    method SetAddonLoaded(packageId: string, enabled: bool, startup: bool, now: int)
      modifies this`action, this`issued
      ensures action == if SafeId(packageId) then Some(Action(packageId, enabled, now, startup)) else old(action)
      ensures issued == old(issued) + if SafeId(packageId) && startup then [packageId] else []
    {
      if !SafeId(packageId) { return; }
      action := Some(Action(packageId, enabled, now, startup));
      if startup { issued := issued + [packageId]; }
    }

    /** A user's click, possible only while no command is in flight. */
    method UserAction(packageId: string, enabled: bool, now: int)
      requires Sound()
      modifies this`action, this`issued
      ensures Sound() && issued == old(issued)
    {
      if action.None? { SetAddonLoaded(packageId, enabled, false, now); }
    }

    /** `tick_addon_action`: a command of the startup's counts as loaded or as failed. */
    method TickAddonAction(answers: Answers, now: int)
      requires Sound()
      modifies this`action, this`loaded, this`failures
      ensures Sound()
      ensures old(action.Some?) ==>
                var a := old(action).value;
                && action == (if Over(a, answers, now) then None else old(action))
                && loaded == old(loaded) + (if Seen(a, answers) && a.startup then 1 else 0)
                && failures == old(failures) + if !Seen(a, answers) && Over(a, answers, now) && a.startup
                                               then [Unconfirmed(a.packageId)] else []
      ensures old(action.None?) ==> action == None && loaded == old(loaded) && failures == old(failures)
    {
      hide Eligible, Rejected, Subsequence;
      if action.None? { return; }
      var a := action.value;
      var next, progress := TickAction(action, answers, now);
      if a.startup {
        if progress.Confirmed? { loaded := loaded + 1; }
        if progress.TimedOut? { failures := failures + [Unconfirmed(a.packageId)]; }
      }
      action := next;
    }

    /** `begin_startup`: sorts the wanted addons into a queue and failures. */
    method BeginStartup(addons: seq<Entry>, w: World)
      requires Sound() && !started
      modifies this
      ensures Sound() && started && !completed && listed == addons && world == w
      ensures ready == old(ready) && action == old(action) && issued == [] && alreadyLoaded == 0 && loaded == 0
      ensures queue == Eligible(addons, w) && failures == Rejected(addons, w) && total == WantedCount(addons)
    {
      hide Eligible, Rejected, Subsequence, WantedCount, Ids, Accounted;
      started, completed, loaded, alreadyLoaded := true, false, 0, 0;
      queue, failures := SortOut(addons, w);
      total := |queue| + |failures|;
      listed, world := addons, w;
      EligibleIs(addons, w);
      Begun();
    }

    lemma Begun()
      requires queue == Plan() && failures == Rejected(listed, world) && total == |queue| + |failures|
      requires loaded == 0 && alreadyLoaded == 0 && issued == [] && InFlight() == 0
      ensures Accounted()
    {
      hide Eligible, Rejected, Subsequence;
      var plan := Plan();
      NothingIsSubsequence([]);
      assert plan[..0] == [] && plan[0..] == plan;
    }

    /** `tick_startup`: begins if it has not, and takes the next addon if nothing is in flight. */
    method TickStartup(addons: seq<Entry>, w: World, answers: Answers, now: int)
      requires Sound()
      modifies this
      ensures Sound() && ready == old(ready) && (started <==> old(started) || ready)
      ensures started && old(started) ==> listed == old(listed) && world == old(world)
      ensures started && !old(started) ==> listed == addons && world == w
      ensures !ready || old(action).Some? || old(completed) ==>
                action == old(action) && issued == old(issued) && completed == old(completed)
      ensures ready && old(action).None? && old(started) && !old(completed) ==>
                Sent(old(queue), old(issued), old(alreadyLoaded), answers, now)
                && (completed || Remaining() < old(Remaining()))
      ensures ready && old(action).None? && !old(started) ==> Sent(Eligible(addons, w), [], 0, answers, now)
    {
      hide Accounted, Eligible, Sent;
      if !ready { return; }
      if !started { BeginStartup(addons, w); }
      if completed || action.Some? { return; }
      SendNext(answers, now);
    }

    /** The addons at the head of the queue that are loaded already are counted; the next one is
        told to load, or startup is over. */
    ghost predicate Sent(before: seq<string>, sent: seq<string>, counted: nat, answers: Answers, now: int)
      reads this
    {
      var n := LeadingLoaded(before, answers);
      if n < |before|
      then queue == before[n + 1..] && alreadyLoaded == counted + n && issued == sent + [before[n]] && !completed
           && action == Some(Action(before[n], true, now, true))
      else queue == [] && alreadyLoaded == counted + n && issued == sent && completed && action == None
    }

    method SendNext(answers: Answers, now: int)
      requires Sound() && started && !completed && action == None
      modifies this`queue, this`alreadyLoaded, this`action, this`issued, this`completed
      ensures Sound() && Sent(old(queue), old(issued), old(alreadyLoaded), answers, now)
      ensures completed || Remaining() < old(Remaining())
    {
      hide Accounted;
      ghost var n := 0;
      ghost var before := queue;
      assert before[0..] == before;
      while queue != []
        invariant Sound() && started && !completed && action == None && issued == old(issued)
        invariant n <= |before| && queue == before[n..] && alreadyLoaded == old(alreadyLoaded) + n
        invariant LeadingLoaded(before, answers) == n + LeadingLoaded(queue, answers)
        decreases |queue|
      {
        TakeNext(answers, now);
        if action.Some? { return; }
        n := n + 1;
      }
      MarkCompleted();
    }

    method MarkCompleted()
      requires Sound() && started && queue == [] && action == None
      modifies this`completed
      ensures Sound() && completed
    {
      completed := true;
    }

    method MarkReady()
      requires Sound()
      modifies this`ready
      ensures Sound() && ready
    {
      ready := true;
    }

    /** Takes one addon off the queue. */
    method TakeNext(answers: Answers, now: int)
      requires Sound() && started && !completed && action == None && queue != []
      modifies this`queue, this`alreadyLoaded, this`action, this`issued
      ensures Sound() && queue == old(queue)[1..]
      ensures var id := old(queue)[0];
              if IsLoaded(answers, id)
              then action == None && issued == old(issued) && alreadyLoaded == old(alreadyLoaded) + 1
              else action == Some(Action(id, true, now, true)) && issued == old(issued) + [id]
                   && alreadyLoaded == old(alreadyLoaded)
    {
      hide Eligible, Rejected, Subsequence, SafeId;
      var packageId := queue[0];
      Advance(Plan(), Done(), issued);
      assert SafeId(packageId) by { assert packageId == Plan()[Done()]; }
      queue := queue[1..];
      if IsLoaded(answers, packageId) {
        alreadyLoaded := alreadyLoaded + 1;
      } else {
        SetAddonLoaded(packageId, true, true, now);
      }
    }

    static lemma Advance(plan: seq<string>, at: nat, issued: seq<string>)
      requires at < |plan| && Subsequence(issued, plan[..at])
      ensures plan[at..][1..] == plan[at + 1..]
      ensures Subsequence(issued, plan[..at + 1]) && Subsequence(issued + [plan[at]], plan[..at + 1])
    {
      SubsequenceGrows(issued, plan[..at], plan[at]);
      assert plan[..at + 1] == plan[..at] + [plan[at]];
    }

    /** Commands go out in the profile's order, each addon at most once. */
    lemma IssuedInOrder()
      requires Sound() && started
      requires NoRepeats(Ids(listed))
      ensures Subsequence(issued, Ids(listed)) && NoRepeats(issued)
    {
      EligibleIs(listed, world);
      hide Eligible, Rejected, Ids;
      PrefixIsSubsequence(Plan(), Done());
      SubsequenceTransitive(issued, Plan()[..Done()], Plan());
      SubsequenceTransitive(issued, Plan(), Ids(listed));
      SubsequenceNoRepeats(issued, Ids(listed));
    }

    /** When startup is over, every wanted addon is loaded, was loaded before, or failed. */
    lemma CompletedAccounts()
      requires Sound() && completed
      ensures loaded + alreadyLoaded + |failures| == total == WantedCount(listed)
      ensures alreadyLoaded + |issued| == |Eligible(listed, world)|
    {
      EligibleIs(listed, world);
      hide Eligible, Rejected, Subsequence;
    }
  }

  lemma {:induction false} SubsequenceSelf(s: seq<string>)
    ensures Subsequence(s, s)
  {
    if s != [] { SubsequenceSelf(s[..|s| - 1]); }
  }

  lemma {:induction false} PrefixIsSubsequence(s: seq<string>, n: nat)
    requires n <= |s|
    ensures Subsequence(s[..n], s)
    decreases |s|
  {
    if n == |s| {
      SubsequenceSelf(s);
      assert s[..n] == s;
    } else {
      PrefixIsSubsequence(s[..|s| - 1], n);
      assert s[..|s| - 1][..n] == s[..n];
    }
  }

  datatype Event =
    | CatalogReady
    | Frame(answers: Answers, later: Answers, now: int)
    | Click(packageId: string, enabled: bool, at: int)

  /** Whole runs: whatever the answers, the clock and the user do, the books balance after every
      event and the commands sent are a subsequence of the profile. */
  method Run(addons: seq<Entry>, w: World, events: seq<Event>) returns (s: Startup)
    requires NoRepeats(Ids(addons))
    ensures fresh(s) && s.Sound()
    ensures s.started ==> s.listed == addons && s.world == w
    ensures Subsequence(s.issued, Ids(addons)) && NoRepeats(s.issued)
    ensures s.completed ==> s.loaded + s.alreadyLoaded + |s.failures| == WantedCount(addons)
  {
    hide Subsequence, Ids, Startup.Accounted, Startup.Remaining;
    s := new Startup();
    for i := 0 to |events|
      invariant fresh(s) && s.Sound()
      invariant s.started ==> s.listed == addons && s.world == w
    {
      match events[i]
      case CatalogReady => s.MarkReady();
      case Click(packageId, enabled, at) => s.UserAction(packageId, enabled, at);
      case Frame(answers, later, now) =>
        s.TickAddonAction(answers, now);
        s.TickStartup(addons, w, later, now);
    }
    if s.started {
      s.IssuedInOrder();
    } else {
      NothingIsSubsequence(Ids(addons));
    }
    if s.completed { s.CompletedAccounts(); }
  }

  lemma {:induction false} NothingIsSubsequence(s: seq<string>)
    ensures Subsequence([], s)
    decreases |s|
  {
    if s != [] { NothingIsSubsequence(s[..|s| - 1]); }
  }
}
