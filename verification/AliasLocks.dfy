/** The order in which transactions lock the aliases of a recipient
    (apps/notifications/src/app/delivery/recipient-advisory-lock.ts).

    The database locks a number that it computes from an alias; two aliases may share a number.  The
    locks of a transaction are re-entrant and are released together when it ends. */
module AliasLocks {
  import opened Destinations

  type LockOf = RecipientHash -> int

  predicate Precedes(a: RecipientHash, b: RecipientHash) {
    a.keyVersion < b.keyVersion || (a.keyVersion == b.keyVersion && a.value <= b.value)
  }

  predicate Sorted(s: seq<RecipientHash>) {
    forall i, j :: 0 <= i < j < |s| ==> Precedes(s[i], s[j])
  }

  function Insert(s: seq<RecipientHash>, k: RecipientHash): seq<RecipientHash> {
    if s == [] then [k]
    else if Precedes(s[|s| - 1], k) then s + [k]
    else Insert(s[..|s| - 1], k) + [s[|s| - 1]]
  }

  function SortAliases(s: seq<RecipientHash>): seq<RecipientHash> {
    if s == [] then [] else Insert(SortAliases(s[..|s| - 1]), s[|s| - 1])
  }

  lemma {:induction false} InsertSorts(s: seq<RecipientHash>, k: RecipientHash)
    requires Sorted(s)
    ensures Sorted(Insert(s, k)) && multiset(Insert(s, k)) == multiset(s) + multiset{k}
  {
    if s != [] {
      var front, last := s[..|s| - 1], s[|s| - 1];
      assert s == front + [last];
      InsertSorts(front, k);
      if !Precedes(last, k) {
        var rest := Insert(front, k);
        forall i | 0 <= i < |rest|
          ensures Precedes(rest[i], last)
        {
          assert rest[i] in multiset(front) + multiset{k};
          assert rest[i] == k || rest[i] in front;
        }
      }
    }
  }

  lemma {:induction false} SortIsOrdered(s: seq<RecipientHash>)
    ensures Sorted(SortAliases(s)) && multiset(SortAliases(s)) == multiset(s)
    ensures forall i, a, j, b :: 0 <= i < j < |SortAliases(s)| && SortAliases(s)[i] == a && SortAliases(s)[j] == b ==>
      a.keyVersion < b.keyVersion || (a.keyVersion == b.keyVersion && a.value <= b.value)
  {
    if s != [] {
      assert s == s[..|s| - 1] + [s[|s| - 1]];
      SortIsOrdered(s[..|s| - 1]);
      InsertSorts(SortAliases(s[..|s| - 1]), s[|s| - 1]);
    }
  }

  /** Sorts a copy and takes the locks one by one: the order in which it asks for them. */
  method LockRecipientAliases(hashes: seq<RecipientHash>) returns (asked: seq<RecipientHash>)
    ensures Sorted(asked) && multiset(asked) == multiset(hashes) && asked == SortAliases(hashes)
    ensures forall i, j :: 0 <= i < j < |asked| ==>
      asked[i].keyVersion < asked[j].keyVersion || (asked[i].keyVersion == asked[j].keyVersion && asked[i].value <= asked[j].value)
  {
    var ordered := SortAliases(hashes);
    SortIsOrdered(hashes);
    asked := [];
    for i := 0 to |ordered|
      invariant asked == ordered[..i]
    {
      asked := asked + [ordered[i]];
    }
    assert ordered[..|ordered|] == ordered;
  }

  // ----- transactions that run side by side -----

  datatype Tx = Tx(plan: seq<RecipientHash>, held: nat, finished: bool)

  type World = seq<Tx>

  datatype Step = Begin(aliases: seq<RecipientHash>) | Acquire(t: nat) | Finish(t: nat) | Abort(t: nat)

  predicate Holds(lock: LockOf, tx: Tx, l: int) {
    !tx.finished && exists i :: 0 <= i < tx.held && i < |tx.plan| && lock(tx.plan[i]) == l
  }

  /** The transaction has a lock left to take and nobody else holds it. */
  predicate MayAcquire(lock: LockOf, w: World, t: nat) {
    && t < |w| && !w[t].finished && w[t].held < |w[t].plan|
    && forall u :: 0 <= u < |w| && u != t ==> !Holds(lock, w[u], lock(w[t].plan[w[t].held]))
  }

  predicate MayFinish(w: World, t: nat) {
    t < |w| && !w[t].finished && w[t].held == |w[t].plan|
  }

  predicate Enabled(lock: LockOf, w: World, step: Step) {
    match step
    case Begin(aliases) => true
    case Acquire(t) => MayAcquire(lock, w, t)
    case Finish(t) => MayFinish(w, t)
    case Abort(t) => t < |w| && !w[t].finished
  }

  function Apply(lock: LockOf, w: World, step: Step): World
    requires Enabled(lock, w, step)
  {
    match step
    case Begin(aliases) => w + [Tx(SortAliases(aliases), 0, false)]
    case Acquire(t) => w[t := w[t].(held := w[t].held + 1)]
    case Finish(t) => w[t := w[t].(finished := true)]
    case Abort(t) => w[t := w[t].(finished := true)]
  }

  ghost predicate IsRun(lock: LockOf, run: seq<World>, steps: seq<Step>) {
    |run| == |steps| + 1
    && forall i :: 0 <= i < |steps| ==> Enabled(lock, run[i], steps[i]) && run[i + 1] == Apply(lock, run[i], steps[i])
  }

  /** The lists that transactions may lock: in the service, the aliases of each mailbox under the
      keyring of the moment. */
  type Lists = iset<seq<RecipientHash>>

  ghost predicate UsesOnly(steps: seq<Step>, lists: Lists) {
    forall i :: 0 <= i < |steps| && steps[i].Begin? ==> steps[i].aliases in lists
  }

  ghost predicate IsPlan(lists: Lists, plan: seq<RecipientHash>) {
    exists aliases :: aliases in lists && plan == SortAliases(aliases)
  }

  ghost predicate Apart(lock: LockOf, w: World) {
    forall t, u, l :: 0 <= t < u < |w| && Holds(lock, w[t], l) ==> !Holds(lock, w[u], l)
  }

  ghost predicate Valid(lock: LockOf, lists: Lists, w: World) {
    && (forall t :: 0 <= t < |w| ==> IsPlan(lists, w[t].plan) && Sorted(w[t].plan) && w[t].held <= |w[t].plan|)
    && Apart(lock, w)
  }

  lemma AcquireKeepsValid(lock: LockOf, lists: Lists, w: World, t: nat)
    requires Valid(lock, lists, w) && MayAcquire(lock, w, t)
    ensures Valid(lock, lists, Apply(lock, w, Acquire(t)))
  {
    var w' := Apply(lock, w, Acquire(t));
    var taken := lock(w[t].plan[w[t].held]);
    forall l | Holds(lock, w'[t], l) && l != taken
      ensures Holds(lock, w[t], l)
    {
      var i :| 0 <= i < w'[t].held && i < |w'[t].plan| && lock(w'[t].plan[i]) == l;
      assert lock(w[t].plan[i]) == l;
    }
  }

  lemma StepKeepsValid(lock: LockOf, lists: Lists, w: World, step: Step)
    requires Valid(lock, lists, w) && Enabled(lock, w, step) && (step.Begin? ==> step.aliases in lists)
    ensures Valid(lock, lists, Apply(lock, w, step))
  {
    match step {
      case Begin(aliases) => SortIsOrdered(aliases);
      case Acquire(t) => AcquireKeepsValid(lock, lists, w, t);
      case Finish(t) =>
      case Abort(t) =>
    }
  }

  /** Locks exclude each other and every transaction asks in order, in every reachable state. */
  lemma {:induction false} RunsStayValid(lock: LockOf, lists: Lists, run: seq<World>, steps: seq<Step>, i: nat)
    requires IsRun(lock, run, steps) && UsesOnly(steps, lists) && run[0] == [] && i < |run|
    ensures Valid(lock, lists, run[i])
  {
    if i > 0 {
      RunsStayValid(lock, lists, run, steps, i - 1);
      StepKeepsValid(lock, lists, run[i - 1], steps[i - 1]);
    }
  }

  predicate Waits(lock: LockOf, w: World, t: nat) {
    t < |w| && !w[t].finished && !MayAcquire(lock, w, t) && !MayFinish(w, t)
  }

  /** Every transaction that has not ended waits for another. */
  ghost predicate Deadlocked(lock: LockOf, w: World) {
    && (exists t :: 0 <= t < |w| && !w[t].finished)
    && (forall t :: 0 <= t < |w| && !w[t].finished ==> Waits(lock, w, t))
  }

  /** No run over the lists ends in a deadlock. */
  ghost predicate DeadlockFree(lock: LockOf, lists: Lists) {
    forall run, steps :: IsRun(lock, run, steps) && UsesOnly(steps, lists) && run[0] == [] ==> !Deadlocked(lock, run[|steps|])
  }

  // ----- which sets of lists can deadlock -----

  function Next(w: World, t: nat): RecipientHash
    requires t < |w| && w[t].held < |w[t].plan|
  {
    w[t].plan[w[t].held]
  }

  predicate Unfinished(w: World) {
    forall t :: 0 <= t < |w| ==> !w[t].finished && w[t].held < |w[t].plan|
  }

  function After(w: World, t: nat): nat {
    if t + 1 == |w| then 0 else t + 1
  }

  /** The entry after t, in a circle, holds the lock that t asks for next. */
  predicate Blocked(lock: LockOf, w: World, t: nat)
    requires Unfinished(w) && t < |w|
  {
    Holds(lock, w[After(w, t)], lock(Next(w, t)))
  }

  /** A circle of proper prefixes of lists: their locks are apart, and the next lock of each is among
      the locks of the one after it. */
  ghost predicate IsCircle(lock: LockOf, lists: Lists, c: World) {
    && |c| >= 2
    && Unfinished(c)
    && Apart(lock, c)
    && (forall t :: 0 <= t < |c| ==> IsPlan(lists, c[t].plan))
    && (forall t :: 0 <= t < |c| ==> Blocked(lock, c, t))
  }

  ghost predicate Circular(lock: LockOf, lists: Lists) {
    exists c :: IsCircle(lock, lists, c)
  }

  ghost predicate Reaches(lock: LockOf, lists: Lists, w: World) {
    exists run, steps :: IsRun(lock, run, steps) && UsesOnly(steps, lists) && run[0] == [] && run[|steps|] == w
  }

  lemma ReachesNext(lock: LockOf, lists: Lists, w: World, step: Step)
    requires Reaches(lock, lists, w) && Enabled(lock, w, step) && (step.Begin? ==> step.aliases in lists)
    ensures Reaches(lock, lists, Apply(lock, w, step))
  {
    var run, steps :| IsRun(lock, run, steps) && UsesOnly(steps, lists) && run[0] == [] && run[|steps|] == w;
    hide Enabled, Apply;
    var run', steps' := run + [Apply(lock, w, step)], steps + [step];
    assert IsRun(lock, run', steps') && UsesOnly(steps', lists) && run'[0] == [];
    assert run'[|steps'|] == Apply(lock, w, step);
  }

  /** Beside the first k entries of a circle, the entry k can take its locks one by one. */
  lemma {:induction false} ReachesPrefix(lock: LockOf, lists: Lists, c: World, k: nat, h: nat)
    requires IsCircle(lock, lists, c) && k < |c| && h <= c[k].held && Reaches(lock, lists, c[..k])
    ensures Reaches(lock, lists, c[..k] + [c[k].(held := h)])
  {
    if h == 0 {
      var aliases :| aliases in lists && c[k].plan == SortAliases(aliases);
      ReachesNext(lock, lists, c[..k], Begin(aliases));
    } else {
      ReachesPrefix(lock, lists, c, k, h - 1);
      var w := c[..k] + [c[k].(held := h - 1)];
      var l := lock(Next(w, k));
      assert Holds(lock, c[k], l) by {
        assert lock(c[k].plan[h - 1]) == l;
      }
      assert forall u :: 0 <= u < k ==> !Holds(lock, w[u], l);
      ReachesNext(lock, lists, w, Acquire(k));
      assert w[k := w[k].(held := h)] == c[..k] + [c[k].(held := h)];
    }
  }

  lemma {:induction false} ReachesCircle(lock: LockOf, lists: Lists, c: World, k: nat)
    requires IsCircle(lock, lists, c) && k <= |c|
    ensures Reaches(lock, lists, c[..k])
  {
    if k == 0 {
      var run: seq<World>, steps: seq<Step> := [[]], [];
      assert IsRun(lock, run, steps) && UsesOnly(steps, lists) && run[0] == [] && run[|steps|] == c[..0];
    } else {
      ReachesCircle(lock, lists, c, k - 1);
      ReachesPrefix(lock, lists, c, k - 1, c[k - 1].held);
      assert c[..k - 1] + [c[k - 1].(held := c[k - 1].held)] == c[..k];
    }
  }

  lemma BlockedWaits(lock: LockOf, c: World, t: nat)
    requires Unfinished(c) && |c| >= 2 && t < |c| && Blocked(lock, c, t)
    ensures Waits(lock, c, t)
  {
    assert After(c, t) != t;
    hide Holds;
  }

  /** The transactions of a circle can come to hold exactly its prefixes, and then all wait. */
  lemma CircleDeadlocks(lock: LockOf, lists: Lists, c: World)
    requires IsCircle(lock, lists, c)
    ensures !DeadlockFree(lock, lists)
  {
    ReachesCircle(lock, lists, c, |c|);
    assert c[..|c|] == c;
    var run, steps :| IsRun(lock, run, steps) && UsesOnly(steps, lists) && run[0] == [] && run[|steps|] == c;
    assert Deadlocked(lock, c) by {
      hide Waits, Blocked, Apart, IsPlan;
      assert !c[0].finished;
      forall t | 0 <= t < |c|
        ensures Waits(lock, c, t)
      {
        BlockedWaits(lock, c, t);
      }
    }
    hide Deadlocked, IsRun, UsesOnly, IsCircle;
  }

  /** Waiting transactions of a world, each asking for a lock of the next. */
  ghost predicate IsChase(lock: LockOf, w: World, path: seq<nat>) {
    && path != []
    && (forall i :: 0 <= i < |path| ==> path[i] < |w| && !w[path[i]].finished && w[path[i]].held < |w[path[i]].plan|)
    && (forall i, j :: 0 <= i < j < |path| ==> path[i] != path[j])
    && (forall i :: 0 <= i < |path| - 1 ==> Holds(lock, w[path[i + 1]], lock(Next(w, path[i]))))
  }

  function Along(w: World, path: seq<nat>): World
    requires forall i :: 0 <= i < |path| ==> path[i] < |w|
  {
    seq(|path|, i requires 0 <= i < |path| => w[path[i]])
  }

  lemma ApartAlong(lock: LockOf, w: World, path: seq<nat>)
    requires Apart(lock, w) && IsChase(lock, w, path)
    ensures Apart(lock, Along(w, path))
  {
    hide Holds;
    var c := Along(w, path);
    forall t, u, l | 0 <= t < u < |c| && Holds(lock, c[t], l)
      ensures !Holds(lock, c[u], l)
    {
      assert path[t] < path[u] || path[u] < path[t];
    }
  }

  lemma ClosedChase(lock: LockOf, lists: Lists, w: World, path: seq<nat>)
    requires Valid(lock, lists, w) && IsChase(lock, w, path) && |path| >= 2
    requires Holds(lock, w[path[0]], lock(Next(w, path[|path| - 1])))
    ensures IsCircle(lock, lists, Along(w, path))
  {
    ApartAlong(lock, w, path);
    hide Holds, Apart, IsPlan, Sorted;
    var c := Along(w, path);
    forall t | 0 <= t < |c|
      ensures Blocked(lock, c, t)
    {
      assert Next(c, t) == Next(w, path[t]);
    }
  }

  /** What a waiting transaction asks for is held by another, which waits as well. */
  lemma Blocker(lock: LockOf, lists: Lists, w: World, t: nat) returns (u: nat)
    requires Valid(lock, lists, w) && Deadlocked(lock, w) && t < |w| && !w[t].finished && w[t].held < |w[t].plan|
    ensures u < |w| && u != t && Holds(lock, w[u], lock(Next(w, t))) && !w[u].finished && w[u].held < |w[u].plan|
  {
    hide Apart, IsPlan, Sorted;
    assert Waits(lock, w, t);
    u :| 0 <= u < |w| && u != t && Holds(lock, w[u], lock(w[t].plan[w[t].held]));
    assert !w[u].finished;
    hide Holds, MayAcquire;
    assert Waits(lock, w, u);
  }

  function Unvisited(w: World, path: seq<nat>): set<nat> {
    set t: nat | t < |w| && t !in path
  }

  lemma UnvisitedShrinks(w: World, path: seq<nat>, u: nat)
    requires u < |w| && u !in path
    ensures Unvisited(w, path + [u]) < Unvisited(w, path)
  {
    assert u in Unvisited(w, path) && u in path + [u];
  }

  lemma ChaseGrows(lock: LockOf, w: World, path: seq<nat>, u: nat)
    requires IsChase(lock, w, path) && u !in path
    requires u < |w| && Holds(lock, w[u], lock(Next(w, path[|path| - 1]))) && w[u].held < |w[u].plan|
    ensures IsChase(lock, w, path + [u])
  {
    assert !w[u].finished;
    hide Holds;
  }

  /** From waiting to waiting, the chase comes back to where it has been. */
  lemma {:induction false} ChaseCloses(lock: LockOf, lists: Lists, w: World, path: seq<nat>)
    requires Valid(lock, lists, w) && Deadlocked(lock, w) && IsChase(lock, w, path)
    ensures Circular(lock, lists)
    decreases Unvisited(w, path)
  {
    hide Holds, Valid, IsCircle, Deadlocked, Unvisited;
    var u := Blocker(lock, lists, w, path[|path| - 1]);
    if i: nat :| i < |path| && path[i] == u {
      ClosedChase(lock, lists, w, path[i..]);
    } else {
      ChaseGrows(lock, w, path, u);
      UnvisitedShrinks(w, path, u);
      ChaseCloses(lock, lists, w, path + [u]);
    }
  }

  lemma DeadlockHasCircle(lock: LockOf, lists: Lists, w: World)
    requires Valid(lock, lists, w) && Deadlocked(lock, w)
    ensures Circular(lock, lists)
  {
    hide MayAcquire, Holds, Apart, IsPlan, Sorted, Circular;
    var t: nat :| t < |w| && !w[t].finished;
    assert Waits(lock, w, t);
    ChaseCloses(lock, lists, w, [t]);
  }

  /** The exact condition, for every lock function and every set of lists: no run over the lists
      deadlocks if and only if there is no circle of prefixes of them. */
  lemma DeadlockCondition(lock: LockOf, lists: Lists)
    ensures DeadlockFree(lock, lists) <==> !Circular(lock, lists)
  {
    if c :| IsCircle(lock, lists, c) {
      CircleDeadlocks(lock, lists, c);
    } else {
      forall run, steps | IsRun(lock, run, steps) && UsesOnly(steps, lists) && run[0] == []
        ensures !Deadlocked(lock, run[|steps|])
      {
        RunsStayValid(lock, lists, run, steps, |steps|);
        if Deadlocked(lock, run[|steps|]) {
          DeadlockHasCircle(lock, lists, run[|steps|]);
        }
      }
    }
  }

  // ----- lists of a keyring -----

  /** A keyring has one key per version. */
  predicate OnePerVersion(s: seq<RecipientHash>) {
    forall i, j :: 0 <= i < j < |s| ==> s[i].keyVersion != s[j].keyVersion
  }

  /** Every list that a keyring could give over some aliases. */
  ghost function KeyringLists(used: set<RecipientHash>): Lists {
    iset s: seq<RecipientHash> | OnePerVersion(s) && forall k :: k in s ==> k in used
  }

  predicate Ascending(s: seq<RecipientHash>) {
    forall i, j :: 0 <= i < j < |s| ==> s[i].keyVersion < s[j].keyVersion
  }

  lemma {:induction false} InsertAscends(s: seq<RecipientHash>, k: RecipientHash)
    requires Ascending(s) && forall x :: x in s ==> x.keyVersion != k.keyVersion
    ensures Ascending(Insert(s, k))
  {
    if s != [] && !Precedes(s[|s| - 1], k) {
      var front, last := s[..|s| - 1], s[|s| - 1];
      var rest := Insert(front, k);
      InsertAscends(front, k);
      InsertSorts(front, k);
      forall i | 0 <= i < |rest|
        ensures rest[i].keyVersion < last.keyVersion
      {
        assert rest[i] in multiset(front) + multiset{k};
        assert rest[i] == k || rest[i] in front;
      }
    }
  }

  lemma {:induction false} SortAscends(s: seq<RecipientHash>)
    requires OnePerVersion(s)
    ensures Ascending(SortAliases(s))
  {
    if s != [] {
      var front := s[..|s| - 1];
      SortAscends(front);
      SortIsOrdered(front);
      forall x | x in SortAliases(front)
        ensures x.keyVersion != s[|s| - 1].keyVersion
      {
        assert x in multiset(front);
      }
      InsertAscends(SortAliases(front), s[|s| - 1]);
    }
  }

  lemma KeyringPlans(used: set<RecipientHash>, plan: seq<RecipientHash>)
    requires IsPlan(KeyringLists(used), plan)
    ensures Ascending(plan) && forall k :: k in plan ==> k in used
  {
    var s :| s in KeyringLists(used) && plan == SortAliases(s);
    SortIsOrdered(s);
    SortAscends(s);
    forall k | k in plan
      ensures k in used
    {
      assert k in multiset(s);
    }
  }

  /** The key versions rise from p to q and from r to s, the locks the other way round. */
  predicate Crossed(lock: LockOf, p: RecipientHash, q: RecipientHash, r: RecipientHash, s: RecipientHash) {
    p.keyVersion < q.keyVersion && r.keyVersion < s.keyVersion && lock(p) == lock(s) && lock(q) == lock(r)
  }

  /** Wherever two locks are crossed, they are one lock. */
  predicate Untangled(lock: LockOf, used: set<RecipientHash>) {
    forall p, q, r, s :: p in used && q in used && r in used && s in used && Crossed(lock, p, q, r, s) ==> lock(p) == lock(q)
  }

  lemma DistinctLocksAreUntangled(lock: LockOf, used: set<RecipientHash>)
    requires forall a, b :: a in used && b in used && lock(a) == lock(b) ==> a == b
    ensures Untangled(lock, used)
  {
    forall p, q, r, s | p in used && q in used && r in used && s in used
      ensures !Crossed(lock, p, q, r, s)
    {
      assert lock(p) == lock(s) ==> p == s;
      assert lock(q) == lock(r) ==> q == r;
    }
  }

  /** Some entry asks for the greatest key version. */
  lemma {:induction false} LastAsked(w: World, n: nat) returns (t: nat)
    requires Unfinished(w) && 0 < n <= |w|
    ensures t < n && forall u :: 0 <= u < n ==> Next(w, u).keyVersion <= Next(w, t).keyVersion
  {
    if n == 1 {
      return 0;
    }
    t := LastAsked(w, n - 1);
    if Next(w, t).keyVersion < Next(w, n - 1).keyVersion {
      t := n - 1;
    }
  }

  /** The alias through which the blocking entry holds the lock comes before its own next one. */
  lemma HeldAlias(lock: LockOf, used: set<RecipientHash>, c: World, t: nat) returns (k: RecipientHash)
    requires IsCircle(lock, KeyringLists(used), c) && t < |c|
    ensures var u := After(c, t);
      k in used && Next(c, u) in used && lock(k) == lock(Next(c, t)) && k.keyVersion < Next(c, u).keyVersion
  {
    var u := After(c, t);
    assert Blocked(lock, c, t);
    KeyringPlans(used, c[u].plan);
    hide IsPlan, KeyringLists, Apart;
    var i :| 0 <= i < c[u].held && i < |c[u].plan| && lock(c[u].plan[i]) == lock(Next(c, t));
    k := c[u].plan[i];
  }

  lemma NextIsNotHeld(lock: LockOf, lists: Lists, c: World, u: nat)
    requires IsCircle(lock, lists, c) && u < |c|
    ensures !Holds(lock, c[u], lock(Next(c, u)))
  {
    hide Holds, IsPlan;
    assert Blocked(lock, c, u);
    assert u < After(c, u) || After(c, u) < u;
  }

  /** Around the last alias asked for, the locks of a circle are crossed: whoever holds its lock waits
      for another lock. */
  lemma CircleIsCrossed(lock: LockOf, used: set<RecipientHash>, c: World)
    returns (p: RecipientHash, q: RecipientHash, r: RecipientHash, s: RecipientHash)
    requires IsCircle(lock, KeyringLists(used), c)
    ensures p in used && q in used && r in used && s in used && Crossed(lock, p, q, r, s) && lock(p) != lock(q)
  {
    var t := LastAsked(c, |c|);
    var u := After(c, t);
    p := HeldAlias(lock, used, c, t);
    q := Next(c, u);
    r := HeldAlias(lock, used, c, u);
    s := Next(c, t);
    KeyringPlans(used, c[t].plan);
    assert s in c[t].plan;
    assert Blocked(lock, c, t);
    NextIsNotHeld(lock, KeyringLists(used), c, u);
  }

  lemma SortOfTwo(a: RecipientHash, b: RecipientHash)
    requires Precedes(a, b)
    ensures SortAliases([a, b]) == [a, b]
  {
    assert [a, b][..1] == [a] && [a][..0] == [];
    assert SortAliases([a]) == Insert([], a);
  }

  lemma PairIsPlan(used: set<RecipientHash>, a: RecipientHash, b: RecipientHash)
    requires a in used && b in used && a.keyVersion < b.keyVersion
    ensures IsPlan(KeyringLists(used), [a, b])
  {
    SortOfTwo(a, b);
    assert [a, b] in KeyringLists(used);
  }

  /** Two mailboxes with two aliases each, whose locks are crossed, lock each other out. */
  lemma TangleIsCircle(lock: LockOf, used: set<RecipientHash>, p: RecipientHash, q: RecipientHash, r: RecipientHash, s: RecipientHash)
    requires p in used && q in used && r in used && s in used
    requires Crossed(lock, p, q, r, s) && lock(p) != lock(q)
    ensures IsCircle(lock, KeyringLists(used), [Tx([p, q], 1, false), Tx([r, s], 1, false)])
  {
    var c := [Tx([p, q], 1, false), Tx([r, s], 1, false)];
    PairIsPlan(used, p, q);
    PairIsPlan(used, r, s);
    hide IsPlan, KeyringLists;
    assert c[0].plan[0] == p && Holds(lock, c[0], lock(p));
    assert c[1].plan[0] == r && Holds(lock, c[1], lock(r));
    assert Blocked(lock, c, 0) && Blocked(lock, c, 1);
  }

  /** With all lists that a keyring could give over the aliases in use, the condition is about pairs. */
  lemma KeyringCondition(lock: LockOf, used: set<RecipientHash>)
    ensures DeadlockFree(lock, KeyringLists(used)) <==> Untangled(lock, used)
  {
    DeadlockCondition(lock, KeyringLists(used));
    hide DeadlockFree, IsCircle, KeyringLists;
    if c :| IsCircle(lock, KeyringLists(used), c) {
      var p, q, r, s := CircleIsCrossed(lock, used, c);
    } else if !Untangled(lock, used) {
      var p, q, r, s :| p in used && q in used && r in used && s in used && Crossed(lock, p, q, r, s) && lock(p) != lock(q);
      TangleIsCircle(lock, used, p, q, r, s);
    }
  }

  lemma CircleOfMore(lock: LockOf, lists: Lists, more: Lists)
    requires lists <= more && Circular(lock, lists)
    ensures Circular(lock, more)
  {
    hide Apart, Blocked, Unfinished;
    var c :| IsCircle(lock, lists, c);
    assert IsCircle(lock, more, c);
  }

  /** For fewer lists, such as those of the mailboxes that exist, untangled locks are enough. */
  lemma UntangledNeverDeadlocks(lock: LockOf, used: set<RecipientHash>, lists: Lists)
    requires Untangled(lock, used) && lists <= KeyringLists(used)
    ensures DeadlockFree(lock, lists) && !Circular(lock, lists)
  {
    hide Circular, KeyringLists, DeadlockFree;
    KeyringCondition(lock, used);
    DeadlockCondition(lock, KeyringLists(used));
    DeadlockCondition(lock, lists);
    if Circular(lock, lists) {
      CircleOfMore(lock, lists, KeyringLists(used));
    }
  }

  /** A keyring with a single key: whatever collides, nothing deadlocks. */
  lemma SingleKeyNeverDeadlocks(lock: LockOf, used: set<RecipientHash>, version: int)
    requires forall k :: k in used ==> k.keyVersion == version
    ensures DeadlockFree(lock, KeyringLists(used))
  {
    KeyringCondition(lock, used);
    hide DeadlockFree, KeyringLists;
  }

  // ----- progress -----

  /** The locks a transaction has left to take, and its end. */
  function RemainingOf(tx: Tx): nat {
    if tx.finished || tx.held > |tx.plan| then 0 else |tx.plan| - tx.held + 1
  }

  function Remaining(w: World): nat {
    if w == [] then 0 else Remaining(w[..|w| - 1]) + RemainingOf(w[|w| - 1])
  }

  lemma {:induction false} RemainingFalls(w: World, t: nat, tx: Tx)
    requires t < |w| && !w[t].finished && w[t].held <= |w[t].plan|
    requires tx == w[t].(finished := true) || tx == w[t].(held := w[t].held + 1)
    ensures Remaining(w[t := tx]) < Remaining(w)
  {
    var front, last := w[..|w| - 1], w[|w| - 1];
    if t < |w| - 1 {
      assert w[t := tx][..|w| - 1] == front[t := tx];
      RemainingFalls(front, t, tx);
    } else {
      assert w[t := tx][..|w| - 1] == front;
    }
  }

  /** Without new transactions, a run is no longer than the locks and ends that remain. */
  lemma {:induction false} RunsEnd(lock: LockOf, lists: Lists, run: seq<World>, steps: seq<Step>)
    requires IsRun(lock, run, steps) && Valid(lock, lists, run[0]) && forall i :: 0 <= i < |steps| ==> !steps[i].Begin?
    ensures |steps| + Remaining(run[|steps|]) <= Remaining(run[0]) && Valid(lock, lists, run[|steps|])
    decreases |steps|
  {
    if steps != [] {
      var n := |steps| - 1;
      RunsEnd(lock, lists, run[..n + 1], steps[..n]);
      StepKeepsValid(lock, lists, run[n], steps[n]);
      assert run[n + 1] == Apply(lock, run[n], steps[n]);
      var t := match steps[n] case Begin(_) => 0 case Acquire(t) => t case Finish(t) => t case Abort(t) => t;
      RemainingFalls(run[n], t, run[n + 1][t]);
    }
  }

  /** Without a circle, somebody can always go on. */
  lemma SomeoneMoves(lock: LockOf, lists: Lists, w: World) returns (t: nat)
    requires !Circular(lock, lists) && Valid(lock, lists, w) && exists u :: 0 <= u < |w| && !w[u].finished
    ensures MayAcquire(lock, w, t) || MayFinish(w, t)
  {
    hide MayAcquire, Valid, Circular;
    if Deadlocked(lock, w) {
      DeadlockHasCircle(lock, lists, w);
    }
    t :| t < |w| && !w[t].finished && !Waits(lock, w, t);
  }

  /** So every transaction gets all its locks: where no step is possible, everyone has ended. */
  lemma EveryoneEnds(lock: LockOf, lists: Lists, w: World)
    requires !Circular(lock, lists) && Valid(lock, lists, w)
    requires forall t: nat :: !MayAcquire(lock, w, t) && !MayFinish(w, t)
    ensures forall t :: 0 <= t < |w| ==> w[t].finished
  {
    if exists t :: 0 <= t < |w| && !w[t].finished {
      var t := SomeoneMoves(lock, lists, w);
    }
  }
}
