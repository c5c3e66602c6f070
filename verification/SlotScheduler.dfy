/** The priority slot semaphore of the conversion worker
    (apps/conversion-worker/src/app/queue/queue-consumer.service.ts).

    A smaller `priority` number is a better class.  A waiter carries the ticket of the message
    that waits; tickets are numbered in arrival order. */
module SlotScheduler {
  const STARVATION_GRANT_PERIOD := 8

  datatype Waiter = Waiter(priority: int, ticket: nat)

  /** The order in which ordinary hand-overs serve: better class first, then arrival order. */
  predicate ServedBefore(a: Waiter, b: Waiter) {
    a.priority < b.priority || (a.priority == b.priority && a.ticket < b.ticket)
  }

  predicate InServiceOrder(ws: seq<Waiter>) {
    forall i, j :: 0 <= i < j < |ws| ==> ServedBefore(ws[i], ws[j])
  }

  // ----- the stable sort behind `waiters.sort` -----

  /** Inserts `w` behind every waiter of its own class or better. */
  function InsertStable(ws: seq<Waiter>, w: Waiter): seq<Waiter> {
    if ws == [] then [w]
    else if ws[|ws| - 1].priority <= w.priority then ws + [w]
    else InsertStable(ws[..|ws| - 1], w) + [ws[|ws| - 1]]
  }

  /** A stable sort by priority alone, as the JavaScript sort with the comparator
      `a.priority - b.priority`. */
  function StableSort(ws: seq<Waiter>): seq<Waiter> {
    if ws == [] then [] else InsertStable(StableSort(ws[..|ws| - 1]), ws[|ws| - 1])
  }

  /** Inserting splices the waiter in at one place: behind everyone of its class or better. */
  lemma {:induction false} InsertSplices(ws: seq<Waiter>, w: Waiter) returns (k: nat)
    requires InServiceOrder(ws)
    ensures k <= |ws| && InsertStable(ws, w) == ws[..k] + [w] + ws[k..]
    ensures forall i :: 0 <= i < k ==> ws[i].priority <= w.priority
    ensures forall i :: k <= i < |ws| ==> w.priority < ws[i].priority
  {
    if ws == [] {
      return 0;
    }
    var front, last := ws[..|ws| - 1], ws[|ws| - 1];
    assert ws == front + [last];
    if last.priority <= w.priority {
      forall i | 0 <= i < |ws|
        ensures ws[i].priority <= w.priority
      {
        assert i == |ws| - 1 || ServedBefore(ws[i], last);
      }
      return |ws|;
    }
    k := InsertSplices(front, w);
    assert ws[k..] == front[k..] + [last] && ws[..k] == front[..k];
    assert InsertStable(ws, w) == (front[..k] + [w] + front[k..]) + [last];
  }

  lemma InsertKeepsServiceOrder(ws: seq<Waiter>, w: Waiter) returns (k: nat)
    requires InServiceOrder(ws)
    requires forall v :: v in ws ==> v.ticket < w.ticket
    ensures k <= |ws| && InsertStable(ws, w) == ws[..k] + [w] + ws[k..]
    ensures InServiceOrder(InsertStable(ws, w))
    ensures forall i :: k <= i < |ws| ==> w.priority < ws[i].priority
  {
    k := InsertSplices(ws, w);
    var queue := ws[..k] + [w] + ws[k..];
    forall i, j | 0 <= i < j < |queue|
      ensures ServedBefore(queue[i], queue[j])
    {
      if i == k {
        assert queue[j] == ws[j - 1];
      } else if j == k {
        assert queue[i] == ws[i] && ws[i] in ws;
      } else {
        var i', j' := if i < k then i else i - 1, if j < k then j else j - 1;
        assert queue[i] == ws[i'] && queue[j] == ws[j'];
      }
    }
  }

  /** An already sorted queue is left alone, so sorting after a push only moves the new waiter. */
  lemma {:induction false} SortOfSorted(ws: seq<Waiter>)
    requires InServiceOrder(ws)
    ensures StableSort(ws) == ws
  {
    if ws != [] {
      SortOfSorted(ws[..|ws| - 1]);
      assert ws == ws[..|ws| - 1] + [ws[|ws| - 1]];
      if |ws| > 1 {
        assert ServedBefore(ws[|ws| - 2], ws[|ws| - 1]);
      }
    }
  }

  lemma SortAfterPush(ws: seq<Waiter>, w: Waiter)
    requires InServiceOrder(ws)
    ensures StableSort(ws + [w]) == InsertStable(ws, w)
  {
    assert (ws + [w])[..|ws|] == ws;
    SortOfSorted(ws);
  }

  // ----- the scheduler state -----

  /** The three mutable fields of the consumer. */
  datatype Pool = Pool(active: int, waiters: seq<Waiter>, grants: nat)

  predicate StarvedTurn(grants: nat) {
    grants % STARVATION_GRANT_PERIOD == STARVATION_GRANT_PERIOD - 1
  }

  function Acquire(slots: nat, p: Pool, w: Waiter): Pool {
    if p.active < slots then p.(active := p.active + 1)
    else p.(waiters := StableSort(p.waiters + [w]))
  }

  /** The waiter that the next release hands its slot to, when there is one. */
  function NextWaiter(p: Pool): (w: Waiter)
    requires p.waiters != []
  {
    if StarvedTurn(p.grants) then p.waiters[|p.waiters| - 1] else p.waiters[0]
  }

  function Release(p: Pool): Pool {
    if p.waiters == [] then p.(active := p.active - 1)
    else if StarvedTurn(p.grants) then p.(waiters := p.waiters[..|p.waiters| - 1], grants := p.grants + 1)
    else p.(waiters := p.waiters[1..], grants := p.grants + 1)
  }

  /** The consumer object itself. */
  class SlotPool {
    const slots: nat
    var active: int
    var waiters: seq<Waiter>
    var grants: nat

    constructor (slots: nat)
      ensures this.slots == slots && State() == Pool(0, [], 0)
    {
      this.slots := slots;
      active, waiters, grants := 0, [], 0;
    }

    function State(): Pool
      reads this
    {
      Pool(active, waiters, grants)
    }

    /** Answers whether the permit is granted at once; otherwise the caller waits. */
    method AcquireSlot(w: Waiter) returns (granted: bool)
      modifies this
      ensures State() == Acquire(slots, old(State()), w)
      ensures granted <==> old(active) < slots
    {
      if active < slots {
        active := active + 1;
        return true;
      }
      waiters := waiters + [w];
      waiters := StableSort(waiters);
      return false;
    }

    /** Hands the slot to a waiter and answers its ticket, or frees the slot. */
    method ReleaseSlot() returns (handedTo: seq<Waiter>)
      modifies this
      ensures State() == Release(old(State()))
      ensures handedTo == if old(waiters) == [] then [] else [NextWaiter(old(State()))]
    {
      handedTo := [];
      var starvedTurn := grants % STARVATION_GRANT_PERIOD == STARVATION_GRANT_PERIOD - 1;
      if waiters == [] {
        active := active - 1;
      } else {
        if starvedTurn {
          handedTo := [waiters[|waiters| - 1]];
          waiters := waiters[..|waiters| - 1];
        } else {
          handedTo := [waiters[0]];
          waiters := waiters[1..];
        }
        grants := grants + 1;
      }
    }
  }

  // ----- runs -----

  /** A pool together with its history: who holds a permit, how many messages arrived and the
      tickets granted so far, in order. */
  datatype World = World(pool: Pool, held: set<nat>, arrivals: nat, granted: seq<nat>)

  datatype Step = Arrive(priority: int) | Finish(ticket: nat)

  const START := World(Pool(0, [], 0), {}, 0, [])

  /** A message arrives and asks for a slot, or a holder finishes and releases its slot. */
  predicate Enabled(w: World, step: Step) {
    step.Finish? ==> step.ticket in w.held
  }

  function Apply(slots: nat, w: World, step: Step): World
    requires Enabled(w, step)
  {
    match step
    case Arrive(priority) =>
      var waiter := Waiter(priority, w.arrivals);
      var pool := Acquire(slots, w.pool, waiter);
      if w.pool.active < slots
      then World(pool, w.held + {waiter.ticket}, w.arrivals + 1, w.granted + [waiter.ticket])
      else World(pool, w.held, w.arrivals + 1, w.granted)
    case Finish(ticket) =>
      var pool := Release(w.pool);
      if w.pool.waiters == []
      then World(pool, w.held - {ticket}, w.arrivals, w.granted)
      else var next := NextWaiter(w.pool).ticket;
        World(pool, w.held - {ticket} + {next}, w.arrivals, w.granted + [next])
  }

  ghost predicate IsRun(slots: nat, run: seq<World>, steps: seq<Step>) {
    |run| == |steps| + 1
    && forall i :: 0 <= i < |steps| ==> Enabled(run[i], steps[i]) && run[i + 1] == Apply(slots, run[i], steps[i])
  }

  predicate Waiting(w: World, ticket: nat) {
    exists i :: 0 <= i < |w.pool.waiters| && w.pool.waiters[i].ticket == ticket
  }

  predicate DistinctTickets(ws: seq<Waiter>) {
    forall i, j :: 0 <= i < j < |ws| ==> ws[i].ticket != ws[j].ticket
  }

  predicate NoDuplicates(s: seq<nat>) {
    forall i, j :: 0 <= i < j < |s| ==> s[i] != s[j]
  }

  /** What every reachable state satisfies: the permits held are counted exactly and never exceed
      the slots, nobody waits while a slot is free, the queue is in service order, and every
      message that ever arrived either waits or was granted exactly once. */
  ghost predicate Valid(slots: nat, w: World) {
    && w.pool.active == |w.held| <= slots
    && (w.pool.waiters != [] ==> w.pool.active == slots)
    && InServiceOrder(w.pool.waiters)
    && DistinctTickets(w.pool.waiters)
    && (forall v :: v in w.pool.waiters ==> v.ticket < w.arrivals && v.ticket !in w.granted && v.ticket !in w.held)
    && (forall t :: t in w.held ==> t in w.granted)
    && (forall t :: t in w.granted ==> t < w.arrivals)
    && NoDuplicates(w.granted)
    && (forall t: nat :: t < w.arrivals ==> t in w.granted || Waiting(w, t))
  }

  lemma InsertKeepsTickets(ws: seq<Waiter>, w: Waiter, k: nat)
    requires DistinctTickets(ws) && forall v :: v in ws ==> v.ticket < w.ticket
    requires k <= |ws|
    ensures var queue := ws[..k] + [w] + ws[k..];
      && DistinctTickets(queue)
      && (forall v :: v in queue ==> v in ws || v == w)
      && (forall v :: v in ws || v == w ==> v in queue)
  {
    var queue := ws[..k] + [w] + ws[k..];
    forall i, j | 0 <= i < j < |queue|
      ensures queue[i].ticket != queue[j].ticket
    {
      var i', j' := if i < k then i else i - 1, if j < k then j else j - 1;
      assert i == k || (queue[i] == ws[i'] && ws[i'] in ws);
      assert j == k || (queue[j] == ws[j'] && ws[j'] in ws);
    }
    forall v | v in ws
      ensures v in queue
    {
      var i :| 0 <= i < |ws| && ws[i] == v;
      assert queue[if i < k then i else i + 1] == v;
    }
    assert queue[k] == w;
  }

  lemma JoiningKeepsValid(slots: nat, w: World, queue: seq<Waiter>, waiter: Waiter)
    requires Valid(slots, w) && w.pool.active == slots && waiter.ticket == w.arrivals
    requires InServiceOrder(queue) && DistinctTickets(queue)
    requires forall v :: v in queue <==> v in w.pool.waiters || v == waiter
    ensures Valid(slots, World(w.pool.(waiters := queue), w.held, w.arrivals + 1, w.granted))
  {
    var next := World(w.pool.(waiters := queue), w.held, w.arrivals + 1, w.granted);
    forall t: nat | t < next.arrivals
      ensures t in next.granted || Waiting(next, t)
    {
      if t == w.arrivals {
        assert waiter in queue;
      } else if t !in w.granted {
        var i :| 0 <= i < |w.pool.waiters| && w.pool.waiters[i].ticket == t;
        assert w.pool.waiters[i] in queue;
      }
    }
  }

  /** A full pool queues the arrival at its place. */
  lemma ArrivalQueues(slots: nat, w: World, waiter: Waiter) returns (k: nat)
    requires Valid(slots, w) && w.pool.active == slots && waiter.ticket == w.arrivals
    ensures k <= |w.pool.waiters|
    ensures Apply(slots, w, Arrive(waiter.priority)).pool.waiters == w.pool.waiters[..k] + [waiter] + w.pool.waiters[k..]
    ensures InServiceOrder(Apply(slots, w, Arrive(waiter.priority)).pool.waiters)
    ensures forall i :: k <= i < |w.pool.waiters| ==> waiter.priority < w.pool.waiters[i].priority
  {
    SortAfterPush(w.pool.waiters, waiter);
    k := InsertKeepsServiceOrder(w.pool.waiters, waiter);
  }

  lemma AdmissionKeepsValid(slots: nat, w: World, waiter: Waiter)
    requires Valid(slots, w) && w.pool.active < slots && waiter.ticket == w.arrivals
    ensures Valid(slots, Apply(slots, w, Arrive(waiter.priority)))
  {
    assert w.arrivals !in w.granted && w.arrivals !in w.held;
    assert w.pool.waiters == [];
  }

  lemma ArriveKeepsValid(slots: nat, w: World, priority: int)
    requires Valid(slots, w)
    ensures Valid(slots, Apply(slots, w, Arrive(priority)))
  {
    hide InServiceOrder, DistinctTickets, StableSort, InsertStable, Waiting;
    var waiter := Waiter(priority, w.arrivals);
    if w.pool.active == slots {
      var k := ArrivalQueues(slots, w, waiter);
      InsertKeepsTickets(w.pool.waiters, waiter, k);
      JoiningKeepsValid(slots, w, w.pool.waiters[..k] + [waiter] + w.pool.waiters[k..], waiter);
    } else {
      AdmissionKeepsValid(slots, w, waiter);
    }
  }

  /** A hand-over takes its waiter out of the queue and leaves the others in order. */
  lemma HandOverQueue(p: Pool)
    requires p.waiters != [] && InServiceOrder(p.waiters) && DistinctTickets(p.waiters)
    ensures InServiceOrder(Release(p).waiters) && DistinctTickets(Release(p).waiters)
    ensures NextWaiter(p) in p.waiters
    ensures forall v :: v in Release(p).waiters <==> v in p.waiters && v.ticket != NextWaiter(p).ticket
  {
    var ws := p.waiters;
    if StarvedTurn(p.grants) {
      assert ws == ws[..|ws| - 1] + [ws[|ws| - 1]];
    } else {
      assert ws == [ws[0]] + ws[1..];
    }
  }

  lemma GrantKeepsValid(slots: nat, w: World, ticket: nat, pool: Pool, chosen: Waiter)
    requires Valid(slots, w) && ticket in w.held && chosen in w.pool.waiters
    requires pool.active == w.pool.active && InServiceOrder(pool.waiters) && DistinctTickets(pool.waiters)
    requires forall v :: v in pool.waiters <==> v in w.pool.waiters && v.ticket != chosen.ticket
    ensures Valid(slots, World(pool, w.held - {ticket} + {chosen.ticket}, w.arrivals, w.granted + [chosen.ticket]))
  {
    hide InServiceOrder, DistinctTickets;
    var next := World(pool, w.held - {ticket} + {chosen.ticket}, w.arrivals, w.granted + [chosen.ticket]);
    assert |next.held| == |w.held|;
    forall t: nat | t < next.arrivals
      ensures t in next.granted || Waiting(next, t)
    {
      if t !in w.granted && t != chosen.ticket {
        var i :| 0 <= i < |w.pool.waiters| && w.pool.waiters[i].ticket == t;
        assert w.pool.waiters[i] in pool.waiters;
      }
    }
  }

  lemma FinishKeepsValid(slots: nat, w: World, ticket: nat)
    requires Valid(slots, w) && ticket in w.held
    ensures Valid(slots, Apply(slots, w, Finish(ticket)))
  {
    if w.pool.waiters != [] {
      HandOverQueue(w.pool);
      GrantKeepsValid(slots, w, ticket, Release(w.pool), NextWaiter(w.pool));
    } else {
      assert |w.held - {ticket}| == |w.held| - 1;
    }
  }

  lemma StepKeepsValid(slots: nat, w: World, step: Step)
    requires Valid(slots, w) && Enabled(w, step)
    ensures Valid(slots, Apply(slots, w, step))
  {
    match step
    case Arrive(priority) => ArriveKeepsValid(slots, w, priority);
    case Finish(ticket) => FinishKeepsValid(slots, w, ticket);
  }

  /** Safety over every run that starts from the idle consumer. */
  lemma {:induction false} RunsStayValid(slots: nat, run: seq<World>, steps: seq<Step>, i: nat)
    requires IsRun(slots, run, steps) && run[0] == START && i < |run|
    ensures Valid(slots, run[i])
  {
    if i > 0 {
      RunsStayValid(slots, run, steps, i - 1);
      StepKeepsValid(slots, run[i - 1], steps[i - 1]);
    }
  }

  /** A release with waiters keeps every slot busy and hands its slot to the best class in
      arrival order, except on a starved turn, which takes the newest waiter of the worst class. */
  lemma HandOverChoice(slots: nat, w: World, ticket: nat, v: Waiter)
    requires Valid(slots, w) && ticket in w.held && v in w.pool.waiters
    ensures var next := NextWaiter(w.pool);
      && Apply(slots, w, Finish(ticket)).granted == w.granted + [next.ticket]
      && Apply(slots, w, Finish(ticket)).pool.active == slots
      && (v == next
          || if w.pool.grants % 8 == 7 then v.priority < next.priority || (v.priority == next.priority && v.ticket < next.ticket)
             else next.priority < v.priority || (next.priority == v.priority && next.ticket < v.ticket))
  {
    var i :| 0 <= i < |w.pool.waiters| && w.pool.waiters[i] == v;
  }

  predicate At(w: World, v: Waiter, place: int) {
    0 <= place < |w.pool.waiters| && w.pool.waiters[place] == v
  }

  /** One step moves an ungranted waiter as follows: an arrival of its class or worse leaves its
      place alone, an ordinary hand-over advances it, a starved hand-over does not. */
  lemma StepMovesWaiter(slots: nat, w: World, step: Step, v: Waiter, place: nat)
    requires Valid(slots, w) && Enabled(w, step) && At(w, v, place)
    requires step.Arrive? ==> step.priority >= v.priority
    ensures var w' := Apply(slots, w, step);
      v.ticket !in w'.granted ==>
        && At(w', v, place - (w'.pool.grants - w.pool.grants) + (w'.pool.grants / 8 - w.pool.grants / 8))
        && (At(w, v, |w.pool.waiters| - 1) ==> w'.pool.grants / 8 == w.pool.grants / 8)
  {
    if step.Arrive? {
      if w.pool.active == slots {
        var waiter := Waiter(step.priority, w.arrivals);
        var k := ArrivalQueues(slots, w, waiter);
        assert place < k;
      }
    } else {
      var w' := Apply(slots, w, step);
      if v.ticket !in w'.granted {
        assert NextWaiter(w.pool).ticket == w'.granted[|w'.granted| - 1];
        assert NextWaiter(w.pool) != v;
      }
    }
  }

  lemma GrantedGrows(slots: nat, w: World, step: Step, ticket: nat)
    requires Enabled(w, step)
    ensures ticket in w.granted ==> ticket in Apply(slots, w, step).granted
  {
  }

  /** Bounded bypass: while a waiter is not overtaken by better arrivals, the hand-overs that pass
      it by, less the starved turns among them, never exceed the places it has advanced. */
  lemma {:induction false} BypassBudget(slots: nat, run: seq<World>, steps: seq<Step>, v: Waiter, place: nat)
    returns (last: nat)
    requires IsRun(slots, run, steps) && Valid(slots, run[0]) && At(run[0], v, place)
    requires forall i :: 0 <= i < |steps| && steps[i].Arrive? ==> steps[i].priority >= v.priority
    requires v.ticket !in run[|steps|].granted
    ensures Valid(slots, run[|steps|]) && At(run[|steps|], v, last)
    ensures var from, to := run[0].pool.grants, run[|steps|].pool.grants;
      last == place - (to - from) + (to / 8 - from / 8)
    decreases |steps|
  {
    hide Apply, Valid, Enabled;
    if steps == [] {
      return place;
    }
    var n := |steps| - 1;
    assert Enabled(run[n], steps[n]) && run[n + 1] == Apply(slots, run[n], steps[n]);
    GrantedGrows(slots, run[n], steps[n], v.ticket);
    last := BypassBudget(slots, run[..n + 1], steps[..n], v, place);
    StepMovesWaiter(slots, run[n], steps[n], v, last);
    var mid: int, to: int := run[n].pool.grants, run[n + 1].pool.grants;
    assert At(run[n + 1], v, last - (to - mid) + (to / 8 - mid / 8));
    last := last - (to - mid) + (to / 8 - mid / 8);
    StepKeepsValid(slots, run[n], steps[n]);
  }

  /** So a waiter at `place` is granted within (8 * place + 14) / 7 hand-overs unless a better
      class keeps arriving: seven of every eight hand-overs advance it. */
  lemma BoundedWait(slots: nat, run: seq<World>, steps: seq<Step>, v: Waiter, place: nat)
    requires IsRun(slots, run, steps) && Valid(slots, run[0]) && At(run[0], v, place)
    requires forall i :: 0 <= i < |steps| && steps[i].Arrive? ==> steps[i].priority >= v.priority
    requires v.ticket !in run[|steps|].granted
    ensures 7 * (run[|steps|].pool.grants - run[0].pool.grants) <= 8 * place + 7
  {
    var last := BypassBudget(slots, run, steps, v, place);
  }

  /** The anti-starvation guarantee: a waiter that stays last, whatever classes arrive in front of
      it, sees at most seven hand-overs go to others. */
  lemma {:induction false} TailBypassBound(slots: nat, run: seq<World>, steps: seq<Step>, v: Waiter)
    requires IsRun(slots, run, steps) && Valid(slots, run[0])
    requires forall i :: 0 <= i <= |steps| ==> At(run[i], v, |run[i].pool.waiters| - 1)
    ensures Valid(slots, run[|steps|])
    ensures run[|steps|].pool.grants / 8 == run[0].pool.grants / 8
    ensures run[|steps|].pool.grants - run[0].pool.grants <= 7
    decreases |steps|
  {
    if steps != [] {
      var n := |steps| - 1;
      TailBypassBound(slots, run[..n + 1], steps[..n], v);
      assert v in run[n + 1].pool.waiters;
      match steps[n] {
        case Arrive(priority) => ArriveKeepsValid(slots, run[n], priority);
        case Finish(ticket) =>
          FinishKeepsValid(slots, run[n], ticket);
          assert v.ticket !in run[n + 1].granted;
          StepMovesWaiter(slots, run[n], steps[n], v, |run[n].pool.waiters| - 1);
      }
    }
  }
}
