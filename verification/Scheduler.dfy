// The discrete-event scheduler.  Actions run while the queue is being drained
// and schedule further events; ties are broken by insertion sequence.
module Schedulers {
  import opened Bytes

  // `order` is the insertion sequence number.
  datatype Event<A> = Event(at: int, order: nat, action: A)

  datatype Request<A> = Request(when: int, action: A)

  // What an action leaves behind: the machine's state, and the events it
  // scheduled, in order.
  datatype Outcome<S, A> = Outcome(machine: S, requests: seq<Request<A>>)

  // What an action does when it runs, given the machine and every event that
  // has run since the clock was last restored, itself the last.
  type Effect<!S, !A> = (S, seq<Event<A>>) -> Outcome<S, A>

  // The queue, the next sequence number, the virtual clock, the events that
  // have run and those that were cleared away since the clock was last
  // restored, the runs before that, and the machine the actions work on.
  datatype Clock<S, A> = Clock(heap: seq<Event<A>>, next: nat, now: int, log: seq<Event<A>>, dropped: seq<Event<A>>,
                               earlier: seq<seq<Event<A>>>, machine: S)

  predicate Before<A>(a: Event<A>, b: Event<A>) {
    a.at < b.at || (a.at == b.at && a.order < b.order)
  }

  function Insert<A>(heap: seq<Event<A>>, e: Event<A>): seq<Event<A>> {
    if heap == [] || Before(e, heap[0]) then [e] + heap else [heap[0]] + Insert(heap[1..], e)
  }

  // An event asked for in the past happens now.
  function Schedule<S, A>(c: Clock<S, A>, r: Request<A>): Clock<S, A> {
    var e := Event(Max(r.when, c.now), c.next, r.action);
    c.(heap := Insert(c.heap, e), next := c.next + 1)
  }

  function ScheduleAll<S, A>(c: Clock<S, A>, requests: seq<Request<A>>): Clock<S, A> {
    if requests == [] then c
    else Schedule(ScheduleAll(c, requests[..|requests| - 1]), requests[|requests| - 1])
  }

  // The first event leaves the queue and the clock stands at its time.
  function Taken<S, A>(c: Clock<S, A>, machine: S): Clock<S, A>
    requires c.heap != []
  {
    c.(heap := c.heap[1..], now := c.heap[0].at, log := c.log + [c.heap[0]], machine := machine)
  }

  function Dispatch<S, A>(c: Clock<S, A>, effect: Effect<S, A>): Clock<S, A>
    requires c.heap != []
  {
    var e := c.heap[0];
    var left := effect(c.machine, c.log + [e]);
    ScheduleAll(Taken(c, left.machine), left.requests)
  }

  predicate Due<S, A>(c: Clock<S, A>, until: int) {
    c.heap != [] && c.heap[0].at <= until
  }

  // Draining need not end: an action may schedule itself at the same instant
  // for ever.  `steps` bounds how far a run is followed.
  function Drain<S, A>(c: Clock<S, A>, effect: Effect<S, A>, until: int, steps: nat): Clock<S, A>
    decreases steps
  {
    if steps == 0 || !Due(c, until) then c
    else Drain(Dispatch(c, effect), effect, until, steps - 1)
  }

  function Settle<S, A>(c: Clock<S, A>, until: int): Clock<S, A> {
    c.(now := Max(c.now, until))
  }

  // ---- the invariant ----------------------------------------------------------

  ghost predicate Ordered<A>(events: seq<Event<A>>) {
    forall i, j | 0 <= i < j < |events| :: Before(events[i], events[j])
  }

  ghost function Known<S, A>(c: Clock<S, A>): seq<Event<A>> {
    c.log + c.heap + c.dropped
  }

  // Everything that ran, then everything pending, is one strictly increasing
  // list in (time, insertion sequence); nothing pending lies in the past, and
  // every event asked for ran, is pending or was cleared, and only one of them.
  ghost predicate Good<S, A>(c: Clock<S, A>) {
    && Ordered(c.log + c.heap)
    && (forall i | 0 <= i < |c.log| :: c.log[i].at <= c.now)
    && (forall i | 0 <= i < |c.heap| :: c.now <= c.heap[i].at)
    && (forall i | 0 <= i < |Known(c)| :: Known(c)[i].order < c.next)
    && Distinct(Known(c))
    && forall n: nat | n < c.next :: Occurs(Known(c), n)
  }

  ghost predicate Occurs<A>(events: seq<Event<A>>, n: nat) {
    exists i | 0 <= i < |events| :: events[i].order == n
  }

  ghost predicate Distinct<A>(events: seq<Event<A>>) {
    forall i, j | 0 <= i < j < |events| :: events[i].order != events[j].order
  }

  lemma {:induction false} InsertPlaces<A>(heap: seq<Event<A>>, e: Event<A>) returns (k: nat)
    requires Ordered(heap) && forall i | 0 <= i < |heap| :: heap[i].order < e.order
    ensures k <= |heap| && Insert(heap, e) == heap[..k] + [e] + heap[k..]
    ensures Ordered(Insert(heap, e))
    ensures forall i | 0 <= i < k :: heap[i].at <= e.at
    ensures forall i | k <= i < |heap| :: e.at < heap[i].at
  {
    if heap == [] || Before(e, heap[0]) {
      k := 0;
    } else {
      var j := InsertPlaces(heap[1..], e);
      k := j + 1;
      assert heap[..k] == [heap[0]] + heap[1..][..j];
      assert heap[k..] == heap[1..][j..];
    }
  }

  lemma PendingOrdered<S, A>(c: Clock<S, A>)
    requires Good(c)
    ensures Ordered(c.heap)
    ensures forall i | 0 <= i < |c.heap| :: c.heap[i].order < c.next
  {
    var all := c.log + c.heap;
    forall i, j | 0 <= i < j < |c.heap|
      ensures Before(c.heap[i], c.heap[j])
    {
      assert c.heap[i] == all[|c.log| + i] && c.heap[j] == all[|c.log| + j];
    }
    forall i | 0 <= i < |c.heap|
      ensures c.heap[i].order < c.next
    {
      assert c.heap[i] == Known(c)[|c.log| + i];
    }
  }

  lemma ScheduleKeeps<S, A>(c: Clock<S, A>, r: Request<A>)
    requires Good(c)
    ensures Good(Schedule(c, r))
  {
    var e := Event(Max(r.when, c.now), c.next, r.action);
    PendingOrdered(c);
    var k := InsertPlaces(c.heap, e);
    var all, known, cut := c.log + c.heap, Known(c), |c.log| + k;
    assert c.log + Insert(c.heap, e) == all[..cut] + [e] + all[cut..];
    assert Known(Schedule(c, r)) == known[..cut] + [e] + known[cut..];
    assert forall i | 0 <= i < |all| :: all[i] == known[i];
    SpliceOrdered(all, cut, e);
    SpliceDistinct(known, cut, e);
    SpliceOccurs(known, cut, e);
  }

  lemma SpliceOccurs<A>(all: seq<Event<A>>, cut: nat, e: Event<A>)
    requires cut <= |all| && forall n: nat | n < e.order :: Occurs(all, n)
    ensures forall n: nat | n <= e.order :: Occurs(all[..cut] + [e] + all[cut..], n)
  {
    var wide := all[..cut] + [e] + all[cut..];
    forall n: nat | n <= e.order
      ensures Occurs(wide, n)
    {
      if n == e.order {
        assert wide[cut].order == n;
      } else {
        assert Occurs(all, n);
        var i :| 0 <= i < |all| && all[i].order == n;
        assert wide[if i < cut then i else i + 1] == all[i];
      }
    }
  }

  lemma SpliceOrdered<A>(all: seq<Event<A>>, cut: nat, e: Event<A>)
    requires Ordered(all) && cut <= |all|
    requires forall i | 0 <= i < |all| :: all[i].order < e.order
    requires forall i | 0 <= i < cut :: all[i].at <= e.at
    requires forall i | cut <= i < |all| :: e.at < all[i].at
    ensures Ordered(all[..cut] + [e] + all[cut..])
  {
  }

  lemma SpliceDistinct<A>(all: seq<Event<A>>, cut: nat, e: Event<A>)
    requires Distinct(all) && cut <= |all| && forall i | 0 <= i < |all| :: all[i].order < e.order
    ensures Distinct(all[..cut] + [e] + all[cut..])
    ensures forall i | 0 <= i <= |all| :: (all[..cut] + [e] + all[cut..])[i].order <= e.order
  {
  }

  // Nothing was cleared or restored on the way.
  ghost predicate Settled<S, A>(c: Clock<S, A>, d: Clock<S, A>) {
    d.dropped == c.dropped && d.earlier == c.earlier
  }

  lemma {:induction false} ScheduleAllKeeps<S, A>(c: Clock<S, A>, requests: seq<Request<A>>)
    requires Good(c)
    ensures Good(ScheduleAll(c, requests))
    ensures ScheduleAll(c, requests).now == c.now && ScheduleAll(c, requests).log == c.log
    ensures ScheduleAll(c, requests).machine == c.machine && Settled(c, ScheduleAll(c, requests))
  {
    hide Good;
    if requests != [] {
      ScheduleAllKeeps(c, requests[..|requests| - 1]);
      ScheduleKeeps(ScheduleAll(c, requests[..|requests| - 1]), requests[|requests| - 1]);
    }
  }

  lemma DispatchKeeps<S, A>(c: Clock<S, A>, effect: Effect<S, A>)
    requires Good(c) && c.heap != []
    ensures Good(Dispatch(c, effect))
    ensures Dispatch(c, effect).log == c.log + [c.heap[0]]
    ensures Dispatch(c, effect).now == c.heap[0].at >= c.now && Settled(c, Dispatch(c, effect))
  {
    var e := c.heap[0];
    var left := effect(c.machine, c.log + [e]);
    var taken := Taken(c, left.machine);
    var all := c.log + c.heap;
    assert taken.log + taken.heap == all && Known(taken) == Known(c);
    forall i | 0 <= i < |c.heap|
      ensures c.heap[i] == all[|c.log| + i]
    {
    }
    assert Good(taken);
    hide Good;
    ScheduleAllKeeps(taken, left.requests);
  }

  // ---- runs -------------------------------------------------------------------

  // However long a drain is followed, the order, the clock and the accounts
  // stay right; the clock never goes back and nothing that ran is forgotten.
  lemma {:induction false} DrainKeeps<S, A>(c: Clock<S, A>, effect: Effect<S, A>, until: int, steps: nat)
    requires Good(c)
    ensures var r := Drain(c, effect, until, steps);
              && Good(r) && c.now <= r.now && c.log <= r.log && Settled(c, r)
              && (c.now <= until ==> r.now <= until)
    decreases steps
  {
    hide Good;
    if steps > 0 && Due(c, until) {
      DispatchKeeps(c, effect);
      DrainKeeps(Dispatch(c, effect), effect, until, steps - 1);
    }
  }

  ghost predicate Quiet<S, A>(c: Clock<S, A>, effect: Effect<S, A>, until: int, steps: nat) {
    !Due(Drain(c, effect, until, steps), until)
  }

  // When a run to `until` returns, every event due by then, including those
  // scheduled on the way, has run, and all that is pending is later.
  lemma RunComplete<S, A>(c: Clock<S, A>, effect: Effect<S, A>, until: int, steps: nat)
    requires Good(c) && Quiet(c, effect, until, steps)
    ensures var r := Settle(Drain(c, effect, until, steps), until);
              && Good(r) && r.now == Max(c.now, until) && c.log <= r.log && Settled(c, r)
              && (forall i | 0 <= i < |r.heap| :: until < r.heap[i].at)
              && (forall n: nat | n < r.next :: Occurs(r.log + r.heap + c.dropped, n))
  {
    DrainKeeps(c, effect, until, steps);
    var d := Drain(c, effect, until, steps);
    var r := Settle(d, until);
    var all := d.log + d.heap;
    forall i | 0 <= i < |d.heap|
      ensures until < d.heap[i].at
    {
      assert d.heap[0] == all[|d.log|] && d.heap[i] == all[|d.log| + i];
    }
    assert r.log + r.heap == all && Known(r) == Known(d);
  }

  // A run need not end: an action may schedule itself at the same instant for
  // ever.  It does when every action schedules only for later instants.
  ghost predicate OnlyLater<S(!new), A(!new)>(effect: Effect<S, A>) {
    forall machine: S, log: seq<Event<A>> | log != [] :: AllAfter(effect(machine, log).requests, log[|log| - 1].at)
  }

  ghost predicate AllAfter<A>(requests: seq<Request<A>>, at: int) {
    forall i | 0 <= i < |requests| :: requests[i].when > at
  }

  ghost predicate AllFrom<A>(heap: seq<Event<A>>, t: int) {
    forall i | 0 <= i < |heap| :: heap[i].at >= t
  }

  // How many events are pending at this instant.
  function CountAt<A>(heap: seq<Event<A>>, t: int): nat {
    if heap == [] then 0 else (if heap[0].at == t then 1 else 0) + CountAt(heap[1..], t)
  }

  lemma {:induction false} InsertCounts<A>(heap: seq<Event<A>>, e: Event<A>, t: int)
    requires AllFrom(heap, t) && e.at > t
    ensures CountAt(Insert(heap, e), t) == CountAt(heap, t) && AllFrom(Insert(heap, e), t)
  {
    if heap != [] && !Before(e, heap[0]) {
      InsertCounts(heap[1..], e, t);
    }
  }

  lemma {:induction false} ScheduleAllCounts<S, A>(c: Clock<S, A>, requests: seq<Request<A>>, t: int)
    requires AllFrom(c.heap, t) && AllAfter(requests, t)
    ensures CountAt(ScheduleAll(c, requests).heap, t) == CountAt(c.heap, t) && AllFrom(ScheduleAll(c, requests).heap, t)
  {
    if requests != [] {
      var n := |requests| - 1;
      ScheduleAllCounts(c, requests[..n], t);
      var before := ScheduleAll(c, requests[..n]);
      InsertCounts(before.heap, Event(Max(requests[n].when, before.now), before.next, requests[n].action), t);
    }
  }

  lemma {:induction false} DrainInParts<S, A>(c: Clock<S, A>, effect: Effect<S, A>, until: int, m: nat, n: nat)
    ensures Drain(c, effect, until, m + n) == Drain(Drain(c, effect, until, m), effect, until, n)
    decreases m
  {
    if m > 0 {
      if Due(c, until) {
        DrainInParts(Dispatch(c, effect), effect, until, m - 1, n);
      } else {
        assert Drain(c, effect, until, m) == c && Drain(c, effect, until, n) == c;
      }
    }
  }

  // One instant ends: each event that runs leaves one fewer pending there.
  lemma {:induction false} TickEnds<S(!new), A(!new)>(c: Clock<S, A>, effect: Effect<S, A>, until: int, t: int)
    returns (steps: nat)
    requires Good(c) && OnlyLater(effect) && AllFrom(c.heap, t) && t <= until
    ensures Good(Drain(c, effect, until, steps)) && AllFrom(Drain(c, effect, until, steps).heap, t + 1)
    decreases CountAt(c.heap, t)
  {
    if c.heap == [] || c.heap[0].at > t {
      steps := 0;
      PendingOrdered(c);
    } else {
      var left := effect(c.machine, c.log + [c.heap[0]]);
      DispatchKeeps(c, effect);
      ScheduleAllCounts(Taken(c, left.machine), left.requests, t);
      hide Good;
      var rest := TickEnds(Dispatch(c, effect), effect, until, t);
      steps := rest + 1;
    }
  }

  lemma {:induction false} TicksEnd<S(!new), A(!new)>(c: Clock<S, A>, effect: Effect<S, A>, until: int, t: int)
    returns (steps: nat)
    requires Good(c) && OnlyLater(effect) && AllFrom(c.heap, t)
    ensures Quiet(c, effect, until, steps)
    decreases until - t
  {
    if t > until {
      steps := 0;
    } else {
      var first := TickEnds(c, effect, until, t);
      var rest := TicksEnd(Drain(c, effect, until, first), effect, until, t + 1);
      DrainInParts(c, effect, until, first, rest);
      steps := first + rest;
    }
  }

  // If no action schedules at or before its own instant, every run ends.
  lemma LaterRunsEnd<S(!new), A(!new)>(c: Clock<S, A>, effect: Effect<S, A>, until: int)
    requires Good(c) && OnlyLater(effect)
    ensures exists steps: nat :: Quiet(c, effect, until, steps)
  {
    var steps := TicksEnd(c, effect, until, c.now);
  }

  // The queue is emptied; what was pending will not run.
  function Emptied<S, A>(c: Clock<S, A>): Clock<S, A> {
    c.(heap := [], dropped := c.dropped + c.heap)
  }

  // A checkpoint clock is only admitted with an empty queue.  Sequence numbers
  // start again, and the clock may go back.
  function Restored<S, A>(c: Clock<S, A>, clock: int): Clock<S, A> {
    if c.heap != [] then c
    else c.(next := 0, now := clock, log := [], dropped := [], earlier := c.earlier + [c.log])
  }

  // A whole history: requests from outside, changes to the machine, clearing
  // and restoring, interleaved with runs.
  datatype Op<S, A> =
    | At(request: Request<A>)
    | Until(until: int, steps: nat)
    | Outside(machine: S)
    | Clear
    | Restore(clock: int)

  function Perform<S, A>(c: Clock<S, A>, effect: Effect<S, A>, op: Op<S, A>): Clock<S, A> {
    match op
    case At(r) => Schedule(c, r)
    case Until(until, steps) => RunFor(c, effect, until, steps)
    case Outside(machine) => c.(machine := machine)
    case Clear => Emptied(c)
    case Restore(clock) => Restored(c, clock)
  }

  // A run followed for some number of events: the clock reaches `until` only
  // when nothing due is left.
  function RunFor<S, A>(c: Clock<S, A>, effect: Effect<S, A>, until: int, steps: nat): Clock<S, A> {
    var d := Drain(c, effect, until, steps);
    if Due(d, until) then d else Settle(d, until)
  }

  function History<S, A>(c: Clock<S, A>, effect: Effect<S, A>, ops: seq<Op<S, A>>): Clock<S, A> {
    if ops == [] then c else Perform(History(c, effect, ops[..|ops| - 1]), effect, ops[|ops| - 1])
  }

  const EPOCH: int := 0

  function Fresh<S, A>(machine: S): Clock<S, A> {
    Clock([], 0, EPOCH, [], [], [], machine)
  }

  lemma EmptiedKeeps<S, A>(c: Clock<S, A>)
    requires Good(c)
    ensures Good(Emptied(c)) && Emptied(c).log == c.log && Emptied(c).now == c.now
  {
    var d := Emptied(c);
    assert Known(d) == Known(c)[..|c.log|] + Known(c)[|c.log| + |c.heap|..] + Known(c)[|c.log|..|c.log| + |c.heap|];
    LogOrdered(c);
    assert d.log + d.heap == c.log;
    RotatedKnown(c);
  }

  // Clearing only moves the pending events behind those cleared before.
  lemma RotatedKnown<S, A>(c: Clock<S, A>)
    requires Good(c)
    ensures Distinct(Known(Emptied(c))) && forall i | 0 <= i < |Known(c)| :: Known(Emptied(c))[i].order < c.next
    ensures |Known(Emptied(c))| == |Known(c)| && forall n: nat | n < c.next :: Occurs(Known(Emptied(c)), n)
  {
    var was, is_, l, h, n := Known(c), Known(Emptied(c)), |c.log|, |c.heap|, |Known(c)|;
    assert forall i | 0 <= i < l :: is_[i] == was[i];
    assert forall i | l <= i < n - h :: is_[i] == was[i + h];
    assert forall i | n - h <= i < n :: is_[i] == was[l + (i - (n - h))];
    forall k: nat | k < c.next
      ensures Occurs(is_, k)
    {
      assert Occurs(was, k);
      var i :| 0 <= i < n && was[i].order == k;
      assert is_[if i < l then i else if i < l + h then i + (n - h) - l else i - h] == was[i];
    }
  }

  lemma LogOrdered<S, A>(c: Clock<S, A>)
    requires Good(c)
    ensures Ordered(c.log)
  {
    forall i, j | 0 <= i < j < |c.log|
      ensures Before(c.log[i], c.log[j])
    {
      assert c.log[i] == (c.log + c.heap)[i] && c.log[j] == (c.log + c.heap)[j];
    }
  }

  ghost predicate AllOrdered<A>(runs: seq<seq<Event<A>>>) {
    forall i | 0 <= i < |runs| :: Ordered(runs[i])
  }

  lemma PerformKeeps<S, A>(c: Clock<S, A>, effect: Effect<S, A>, op: Op<S, A>)
    requires Good(c) && AllOrdered(c.earlier)
    ensures Good(Perform(c, effect, op)) && AllOrdered(Perform(c, effect, op).earlier)
    ensures !op.Restore? ==> Perform(c, effect, op).now >= c.now && c.log <= Perform(c, effect, op).log
  {
    hide Ordered;
    match op {
      case At(r) => ScheduleKeeps(c, r);
      case Until(until, steps) =>
        DrainKeeps(c, effect, until, steps);
        if Quiet(c, effect, until, steps) {
          RunComplete(c, effect, until, steps);
        }
      case Outside(machine) => assert Known(c.(machine := machine)) == Known(c);
      case Clear => EmptiedKeeps(c);
      case Restore(clock) =>
        LogOrdered(c);
        assert Ordered(Restored(c, clock).log + Restored(c, clock).heap) by {
          if c.heap == [] {
            NothingOrdered<A>();
          }
        }
    }
  }

  lemma NothingOrdered<A>()
    ensures Ordered<A>([] + [])
  {
  }

  // Over every history from a fresh clock, in each stretch between restores
  // the dispatch log is strictly increasing in (time, insertion sequence), so
  // no event of a stretch runs twice.
  lemma {:induction false} HistoryOrdered<S, A>(machine: S, effect: Effect<S, A>, ops: seq<Op<S, A>>)
    ensures var h := History(Fresh(machine), effect, ops);
            Good(h) && Ordered(h.log) && AllOrdered(h.earlier)
  {
    hide Good;
    if ops == [] {
      FreshGood<S, A>(machine);
    } else {
      HistoryOrdered(machine, effect, ops[..|ops| - 1]);
      PerformKeeps(History(Fresh(machine), effect, ops[..|ops| - 1]), effect, ops[|ops| - 1]);
    }
    LogOrdered(History(Fresh(machine), effect, ops));
  }

  lemma FreshGood<S, A>(machine: S)
    ensures Good(Fresh<S, A>(machine))
  {
  }

  // ---- the scheduler itself ----------------------------------------------------

  class Scheduler<S, A> {
    const effect: Effect<S, A>
    var heap: seq<Event<A>>
    var seqNumber: nat
    var now: int
    // What has run, and the machine it ran on: what the actions act upon.
    var log: seq<Event<A>>
    var machine: S
    // What was cleared, and what ran before the clock was last restored.
    ghost var dropped: seq<Event<A>>
    ghost var earlier: seq<seq<Event<A>>>

    ghost function View(): Clock<S, A>
      reads this
    {
      Clock(heap, seqNumber, now, log, dropped, earlier, machine)
    }

    constructor (machine: S, effect: Effect<S, A>)
      ensures this.effect == effect && View() == Fresh(machine)
    {
      this.machine, this.effect, heap, seqNumber, now, log := machine, effect, [], 0, 0, [];
      dropped, earlier := [], [];
    }

    method At(when: int, action: A)
      modifies this
      ensures View() == Schedule(old(View()), Request(when, action))
    {
      var at := when;
      if when < now {
        at := now;
      }
      var e := Event(at, seqNumber, action);
      seqNumber := seqNumber + 1;
      // The queue is kept sorted, so sorting it again moves only the newcomer.
      var i := 0;
      while i < |heap| && !Before(e, heap[i])
        invariant i <= |heap| && heap == old(heap)
        invariant Insert(heap, e) == heap[..i] + Insert(heap[i..], e)
      {
        assert heap[i..][1..] == heap[i + 1..];
        i := i + 1;
      }
      assert heap[..i] + ([e] + heap[i..]) == heap[..i] + [e] + heap[i..];
      heap := heap[..i] + [e] + heap[i..];
    }

    // Run every event due at or before `until`, following the run for at most
    // `steps` events; the program has no such bound.
    method RunUntil(until: int, steps: nat) returns (ended: bool)
      modifies this
      ensures View() == RunFor(old(View()), effect, until, steps)
      ensures ended <==> Quiet(old(View()), effect, until, steps)
    {
      var left := steps;
      while left > 0 && heap != [] && heap[0].at <= until
        invariant Drain(View(), effect, until, left) == Drain(old(View()), effect, until, steps)
        decreases left
      {
        var e := heap[0];
        heap := heap[1..];
        now := e.at;
        log := log + [e];
        Act();
        left := left - 1;
      }
      if heap != [] && heap[0].at <= until {
        return false;
      }
      if now < until {
        now := until;
      }
      return true;
    }

    method Act()
      modifies this
      ensures var left := effect(old(machine), old(log));
              View() == ScheduleAll(old(View()).(machine := left.machine), left.requests)
    {
      var left := effect(machine, log);
      machine := left.machine;
      ghost var start := View();
      for i := 0 to |left.requests|
        invariant View() == ScheduleAll(start, left.requests[..i])
      {
        At(left.requests[i].when, left.requests[i].action);
        assert left.requests[..i + 1][..i] == left.requests[..i];
      }
      assert left.requests[..|left.requests|] == left.requests;
    }

    method Clear()
      modifies this
      ensures View() == Emptied(old(View()))
    {
      dropped := dropped + heap;
      heap := [];
    }

    // What ran before is behind the checkpoint and no longer acted upon.
    method RestoreClock(clock: int) returns (ok: bool)
      modifies this
      ensures ok <==> old(heap) == []
      ensures View() == Restored(old(View()), clock)
    {
      if heap != [] {
        return false;
      }
      earlier, log, dropped := earlier + [log], [], [];
      now, seqNumber := clock, 0;
      return true;
    }
  }
}
