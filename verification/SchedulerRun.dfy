// What a run of the scheduler is: every event that was asked for happens at
// its own time or now, whichever is later, with its own action; the machine is
// what the actions made of it, one after another; and nothing else is queued.
module SchedulerRuns {
  import opened Bytes
  import opened Schedulers

  // An event from outside joins the queue, and only it.
  lemma {:induction false} InsertAdds<A>(heap: seq<Event<A>>, e: Event<A>)
    ensures forall x :: x in Insert(heap, e) <==> x in heap || x == e
  {
    if heap != [] && !Before(e, heap[0]) {
      InsertAdds(heap[1..], e);
      assert heap == [heap[0]] + heap[1..];
    }
  }

  lemma AtAdds<S, A>(c: Clock<S, A>, r: Request<A>)
    ensures var d := Schedule(c, r);
            && d.now == c.now && d.log == c.log && d.machine == c.machine && d.next == c.next + 1
            && forall x :: x in d.heap
                           <==> x in c.heap || x == Event(if r.when < c.now then c.now else r.when, c.next, r.action)
  {
    InsertAdds(c.heap, Event(Max(r.when, c.now), c.next, r.action));
  }

  // The machine after the events of the log from `from` on, each run on what
  // the one before it left.
  ghost function MachineAfter<S, A>(start: S, log: seq<Event<A>>, from_: nat, effect: Effect<S, A>): S
    requires from_ <= |log|
    decreases |log|
  {
    if |log| == from_ then start
    else effect(MachineAfter(start, log[..|log| - 1], from_, effect), log).machine
  }

  // What those events asked for, in order, each with the instant of asking.
  datatype Ask<A> = Ask(asker: int, when: int, action: A)

  ghost function Asks<S, A>(start: S, log: seq<Event<A>>, from_: nat, effect: Effect<S, A>): seq<Ask<A>>
    requires from_ <= |log|
    decreases |log|
  {
    if |log| == from_ then []
    else
      var n := |log| - 1;
      var left := effect(MachineAfter(start, log[..n], from_, effect), log);
      Asks(start, log[..n], from_, effect) + Stamped(left.requests, log[n].at)
  }

  ghost function Stamped<A>(requests: seq<Request<A>>, asker: int): (r: seq<Ask<A>>)
    ensures |r| == |requests|
    ensures forall i | 0 <= i < |r| :: r[i] == Ask(asker, requests[i].when, requests[i].action)
  {
    seq(|requests|, i requires 0 <= i < |requests| => Ask(asker, requests[i].when, requests[i].action))
  }

  // The event the k-th asking puts in the queue.
  ghost function Queued<A>(asks: seq<Ask<A>>, first: nat, k: nat): Event<A>
    requires k < |asks|
  {
    Event(if asks[k].when < asks[k].asker then asks[k].asker else asks[k].when, first + k, asks[k].action)
  }

  ghost predicate QueuedBy<A>(x: Event<A>, asks: seq<Ask<A>>, first: nat) {
    exists k: nat | k < |asks| :: x == Queued(asks, first, k)
  }

  lemma QueuedMore<A>(a: seq<Ask<A>>, b: seq<Ask<A>>, first: nat, x: Event<A>)
    ensures QueuedBy(x, a + b, first) <==> QueuedBy(x, a, first) || QueuedBy(x, b, first + |a|)
  {
    var all := a + b;
    if QueuedBy(x, a, first) {
      var k: nat :| k < |a| && x == Queued(a, first, k);
      assert x == Queued(all, first, k);
    }
    if QueuedBy(x, b, first + |a|) {
      var k: nat :| k < |b| && x == Queued(b, first + |a|, k);
      assert x == Queued(all, first, |a| + k);
    }
    if QueuedBy(x, all, first) {
      var k: nat :| k < |all| && x == Queued(all, first, k);
      if k < |a| {
        assert x == Queued(a, first, k);
      } else {
        assert x == Queued(b, first + |a|, k - |a|);
      }
    }
  }

  lemma {:induction false} AllAdded<S, A>(c: Clock<S, A>, requests: seq<Request<A>>)
    ensures var d := ScheduleAll(c, requests);
            && d.now == c.now && d.log == c.log && d.machine == c.machine && d.next == c.next + |requests|
            && forall x :: x in d.heap <==> x in c.heap || QueuedBy(x, Stamped(requests, c.now), c.next)
  {
    hide QueuedBy;
    if requests == [] {
      forall x: Event<A>
        ensures !QueuedBy(x, Stamped(requests, c.now), c.next)
      {
        NoneQueued(x, Stamped(requests, c.now), c.next);
      }
    } else {
      var n := |requests| - 1;
      AllAdded(c, requests[..n]);
      var before := ScheduleAll(c, requests[..n]);
      AtAdds(before, requests[n]);
      var some, last := Stamped(requests[..n], c.now), [Ask(c.now, requests[n].when, requests[n].action)];
      assert Stamped(requests, c.now) == some + last;
      forall x: Event<A>
        ensures QueuedBy(x, Stamped(requests, c.now), c.next)
           <==> QueuedBy(x, some, c.next)
                || x == Event(if requests[n].when < c.now then c.now else requests[n].when, c.next + n,
                              requests[n].action)
      {
        QueuedMore(some, last, c.next, x);
        OneQueued(x, last, c.next + n);
      }
    }
  }

  lemma NoneQueued<A>(x: Event<A>, asks: seq<Ask<A>>, first: nat)
    requires asks == []
    ensures !QueuedBy(x, asks, first)
  {
  }

  lemma OneQueued<A>(x: Event<A>, asks: seq<Ask<A>>, first: nat)
    requires |asks| == 1
    ensures QueuedBy(x, asks, first) <==> x == Queued(asks, first, 0)
  {
  }

  // The log and the queue of d are those of c and what was asked for since.
  ghost predicate Accounts<S, A(!new)>(c: Clock<S, A>, d: Clock<S, A>, effect: Effect<S, A>) {
    && c.log <= d.log && d.machine == MachineAfter(c.machine, d.log, |c.log|, effect)
    && var asks := Asks(c.machine, d.log, |c.log|, effect);
    && d.next == c.next + |asks|
    && (forall x :: x in d.log || x in d.heap <==> x in c.log || x in c.heap || QueuedBy(x, asks, c.next))
    && d.now == if |d.log| == |c.log| then c.now else d.log[|d.log| - 1].at
  }

  lemma DispatchAccounts<S, A(!new)>(c: Clock<S, A>, effect: Effect<S, A>)
    requires c.heap != []
    ensures Accounts(c, Dispatch(c, effect), effect)
  {
    hide QueuedBy, Insert, ScheduleAll, MachineAfter, Asks, Stamped;
    var e := c.heap[0];
    var log := c.log + [e];
    var left := effect(c.machine, log);
    var taken := Taken(c, left.machine);
    AllAdded(taken, left.requests);
    OneFollowed(c.machine, c.log, e, effect);
    var d, asks := Dispatch(c, effect), Stamped(left.requests, e.at);
    assert d == ScheduleAll(taken, left.requests) && taken.heap == c.heap[1..] && taken.now == e.at;
    assert d.log == log && d.log[|d.log| - 1] == e;
    forall x: Event<A>
      ensures x in d.log || x in d.heap <==> x in c.log || x in c.heap || QueuedBy(x, asks, c.next)
    {
      FirstMoves(c, x);
      assert x in d.heap <==> x in taken.heap || QueuedBy(x, asks, c.next);
    }
  }

  lemma FirstMoves<S, A>(c: Clock<S, A>, x: Event<A>)
    requires c.heap != []
    ensures x in c.log + [c.heap[0]] || x in c.heap[1..] <==> x in c.log || x in c.heap
  {
    assert c.heap == [c.heap[0]] + c.heap[1..];
  }

  lemma OneFollowed<S, A>(start: S, log: seq<Event<A>>, e: Event<A>, effect: Effect<S, A>)
    ensures MachineAfter(start, log + [e], |log|, effect) == effect(start, log + [e]).machine
    ensures Asks(start, log + [e], |log|, effect) == Stamped(effect(start, log + [e]).requests, e.at)
  {
    var all := log + [e];
    assert all[..|log|] == log && all[|log|] == e;
    assert MachineAfter(start, log, |log|, effect) == start && Asks(start, log, |log|, effect) == [];
    var s := Stamped(effect(start, all).requests, e.at);
    assert [] + s == s;
  }

  // Following the log from further on changes nothing.
  lemma {:induction false} FollowedOn<S, A>(start: S, log: seq<Event<A>>, from_: nat, mid: nat, effect: Effect<S, A>)
    requires from_ <= mid <= |log|
    ensures MachineAfter(start, log, from_, effect)
         == MachineAfter(MachineAfter(start, log[..mid], from_, effect), log, mid, effect)
    ensures Asks(start, log, from_, effect)
         == Asks(start, log[..mid], from_, effect)
            + Asks(MachineAfter(start, log[..mid], from_, effect), log, mid, effect)
    decreases |log|
  {
    var m := MachineAfter(start, log[..mid], from_, effect);
    if |log| == mid {
      assert log[..mid] == log;
      assert Asks(start, log, from_, effect) + [] == Asks(start, log, from_, effect);
    } else {
      var n := |log| - 1;
      assert log[..n][..mid] == log[..mid];
      FollowedOn(start, log[..n], from_, mid, effect);
      var left := effect(MachineAfter(start, log[..n], from_, effect), log);
      var a, b, last := Asks(start, log[..mid], from_, effect), Asks(m, log[..n], mid, effect),
                        Stamped(left.requests, log[n].at);
      assert a + b + last == a + (b + last);
    }
  }

  lemma AccountsChain<S, A(!new)>(c: Clock<S, A>, d: Clock<S, A>, e: Clock<S, A>, effect: Effect<S, A>)
    requires Accounts(c, d, effect) && Accounts(d, e, effect)
    ensures Accounts(c, e, effect)
  {
    hide QueuedBy, MachineAfter, Asks;
    FollowedOn(c.machine, e.log, |c.log|, |d.log|, effect);
    assert e.log[..|d.log|] == d.log;
    var a, b := Asks(c.machine, d.log, |c.log|, effect), Asks(d.machine, e.log, |d.log|, effect);
    forall x: Event<A>
      ensures QueuedBy(x, a + b, c.next) <==> QueuedBy(x, a, c.next) || QueuedBy(x, b, d.next)
    {
      QueuedMore(a, b, c.next, x);
    }
  }

  lemma NothingAccounts<S, A(!new)>(c: Clock<S, A>, effect: Effect<S, A>)
    ensures Accounts(c, c, effect)
  {
  }

  // However long a run is followed: the machine is the fold of the actions
  // that ran, every event that ran or is pending was there before or was asked
  // for by one of them, at its own time or the asker's, whichever is later,
  // numbered in the order of asking, and the clock stands at the last event.
  lemma {:induction false} DrainAccounts<S, A(!new)>(c: Clock<S, A>, effect: Effect<S, A>, until: int, steps: nat)
    ensures Accounts(c, Drain(c, effect, until, steps), effect)
    decreases steps
  {
    hide Accounts, Dispatch;
    if steps > 0 && Due(c, until) {
      DispatchAccounts(c, effect);
      DrainAccounts(Dispatch(c, effect), effect, until, steps - 1);
      AccountsChain(c, Dispatch(c, effect), Drain(Dispatch(c, effect), effect, until, steps - 1), effect);
    } else {
      NothingAccounts(c, effect);
    }
  }

  // The same of a whole run, and where it leaves the clock: at `until`, or
  // past it if an event there was later, and at the last event while the run
  // has not ended.
  lemma RunAccounts<S, A(!new)>(c: Clock<S, A>, effect: Effect<S, A>, until: int, steps: nat)
    ensures var d := RunFor(c, effect, until, steps);
            && c.log <= d.log && d.machine == MachineAfter(c.machine, d.log, |c.log|, effect)
            && (forall x :: x in d.log || x in d.heap
                            <==> x in c.log || x in c.heap
                                 || QueuedBy(x, Asks(c.machine, d.log, |c.log|, effect), c.next))
            && (Quiet(c, effect, until, steps) && |d.log| == |c.log| ==>
                d.now == if c.now < until then until else c.now)
            && (Quiet(c, effect, until, steps) && |d.log| > |c.log| ==>
                  d.now == if d.log[|d.log| - 1].at < until then until else d.log[|d.log| - 1].at)
            && (!Quiet(c, effect, until, steps) && |d.log| > |c.log| ==> d.now == d.log[|d.log| - 1].at)
  {
    hide Drain, QueuedBy, MachineAfter, Asks;
    DrainAccounts(c, effect, until, steps);
  }
}
