/** The upload watcher: a bounded pool of workers and a bounded queue of
    archives that wait for one. */
module UploadWatch {
  import opened Common

  /** `queue` is oldest first. The last four fields are history: every arrival
      and whether it was omitted, the archives handed to a worker, those lost
      because no worker could be forked. */
  datatype Pool = Pool(
    max: nat, capacity: nat, children: nat, queue: seq<string>,
    arrived: seq<Arrival>, started: seq<string>, lost: seq<string>)

  datatype Arrival = Arrival(name: string, omitted: bool)

  /** `forks` tells whether a fork made in the step succeeds. */
  datatype Step = Arrive(name: string, forks: bool) | Reap(forks: bool)

  function NewPool(max: nat, capacity: nat): Pool { Pool(max, capacity, 0, [], [], [], []) }

  function Launched(p: Pool, name: string, forks: bool): Pool {
    if forks then p.(children := p.children + 1, started := p.started + [name])
    else p.(lost := p.lost + [name])
  }

  function Arrived(p: Pool, name: string, forks: bool): Pool {
    if p.children < p.max then Launched(p.(arrived := p.arrived + [Arrival(name, false)]), name, forks)
    else if |p.queue| >= p.capacity then p.(arrived := p.arrived + [Arrival(name, true)])
    else p.(arrived := p.arrived + [Arrival(name, false)], queue := p.queue + [name])
  }

  function Reaped(p: Pool, forks: bool): Pool
    requires p.children > 0
  {
    var left := p.(children := p.children - 1);
    if p.queue == [] then left else Launched(left.(queue := p.queue[1..]), p.queue[0], forks)
  }

  predicate Enabled(p: Pool, step: Step) { step.Reap? ==> p.children > 0 }

  function Apply(p: Pool, step: Step): Pool
    requires Enabled(p, step)
  {
    match step
    case Arrive(name, forks) => Arrived(p, name, forks)
    case Reap(forks) => Reaped(p, forks)
  }

  function Run(p: Pool, steps: seq<Step>): Option<Pool>
    decreases |steps|
  {
    if steps == [] then Some(p)
    else if Enabled(p, steps[0]) then Run(Apply(p, steps[0]), steps[1..])
    else None
  }

  // ---- Invariants --------------------------------------------------------------

  /** The arrivals not omitted, in order. */
  function Kept(arrived: seq<Arrival>): seq<string> {
    if arrived == [] then []
    else
      var last := arrived[|arrived| - 1];
      Kept(arrived[..|arrived| - 1]) + (if last.omitted then [] else [last.name])
  }

  ghost predicate Balanced(p: Pool) {
    Sums(multiset(Kept(p.arrived)), multiset(p.started), multiset(p.queue), multiset(p.lost))
  }

  /** Holds whatever forks do: each failure costs at most one archive and one
      busy worker. */
  ghost predicate Bounded(p: Pool) {
    && p.children <= p.max && |p.queue| <= p.capacity
    && Balanced(p)
    && (p.queue != [] ==> p.children + |p.lost| >= p.max)
  }

  predicate Busy(p: Pool) { p.queue != [] ==> p.children == p.max }

  lemma KeptAppended(arrived: seq<Arrival>, a: Arrival)
    ensures Kept(arrived + [a]) == Kept(arrived) + if a.omitted then [] else [a.name]
  {
    assert (arrived + [a])[..|arrived|] == arrived;
  }

  ghost predicate Sums(all: multiset<string>, started: multiset<string>, queue: multiset<string>,
      lost: multiset<string>) {
    all == started + queue + lost
  }

  lemma OneMore(all: multiset<string>, started: multiset<string>, queue: multiset<string>, lost: multiset<string>,
      x: multiset<string>)
    requires Sums(all, started, queue, lost)
    ensures Sums(all + x, started + x, queue, lost) && Sums(all + x, started, queue + x, lost)
    ensures Sums(all + x, started, queue, lost + x)
  {
  }

  lemma ArrivalBalanced(p: Pool, name: string, forks: bool)
    requires Balanced(p)
    ensures Balanced(Arrived(p, name, forks))
  {
    KeptAppended(p.arrived, Arrival(name, p.children >= p.max && |p.queue| >= p.capacity));
    OneMore(multiset(Kept(p.arrived)), multiset(p.started), multiset(p.queue), multiset(p.lost), multiset{name});
    assert Kept(p.arrived) + [] == Kept(p.arrived);
  }

  lemma ArrivalBounded(p: Pool, name: string, forks: bool)
    requires Bounded(p)
    ensures Bounded(Arrived(p, name, forks))
  {
    ArrivalBalanced(p, name, forks);
  }

  lemma ReapBounded(p: Pool, forks: bool)
    requires Bounded(p) && p.children > 0
    ensures Bounded(Reaped(p, forks))
  {
    if p.queue != [] {
      assert p.queue == [p.queue[0]] + p.queue[1..];
    }
  }

  lemma StepBounded(p: Pool, step: Step)
    requires Bounded(p) && Enabled(p, step)
    ensures Bounded(Apply(p, step))
    ensures Apply(p, step).max == p.max && Apply(p, step).capacity == p.capacity
  {
    match step
    case Arrive(name, forks) => ArrivalBounded(p, name, forks);
    case Reap(forks) => ReapBounded(p, forks);
  }

  lemma {:induction false} RunBounded(p: Pool, steps: seq<Step>)
    requires Bounded(p) && Run(p, steps).Some?
    ensures Bounded(Run(p, steps).value)
    ensures Run(p, steps).value.max == p.max && Run(p, steps).value.capacity == p.capacity
    decreases |steps|
  {
    if steps != [] {
      StepBounded(p, steps[0]);
      RunBounded(Apply(p, steps[0]), steps[1..]);
    }
  }

  // ---- Main results --------------------------------------------------------------

  /** Over every run: workers and queue stay within their bounds, and every
      arrival that was not omitted is exactly one of started, queued and lost. */
  lemma PoolConserves(max: nat, capacity: nat, steps: seq<Step>)
    requires Run(NewPool(max, capacity), steps).Some?
    ensures var p := Run(NewPool(max, capacity), steps).value;
      && p.children <= max && |p.queue| <= capacity
      && multiset(Kept(p.arrived)) == multiset(p.started) + multiset(p.queue) + multiset(p.lost)
      && |Kept(p.arrived)| == |p.started| + |p.queue| + |p.lost|
      && (p.queue != [] ==> p.children >= max - |p.lost|)
  {
    RunBounded(NewPool(max, capacity), steps);
    var p := Run(NewPool(max, capacity), steps).value;
    assert |multiset(Kept(p.arrived))| == |multiset(p.started)| + |multiset(p.queue)| + |multiset(p.lost)|;
  }

  function Reaps(steps: seq<Step>): nat {
    if steps == [] then 0 else (if steps[0].Reap? then 1 else 0) + Reaps(steps[1..])
  }

  function Names(steps: seq<Step>): seq<string> {
    if steps == [] then []
    else (match steps[0] case Arrive(name, _) => [name] case Reap(_) => []) + Names(steps[1..])
  }

  /** Over every run: each archive handed out has a worker until that is reaped,
      and the arrivals on record are those of the run, in order. */
  lemma {:induction false} WorkersCounted(p: Pool, steps: seq<Step>)
    requires Run(p, steps).Some?
    ensures var q := Run(p, steps).value;
      && q.children + Reaps(steps) == p.children + |q.started| - |p.started|
      && |q.arrived| == |p.arrived| + |Names(steps)|
      && q.arrived[..|p.arrived|] == p.arrived
      && forall i :: 0 <= i < |Names(steps)| ==> q.arrived[|p.arrived| + i].name == Names(steps)[i]
    decreases |steps|
  {
    if steps != [] {
      var next := Apply(p, steps[0]);
      WorkersCounted(next, steps[1..]);
      var q := Run(p, steps).value;
      assert q.arrived[..|p.arrived|] == next.arrived[..|p.arrived|] == p.arrived;
      if steps[0].Arrive? {
        assert Names(steps) == [steps[0].name] + Names(steps[1..]);
        assert q.arrived[..|next.arrived|][|p.arrived|].name == steps[0].name;
      } else {
        assert Names(steps) == [] + Names(steps[1..]) == Names(steps[1..]);
      }
    }
  }

  /** What becomes of an arrival, in every state a pool can reach: it is omitted
      exactly if all workers are busy and the queue is full; otherwise it gets the
      free worker if there is one, and waits if not. */
  lemma ArrivalDecides(max: nat, capacity: nat, steps: seq<Step>, name: string, forks: bool)
    requires Run(NewPool(max, capacity), steps).Some?
    ensures var p := Run(NewPool(max, capacity), steps).value;
      var q := Apply(p, Arrive(name, forks));
      && q.arrived == p.arrived + [Arrival(name, p.children == max && |p.queue| == capacity)]
      && q.started == (if p.children < max && forks then p.started + [name] else p.started)
      && q.lost == (if p.children < max && !forks then p.lost + [name] else p.lost)
      && q.queue == if p.children == max && |p.queue| < capacity then p.queue + [name] else p.queue
  {
    RunBounded(NewPool(max, capacity), steps);
  }

  /** With a queue only while all workers are busy, archives are started in the
      order in which they came. */
  ghost predicate Orderly(p: Pool) {
    Busy(p) && p.children <= p.max && p.lost == [] && Kept(p.arrived) == p.started + p.queue
  }

  lemma OrderlyArrival(p: Pool, name: string)
    requires Orderly(p)
    ensures Orderly(Arrived(p, name, true))
  {
    KeptAppended(p.arrived, Arrival(name, true));
    KeptAppended(p.arrived, Arrival(name, false));
    assert Kept(p.arrived) + [] == Kept(p.arrived);
    if p.children < p.max {
      assert p.queue == [];
      assert p.started + p.queue + [name] == p.started + [name] + p.queue;
    } else {
      assert p.started + p.queue + [name] == p.started + (p.queue + [name]);
    }
  }

  lemma OrderlyReap(p: Pool)
    requires Orderly(p) && p.children > 0
    ensures Orderly(Reaped(p, true))
  {
    if p.queue != [] {
      assert p.started + p.queue == p.started + [p.queue[0]] + p.queue[1..];
    }
  }

  ghost predicate AllFork(steps: seq<Step>) { forall s :: s in steps ==> s.forks }

  lemma {:induction false} RunOrderly(p: Pool, steps: seq<Step>)
    requires Orderly(p) && AllFork(steps) && Run(p, steps).Some?
    ensures Orderly(Run(p, steps).value)
    decreases |steps|
  {
    if steps != [] {
      assert steps[0].forks;
      match steps[0]
      case Arrive(name, _) =>
        OrderlyArrival(p, name);
        RunOrderly(Arrived(p, name, true), steps[1..]);
      case Reap(_) =>
        OrderlyReap(p);
        RunOrderly(Reaped(p, true), steps[1..]);
    }
  }

  /** Over every run in which all forks succeed nothing waits beside a free
      worker, and archives start in arrival order. */
  lemma FirstComeFirstServed(max: nat, capacity: nat, steps: seq<Step>)
    requires AllFork(steps) && Run(NewPool(max, capacity), steps).Some?
    ensures var p := Run(NewPool(max, capacity), steps).value;
      && (p.queue != [] ==> p.children == p.max)
      && Kept(p.arrived) == p.started + p.queue && p.lost == []
  {
    RunOrderly(NewPool(max, capacity), steps);
  }

  /** The one way to leave archives waiting beside a free worker: a fork fails
      for the first of at least two that wait. */
  lemma BusyLostExactly(p: Pool, step: Step)
    requires Busy(p) && p.children <= p.max && Enabled(p, step)
    ensures Busy(Apply(p, step)) <==> !(step.Reap? && !step.forks && |p.queue| >= 2)
  {
  }

  /** What then happens: with one worker the archive `b` is lost, `c` waits for
      a reap that never comes, and a later arrival overtakes it. */
  lemma ForkFailureOvertakes(capacity: nat)
    requires capacity >= 2
    ensures var steps := [Arrive("a", true), Arrive("b", true), Arrive("c", true), Reap(false), Arrive("d", true)];
      Run(NewPool(1, capacity), steps).Some?
      && var p := Run(NewPool(1, capacity), steps).value;
         p.started == ["a", "d"] && p.queue == ["c"] && p.lost == ["b"]
  {
    var s0, s1, s2, s3, s4 := Arrive("a", true), Arrive("b", true), Arrive("c", true), Reap(false), Arrive("d", true);
    var p1 := Arrived(NewPool(1, capacity), "a", true);
    var p2 := Arrived(p1, "b", true);
    var p3 := Arrived(p2, "c", true);
    var p4 := Reaped(p3, false);
    var p5 := Arrived(p4, "d", true);
    assert [s0, s1, s2, s3, s4][1..] == [s1, s2, s3, s4];
    assert [s1, s2, s3, s4][1..] == [s2, s3, s4];
    assert [s2, s3, s4][1..] == [s3, s4];
    assert [s3, s4][1..] == [s4];
    assert [s4][1..] == [];
    assert Run(p4, [s4]) == Run(p5, []);
    assert Run(p3, [s3, s4]) == Run(p4, [s4]);
    assert Run(p2, [s2, s3, s4]) == Run(p3, [s3, s4]);
    assert Run(p1, [s1, s2, s3, s4]) == Run(p2, [s2, s3, s4]);
  }

  /** Every queued archive is started by as many reaps as stand before it. */
  lemma {:induction false} QueueDrains(p: Pool, n: nat)
    requires Orderly(p) && n <= |p.queue| && p.max > 0
    ensures var steps := seq(n, _ => Reap(true));
      Run(p, steps).Some? && Run(p, steps).value.started == p.started + p.queue[..n]
      && Run(p, steps).value.queue == p.queue[n..]
    decreases n
  {
    var steps := seq(n, _ => Reap(true));
    if n > 0 {
      OrderlyReap(p);
      var q := Reaped(p, true);
      QueueDrains(q, n - 1);
      assert steps[1..] == seq(n - 1, _ => Reap(true));
      assert p.queue[..n] == [p.queue[0]] + q.queue[..n - 1];
    } else {
      assert p.started + p.queue[..0] == p.started;
    }
  }

  // ---- The program -------------------------------------------------------------------

  class Queue {
    const capacity: nat
    var q: seq<string>

    constructor (capacity: nat)
      ensures q == [] && this.capacity == capacity
    {
      this.capacity, q := capacity, [];
    }

    /** New entries join at the head. */
    method Push(value: string) returns (ok: bool)
      modifies this
      ensures ok == (|old(q)| < capacity)
      ensures q == if ok then [value] + old(q) else old(q)
    {
      if |q| >= capacity { return false; }
      q := [value] + q;
      ok := true;
    }

    method Pop() returns (value: Option<string>)
      modifies this
      ensures old(q) == [] ==> value.None? && q == []
      ensures old(q) != [] ==> value.Some? && old(q) == q + [value.value]
    {
      if q == [] { return None; }
      value := Some(q[|q| - 1]);
      q := q[..|q| - 1];
    }
  }

  class Process {
    var children: nat
    const maxChildren: nat
    const queue: Queue
    ghost var arrived: seq<Arrival>
    ghost var started: seq<string>
    ghost var lost: seq<string>

    ghost function View(): Pool
      reads this, queue
    {
      Pool(maxChildren, queue.capacity, children, Reverse(queue.q), arrived, started, lost)
    }

    constructor (maxChildren: nat, capacity: nat)
      ensures View() == NewPool(maxChildren, capacity) && fresh(queue)
    {
      children, this.maxChildren := 0, maxChildren;
      queue := new Queue(capacity);
      arrived, started, lost := [], [], [];
    }

    method RunUploadHandler(name: string, forks: bool)
      modifies this
      ensures View() == Launched(old(View()), name, forks)
    {
      children := children + 1;
      if !forks {
        children := children - 1;
        lost := lost + [name];
        return;
      }
      started := started + [name];
    }

    method HandleNewPath(name: string, forks: bool)
      modifies this, queue
      ensures View() == Arrived(old(View()), name, forks)
    {
      if children < maxChildren {
        arrived := arrived + [Arrival(name, false)];
        RunUploadHandler(name, forks);
        return;
      }
      ghost var before := queue.q;
      var ok := queue.Push(name);
      arrived := arrived + [Arrival(name, !ok)];
      if ok { assert Reverse(queue.q) == Reverse(before) + [name]; }
    }

    method ProcessNextInQueue(forks: bool)
      modifies this, queue
      ensures View() == if old(View()).queue == [] then old(View())
                        else Launched(old(View()).(queue := old(View()).queue[1..]), old(View()).queue[0], forks)
    {
      ghost var before := queue.q;
      var name := queue.Pop();
      if name.None? { return; }
      assert Reverse(queue.q) == Reverse(before)[1..];
      RunUploadHandler(name.value, forks);
    }

    /** One child reaped. */
    method HandleChild(forks: bool)
      requires children > 0
      modifies this, queue
      ensures View() == Reaped(old(View()), forks)
    {
      children := children - 1;
      ProcessNextInQueue(forks);
    }
  }
}
