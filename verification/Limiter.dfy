/** The limit on new problems of one user: a batch, and afterwards one problem
    per 2^magnitude seconds. Counters are 32-bit unsigned, the answer a 32-bit
    signed integer. */
module Limiter {
  import opened Common

  type Period = n: nat | n >= 1 witness 1

  /** A problem limit of zero means none; `period` is the time one unit of
      credit takes to accrue. */
  datatype Config = Config(problemsLimit: nat, period: Period, batch: nat)

  datatype User = User(problems: nat, credit: nat, last: nat)

  const NewUser := User(0, 0, 0)

  const UNSIGNED := 0x1_0000_0000

  const E2BIG := 7

  function AsInt(x: nat): int
    requires x < UNSIGNED
  {
    if x < 0x8000_0000 then x else x - UNSIGNED
  }

  function Pow2(n: nat): Period {
    if n == 0 then 1 else 2 * Pow2(n - 1)
  }

  /** The options as configured: the period is given by its logarithm. */
  function Configured(problemsLimit: nat, magnitude: nat, batch: nat): Config {
    Config(problemsLimit, Pow2(magnitude), batch)
  }

  predicate ValidConfig(c: Config) { c.batch < UNSIGNED }

  function Increment(u: User, now: nat, c: Config): nat
    requires u.last <= now
  {
    (now - u.last) / c.period
  }

  /** The credit topped up by the time that went by. */
  function Refilled(u: User, now: nat, c: Config): (credit: nat)
    requires u.last <= now
    ensures credit <= c.batch
  {
    var incr := Increment(u, now, c);
    var sum := (u.credit + incr) % UNSIGNED;
    if incr > c.batch || sum > c.batch then c.batch else sum
  }

  predicate LimitReached(u: User, c: Config) { c.problemsLimit != 0 && u.problems >= c.problemsLimit }

  /** The request gets past every check but the credit. */
  predicate Considered(u: User, now: Option<nat>, c: Config) {
    now.Some? && !LimitReached(u, c) && u.last <= now.value
  }

  predicate Spends(u: User, now: Option<nat>, c: Config) {
    Considered(u, now, c) && Refilled(u, now.value, c) != 0
  }

  function Spent(u: User, now: nat, c: Config): User
    requires u.last <= now && Refilled(u, now, c) != 0
  {
    u.(credit := Refilled(u, now, c) - 1, last := now)
  }

  function Requested(u: User, now: Option<nat>, c: Config): User {
    if Spends(u, now, c) then Spent(u, now.value, c)
    else if Considered(u, now, c) then u.(credit := 0)
    else u
  }

  function Answer(u: User, now: Option<nat>, c: Config): int
    requires ValidConfig(c)
  {
    if now.None? then -1
    else if LimitReached(u, c) then -E2BIG
    else if now.value < u.last then -1
    else AsInt(Refilled(u, now.value, c))
  }

  // ---- Runs ------------------------------------------------------------------

  datatype Event = Request(now: Option<nat>) | Created

  /** Times at which credit was spent. */
  function Grants(u: User, events: seq<Event>, c: Config): seq<nat>
    decreases |events|
  {
    if events == [] then []
    else
      match events[0]
      case Created => Grants(u.(problems := u.problems + 1), events[1..], c)
      case Request(now) =>
        (if Spends(u, now, c) then [now.value] else []) + Grants(Requested(u, now, c), events[1..], c)
  }

  function Within(times: seq<nat>, from: nat, to: nat): nat {
    if times == [] then 0
    else (if from <= times[0] <= to then 1 else 0) + Within(times[1..], from, to)
  }

  lemma FloorsAdd(a: nat, b: nat, p: nat)
    requires p >= 1
    ensures a / p + b / p <= (a + b) / p
  {
    var q := a / p + b / p;
    assert a == a / p * p + a % p;
    assert b == b / p * p + b % p;
    assert q * p <= a + b;
    MultipleFits(q, a + b, p);
  }

  lemma ProductsOrdered(a: nat, b: nat, p: nat)
    requires a <= b
    ensures a * p <= b * p
  {
  }

  lemma MultipleFits(q: nat, x: nat, p: nat)
    requires p >= 1 && q * p <= x
    ensures q <= x / p
  {
    var k := x / p;
    assert (k + 1) * p == k * p + p > x;
    if q > k {
      ProductsOrdered(k + 1, q, p);
    }
  }

  /** A grant uses up one of the units that were there or had accrued. */
  lemma GrantCosts(u: User, now: nat, c: Config, to: nat)
    requires u.last <= now <= to && Spends(u, Some(now), c)
    ensures 1 + Spent(u, now, c).credit + (to - now) / c.period <= u.credit + (to - u.last) / c.period
  {
    FloorsAdd(now - u.last, to - now, c.period);
    assert Refilled(u, now, c) <= u.credit + Increment(u, now, c);
  }

  /** The first request of a run and what is left after it. */
  lemma FirstRequest(u: User, events: seq<Event>, c: Config, from: nat, to: nat)
    requires events != [] && events[0].Request?
    ensures var rest := Within(Grants(Requested(u, events[0].now, c), events[1..], c), from, to);
      Within(Grants(u, events, c), from, to)
        == if Spends(u, events[0].now, c) && from <= events[0].now.value <= to then 1 + rest else rest
  {
    var v := Requested(u, events[0].now, c);
    var rest := Grants(v, events[1..], c);
    if Spends(u, events[0].now, c) {
      assert ([events[0].now.value] + rest)[1..] == rest;
    } else {
      assert Grants(u, events, c) == [] + rest == rest;
    }
  }

  /** Grants never come before the time on record. */
  lemma {:induction false} NoneBefore(u: User, events: seq<Event>, c: Config, from: nat, to: nat)
    requires to < u.last
    ensures Within(Grants(u, events, c), from, to) == 0
    decreases |events|
  {
    if events != [] {
      match events[0]
      case Created => NoneBefore(u.(problems := u.problems + 1), events[1..], c, from, to);
      case Request(now) =>
        FirstRequest(u, events, c, from, to);
        NoneBefore(Requested(u, now, c), events[1..], c, from, to);
    }
  }

  /** From a state with some credit, only that and what accrues is granted. */
  lemma {:induction false} CreditBounds(u: User, events: seq<Event>, c: Config, from: nat, to: nat)
    requires u.last <= to
    ensures Within(Grants(u, events, c), from, to) <= u.credit + (to - u.last) / c.period
    decreases |events|
  {
    if events != [] {
      match events[0]
      case Created => CreditBounds(u.(problems := u.problems + 1), events[1..], c, from, to);
      case Request(now) =>
        FirstRequest(u, events, c, from, to);
        var v := Requested(u, now, c);
        if Spends(u, now, c) && now.value > to {
          NoneBefore(v, events[1..], c, from, to);
        } else {
          CreditBounds(v, events[1..], c, from, to);
          if Spends(u, now, c) { GrantCosts(u, now.value, c, to); }
        }
    }
  }

  /** What is left to grant right after a grant inside the window. */
  lemma BurstBounds(u: User, events: seq<Event>, c: Config, from: nat, to: nat)
    requires from <= u.last <= to && u.credit < c.batch
    ensures 1 + Within(Grants(u, events, c), from, to) <= c.batch + (to - from) / c.period
  {
    CreditBounds(u, events, c, from, to);
    FloorsAdd(u.last - from, to - u.last, c.period);
  }

  lemma GrantLeaves(u: User, now: Option<nat>, c: Config)
    requires Spends(u, now, c)
    ensures var v := Requested(u, now, c); v.last == now.value && v.credit < c.batch
  {
  }

  lemma NoGrantLeaves(u: User, now: Option<nat>, c: Config)
    requires u.credit <= c.batch
    ensures Requested(u, now, c).credit <= c.batch
  {
  }

  /** In any stretch of time a user is granted at most the batch and one more
      problem per 2^magnitude seconds. */
  lemma {:induction false} RateBound(u: User, events: seq<Event>, c: Config, from: nat, to: nat)
    requires u.credit <= c.batch && from <= to
    ensures Within(Grants(u, events, c), from, to) <= c.batch + (to - from) / c.period
    decreases |events|
  {
    if events != [] {
      match events[0]
      case Created => RateBound(u.(problems := u.problems + 1), events[1..], c, from, to);
      case Request(now) =>
        FirstRequest(u, events, c, from, to);
        var v := Requested(u, now, c);
        NoGrantLeaves(u, now, c);
        if Spends(u, now, c) && now.value >= from {
          GrantLeaves(u, now, c);
          if now.value <= to {
            BurstBounds(v, events[1..], c, from, to);
          } else {
            NoneBefore(v, events[1..], c, from, to);
          }
        } else {
          RateBound(v, events[1..], c, from, to);
        }
    }
  }

  /** With a batch below 2^31 a request that passes the checks is refused for
      lack of credit exactly when there is none and 2^magnitude seconds have not
      passed; otherwise the answer is positive and at most the batch. */
  lemma RefusedExactly(u: User, now: nat, c: Config)
    requires ValidConfig(c) && 1 <= c.batch < 0x8000_0000 && u.credit <= c.batch
    requires !LimitReached(u, c) && u.last <= now
    ensures Answer(u, Some(now), c) == 0 <==> u.credit == 0 && now - u.last < c.period
    ensures Answer(u, Some(now), c) != 0 ==> 1 <= Answer(u, Some(now), c) <= c.batch
  {
    var p := c.period;
    if now - u.last >= p {
      MultipleFits(1, now - u.last, p);
    } else {
      assert (now - u.last) / p == 0;
    }
  }

  /** Spent credit is answered by a positive number in every state exactly for
      batches below 2^31; with larger ones the same request is spent and
      reported as a failure. */
  lemma SpentIsAnswered(c: Config)
    requires ValidConfig(c)
    ensures (forall u: User, now: nat :: u.credit <= c.batch && Spends(u, Some(now), c) ==> Answer(u, Some(now), c) > 0)
       <==> c.batch < 0x8000_0000
  {
    if c.batch >= 0x8000_0000 {
      var now := (c.batch + 1) * c.period;
      MultipleFits(c.batch + 1, now, c.period);
      assert Refilled(NewUser, now, c) == c.batch;
      assert Spends(NewUser, Some(now), c) && Answer(NewUser, Some(now), c) < 0;
    }
  }

  lemma Quotient(x: nat, p: Period, k: nat)
    requires k * p <= x < (k + 1) * p
    ensures x / p == k
  {
    MultipleFits(k, x, p);
    if x / p > k { ProductsOrdered(k + 1, x / p, p); }
  }

  /** The answer and what becomes of the user: the failures come first, in this
      order and without any effect; after k whole periods k units of credit have
      accrued, but never more than the batch is there, and one of them is spent. */
  lemma AnswerExactly(u: User, now: Option<nat>, c: Config, k: nat)
    requires c.batch < 0x8000_0000 && u.credit <= c.batch
    requires now.Some? && u.last <= now.value ==> k * c.period <= now.value - u.last < (k + 1) * c.period
    ensures var answer, u' := Answer(u, now, c), Requested(u, now, c);
      if now.None? then answer == -1 && u' == u
      else if c.problemsLimit > 0 && u.problems >= c.problemsLimit then answer == -7 && u' == u
      else if now.value < u.last then answer == -1 && u' == u
      else
        && answer == (if u.credit + k < c.batch then u.credit + k else c.batch)
        && u' == if answer == 0 then User(u.problems, 0, u.last) else User(u.problems, answer - 1, now.value)
  {
    if now.Some? && u.last <= now.value { Quotient(now.value - u.last, c.period, k); }
  }

  /** The one sum that wraps around to nothing takes the credit away. */
  lemma WrappedCreditLost(u: User, now: nat, c: Config, k: nat)
    requires ValidConfig(c) && !LimitReached(u, c) && u.last <= now
    requires k * c.period <= now - u.last < (k + 1) * c.period
    requires k <= c.batch && u.credit + k == 0x1_0000_0000
    ensures Answer(u, Some(now), c) == 0 && Requested(u, Some(now), c) == User(u.problems, 0, u.last)
  {
    Quotient(now - u.last, c.period, k);
  }

  /** Counting times in a window. */
  lemma {:induction false} WithinAdds(a: seq<nat>, b: seq<nat>, t: nat, from: nat, to: nat)
    ensures Within(a + b, from, to) == Within(a, from, to) + Within(b, from, to)
    ensures Within([t], from, to) == if from <= t <= to then 1 else 0
  {
    if a == [] {
      assert a + b == b;
    } else {
      assert (a + b)[1..] == a[1..] + b;
      WithinAdds(a[1..], b, t, from, to);
    }
  }

  predicate Unlimited(u: User, c: Config) { c.problemsLimit == 0 || u.problems < c.problemsLimit }

  /** The batch is really granted: of n requests at one moment as many succeed as
      there is credit after k whole periods. */
  lemma {:induction false} BurstGranted(u: User, requests: seq<Event>, now: nat, c: Config, k: nat)
    requires c.batch < 0x8000_0000 && u.credit <= c.batch && Unlimited(u, c)
    requires u.last <= now && k * c.period <= now - u.last < (k + 1) * c.period
    requires forall r :: r in requests ==> r == Request(Some(now))
    ensures Within(Grants(u, requests, c), now, now)
         == Min(|requests|, if u.credit + k < c.batch then u.credit + k else c.batch)
    decreases |requests|
  {
    if requests != [] {
      assert requests[0] in requests;
      AnswerExactly(u, Some(now), c, k);
      FirstRequest(u, requests, c, now, now);
      var v := Requested(u, Some(now), c);
      assert forall r :: r in requests[1..] ==> r in requests;
      BurstGranted(v, requests[1..], now, c, if Spends(u, Some(now), c) then 0 else k);
    }
  }

  /** A request for each of the times, in order. */
  function Asking(times: seq<nat>): seq<Event> {
    if times == [] then [] else [Request(Some(times[0]))] + Asking(times[1..])
  }

  /** And so is one problem per period: whoever waits that long before each request
      is never refused. */
  lemma {:induction false} PatientAlwaysGranted(u: User, times: seq<nat>, c: Config)
    requires 1 <= c.batch < 0x8000_0000 && u.credit <= c.batch && Unlimited(u, c)
    requires times != [] ==> u.last + c.period <= times[0]
    requires forall i, j :: 0 <= i && j == i + 1 && j < |times| ==> times[i] + c.period <= times[j]
    ensures Grants(u, Asking(times), c) == times
    decreases |times|
  {
    if times != [] {
      var now := times[0];
      RefusedExactly(u, now, c);
      var v := Requested(u, Some(now), c);
      assert Asking(times)[1..] == Asking(times[1..]);
      PatientAlwaysGranted(v, times[1..], c);
    }
  }

  /** The period doubles with the magnitude; 4 makes 16 seconds. */
  lemma {:induction false} PeriodDoubles(a: nat, b: nat)
    ensures Pow2(a + b) == Pow2(a) * Pow2(b) && Pow2(0) == 1 && Pow2(1) == 2
  {
    if a > 0 {
      PeriodDoubles(a - 1, b);
      assert Pow2(a + b) == 2 * Pow2(a - 1 + b);
    }
  }

  /** The credit never exceeds the batch, in any run. */
  function After(u: User, events: seq<Event>, c: Config): (v: User)
    ensures u.credit <= c.batch ==> v.credit <= c.batch
    decreases |events|
  {
    if events == [] then u
    else
      var next := match events[0]
        case Created => u.(problems := u.problems + 1)
        case Request(now) => Requested(u, now, c);
      After(next, events[1..], c)
  }

  function Creations(events: seq<Event>): nat {
    if events == [] then 0 else (if events[0].Created? then 1 else 0) + Creations(events[1..])
  }

  /** After any run the problems created are counted and the time on record is
      that of the last grant. */
  lemma {:induction false} RunRecorded(u: User, events: seq<Event>, c: Config)
    ensures var v, grants := After(u, events, c), Grants(u, events, c);
      && v.problems == u.problems + Creations(events)
      && v.last == if grants == [] then u.last else grants[|grants| - 1]
    decreases |events|
  {
    if events != [] {
      match events[0]
      case Created => RunRecorded(u.(problems := u.problems + 1), events[1..], c);
      case Request(now) => RunRecorded(Requested(u, now, c), events[1..], c);
    }
  }

  // ---- The object --------------------------------------------------------------

  class UserInfo {
    var problems: nat
    var newProblems: nat
    var newProblemLast: nat

    ghost function View(): User
      reads this
    {
      User(problems, newProblems, newProblemLast)
    }

    constructor ()
      ensures View() == NewUser
    {
      problems, newProblems, newProblemLast := 0, 0, 0;
    }
  }

  /** `user` is null for a user without a session. */
  method UserCanCreateNewProblem(uid: nat, user: UserInfo?, now: Option<nat>, problemsLimit: nat, magnitude: nat,
      batch: nat) returns (r: int)
    requires magnitude < 64 && batch < UNSIGNED
    modifies user
    ensures uid == 0 ==> r == 1
    ensures uid != 0 && user == null ==> r == -1
    ensures user != null && uid == 0 ==> user.View() == old(user.View())
    ensures user != null && uid != 0 ==> 
      var c := Configured(problemsLimit, magnitude, batch);
      user.View() == Requested(old(user.View()), now, c) && r == Answer(old(user.View()), now, c)
  {
    if uid == 0 { return 1; }
    if now.None? { return -1; }
    if user == null { return -1; }
    if problemsLimit != 0 && user.problems >= problemsLimit { return -E2BIG; }
    if now.value < user.newProblemLast { return -1; }
    var incr := (now.value - user.newProblemLast) / Pow2(magnitude);
    if incr > batch {
      user.newProblems := batch;
    } else {
      user.newProblems := (user.newProblems + incr) % UNSIGNED;
      if user.newProblems > batch { user.newProblems := batch; }
    }
    if user.newProblems == 0 { return 0; }
    user.newProblemLast := now.value;
    r := AsInt(user.newProblems);
    user.newProblems := user.newProblems - 1;
  }
}
