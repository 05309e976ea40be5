/** abrtd composed with any number of abrt-servers. A server prepares its
    problem, announces one directory, waits for a signal and then either runs
    the post-create event or leaves; the daemon keeps the queue of module
    `Abrtd`. Tickets number the announcements in the order the daemon reads
    them and exist only to state fairness. */
module PostCreateProtocol {
  import opened Common
  import opened Abrtd

  datatype Phase = Preparing | Waiting | Running | Leaving | Zombie

  datatype Sig = Usr1 | Int

  /** `line` is written to the pipe and not yet read; `pending` are delivered
      signals in order; the flags remember what was ever sent, and whether
      SIGINT reached the server. */
  datatype Server = Server(
    phase: Phase, line: Option<string>, pending: seq<Sig>, continued: bool, stopped: bool, interrupted: bool)

  datatype System = System(
    daemon: DaemonView, servers: map<nat, Server>,
    tickets: map<nat, nat>, issued: nat, started: seq<nat>, dropped: set<nat>)

  datatype Step =
    | Accept(pid: nat)
    | Write(pid: nat, name: string)
    | Read(pid: nat, dirs: seq<Directory>, mebibytes: nat, victims: seq<string>, killable: set<nat>)
    | Take(pid: nat)
    | Exit(pid: nat)
    | Reap(pid: nat, killable: set<nat>)

  const Initial := System(DaemonView([], map[], [], true), map[], map[], 0, [], {})

  // ---- Effects of a daemon operation on the rest ---------------------------

  function Received(srv: Server, p: nat, events: seq<Event>, killable: set<nat>): (r: Server)
    ensures r.phase == srv.phase && r.line == srv.line
    ensures r.continued == (srv.continued || Event.Continued(p) in events)
    ensures r.stopped == (srv.stopped || Event.Stopped(p) in events)
    ensures r.interrupted == (srv.interrupted || (Event.Stopped(p) in events && p in killable))
    ensures Usr1 in r.pending <==> Usr1 in srv.pending || Event.Continued(p) in events
    ensures Int in r.pending <==> Int in srv.pending || (Event.Stopped(p) in events && p in killable)
  {
    if events == [] then srv
    else
      var last := events[|events| - 1];
      var before := Received(srv, p, events[..|events| - 1], killable);
      assert events == events[..|events| - 1] + [last];
      match last
      case Continued(q) => if q == p then before.(pending := before.pending + [Usr1], continued := true) else before
      case Stopped(q) =>
        if q == p then
          if p in killable then before.(pending := before.pending + [Int], stopped := true, interrupted := true)
          else before.(stopped := true)
        else before
      case Unreachable(_) => before
  }

  function Ticket(tickets: map<nat, nat>, p: nat): nat { if p in tickets then tickets[p] else 0 }

  function StartedBy(tickets: map<nat, nat>, events: seq<Event>): seq<nat> {
    if events == [] then []
    else (if events[0].Continued? then [Ticket(tickets, events[0].pid)] else []) + StartedBy(tickets, events[1..])
  }

  function DroppedBy(tickets: map<nat, nat>, events: seq<Event>): set<nat> {
    set e | e in events && !e.Continued? :: Ticket(tickets, e.pid)
  }

  function Absorb(s: System, out: Outcome, killable: set<nat>): System {
    s.(daemon := out.daemon,
       servers := map p | p in s.servers :: Received(s.servers[p], p, out.events, killable),
       started := s.started + StartedBy(s.tickets, out.events),
       dropped := s.dropped + DroppedBy(s.tickets, out.events))
  }

  /** The ticket of a server that leaves while it waits in the queue. */
  function WaitingTicket(s: System, pid: nat): set<nat> {
    set q | q in s.daemon.queue && q == pid && q in s.daemon.table && s.daemon.table[q].kind == Unknown ::
      Ticket(s.tickets, q)
  }

  // ---- The step relation ----------------------------------------------------

  ghost predicate Enabled(s: System, step: Step) {
    match step
    case Accept(pid) => s.daemon.accepting && pid !in s.servers
    case Write(pid, name) => pid in s.servers && s.servers[pid].phase == Preparing && '/' !in name
    case Read(pid, dirs, mebibytes, victims, killable) =>
      && pid in s.servers && s.servers[pid].line.Some?
      && pid in s.daemon.table
      && var named := Named(s.daemon, pid, s.servers[pid].line.value);
      && (named.queue != [] ==> named.queue[0] in named.table && named.table[named.queue[0]].dirname.Some?)
      && if mebibytes == 0 then victims == [] else TrimRun(dirs, LimitBytes(mebibytes), Spared(named, pid), victims)
    case Take(pid) => pid in s.servers && s.servers[pid].phase == Waiting && s.servers[pid].pending != []
    case Exit(pid) => pid in s.servers && s.servers[pid].phase != Zombie
    case Reap(pid, killable) => pid in s.servers && s.servers[pid].phase == Zombie
  }

  ghost function Apply(s: System, step: Step): System
    requires WellFormed(s.daemon) && Enabled(s, step)
  {
    match step
    case Accept(pid) =>
      s.(daemon := Add(s.daemon, pid), servers := s.servers[pid := Server(Preparing, None, [], false, false, false)])
    case Write(pid, name) =>
      s.(servers := s.servers[pid := s.servers[pid].(phase := Waiting, line := Some(name))])
    case Read(pid, dirs, mebibytes, victims, killable) =>
      var name := s.servers[pid].line.value;
      var read := s.(servers := s.servers[pid := s.servers[pid].(line := None)],
                     tickets := s.tickets[pid := s.issued], issued := s.issued + 1);
      Absorb(read, Announce(s.daemon, pid, name, victims, killable), killable)
    case Take(pid) =>
      var srv := s.servers[pid];
      var phase := if srv.pending[0] == Usr1 then Running else Leaving;
      s.(servers := s.servers[pid := srv.(phase := phase, pending := srv.pending[1..])])
    case Exit(pid) =>
      s.(servers := s.servers[pid := s.servers[pid].(phase := Zombie)])
    case Reap(pid, killable) =>
      var gone := s.(servers := s.servers - {pid},
                     dropped := s.dropped + WaitingTicket(s, pid));
      Absorb(gone, Remove(s.daemon, pid, killable), killable)
  }

  // ---- The invariant -----------------------------------------------------------

  /** A server that has not acted on a signal yet has exactly those pending that
      were sent and arrived. */
  predicate Delivered(srv: Server) {
    && (srv.interrupted ==> srv.stopped)
    && (srv.phase == Preparing || srv.phase == Waiting ==>
          (Usr1 in srv.pending <==> srv.continued) && (Int in srv.pending <==> srv.interrupted))
  }

  ghost predicate ServerAgrees(srv: Server, p: nat, d: DaemonView)
    requires p in d.table
  {
    && (srv.phase == Preparing ==> srv.line == None)
    && (srv.phase == Preparing || srv.line.Some? ==> d.table[p].dirname == None)
    && (srv.line.Some? ==> '/' !in srv.line.value)
    && (srv.phase == Waiting ==> srv.line.Some? || d.table[p].dirname.Some?)
    && (d.table[p].dirname.Some? ==> '/' !in d.table[p].dirname.value)
    && srv.continued == (d.table[p].kind == PostCreate)
    && (srv.stopped ==> d.table[p].dirname.Some? && p !in d.queue)
    && (srv.phase == Running || Usr1 in srv.pending ==> srv.continued)
    && Delivered(srv)
  }

  ghost predicate Agreement(s: System) {
    && DaemonAgrees(s.daemon)
    && (forall p :: p in s.servers <==> p in s.daemon.table)
    && (forall p :: p in s.servers ==> ServerAgrees(s.servers[p], p, s.daemon))
  }

  ghost predicate Increasing(q: seq<nat>) {
    forall i, j :: 0 <= i < j < |q| ==> q[i] < q[j]
  }

  function TicketsOf(tickets: map<nat, nat>, queue: seq<nat>): (r: seq<nat>)
    ensures |r| == |queue| && forall i :: 0 <= i < |r| ==> r[i] == Ticket(tickets, queue[i])
  {
    seq(|queue|, i requires 0 <= i < |queue| => Ticket(tickets, queue[i]))
  }

  /** The history of announcements, by ticket: `line` is the queue. Servers were
      continued in the order of their announcements and the last of them heads
      the line, those behind it come later than all of them, and nobody is
      forgotten: each ticket was continued, was dropped, or waits. */
  ghost predicate Orderly(started: seq<nat>, line: seq<nat>, dropped: set<nat>, issued: nat) {
    && Increasing(started)
    && Increasing(line)
    && (line != [] ==> started != [] && started[|started| - 1] == line[0])
    && (forall x :: x in started ==> x < issued && x !in dropped)
    && (forall x :: x in line ==> x < issued && x !in dropped)
    && (forall x :: x in dropped ==> x < issued)
    && (forall x: nat :: x < issued ==> x in started || x in dropped || x in line)
  }

  ghost predicate Fair(s: System) {
    Orderly(s.started, TicketsOf(s.tickets, s.daemon.queue), s.dropped, s.issued)
  }

  ghost predicate Inv(s: System) { Agreement(s) && Fair(s) }

  // ---- Each step keeps the agreement ----------------------------------------------

  lemma AcceptAgrees(s: System, pid: nat)
    requires Agreement(s) && Enabled(s, Accept(pid))
    ensures Agreement(Apply(s, Accept(pid)))
  {
    var s' := Apply(s, Accept(pid));
    assert forall p :: p in s'.daemon.order <==> p in s.daemon.order || p == pid;
    forall p | p in s'.servers
      ensures ServerAgrees(s'.servers[p], p, s'.daemon)
    {
      if p != pid {
        assert ServerAgrees(s.servers[p], p, s.daemon);
      }
    }
  }

  /** A server's own moves (announcing, taking a signal, exiting) agree. */
  lemma ServerMoveAgrees(s: System, step: Step)
    requires Agreement(s) && Enabled(s, step) && (step.Write? || step.Take? || step.Exit?)
    ensures Agreement(Apply(s, step))
  {
    var s' := Apply(s, step);
    forall p | p in s'.servers
      ensures ServerAgrees(s'.servers[p], p, s'.daemon)
    {
      assert ServerAgrees(s.servers[p], p, s.daemon);
      if step.Take? && p == step.pid {
        var pending := s.servers[p].pending;
        assert pending[0] in pending;
        assert forall x :: x in pending[1..] ==> x in pending;
      }
    }
  }

  /** The process whose announcement is read has none yet, is in no queue and
      does not run: the branch for a second announcement is never taken. */
  lemma AnnouncesOnce(s: System, pid: nat)
    requires Agreement(s) && pid in s.servers && s.servers[pid].line.Some?
    ensures s.daemon.table[pid].dirname == None && pid !in s.daemon.queue && s.daemon.table[pid].kind == Unknown
    ensures forall name :: Named(s.daemon, pid, name).queue == s.daemon.queue
  {
    assert ServerAgrees(s.servers[pid], pid, s.daemon);
  }

  lemma NoSlash(path: string)
    requires '/' !in path
    ensures BaseName(path) == path
  {
  }

  /** The directory spared while an announcement is read is the running one's,
      or the announced one when nothing runs. */
  lemma SparesRunning(s: System, step: Step)
    requires Agreement(s) && Enabled(s, step) && step.Read?
    ensures var d := Named(s.daemon, step.pid, s.servers[step.pid].line.value);
      && d.table[if d.queue != [] then d.queue[0] else step.pid].dirname == Some(Spared(d, step.pid))
      && Spared(d, step.pid) !in (if step.mebibytes == 0 then [] else step.victims)
  {
    var pid := step.pid;
    AnnouncesOnce(s, pid);
    assert ServerAgrees(s.servers[pid], pid, s.daemon);
    NoSlash(s.servers[pid].line.value);
    if s.daemon.queue != [] {
      var head := s.daemon.queue[0];
      assert ServerAgrees(s.servers[head], head, s.daemon);
      NoSlash(s.daemon.table[head].dirname.value);
    }
  }

  /** What a daemon operation must respect for one server to stay in agreement. */
  lemma ReceivedAgrees(srv: Server, p: nat, d: DaemonView, out: Outcome, killable: set<nat>)
    requires p in d.table && p in out.daemon.table && ServerAgrees(srv, p, d)
    requires out.daemon.table[p].dirname == d.table[p].dirname
    requires out.daemon.table[p].kind == PostCreate <==>
      d.table[p].kind == PostCreate || Event.Continued(p) in out.events
    requires Event.Stopped(p) in out.events ==> d.table[p].dirname.Some? && p !in out.daemon.queue
    requires srv.stopped ==> p !in out.daemon.queue
    ensures ServerAgrees(Received(srv, p, out.events, killable), p, out.daemon)
  {
  }

  ghost function ReadOutcome(s: System, step: Step): (out: Outcome)
    requires WellFormed(s.daemon) && step.Read? && Enabled(s, step)
  {
    Announce(s.daemon, step.pid, s.servers[step.pid].line.value, step.victims, step.killable)
  }

  /** Reading an announcement meets the preconditions of `Abrtd.AnnounceEffect`. */
  lemma ReadEffect(s: System, step: Step)
    requires Agreement(s) && step.Read? && Enabled(s, step)
    ensures s.daemon.table[step.pid] == ProcInfo(None, Unknown) && step.pid !in s.daemon.queue
    ensures AnnounceKeeps(s.daemon, step.pid, s.servers[step.pid].line.value, ReadOutcome(s, step))
  {
    AnnouncesOnce(s, step.pid);
    SparesRunning(s, step);
    AnnounceEffect(s.daemon, step.pid, s.servers[step.pid].line.value, step.victims, step.killable,
                   Spared(Named(s.daemon, step.pid, s.servers[step.pid].line.value), step.pid));
  }

  lemma ReadServerAgrees(s: System, step: Step, p: nat)
    requires Agreement(s) && step.Read? && Enabled(s, step) && p in s.servers
    requires AnnounceKeeps(s.daemon, step.pid, s.servers[step.pid].line.value, ReadOutcome(s, step))
    requires s.daemon.table[step.pid] == ProcInfo(None, Unknown) && step.pid !in s.daemon.queue
    ensures var srv := if p == step.pid then s.servers[p].(line := None) else s.servers[p];
      var out := ReadOutcome(s, step);
      ServerAgrees(Received(srv, p, out.events, step.killable), p, out.daemon)
  {
    var srv := if p == step.pid then s.servers[p].(line := None) else s.servers[p];
    var d := Named(s.daemon, step.pid, s.servers[step.pid].line.value);
    assert ServerAgrees(s.servers[p], p, s.daemon);
    assert ServerAgrees(s.servers[step.pid], step.pid, s.daemon);
    assert ServerAgrees(srv, p, d);
    ReceivedAgrees(srv, p, d, ReadOutcome(s, step), step.killable);
  }

  lemma ReadAgrees(s: System, step: Step)
    requires Agreement(s) && step.Read? && Enabled(s, step)
    ensures Agreement(Apply(s, step))
  {
    ReadEffect(s, step);
    var s' := Apply(s, step);
    forall p | p in s'.servers
      ensures ServerAgrees(s'.servers[p], p, s'.daemon)
    {
      ReadServerAgrees(s, step, p);
    }
  }

  lemma ReapServerAgrees(s: System, step: Step, p: nat)
    requires Agreement(s) && step.Reap? && Enabled(s, step) && p in s.servers && p != step.pid
    requires RemoveKeeps(s.daemon, step.pid, Remove(s.daemon, step.pid, step.killable))
    ensures var out := Remove(s.daemon, step.pid, step.killable);
      ServerAgrees(Received(s.servers[p], p, out.events, step.killable), p, out.daemon)
  {
    assert ServerAgrees(s.servers[p], p, s.daemon);
    ReceivedAgrees(s.servers[p], p, s.daemon, Remove(s.daemon, step.pid, step.killable), step.killable);
  }

  lemma ReapAgrees(s: System, step: Step)
    requires Agreement(s) && step.Reap? && Enabled(s, step)
    ensures Agreement(Apply(s, step))
  {
    RemoveEffect(s.daemon, step.pid, step.killable);
    var s' := Apply(s, step);
    forall p | p in s'.servers
      ensures ServerAgrees(s'.servers[p], p, s'.daemon)
    {
      ReapServerAgrees(s, step, p);
    }
  }

  lemma StepAgrees(s: System, step: Step)
    requires Agreement(s) && Enabled(s, step)
    ensures Agreement(Apply(s, step))
  {
    match step
    case Accept(pid) => AcceptAgrees(s, pid);
    case Read(_, _, _, _, _) => ReadAgrees(s, step);
    case Reap(_, _) => ReapAgrees(s, step);
    case _ => ServerMoveAgrees(s, step);
  }

  // ---- Each step keeps the order of announcements ------------------------------

  /** Tickets leave the line behind its head, and possibly a new one joins. */
  lemma Thin(started: seq<nat>, line: seq<nat>, dropped: set<nat>, issued: nat, offered: seq<nat>, line': seq<nat>,
      dropped': set<nat>, issued': nat)
    requires Orderly(started, line, dropped, issued) && line != []
    requires (offered == line && issued' == issued) || (offered == line + [issued] && issued' == issued + 1)
    requires Increasing(line') && line' != [] && line'[0] == line[0]
    requires forall x :: x in line' ==> x in offered
    requires forall x :: x in dropped' <==> x in dropped || (x in offered && x !in line')
    ensures Orderly(started, line', dropped', issued')
  {
    forall x | x in started
      ensures x <= line[0]
    {
    }
    assert issued' > issued ==> offered[|line|] == issued;
  }

  /** The head leaves: those in front that cannot be signalled are dropped and
      the next one is continued. */
  lemma Advance(started: seq<nat>, line: seq<nat>, dropped: set<nat>, issued: nat, k: nat, started': seq<nat>,
      dropped': set<nat>)
    requires Orderly(started, line, dropped, issued) && 1 <= k <= |line|
    requires started' == started + (if k < |line| then [line[k]] else [])
    requires forall x :: x in dropped' <==> x in dropped || x in line[1..k]
    ensures Orderly(started', line[k..], dropped', issued)
  {
    assert line == [line[0]] + line[1..k] + line[k..];
    forall x | x in started
      ensures x <= line[0]
    {
      var i :| 0 <= i < |started| && started[i] == x;
    }
    forall x | x in line[1..k]
      ensures x in line && line[0] < x && (k < |line| ==> x < line[k])
    {
      var i :| 0 <= i < k - 1 && line[1..k][i] == x;
      assert line[i + 1] == x;
    }
    forall x | x in started'
      ensures x < issued && x !in dropped'
    {
      if x !in started { assert x == line[k] && line[k] in line; }
    }
    forall x | x in line[k..]
      ensures x in line && x !in dropped'
    {
      var j :| 0 <= j < |line| - k && line[k..][j] == x;
      assert line[j + k] == x;
    }
  }

  lemma {:induction false} NothingStarted(tickets: map<nat, nat>, events: seq<Event>)
    requires forall e :: e in events ==> !e.Continued?
    ensures StartedBy(tickets, events) == []
  {
    if events != [] {
      assert events[0] in events;
      NothingStarted(tickets, events[1..]);
    }
  }

  lemma {:induction false} StartedLast(tickets: map<nat, nat>, events: seq<Event>, pid: nat)
    requires forall e :: e in events ==> !e.Continued?
    ensures StartedBy(tickets, events + [Event.Continued(pid)]) == [Ticket(tickets, pid)]
  {
    if events == [] {
      assert events + [Event.Continued(pid)] == [Event.Continued(pid)];
    } else {
      assert events[0] in events;
      assert (events + [Event.Continued(pid)])[1..] == events[1..] + [Event.Continued(pid)];
      StartedLast(tickets, events[1..], pid);
    }
  }

  /** Removing one place keeps the order of the rest. */
  lemma LineWithout(tickets: map<nat, nat>, queue: seq<nat>, pid: nat)
    requires pid in queue && Increasing(TicketsOf(tickets, queue))
    ensures var line' := TicketsOf(tickets, RemoveFirst(queue, pid));
      && Increasing(line')
      && (forall x :: x in TicketsOf(tickets, queue) <==> x in line' || x == Ticket(tickets, pid))
      && Ticket(tickets, pid) !in line'
  {
    var k := RemoveFirstSplit(queue, pid);
    var line := TicketsOf(tickets, queue);
    TicketsPunctured(tickets, queue, k);
    Punctured(line, k);
  }

  lemma TicketsPunctured(tickets: map<nat, nat>, queue: seq<nat>, k: nat)
    requires k < |queue|
    ensures var line := TicketsOf(tickets, queue);
      TicketsOf(tickets, queue[..k] + queue[k + 1..]) == line[..k] + line[k + 1..]
  {
    var left := queue[..k] + queue[k + 1..];
    var line := TicketsOf(tickets, queue);
    forall i | 0 <= i < |left| ensures TicketsOf(tickets, left)[i] == (line[..k] + line[k + 1..])[i] {
      assert left[i] == queue[if i < k then i else i + 1];
    }
  }

  lemma Punctured(line: seq<nat>, k: nat)
    requires Increasing(line) && k < |line|
    ensures var line' := line[..k] + line[k + 1..];
      Increasing(line') && line[k] !in line' && forall x :: x in line <==> x in line' || x == line[k]
  {
    assert line == line[..k] + [line[k]] + line[k + 1..];
  }

  lemma {:induction false} TrimKeepsOrder(tickets: map<nat, nat>, table: map<nat, ProcInfo>, t: Trimmed,
      victims: seq<string>)
    requires forall q :: q in t.queue ==> q in table
    requires t.proc.Some? ==> t.proc.value in table
    requires Increasing(TicketsOf(tickets, t.queue))
    ensures Increasing(TicketsOf(tickets, EvictAll(table, t, victims).queue))
  {
    if victims != [] {
      var before := EvictAll(table, t, victims[..|victims| - 1]);
      TrimKeepsOrder(tickets, table, t, victims[..|victims| - 1]);
      var found := FirstNamed(table, before.queue, victims[|victims| - 1]);
      if found.Some? { LineWithout(tickets, before.queue, found.value); }
    }
  }

  /** In an ordered queue a process is recognised by its ticket. */
  lemma SameTicket(tickets: map<nat, nat>, queue: seq<nat>, p: nat)
    requires Increasing(TicketsOf(tickets, queue)) && p in queue
    ensures Ticket(tickets, p) in TicketsOf(tickets, queue)
    ensures forall q :: q in queue && Ticket(tickets, q) == Ticket(tickets, p) ==> q == p
  {
    var i :| 0 <= i < |queue| && queue[i] == p;
    assert TicketsOf(tickets, queue)[i] == Ticket(tickets, p);
    forall q | q in queue && Ticket(tickets, q) == Ticket(tickets, p)
      ensures q == p
    {
      var j :| 0 <= j < |queue| && queue[j] == q;
      assert TicketsOf(tickets, queue)[j] == TicketsOf(tickets, queue)[i];
    }
  }

  lemma HoldsTicket(tickets: map<nat, nat>, queue: seq<nat>, p: nat)
    requires p in queue
    ensures Ticket(tickets, p) in TicketsOf(tickets, queue)
  {
    var j :| 0 <= j < |queue| && queue[j] == p;
    assert TicketsOf(tickets, queue)[j] == Ticket(tickets, p);
  }

  /** Tickets of the survivors, and of those that were stopped. */
  lemma StoppedTickets(tickets: map<nat, nat>, queue: seq<nat>, pid: nat, t: Trimmed)
    requires TrimKeeps(queue, pid, t) && Increasing(TicketsOf(tickets, queue + [pid]))
    ensures var all, rest := TicketsOf(tickets, queue + [pid]), TicketsOf(tickets, Survivors(t));
      && (forall x :: x in rest ==> x in all)
      && (forall x :: x in DroppedBy(tickets, t.events) <==> x in all && x !in rest)
  {
    var all, rest := TicketsOf(tickets, queue + [pid]), TicketsOf(tickets, Survivors(t));
    forall x | x in rest
      ensures x in all
    {
      var i :| 0 <= i < |rest| && rest[i] == x;
      assert Survivors(t)[i] in queue + [pid];
      SameTicket(tickets, queue + [pid], Survivors(t)[i]);
    }
    forall x | x in DroppedBy(tickets, t.events)
      ensures x in all && x !in rest
    {
      var e :| e in t.events && !e.Continued? && Ticket(tickets, e.pid) == x;
      assert e == Event.Stopped(e.pid);
      SameTicket(tickets, queue + [pid], e.pid);
    }
    forall x | x in all && x !in rest
      ensures x in DroppedBy(tickets, t.events)
    {
      var i :| 0 <= i < |all| && all[i] == x;
      var p := (queue + [pid])[i];
      if p in Survivors(t) { HoldsTicket(tickets, Survivors(t), p); }
      assert Event.Stopped(p) in t.events;
    }
  }

  lemma IncreasingSnoc(a: seq<nat>, bound: nat)
    requires Increasing(a) && forall x :: x in a ==> x < bound
    ensures Increasing(a + [bound])
  {
    assert forall i :: 0 <= i < |a| ==> a[i] in a;
  }

  /** The history after the daemon read an announcement of `pid`. */
  ghost predicate OrderlyAfter(s: System, pid: nat, out: Outcome) {
    var tickets := s.tickets[pid := s.issued];
    Orderly(s.started + StartedBy(tickets, out.events), TicketsOf(tickets, out.daemon.queue),
            s.dropped + DroppedBy(tickets, out.events), s.issued + 1)
  }

  lemma IdleOrderly(started: seq<nat>, dropped: set<nat>, issued: nat)
    requires Orderly(started, [], dropped, issued)
    ensures Orderly(started + [issued], [issued], dropped, issued + 1)
    ensures Orderly(started, [], dropped + {issued}, issued + 1)
  {
    IncreasingSnoc(started, issued);
  }

  lemma IdleFair(s: System, pid: nat, name: string, victims: seq<string>, killable: set<nat>)
    requires Fair(s) && s.daemon.queue == [] && pid in s.daemon.table && s.daemon.table[pid] == ProcInfo(None, Unknown)
    requires name !in victims
    ensures OrderlyAfter(s, pid, Announce(s.daemon, pid, name, victims, killable))
  {
    AnnounceIdle(s.daemon, pid, name, victims, killable);
    if pid in killable {
      IdleStarts(s, pid, Announce(s.daemon, pid, name, victims, killable));
    } else {
      IdleDrops(s, pid, Announce(s.daemon, pid, name, victims, killable));
    }
  }

  lemma IdleStarts(s: System, pid: nat, out: Outcome)
    requires Fair(s) && s.daemon.queue == [] && out.daemon.queue == [pid] && out.events == [Event.Continued(pid)]
    ensures OrderlyAfter(s, pid, out)
  {
    IdleOrderly(s.started, s.dropped, s.issued);
    var tickets := s.tickets[pid := s.issued];
    StartedLast(tickets, [], pid);
    assert [] + [Event.Continued(pid)] == out.events;
    assert TicketsOf(tickets, [pid]) == [s.issued];
    assert DroppedBy(tickets, out.events) == {};
    assert s.dropped + {} == s.dropped;
  }

  lemma IdleDrops(s: System, pid: nat, out: Outcome)
    requires Fair(s) && s.daemon.queue == [] && out.daemon.queue == [] && out.events == [Unreachable(pid)]
    ensures OrderlyAfter(s, pid, out)
  {
    IdleOrderly(s.started, s.dropped, s.issued);
    var tickets := s.tickets[pid := s.issued];
    NothingStarted(tickets, out.events);
    DroppedAlone(tickets, pid);
    assert s.started + [] == s.started;
  }

  lemma DroppedAlone(tickets: map<nat, nat>, pid: nat)
    ensures DroppedBy(tickets, [Unreachable(pid)]) == {Ticket(tickets, pid)}
  {
    assert Unreachable(pid) in [Unreachable(pid)];
  }

  /** An announcement read while somebody runs takes the last place, unless
      trimming stops its server. */
  lemma BusyFair(s: System, pid: nat, name: string, victims: seq<string>, killable: set<nat>, spared: string)
    requires Fair(s) && DaemonAgrees(s.daemon) && pid in s.daemon.table
    requires s.daemon.table[pid] == ProcInfo(None, Unknown)
    requires s.daemon.queue != [] && pid !in s.daemon.queue
    requires spared !in victims && s.daemon.table[s.daemon.queue[0]].dirname == Some(spared)
    ensures OrderlyAfter(s, pid, Announce(s.daemon, pid, name, victims, killable))
  {
    var t := AnnounceBusy(s.daemon, pid, name, victims, killable, spared);
    var tickets := s.tickets[pid := s.issued];
    var line := TicketsOf(s.tickets, s.daemon.queue);
    assert TicketsOf(tickets, s.daemon.queue) == line;
    TrimKeepsOrder(tickets, Named(s.daemon, pid, name).table, Trimmed(s.daemon.queue, Some(pid), []), victims);
    BusyOrderly(s, pid, t, tickets, line);
  }

  lemma BusyOrderly(s: System, pid: nat, t: Trimmed, tickets: map<nat, nat>, line: seq<nat>)
    requires Orderly(s.started, line, s.dropped, s.issued) && s.daemon.queue != []
    requires tickets == s.tickets[pid := s.issued] && line == TicketsOf(tickets, s.daemon.queue)
    requires TrimKeeps(s.daemon.queue, pid, t) && pid !in s.daemon.queue
    requires Increasing(TicketsOf(tickets, t.queue))
    ensures Orderly(s.started + StartedBy(tickets, t.events), TicketsOf(tickets, Survivors(t)),
                    s.dropped + DroppedBy(tickets, t.events), s.issued + 1)
  {
    NothingStarted(tickets, t.events);
    var all, rest := TicketsOf(tickets, s.daemon.queue + [pid]), TicketsOf(tickets, Survivors(t));
    assert all == line + [s.issued];
    IncreasingSnoc(line, s.issued);
    StoppedTickets(tickets, s.daemon.queue, pid, t);
    assert rest == TicketsOf(tickets, t.queue) + (if t.proc.Some? then [s.issued] else []);
    assert forall i :: 0 <= i < |t.queue| ==> t.queue[i] in s.daemon.queue;
    TicketsBelow(tickets, s.daemon.queue, t.queue, s.issued);
    IncreasingSnoc(TicketsOf(tickets, t.queue), s.issued);
    assert s.started + [] == s.started;
    Thin(s.started, line, s.dropped, s.issued, all, rest, s.dropped + DroppedBy(tickets, t.events), s.issued + 1);
  }

  lemma TicketsBelow(tickets: map<nat, nat>, queue: seq<nat>, part: seq<nat>, bound: nat)
    requires forall q :: q in part ==> q in queue
    requires forall x :: x in TicketsOf(tickets, queue) ==> x < bound
    ensures forall x :: x in TicketsOf(tickets, part) ==> x < bound
  {
    forall i | 0 <= i < |part|
      ensures Ticket(tickets, part[i]) < bound
    {
      assert part[i] in queue;
      var j :| 0 <= j < |queue| && queue[j] == part[i];
      assert TicketsOf(tickets, queue)[j] in TicketsOf(tickets, queue);
    }
  }

  lemma ReadFair(s: System, step: Step)
    requires Inv(s) && step.Read? && Enabled(s, step)
    ensures Fair(Apply(s, step))
  {
    var pid, name := step.pid, s.servers[step.pid].line.value;
    ReadEffect(s, step);
    SparesRunning(s, step);
    if s.daemon.queue == [] {
      IdleFair(s, pid, name, step.victims, step.killable);
    } else {
      BusyFair(s, pid, name, step.victims, step.killable, Spared(Named(s.daemon, pid, name), pid));
    }
    ReadFields(s, step);
  }

  lemma ReadFields(s: System, step: Step)
    requires WellFormed(s.daemon) && step.Read? && Enabled(s, step)
    requires OrderlyAfter(s, step.pid, ReadOutcome(s, step))
    ensures Fair(Apply(s, step))
  {
  }

  lemma ReapFair(s: System, step: Step)
    requires Inv(s) && step.Reap? && Enabled(s, step)
    ensures Fair(Apply(s, step))
  {
    var s', pid := Apply(s, step), step.pid;
    if s.daemon.table[pid].kind == PostCreate {
      ReapRunningFair(s, step);
    } else if pid in s.daemon.queue {
      ReapWaitingFair(s, step);
    } else {
      RemoveFirstEffect(s.daemon.queue, pid);
      assert s'.dropped == s.dropped;
      assert s'.started == s.started;
    }
  }

  lemma ReapWaitingFair(s: System, step: Step)
    requires Inv(s) && step.Reap? && Enabled(s, step)
    requires s.daemon.table[step.pid].kind == Unknown && step.pid in s.daemon.queue
    ensures Fair(Apply(s, step))
  {
    var s', pid := Apply(s, step), step.pid;
    RemoveFirstEffect(s.daemon.queue, pid);
    LineWithout(s.tickets, s.daemon.queue, pid);
    var line, line' := TicketsOf(s.tickets, s.daemon.queue), TicketsOf(s.tickets, s'.daemon.queue);
    assert s'.dropped == s.dropped + {Ticket(s.tickets, pid)};
    Thin(s.started, line, s.dropped, s.issued, line, line', s'.dropped, s.issued);
  }

  lemma ReapRunningFair(s: System, step: Step)
    requires Inv(s) && step.Reap? && Enabled(s, step)
    requires s.daemon.table[step.pid].kind == PostCreate
    ensures Fair(Apply(s, step))
  {
    var k := RemoveRunning(s.daemon, step.pid, step.killable);
    MovedOnOrderly(s.tickets, s.daemon, step.pid, k, s.started, s.dropped, s.issued);
    ReapFields(s, step);
  }

  lemma ReapFields(s: System, step: Step)
    requires WellFormed(s.daemon) && step.Reap? && Enabled(s, step)
    requires step.pid in s.daemon.table && s.daemon.table[step.pid].kind == PostCreate
    requires var out := Remove(s.daemon, step.pid, step.killable);
      Orderly(s.started + StartedBy(s.tickets, out.events), TicketsOf(s.tickets, out.daemon.queue),
              s.dropped + DroppedBy(s.tickets, out.events), s.issued)
    ensures Fair(Apply(s, step))
  {
    assert Apply(s, step).dropped == s.dropped + DroppedBy(s.tickets, Remove(s.daemon, step.pid, step.killable).events);
  }

  lemma MovedOnOrderly(tickets: map<nat, nat>, d: DaemonView, pid: nat, k: nat, started: seq<nat>, dropped: set<nat>,
      issued: nat)
    requires Orderly(started, TicketsOf(tickets, d.queue), dropped, issued)
    requires 1 <= k <= |d.queue|
    requires k < |d.queue| ==> d.queue[k] in d.table && d.queue[k] != pid
    ensures var out := MovedOn(d, pid, k);
      Orderly(started + StartedBy(tickets, out.events), TicketsOf(tickets, out.daemon.queue),
              dropped + DroppedBy(tickets, out.events), issued)
  {
    var failed := seq(k - 1, i requires 0 <= i < k - 1 => Unreachable(d.queue[i + 1]));
    var events, line := MovedOn(d, pid, k).events, TicketsOf(tickets, d.queue);
    if k < |d.queue| {
      StartedLast(tickets, failed, d.queue[k]);
    } else {
      assert events == failed;
      NothingStarted(tickets, failed);
    }
    forall x
      ensures x in DroppedBy(tickets, events) <==> x in line[1..k]
    {
      FailedTickets(tickets, d.queue, k, x, events);
    }
    assert TicketsOf(tickets, d.queue[k..]) == line[k..];
    Advance(started, line, dropped, issued, k,
            started + StartedBy(tickets, events), dropped + DroppedBy(tickets, events));
  }

  lemma FailedTickets(tickets: map<nat, nat>, queue: seq<nat>, k: nat, x: nat, events: seq<Event>)
    requires 1 <= k <= |queue|
    requires events == seq(k - 1, i requires 0 <= i < k - 1 => Unreachable(queue[i + 1]))
                       + (if k < |queue| then [Event.Continued(queue[k])] else [])
    ensures x in DroppedBy(tickets, events) <==> x in TicketsOf(tickets, queue)[1..k]
  {
    var line := TicketsOf(tickets, queue);
    if x in line[1..k] {
      var i :| 0 <= i < k - 1 && line[1..k][i] == x;
      assert line[i + 1] == x && events[i] == Unreachable(queue[i + 1]);
    }
    if x in DroppedBy(tickets, events) {
      var e :| e in events && !e.Continued? && Ticket(tickets, e.pid) == x;
      var i :| 0 <= i < |events| && events[i] == e;
      assert line[1..k][i] == x;
    }
  }

  // ---- Every run -------------------------------------------------------------------

  ghost predicate Run(s: System, steps: seq<Step>, end: System)
    decreases |steps|
  {
    if steps == [] then end == s
    else WellFormed(s.daemon) && Enabled(s, steps[0]) && Run(Apply(s, steps[0]), steps[1..], end)
  }

  lemma StepKeeps(s: System, step: Step)
    requires Inv(s) && Enabled(s, step)
    ensures Inv(Apply(s, step))
  {
    StepAgrees(s, step);
    match step
    case Read(_, _, _, _, _) => ReadFair(s, step);
    case Reap(_, _) => ReapFair(s, step);
    case _ =>
  }

  lemma {:induction false} RunKeeps(s: System, steps: seq<Step>, end: System)
    requires Inv(s) && Run(s, steps, end)
    ensures Inv(end)
    decreases |steps|
  {
    if steps != [] {
      StepKeeps(s, steps[0]);
      RunKeeps(Apply(s, steps[0]), steps[1..], end);
    }
  }

  ghost predicate Reachable(s: System) { exists steps :: Run(Initial, steps, s) }

  lemma ReachableInv(s: System)
    requires Reachable(s)
    ensures Inv(s)
  {
    var steps :| Run(Initial, steps, s);
    assert Inv(Initial);
    RunKeeps(Initial, steps, s);
  }

  /** Post-create is never run concurrently: among the servers not yet reaped at
      most one was ever sent SIGUSR1, and only such a server is past its wait. */
  lemma MutualExclusion(s: System, p: nat, q: nat)
    requires Reachable(s) && p in s.servers && q in s.servers
    ensures s.servers[p].continued && s.servers[q].continued ==> p == q
    ensures s.servers[p].phase == Running && s.servers[q].phase == Running ==> p == q
  {
    ReachableInv(s);
    assert ServerAgrees(s.servers[p], p, s.daemon) && ServerAgrees(s.servers[q], q, s.daemon);
  }

  /** No lost wake-up: whoever waits in the queue has a continued, not yet
      reaped process in front of it, whose reaping moves the queue on. */
  lemma NoLostWakeUp(s: System, p: nat)
    requires Reachable(s) && p in s.daemon.queue
    ensures NoDuplicates(s.daemon.queue)
    ensures forall q :: q in s.daemon.queue ==> q in s.servers
    ensures s.servers[s.daemon.queue[0]].continued
  {
    ReachableInv(s);
    var head := s.daemon.queue[0];
    assert ServerAgrees(s.servers[head], head, s.daemon);
  }

  /** When the running server is reaped the first of those behind it that can be
      signalled is continued; only those before that one leave the queue. */
  lemma NextIsWoken(s: System, killable: set<nat>) returns (k: nat)
    requires Reachable(s) && s.daemon.queue != [] && s.daemon.queue[0] in s.servers
    requires s.servers[s.daemon.queue[0]].phase == Zombie
    ensures 1 <= k <= |s.daemon.queue| && forall i :: 1 <= i < k ==> s.daemon.queue[i] !in killable
    ensures WellFormed(s.daemon) && Enabled(s, Reap(s.daemon.queue[0], killable))
    ensures var s' := Apply(s, Reap(s.daemon.queue[0], killable));
      && s'.daemon.queue == s.daemon.queue[k..]
      && (k < |s.daemon.queue| ==>
           var next := s.daemon.queue[k]; next in killable && next in s'.servers && s'.servers[next].continued)
      && (forall p :: p in s'.servers ==> p in s.servers && s'.servers[p].phase == s.servers[p].phase)
  {
    ReachableInv(s);
    var head := s.daemon.queue[0];
    assert ServerAgrees(s.servers[head], head, s.daemon);
    k := RemoveRunning(s.daemon, head, killable);
    StepAgrees(s, Reap(head, killable));
    var s' := Apply(s, Reap(head, killable));
    if k < |s.daemon.queue| {
      assert ServerAgrees(s'.servers[s.daemon.queue[k]], s.daemon.queue[k], s'.daemon);
    }
  }

  lemma Then(s: System, step: Step, rest: seq<Step>, end: System)
    requires WellFormed(s.daemon) && Enabled(s, step) && Run(Apply(s, step), rest, end)
    ensures Run(s, [step] + rest, end)
  {
    assert ([step] + rest)[1..] == rest;
  }

  /** The running server leaves, if it has not yet. */
  lemma HeadLeaves(s: System) returns (steps: seq<Step>, end: System)
    requires Reachable(s) && s.daemon.queue != []
    ensures var head := s.daemon.queue[0];
      && (steps == [] || steps == [Exit(head)]) && Run(s, steps, end) && Reachable(end) && end.daemon == s.daemon
      && head in end.servers && end.servers[head].phase == Zombie
      && (forall p :: p in end.servers ==> p in s.servers && (p != head ==> end.servers[p].phase == s.servers[p].phase))
  {
    ReachableInv(s);
    var head := s.daemon.queue[0];
    NoLostWakeUp(s, head);
    if s.servers[head].phase == Zombie {
      steps, end := [], s;
    } else {
      steps, end := [Exit(head)], Apply(s, Exit(head));
      ReachableStep(s, Exit(head));
      Then(s, Exit(head), [], end);
      assert [Exit(head)] + [] == steps;
    }
  }

  /** The queue drains: from any reachable state, the k-th server in line, if it
      can be signalled, is continued after at most k reapings, each preceded by
      the exit of the server that runs, and nothing else. */
  lemma {:induction false} QueueDrains(s: System, k: nat, killable: set<nat>) returns (steps: seq<Step>, end: System)
    requires Reachable(s) && k < |s.daemon.queue| && s.daemon.queue[k] in killable
    ensures Run(s, steps, end) && |steps| <= 2 * k
    ensures forall step :: step in steps ==> step.Exit? || (step.Reap? && step.killable == killable)
    ensures end.daemon.queue == s.daemon.queue[k..]
    ensures var p := s.daemon.queue[k];
      && p in s.servers && p in end.servers && end.servers[p].continued && end.servers[p].phase == s.servers[p].phase
      && Reachable(end)
    decreases k
  {
    if k == 0 {
      NoLostWakeUp(s, s.daemon.queue[0]);
      steps, end := [], s;
    } else {
      var exit, left := HeadLeaves(s);
      var reap := Reap(s.daemon.queue[0], killable);
      var j := NextIsWoken(left, killable);
      var next := Apply(left, reap);
      ReachableStep(left, reap);
      assert next.daemon.queue[k - j] == s.daemon.queue[k];
      var more;
      more, end := QueueDrains(next, k - j, killable);
      Then(left, reap, more, end);
      steps := exit + ([reap] + more);
      if exit == [] {
        assert steps == [reap] + more;
      } else {
        Then(s, exit[0], [reap] + more, end);
      }
      assert next.daemon.queue[k - j..] == s.daemon.queue[k..];
    }
  }

  /** What a waiting server does next: it can go on exactly if a signal reached
      it, runs post-create if it was continued, and leaves if it was stopped. */
  lemma WaitingServerActs(s: System, p: nat)
    requires Reachable(s) && p in s.servers && s.servers[p].phase == Waiting
    ensures Enabled(s, Take(p)) <==> s.servers[p].continued || s.servers[p].interrupted
    ensures s.servers[p].continued ==> WellFormed(s.daemon) && Apply(s, Take(p)).servers[p].phase == Running
    ensures s.servers[p].interrupted ==> WellFormed(s.daemon) && Apply(s, Take(p)).servers[p].phase == Leaving
  {
    ReachableInv(s);
    var srv := s.servers[p];
    assert ServerAgrees(srv, p, s.daemon);
    if srv.pending != [] {
      var first := srv.pending[0];
      assert first in srv.pending && (first == Usr1 || first == Int);
    }
  }

  /** A server stopped while an announcement is read, if it can be signalled, is
      interrupted, and leaves if it waits. */
  lemma StoppedServerLeaves(s: System, step: Step, p: nat)
    requires Reachable(s) && step.Read? && Enabled(s, step) && p in s.servers && p in step.killable
    requires WellFormed(s.daemon) && Event.Stopped(p) in ReadOutcome(s, step).events
    ensures var s' := Apply(s, step);
      && p in s'.servers && s'.servers[p].stopped && s'.servers[p].interrupted && WellFormed(s'.daemon)
      && (s'.servers[p].phase == Waiting ==>
           Enabled(s', Take(p)) && Apply(s', Take(p)).servers[p].phase == Leaving)
  {
    ReachableStep(s, step);
    var s' := Apply(s, step);
    ReachableInv(s');
    if s'.servers[p].phase == Waiting { WaitingServerActs(s', p); }
  }

  /** That happens exactly to the owners of deleted directories, if no two of those
      that wait own the same. */
  lemma DeletedOwnersStopped(s: System, step: Step, p: nat)
    requires Reachable(s) && step.Read? && Enabled(s, step) && WellFormed(s.daemon)
    requires var named := Named(s.daemon, step.pid, s.servers[step.pid].line.value);
      OwnersDiffer(named.table, Trimmed(s.daemon.queue, Some(step.pid), []))
    requires p in s.daemon.queue || p == step.pid
    ensures p in s.servers && p in Apply(s, step).servers && p in Apply(s, step).daemon.table
    ensures var dir := Apply(s, step).daemon.table[p].dirname;
      Apply(s, step).servers[p].stopped <==> dir.Some? && dir.value in step.victims
  {
    ReachableInv(s);
    assert ServerAgrees(s.servers[p], p, s.daemon) && ServerAgrees(s.servers[step.pid], step.pid, s.daemon);
    ReadEffect(s, step);
    SparesRunning(s, step);
    var name := s.servers[step.pid].line.value;
    AnnounceStopsOwners(s.daemon, step.pid, name, step.victims, step.killable,
      Spared(Named(s.daemon, step.pid, name), step.pid));
  }

  /** So draining the queue leads to the k-th server running post-create, if it
      still waits when its turn comes. */
  lemma QueuedServerRuns(s: System, k: nat, killable: set<nat>) returns (steps: seq<Step>, end: System)
    requires Reachable(s) && k < |s.daemon.queue| && s.daemon.queue[k] in killable
    requires s.daemon.queue[k] in s.servers && s.servers[s.daemon.queue[k]].phase == Waiting
    ensures Run(s, steps, end) && |steps| <= 2 * k + 1
    ensures forall step :: step in steps ==>
      step.Exit? || (step.Reap? && step.killable == killable) || step == Take(s.daemon.queue[k])
    ensures s.daemon.queue[k] in end.servers && end.servers[s.daemon.queue[k]].phase == Running
  {
    var p := s.daemon.queue[k];
    var drain, turn := QueueDrains(s, k, killable);
    WaitingServerActs(turn, p);
    end := Apply(turn, Take(p));
    RunSnoc(s, drain, turn, Take(p));
    steps := drain + [Take(p)];
  }

  /** The life of a server: it prepares, waits, then runs post-create or leaves;
      it can exit at any time, and is reaped after that and not before. */
  lemma PhasesAdvance(s: System, step: Step, p: nat)
    requires Reachable(s) && WellFormed(s.daemon) && Enabled(s, step) && p in s.servers
    ensures var s' := Apply(s, step);
      if p in s'.servers then
        var before, after := s.servers[p].phase, s'.servers[p].phase;
        || after == before
        || (before == Preparing && after == Waiting)
        || (before == Waiting && after in {Running, Leaving} && s.servers[p].pending != [])
        || (before != Zombie && after == Zombie)
      else s.servers[p].phase == Zombie
    ensures p !in Apply(s, step).servers <==> step.Reap? && step.pid == p
  {
  }

  /** With a size limit an announcement leaves the location below it or with nothing
      but the spared directory, and deletes nothing while it is below it. */
  lemma ReadTrims(s: System, step: Step)
    requires Reachable(s) && step.Read? && step.mebibytes != 0 && Enabled(s, step)
    ensures var spared := Spared(Named(s.daemon, step.pid, s.servers[step.pid].line.value), step.pid);
      var left := After(step.dirs, step.victims);
      && (Total(left) < LimitBytes(step.mebibytes) || forall x :: x in left ==> x.name == spared)
      && (Total(step.dirs) < LimitBytes(step.mebibytes) ==> step.victims == [])
      && spared !in step.victims
  {
    var spared := Spared(Named(s.daemon, step.pid, s.servers[step.pid].line.value), step.pid);
    TrimOutcome(step.dirs, LimitBytes(step.mebibytes), spared, step.victims);
    if step.victims != [] {
      assert TrimStep(After(step.dirs, step.victims[..0]), LimitBytes(step.mebibytes), spared, step.victims[0]);
    }
  }

  /** Without a size limit nobody is stopped. */
  lemma UnlimitedStopsNobody(s: System, step: Step, p: nat)
    requires Reachable(s) && step.Read? && step.mebibytes == 0 && Enabled(s, step) && WellFormed(s.daemon)
    requires p in s.servers
    ensures p in Apply(s, step).servers && Apply(s, step).servers[p].stopped == s.servers[p].stopped
  {
    ReachableInv(s);
    ReadEffect(s, step);
    SparesRunning(s, step);
    var name := s.servers[step.pid].line.value;
    AnnounceEffect(s.daemon, step.pid, name, step.victims, step.killable,
      Spared(Named(s.daemon, step.pid, name), step.pid));
  }

  /** Who has announced a directory has a ticket. */
  ghost predicate HasTickets(table: map<nat, ProcInfo>, tickets: map<nat, nat>, issued: nat) {
    forall p :: p in table && table[p].dirname.Some? ==> p in tickets && tickets[p] < issued
  }

  ghost predicate Ticketed(s: System) { HasTickets(s.daemon.table, s.tickets, s.issued) }

  lemma NewTicket(d: DaemonView, pid: nat, name: string, out: Outcome, tickets: map<nat, nat>, issued: nat)
    requires pid in d.table && AnnounceKeeps(d, pid, name, out) && HasTickets(d.table, tickets, issued)
    ensures HasTickets(out.daemon.table, tickets[pid := issued], issued + 1)
  {
  }

  lemma ReadTicketed(s: System, step: Step)
    requires Agreement(s) && step.Read? && Enabled(s, step) && Ticketed(s)
    ensures Ticketed(Apply(s, step))
  {
    ReadEffect(s, step);
    NewTicket(s.daemon, step.pid, s.servers[step.pid].line.value, ReadOutcome(s, step), s.tickets, s.issued);
  }

  lemma ReapTicketed(s: System, step: Step)
    requires Agreement(s) && step.Reap? && Enabled(s, step) && Ticketed(s)
    ensures Ticketed(Apply(s, step))
  {
    RemoveEffect(s.daemon, step.pid, step.killable);
  }

  lemma StepTicketed(s: System, step: Step)
    requires Agreement(s) && Enabled(s, step) && Ticketed(s)
    ensures Ticketed(Apply(s, step))
  {
    match step
    case Read(_, _, _, _, _) => ReadTicketed(s, step);
    case Reap(_, _) => ReapTicketed(s, step);
    case _ =>
  }

  lemma {:induction false} RunTicketed(s: System, steps: seq<Step>, end: System)
    requires Inv(s) && Ticketed(s) && Run(s, steps, end)
    ensures Inv(end) && Ticketed(end)
    decreases |steps|
  {
    if steps != [] {
      StepKeeps(s, steps[0]);
      StepTicketed(s, steps[0]);
      RunTicketed(Apply(s, steps[0]), steps[1..], end);
    }
  }

  /** Nobody waits forgotten: the announcement of a waiting server is still to be
      read, which the daemon can do at once, or it was continued, waits in line, or
      was dropped. */
  lemma WaitingAccountedFor(s: System, p: nat)
    requires Reachable(s) && p in s.servers && s.servers[p].phase == Waiting
    ensures if s.servers[p].line.Some? then Enabled(s, Read(p, [], 0, [], {}))
            else
              && p in s.tickets
              && (|| s.tickets[p] in s.started || s.tickets[p] in s.dropped
                  || s.tickets[p] in TicketsOf(s.tickets, s.daemon.queue))
  {
    var steps :| Run(Initial, steps, s);
    RunTicketed(Initial, steps, s);
    assert ServerAgrees(s.servers[p], p, s.daemon);
    if s.servers[p].line.Some? {
      AnnouncesOnce(s, p);
      if s.daemon.queue != [] {
        var head := s.daemon.queue[0];
        assert ServerAgrees(s.servers[head], head, s.daemon);
      }
    }
  }

  /** First come, first served: continued servers were announced in that order,
      whoever still waits was announced after all of them, and an announcement
      that was neither continued nor waits was dropped. */
  lemma FirstComeFirstServed(s: System)
    requires Reachable(s)
    ensures Increasing(s.started)
    ensures Increasing(TicketsOf(s.tickets, s.daemon.queue))
    ensures s.daemon.queue != [] ==>
      s.started != [] && s.started[|s.started| - 1] == Ticket(s.tickets, s.daemon.queue[0])
    ensures forall t: nat :: t < s.issued ==>
              t in s.started || t in s.dropped || t in TicketsOf(s.tickets, s.daemon.queue)
    ensures forall t :: t in s.dropped ==> t !in s.started && t !in TicketsOf(s.tickets, s.daemon.queue)
  {
    ReachableInv(s);
  }

  /** No server is ever sent both signals, and the running server's directory
      is never among those deleted while an announcement is read. */
  lemma NeverBothSignals(s: System, p: nat)
    requires Reachable(s) && p in s.servers
    ensures !(s.servers[p].continued && s.servers[p].stopped)
  {
    ReachableInv(s);
    assert ServerAgrees(s.servers[p], p, s.daemon);
  }

  lemma RunningDirectorySurvives(s: System, step: Step)
    requires Reachable(s) && step.Read? && Enabled(s, step) && step.mebibytes != 0 && s.daemon.queue != []
    ensures s.daemon.queue[0] in s.daemon.table && s.daemon.table[s.daemon.queue[0]].dirname.Some?
    ensures s.daemon.table[s.daemon.queue[0]].dirname.value !in step.victims
  {
    ReachableInv(s);
    AnnouncesOnce(s, step.pid);
    SparesRunning(s, step);
  }

  /** The branch of the daemon that handles a second announcement of the same
      server is unreachable. */
  lemma SecondAnnouncementUnreachable(s: System, step: Step)
    requires Reachable(s) && step.Read? && Enabled(s, step)
    ensures s.daemon.table[step.pid].dirname == None && step.pid !in s.daemon.queue
  {
    ReachableInv(s);
    AnnouncesOnce(s, step.pid);
  }

  /** The listening socket is watched exactly while fewer than the maximum
      number of servers are tracked, so the maximum is never exceeded. */
  lemma AcceptsWhileRoom(s: System)
    requires Reachable(s)
    ensures |s.daemon.order| <= 10
    ensures s.daemon.accepting <==> |s.daemon.order| < 10
    ensures forall p :: p in s.servers <==> p in s.daemon.order
  {
    ReachableInv(s);
  }

  lemma {:induction false} RunSnoc(s: System, steps: seq<Step>, middle: System, step: Step)
    requires Run(s, steps, middle) && WellFormed(middle.daemon) && Enabled(middle, step)
    ensures Run(s, steps + [step], Apply(middle, step))
    decreases |steps|
  {
    if steps == [] {
      assert [step][1..] == [] && steps + [step] == [step];
    } else {
      RunSnoc(Apply(s, steps[0]), steps[1..], middle, step);
      assert (steps + [step])[1..] == steps[1..] + [step];
    }
  }

  lemma ReachableStep(s: System, step: Step)
    requires Reachable(s) && WellFormed(s.daemon) && Enabled(s, step)
    ensures Reachable(Apply(s, step))
  {
    var steps :| Run(Initial, steps, s);
    RunSnoc(Initial, steps, s, step);
  }

  const ANNOUNCED := System(
    DaemonView([7], map[7 := ProcInfo(None, Unknown)], [], true),
    map[7 := Server(Waiting, Some("d"), [], false, false, false)], map[], 0, [], {})

  lemma AnnouncedReached()
    ensures Reachable(ANNOUNCED)
  {
    assert Run(Initial, [], Initial);
    ReachableStep(Initial, Accept(7));
    ReachableStep(Apply(Initial, Accept(7)), Write(7, "d"));
    assert Apply(Apply(Initial, Accept(7)), Write(7, "d")) == ANNOUNCED;
  }

  lemma AnnouncedIsContinued()
    ensures Enabled(ANNOUNCED, Read(7, [], 0, [], {7}))
    ensures var s := Apply(ANNOUNCED, Read(7, [], 0, [], {7}));
      7 in s.servers && s.servers[7] == Server(Waiting, None, [Usr1], true, false, false) && WellFormed(s.daemon)
  {
    AnnounceIdle(ANNOUNCED.daemon, 7, "d", [], {7});
    var events := [Event.Continued(7)];
    assert events[..0] == [];
  }

  /** A server that was continued runs post-create next. */
  lemma ContinuedRuns(s: System, p: nat)
    requires Reachable(s) && WellFormed(s.daemon)
    requires p in s.servers && s.servers[p].phase == Waiting && s.servers[p].pending != []
    requires s.servers[p].pending[0] == Usr1
    ensures exists end :: Reachable(end) && p in end.servers && end.servers[p].phase == Running
  {
    ReachableStep(s, Take(p));
    assert Apply(s, Take(p)).servers[p].phase == Running;
  }

  /** The protocol does get somewhere: a single client's problem is processed. */
  lemma PostCreateHappens()
    ensures exists s, p :: Reachable(s) && p in s.servers && s.servers[p].phase == Running
  {
    AnnouncedReached();
    AnnouncedIsContinued();
    ReachableStep(ANNOUNCED, Read(7, [], 0, [], {7}));
    ContinuedRuns(Apply(ANNOUNCED, Read(7, [], 0, [], {7})), 7);
  }
}
