/** abrtd's lists as the daemon holds them: process records that both lists
    share and that are updated in place. Each method is proved to compute the
    operation of module `Abrtd` with the same role. */
module AbrtdState {
  import opened Common
  import opened Abrtd

  class ServerProc {
    const pid: nat
    var dirname: Option<string>
    var kind: Kind

    constructor (pid: nat)
      ensures this.pid == pid && dirname == None && kind == Unknown
    {
      this.pid := pid;
      dirname, kind := None, Unknown;
    }
  }

  ghost predicate Choice(dirs: seq<Directory>, ignored: string, worst: Option<string>) {
    match worst
    case Some(name) => Deletable(dirs, ignored, name)
    case None => forall n :: !Deletable(dirs, ignored, n)
  }

  /** The size of the whole dump location and, unless nothing but the ignored
      directory is there, some other directory to delete. */
  method FindLargest(dirs: seq<Directory>, ignored: string) returns (total: nat, worst: Option<string>)
    ensures total == Total(dirs) && Choice(dirs, ignored, worst)
  {
    total, worst := 0, None;
    for i := 0 to |dirs|
      invariant total == Total(dirs[..i])
      invariant worst.Some? ==> Deletable(dirs, ignored, worst.value)
      invariant worst.None? ==> forall k :: 0 <= k < i ==> dirs[k].name == ignored
    {
      assert dirs[..i + 1][..i] == dirs[..i];
      total := total + dirs[i].size;
      if dirs[i].name != ignored {
        assert dirs[i] in dirs;
        var better: bool := *;
        if worst.None? || better { worst := Some(dirs[i].name); }
      }
    }
    assert dirs[..|dirs|] == dirs;
  }

  ghost function Pids(procs: seq<ServerProc>): (r: seq<nat>)
    ensures |r| == |procs| && forall i :: 0 <= i < |r| ==> r[i] == procs[i].pid
  {
    seq(|procs|, i requires 0 <= i < |procs| => procs[i].pid)
  }

  ghost predicate Distinct(procs: seq<ServerProc>) {
    forall i, j :: 0 <= i < j < |procs| ==> procs[i].pid != procs[j].pid
  }

  ghost predicate Tracked(queue: seq<ServerProc>, procs: seq<ServerProc>) {
    forall q :: q in queue ==> q in procs
  }

  lemma SamePid(procs: seq<ServerProc>, p: ServerProc, q: ServerProc)
    requires Distinct(procs) && p in procs && q in procs && p.pid == q.pid
    ensures p == q
  {
    var i :| 0 <= i < |procs| && procs[i] == p;
    var j :| 0 <= j < |procs| && procs[j] == q;
  }

  lemma {:induction false} PidsWithout(procs: seq<ServerProc>, queue: seq<ServerProc>, p: ServerProc)
    requires Distinct(procs) && Tracked(queue, procs) && p in procs
    ensures Pids(RemoveFirst(queue, p)) == RemoveFirst(Pids(queue), p.pid)
    ensures Tracked(RemoveFirst(queue, p), procs)
  {
    if queue != [] {
      assert Pids(queue)[1..] == Pids(queue[1..]);
      PidsWithout(procs, queue[1..], p);
      if queue[0].pid == p.pid { SamePid(procs, queue[0], p); }
      assert Pids([queue[0]] + RemoveFirst(queue[1..], p)) == [queue[0].pid] + Pids(RemoveFirst(queue[1..], p));
    }
  }

  lemma ProcsWithout(procs: seq<ServerProc>, p: ServerProc)
    requires Distinct(procs) && p in procs
    ensures var rest := RemoveFirst(procs, p);
      && Pids(rest) == RemoveFirst(Pids(procs), p.pid)
      && Distinct(rest)
      && (forall q :: q in rest <==> q in procs && q != p)
      && (forall k :: k in Pids(rest) <==> k in Pids(procs) && k != p.pid)
  {
    var rest := RemoveFirst(procs, p);
    PidsWithout(procs, procs, p);
    var at := RemoveFirstSplit(procs, p);
    assert forall i :: 0 <= i < |rest| ==> rest[i] == if i < at then procs[i] else procs[i + 1];
    RemoveFirstEffect(procs, p);
    assert NoDuplicates(Pids(procs));
    RemoveFirstEffect(Pids(procs), p.pid);
  }

  /** The daemon's lists. `view` is their value and is kept up to date. */
  class Daemon {
    var processes: seq<ServerProc>
    var dirQueue: seq<ServerProc>
    var accepting: bool
    ghost var view: DaemonView

    ghost predicate Valid()
      reads this, processes
    {
      && Distinct(processes)
      && Tracked(dirQueue, processes)
      && view.order == Pids(processes)
      && view.queue == Pids(dirQueue)
      && view.accepting == accepting
      && (forall p :: p in processes ==> p.pid in view.table && view.table[p.pid] == ProcInfo(p.dirname, p.kind))
      && (forall k :: k in view.table ==> k in view.order)
    }

    constructor ()
      ensures Valid() && view == DaemonView([], map[], [], true)
    {
      processes, dirQueue, accepting := [], [], true;
      view := DaemonView([], map[], [], true);
    }

    lemma QueueInTable()
      requires Valid()
      ensures forall q :: q in view.queue ==> q in view.table
    {
      forall i | 0 <= i < |dirQueue|
        ensures dirQueue[i].pid in view.table
      {
        assert dirQueue[i] in dirQueue;
      }
    }

    // ---- Single updates ----

    method DropHead()
      requires Valid() && dirQueue != []
      modifies this`dirQueue, this`view
      ensures Valid() && dirQueue == old(dirQueue)[1..]
      ensures view == old(view).(queue := old(view).queue[1..])
    {
      dirQueue := dirQueue[1..];
      view := view.(queue := view.queue[1..]);
    }

    method Unqueue(p: ServerProc)
      requires Valid() && p in processes
      modifies this`dirQueue, this`view
      ensures Valid() && dirQueue == RemoveFirst(old(dirQueue), p)
      ensures view == old(view).(queue := RemoveFirst(old(view).queue, p.pid))
    {
      PidsWithout(processes, dirQueue, p);
      dirQueue := RemoveFirst(dirQueue, p);
      view := view.(queue := RemoveFirst(view.queue, p.pid));
    }

    method Append(p: ServerProc)
      requires Valid() && p in processes
      modifies this`dirQueue, this`view
      ensures Valid() && dirQueue == old(dirQueue) + [p]
      ensures view == old(view).(queue := old(view).queue + [p.pid])
    {
      dirQueue := dirQueue + [p];
      view := view.(queue := view.queue + [p.pid]);
    }

    method WakeUp(n: ServerProc)
      requires Valid() && n in processes
      modifies n`kind, this`view
      ensures Valid() && n.pid in old(view).table
      ensures view == old(view).(table := old(view).table[n.pid := old(view).table[n.pid].(kind := PostCreate)])
    {
      n.kind := PostCreate;
      view := view.(table := view.table[n.pid := view.table[n.pid].(kind := PostCreate)]);
      OthersDiffer(n);
    }

    method SetName(n: ServerProc, name: string)
      requires Valid() && n in processes
      modifies n`dirname, this`view
      ensures Valid() && n.pid in old(view).table && n.dirname == Some(name)
      ensures view == old(view).(table := old(view).table[n.pid := old(view).table[n.pid].(dirname := Some(name))])
    {
      n.dirname := Some(name);
      view := view.(table := view.table[n.pid := view.table[n.pid].(dirname := Some(name))]);
      OthersDiffer(n);
    }

    lemma OthersDiffer(n: ServerProc)
      requires Distinct(processes) && n in processes
      ensures forall p :: p in processes && p != n ==> p.pid != n.pid
    {
      forall p | p in processes && p != n
        ensures p.pid != n.pid
      {
        if p.pid == n.pid { SamePid(processes, p, n); }
      }
    }

    // ---- Waking ----

    /** Drops processes from the front that wait but cannot be signalled. */
    method SkipUnreachable(killable: set<nat>) returns (ghost events: seq<Event>)
      requires Valid()
      modifies this`dirQueue, this`view
      ensures Valid()
      ensures forall q :: q in old(view).queue ==> q in old(view).table
      ensures forall q :: q in view.queue ==> q in view.table
      ensures Ahead(events, WakeHead(view, killable)) == WakeHead(old(view), killable)
      ensures dirQueue == [] || dirQueue[0].kind == PostCreate || dirQueue[0].pid in killable
    {
      events := [];
      QueueInTable();
      while dirQueue != [] && dirQueue[0].kind != PostCreate && dirQueue[0].pid !in killable
        invariant Valid()
        invariant forall q :: q in view.queue ==> q in view.table
        invariant Ahead(events, WakeHead(view, killable)) == WakeHead(old(view), killable)
        decreases |dirQueue|
      {
        assert dirQueue[0] in dirQueue;
        SkipHead(view, killable, events);
        events := events + [Unreachable(dirQueue[0].pid)];
        DropHead();
      }
    }

    /** Wakes the first queued process that can be signalled, unless the head
        runs already; kill() succeeds for the processes in `killable`. */
    method WakeNext(killable: set<nat>) returns (ghost events: seq<Event>)
      requires Valid()
      modifies this`dirQueue, this`view, processes
      ensures Valid()
      ensures forall q :: q in old(view).queue ==> q in old(view).table
      ensures Outcome(view, events) == WakeHead(old(view), killable)
    {
      events := SkipUnreachable(killable);
      if dirQueue != [] {
        var n := dirQueue[0];
        assert n in dirQueue;
        if n.kind != PostCreate {
          events := events + [Event.Continued(n.pid)];
          WakeUp(n);
        }
      }
    }

    // ---- Trimming ----

    method FindQueued(name: string) returns (found: ServerProc?)
      requires Valid()
      ensures found != null ==> found in dirQueue
      ensures forall q :: q in view.queue ==> q in view.table
      ensures FirstNamed(view.table, view.queue, name) == ProcOf(found)
    {
      QueueInTable();
      found := null;
      var i := 0;
      while i < |dirQueue| && found == null
        invariant 0 <= i <= |dirQueue|
        invariant forall q :: q in view.queue[i..] ==> q in view.table
        invariant found != null ==> found in dirQueue && FirstNamed(view.table, view.queue, name) == Some(found.pid)
        invariant found == null ==>
          FirstNamed(view.table, view.queue, name) == FirstNamed(view.table, view.queue[i..], name)
      {
        assert dirQueue[i] in dirQueue;
        assert view.queue[i..][1..] == view.queue[i + 1..];
        if dirQueue[i].dirname == Some(name) { found := dirQueue[i]; }
        i := i + 1;
      }
    }

    /** Takes the owner of a deleted directory out of the game: the process
        about to be queued (`survivor`) or one in the queue. */
    method EvictOwner(survivor: ServerProc?, victim: string, ghost before: seq<Event>)
        returns (remaining: ServerProc?, ghost events: seq<Event>)
      requires Valid() && (survivor != null ==> survivor in processes)
      modifies this`dirQueue, this`view
      ensures Valid()
      ensures remaining == null || remaining == survivor
      ensures view == old(view).(queue := view.queue)
      ensures forall q :: q in old(view).queue ==> q in old(view).table
      ensures survivor != null ==> survivor.pid in old(view).table
      ensures Trimmed(view.queue, ProcOf(remaining), events)
           == Evict(old(view).table, Trimmed(old(view).queue, ProcOf(survivor), before), victim)
    {
      QueueInTable();
      remaining, events := survivor, before;
      if survivor != null && survivor.dirname == Some(victim) {
        events := before + [Event.Stopped(survivor.pid)];
        remaining := null;
      } else {
        var owner := FindQueued(victim);
        if owner != null {
          events := before + [Event.Stopped(owner.pid)];
          Unqueue(owner);
        }
      }
    }

    /** State between two victims; `start` is the daemon before the first. */
    ghost predicate Trimming(start: DaemonView, proc: ServerProc, survivor: ServerProc?, victims: seq<string>,
        events: seq<Event>)
      reads this, processes
    {
      && Valid() && proc in processes && (survivor == null || survivor == proc)
      && view == start.(queue := view.queue)
      && proc.pid in start.table && (forall q :: q in start.queue ==> q in start.table)
      && Trimmed(view.queue, ProcOf(survivor), events) ==
         EvictAll(start.table, Trimmed(start.queue, Some(proc.pid), []), victims)
    }

    method TrimOne(ghost start: DaemonView, proc: ServerProc, survivor: ServerProc?, victim: string,
        ghost victims: seq<string>, ghost events: seq<Event>)
        returns (remaining: ServerProc?, ghost events': seq<Event>)
      requires Trimming(start, proc, survivor, victims, events)
      modifies this`dirQueue, this`view
      ensures Trimming(start, proc, remaining, victims + [victim], events')
    {
      EvictAllExtends(start.table, Trimmed(start.queue, Some(proc.pid), []), victims, victim);
      remaining, events' := EvictOwner(survivor, victim, events);
    }

    /** Deletes directories until the location is small enough. The result is
        the process to be queued, or null once its own directory went. */
    method Trim(proc: ServerProc, dirs: seq<Directory>, limit: nat, ignored: string)
        returns (survivor: ServerProc?, left: seq<Directory>, ghost victims: seq<string>, ghost events: seq<Event>)
      requires Valid() && proc in processes
      modifies this`dirQueue, this`view
      ensures Trimming(old(view), proc, survivor, victims, events)
      ensures TrimRun(dirs, limit, ignored, victims) && left == After(dirs, victims)
    {
      survivor, left, victims, events := proc, dirs, [], [];
      QueueInTable();
      var total, worst := FindLargest(left, ignored);
      while total >= limit && worst.Some?
        invariant Trimming(old(view), proc, survivor, victims, events)
        invariant left == After(dirs, victims) && TrimSteps(dirs, limit, ignored, victims)
        invariant total == Total(left) && Choice(left, ignored, worst)
        decreases |left|
      {
        TrimExtends(dirs, limit, ignored, victims, worst.value);
        survivor, events := TrimOne(old(view), proc, survivor, worst.value, victims, events);
        victims := victims + [worst.value];
        left := Without(left, worst.value);
        total, worst := FindLargest(left, ignored);
      }
    }

    // ---- The operations ----

    /** `mebibytes` is the configured limit; zero switches trimming off. */
    method QueuePostCreate(proc: ServerProc, dirs: seq<Directory>, mebibytes: nat, killable: set<nat>)
        returns (left: seq<Directory>, ghost victims: seq<string>, ghost events: seq<Event>)
      requires Valid() && proc in processes && proc.dirname.Some?
      requires forall q :: q in dirQueue ==> q.dirname.Some?
      modifies this`dirQueue, this`view, processes
      ensures Valid() && Queueable(old(view), proc.pid)
      ensures if mebibytes == 0 then victims == []
              else TrimRun(dirs, LimitBytes(mebibytes), Spared(old(view), proc.pid), victims)
      ensures left == After(dirs, victims)
      ensures Outcome(view, events) == Enqueue(old(view), proc.pid, victims, killable)
    {
      Announced(proc);
      var running := if dirQueue == [] then null else dirQueue[0];
      var survivor: ServerProc? := proc;
      left, victims, events := dirs, [], [];
      if mebibytes != 0 {
        var ignored := BaseName(if running != null then running.dirname.value else proc.dirname.value);
        survivor, left, victims, events := Trim(proc, dirs, LimitBytes(mebibytes), ignored);
      }
      events := Settle(old(view), proc, survivor, running, victims, events, killable);
    }

    lemma Announced(proc: ServerProc)
      requires Valid() && proc in processes && proc.dirname.Some?
      requires forall q :: q in dirQueue ==> q.dirname.Some?
      ensures Queueable(view, proc.pid)
      ensures view.table[proc.pid].dirname == proc.dirname
      ensures dirQueue != [] ==> dirQueue[0].dirname.Some? && view.table[view.queue[0]].dirname == dirQueue[0].dirname
    {
      QueueInTable();
      forall i | 0 <= i < |dirQueue|
        ensures view.table[view.queue[i]].dirname == dirQueue[i].dirname && dirQueue[i].dirname.Some?
      {
        assert dirQueue[i] in dirQueue;
      }
    }

    /** Queues the process that survived trimming and, when nothing ran before,
        wakes the head. */
    method Settle(ghost start: DaemonView, proc: ServerProc, survivor: ServerProc?, running: ServerProc?,
                  ghost victims: seq<string>, ghost events: seq<Event>, killable: set<nat>)
        returns (ghost all: seq<Event>)
      requires Trimming(start, proc, survivor, victims, events)
      requires running == null <==> start.queue == []
      modifies this`dirQueue, this`view, processes
      ensures Valid()
      ensures proc.pid in start.table && forall q :: q in start.queue ==> q in start.table
      ensures Outcome(view, all) == Enqueue(start, proc.pid, victims, killable)
    {
      all := events;
      if survivor != null {
        Append(survivor);
      }
      if running == null {
        ghost var woken := WakeNext(killable);
        all := all + woken;
      }
    }

    /** A client was accepted and its server forked. */
    method AddProc(pid: nat)
      requires Valid() && WellFormed(view) && pid !in view.table
      modifies this
      ensures Valid() && WellFormed(view)
      ensures view == Add(old(view), pid)
    {
      var proc := new ServerProc(pid);
      forall p | p in processes
        ensures p.pid != pid
      {
        assert p.pid in view.table;
      }
      processes := processes + [proc];
      view := view.(order := view.order + [pid], table := view.table[pid := ProcInfo(None, Unknown)]);
      if |processes| >= MAX_CLIENT_COUNT {
        accepting := false;
      }
      view := view.(accepting := accepting);
    }

    /** The line naming a new problem directory arrives from a tracked server. */
    method ReadAnnouncement(proc: ServerProc, name: string, dirs: seq<Directory>, mebibytes: nat, killable: set<nat>)
        returns (left: seq<Directory>, ghost victims: seq<string>, ghost events: seq<Event>)
      requires Valid() && WellFormed(view) && proc in processes
      modifies this`dirQueue, this`view, processes
      ensures Valid() && WellFormed(view)
      ensures proc.pid in old(view).table && forall q :: q in old(view).queue ==> q in old(view).table
      ensures Queueable(Named(old(view), proc.pid, name), proc.pid)
      ensures if mebibytes == 0 then victims == []
              else TrimRun(dirs, LimitBytes(mebibytes), Spared(Named(old(view), proc.pid, name), proc.pid), victims)
      ensures left == After(dirs, victims)
      ensures Outcome(view, events) == Announce(old(view), proc.pid, name, victims, killable)
    {
      NamedWellFormed(view, proc.pid, name);
      if proc.dirname != None {
        Unqueue(proc);
      }
      SetName(proc, name);
      QueuedAreNamed();
      left, victims, events := QueuePostCreate(proc, dirs, mebibytes, killable);
      EnqueueWellFormed(Named(old(view), proc.pid, name), proc.pid, victims, killable);
    }

    lemma QueuedAreNamed()
      requires Valid() && WellFormed(view)
      ensures forall q :: q in dirQueue ==> q.dirname.Some?
    {
      forall q | q in dirQueue
        ensures q.dirname.Some?
      {
        var i :| 0 <= i < |dirQueue| && dirQueue[i] == q;
        assert view.queue[i] in view.queue;
      }
    }

    method FindProc(pid: nat) returns (proc: ServerProc?)
      requires Valid()
      ensures if proc == null then pid !in view.table else proc in processes && proc.pid == pid
    {
      proc := null;
      var i := 0;
      while i < |processes| && proc == null
        invariant 0 <= i <= |processes|
        invariant proc == null ==> forall k :: 0 <= k < i ==> processes[k].pid != pid
        invariant proc != null ==> proc in processes && proc.pid == pid
      {
        if processes[i].pid == pid { proc := processes[i]; }
        i := i + 1;
      }
    }

    method Untrack(proc: ServerProc)
      requires Valid() && proc in processes && proc !in dirQueue
      modifies this`processes, this`view
      ensures Valid() && processes == RemoveFirst(old(processes), proc)
      ensures view == old(view).(order := RemoveFirst(old(view).order, proc.pid), table := old(view).table - {proc.pid})
    {
      ProcsWithout(processes, proc);
      OthersDiffer(proc);
      processes := RemoveFirst(processes, proc);
      view := view.(order := RemoveFirst(view.order, proc.pid), table := view.table - {proc.pid});
    }

    lemma QueueDistinct()
      requires Valid() && NoDuplicates(view.queue)
      ensures NoDuplicates(dirQueue)
    {
      forall i, j | 0 <= i < j < |dirQueue|
        ensures dirQueue[i] != dirQueue[j]
      {
        assert view.queue[i] != view.queue[j];
      }
    }

    /** Takes a process out of both lists. */
    method Forget(proc: ServerProc)
      requires Valid() && NoDuplicates(view.queue) && proc in processes
      modifies this`processes, this`dirQueue, this`view
      ensures Valid() && view == Forgotten(old(view), proc.pid)
      ensures forall p :: p in processes ==> p in old(processes)
    {
      QueueDistinct();
      RemoveFirstEffect(dirQueue, proc);
      RemoveFirstEffect(processes, proc);
      Unqueue(proc);
      Untrack(proc);
    }

    /** A child was reaped. */
    method RemoveProc(pid: nat, killable: set<nat>) returns (ghost events: seq<Event>)
      requires Valid() && WellFormed(view)
      modifies this, processes
      ensures Valid() && WellFormed(view)
      ensures Outcome(view, events) == Remove(old(view), pid, killable)
    {
      RemoveWellFormed(view, pid, killable);
      var proc := FindProc(pid);
      if proc == null {
        events := [];
      } else {
        events := Detach(proc, killable);
        UpdateWatch();
      }
    }

    method Detach(proc: ServerProc, killable: set<nat>) returns (ghost events: seq<Event>)
      requires Valid() && WellFormed(view) && proc in processes
      modifies this, processes
      ensures Valid() && proc.pid in old(view).table
      ensures var rest := Forgotten(old(view), proc.pid);
        && (forall q :: q in rest.queue ==> q in rest.table)
        && Outcome(view, events) ==
           if old(view).table[proc.pid].kind == PostCreate then WakeHead(rest, killable) else Outcome(rest, [])
    {
      events := [];
      var running := proc.kind == PostCreate;
      Forget(proc);
      QueueInTable();
      assert forall i :: 0 <= i < |processes| ==> processes[i] in old(processes);
      if running {
        events := WakeNext(killable);
      }
    }

    method UpdateWatch()
      requires Valid()
      modifies this`accepting, this`view
      ensures Valid()
      ensures view == old(view).(accepting := old(view).accepting || |old(view).order| < MAX_CLIENT_COUNT)
    {
      if |processes| < MAX_CLIENT_COUNT && !accepting {
        accepting := true;
      }
      view := view.(accepting := accepting);
    }
  }

  /** `pid` and everybody in the queue have announced their directories. */
  ghost predicate Queueable(d: DaemonView, pid: nat) {
    && pid in d.table && d.table[pid].dirname.Some?
    && forall q :: q in d.queue ==> q in d.table && d.table[q].dirname.Some?
  }

  ghost function ProcOf(p: ServerProc?): Option<nat> { if p == null then None else Some(p.pid) }

  lemma EvictAllExtends(table: map<nat, ProcInfo>, t: Trimmed, victims: seq<string>, victim: string)
    requires forall q :: q in t.queue ==> q in table
    requires t.proc.Some? ==> t.proc.value in table
    ensures EvictAll(table, t, victims + [victim]) == Evict(table, EvictAll(table, t, victims), victim)
  {
    assert (victims + [victim])[..|victims|] == victims;
  }

  ghost function Ahead(events: seq<Event>, out: Outcome): Outcome { out.(events := events + out.events) }

  lemma SkipHead(d: DaemonView, killable: set<nat>, events: seq<Event>)
    requires forall q :: q in d.queue ==> q in d.table
    requires d.queue != [] && d.table[d.queue[0]].kind != PostCreate && d.queue[0] !in killable
    ensures Ahead(events, WakeHead(d, killable))
         == Ahead(events + [Unreachable(d.queue[0])], WakeHead(d.(queue := d.queue[1..]), killable))
  {
  }
}
