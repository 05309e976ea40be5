/** The post-create queue of abrtd: which abrt-server may run next, and what is
    trimmed from the dump location while a new one is queued. Each operation is
    defined on values; the class `Daemon` of module `AbrtdState` updates the
    lists in place and is proved to compute exactly those values. */
module Abrtd {
  import opened Common

  const MAX_CLIENT_COUNT := 10

  datatype Kind = Unknown | PostCreate

  datatype ProcInfo = ProcInfo(dirname: Option<string>, kind: Kind)

  /** `order` is `s_processes` and `queue` is `s_dir_queue`, both by pid;
      `accepting` says that the watch on the listening socket is installed. */
  datatype DaemonView = DaemonView(order: seq<nat>, table: map<nat, ProcInfo>, queue: seq<nat>, accepting: bool)

  /** What happens to announced processes: SIGUSR1 was delivered, SIGINT was
      attempted (its result is not looked at), or SIGUSR1 failed and the
      process was taken off the queue. */
  datatype Event = Continued(pid: nat) | Stopped(pid: nat) | Unreachable(pid: nat)

  datatype Outcome = Outcome(daemon: DaemonView, events: seq<Event>)

  datatype Directory = Directory(name: string, size: nat)

  ghost predicate WellFormed(d: DaemonView) {
    && NoDuplicates(d.order)
    && (forall p :: p in d.order <==> p in d.table)
    && NoDuplicates(d.queue)
    && (forall q :: q in d.queue ==> q in d.table && d.table[q].dirname.Some?)
  }

  // ---- Waking the head of the queue --------------------------------------

  /** `killable` holds the processes for which kill() succeeds. */
  function WakeHead(d: DaemonView, killable: set<nat>): (r: Outcome)
    requires forall q :: q in d.queue ==> q in d.table
    decreases |d.queue|
  {
    if d.queue == [] then Outcome(d, [])
    else
      var n := d.queue[0];
      if d.table[n].kind == PostCreate then Outcome(d, [])
      else if n in killable then
        Outcome(d.(table := d.table[n := d.table[n].(kind := PostCreate)]), [Continued(n)])
      else
        var later := WakeHead(d.(queue := d.queue[1..]), killable);
        later.(events := [Unreachable(n)] + later.events)
  }

  // ---- Trimming -----------------------------------------------------------

  function Total(dirs: seq<Directory>): nat {
    if dirs == [] then 0 else dirs[|dirs| - 1].size + Total(dirs[..|dirs| - 1])
  }

  function Without(dirs: seq<Directory>, name: string): (r: seq<Directory>)
    ensures forall x :: x in r <==> x in dirs && x.name != name
    ensures |r| <= |dirs|
    ensures (exists x :: x in dirs && x.name == name) ==> |r| < |dirs|
  {
    if dirs == [] then []
    else if dirs[0].name == name then Without(dirs[1..], name)
    else [dirs[0]] + Without(dirs[1..], name)
  }

  /** The size of the location is that of its parts together. */
  lemma {:induction false} TotalAdds(a: seq<Directory>, b: seq<Directory>, d: Directory)
    ensures Total(a + b) == Total(a) + Total(b)
    ensures Total([d]) == d.size
  {
    if b == [] {
      assert a + b == a;
      assert [d][..0] == [];
    } else {
      assert (a + b)[..|a + b| - 1] == a + b[..|b| - 1];
      TotalAdds(a, b[..|b| - 1], d);
    }
  }

  /** What is left of the dump location after deleting the victims in order. */
  function After(dirs: seq<Directory>, victims: seq<string>): seq<Directory> {
    if victims == [] then dirs
    else Without(After(dirs, victims[..|victims| - 1]), victims[|victims| - 1])
  }

  ghost predicate Deletable(dirs: seq<Directory>, ignored: string, name: string) {
    name != ignored && exists x :: x in dirs && x.name == name
  }

  /** The victims are chosen one at a time, each while the location is still
      too big. */
  ghost predicate TrimSteps(dirs: seq<Directory>, limit: nat, ignored: string, victims: seq<string>) {
    forall k :: 0 <= k < |victims| ==> TrimStep(After(dirs, victims[..k]), limit, ignored, victims[k])
  }

  ghost predicate TrimStep(left: seq<Directory>, limit: nat, ignored: string, victim: string) {
    Total(left) >= limit && Deletable(left, ignored, victim)
  }

  /** The choice only stops when the location is small enough or holds nothing
      but the ignored directory. */
  ghost predicate TrimRun(dirs: seq<Directory>, limit: nat, ignored: string, victims: seq<string>) {
    && TrimSteps(dirs, limit, ignored, victims)
    && (Total(After(dirs, victims)) < limit || forall n :: !Deletable(After(dirs, victims), ignored, n))
  }

  lemma TrimExtends(dirs: seq<Directory>, limit: nat, ignored: string, victims: seq<string>, victim: string)
    requires TrimSteps(dirs, limit, ignored, victims)
    requires Total(After(dirs, victims)) >= limit && Deletable(After(dirs, victims), ignored, victim)
    ensures TrimSteps(dirs, limit, ignored, victims + [victim])
    ensures After(dirs, victims + [victim]) == Without(After(dirs, victims), victim)
  {
    var vs := victims + [victim];
    assert vs[..|victims|] == victims;
    forall k | 0 <= k < |vs|
      ensures TrimStep(After(dirs, vs[..k]), limit, ignored, vs[k])
    {
      assert vs[..k] == victims[..k];
      if k < |victims| { assert TrimStep(After(dirs, victims[..k]), limit, ignored, victims[k]); }
    }
  }

  /** Trimming ends with the location below the limit or holding nothing but
      the ignored directory; exactly the victims are gone, and the ignored
      directory is not one of them. */
  lemma TrimOutcome(dirs: seq<Directory>, limit: nat, ignored: string, victims: seq<string>)
    requires TrimRun(dirs, limit, ignored, victims)
    ensures ignored !in victims
    ensures forall v :: v in victims ==> exists x :: x in dirs && x.name == v
    ensures forall x :: x in After(dirs, victims) <==> x in dirs && x.name !in victims
    ensures Total(After(dirs, victims)) < limit || forall x :: x in After(dirs, victims) ==> x.name == ignored
  {
    Remaining(dirs, victims);
    forall k | 0 <= k < |victims| ensures exists x :: x in dirs && x.name == victims[k] {
      Remaining(dirs, victims[..k]);
      assert TrimStep(After(dirs, victims[..k]), limit, ignored, victims[k]);
    }
    if Total(After(dirs, victims)) >= limit {
      forall x | x in After(dirs, victims)
        ensures x.name == ignored
      {
        assert !Deletable(After(dirs, victims), ignored, x.name);
      }
    }
  }

  lemma {:induction false} Remaining(dirs: seq<Directory>, victims: seq<string>)
    ensures forall x :: x in After(dirs, victims) <==> x in dirs && x.name !in victims
  {
    if victims != [] {
      var last := |victims| - 1;
      Remaining(dirs, victims[..last]);
      assert victims == victims[..last] + [victims[last]];
    }
  }

  /** The limit in bytes as the daemon computes it: in 32-bit unsigned
      arithmetic, before the conversion to double. */
  function LimitBytes(mebibytes: nat): nat { 1024 * 1024 * mebibytes % 0x1_0000_0000 }

  lemma LimitWraps(mebibytes: nat)
    ensures LimitBytes(mebibytes) == 1024 * 1024 * mebibytes <==> mebibytes < 4096
    ensures LimitBytes(mebibytes) <= 1024 * 1024 * mebibytes
    ensures LimitBytes(mebibytes + 4096) == LimitBytes(mebibytes)
  {
  }

  /** Some location is trimmed although it is just as big as the limit. */
  lemma TrimsAtLimit(limit: nat) returns (dirs: seq<Directory>, victims: seq<string>)
    ensures TrimRun(dirs, limit, "b", victims) && |victims| == 1
    ensures Total(After(dirs, victims[..0])) == limit
  {
    dirs, victims := [Directory("a", limit)], ["a"];
    assert victims[..0] == [] && dirs[..0] == [];
    assert dirs[0] in dirs;
    assert After(dirs, victims) == [];
  }

  /** A trimming run that deletes a directory while the location is smaller
      than the configured size. */
  ghost predicate TrimsTooMuch(mebibytes: nat, dirs: seq<Directory>, ignored: string, victims: seq<string>, k: nat) {
    && TrimRun(dirs, LimitBytes(mebibytes), ignored, victims)
    && k < |victims| && Total(After(dirs, victims[..k])) < 1024 * 1024 * mebibytes
  }

  /** The limit wraps around at 4096 MiB: directories may be deleted although
      the location is smaller than configured exactly from there on. */
  lemma TrimsOnlyAboveConfigured(mebibytes: nat)
    ensures (exists dirs, ignored, victims, k :: TrimsTooMuch(mebibytes, dirs, ignored, victims, k)) <==>
      mebibytes >= 4096
  {
    LimitWraps(mebibytes);
    if mebibytes >= 4096 {
      var dirs, victims := TrimsAtLimit(LimitBytes(mebibytes));
      assert TrimsTooMuch(mebibytes, dirs, "b", victims, 0);
    }
  }

  /** The part of a path behind its last slash. */
  function BaseName(path: string): string {
    if '/' in path then BaseName(path[1..]) else path
  }

  /** What is behind the last slash of a path. */
  lemma {:induction false} BaseNameBehindSlash(dir: string, name: string)
    requires '/' !in name
    ensures BaseName(dir + "/" + name) == name && BaseName(name) == name
  {
    var path := dir + "/" + name;
    assert path[|dir|] == '/';
    if dir == "" {
      assert path[1..] == name;
    } else {
      assert path[1..] == dir[1..] + "/" + name;
      BaseNameBehindSlash(dir[1..], name);
    }
  }

  function FirstNamed(table: map<nat, ProcInfo>, queue: seq<nat>, name: string): (r: Option<nat>)
    requires forall q :: q in queue ==> q in table
    ensures r.Some? ==> r.value in queue && table[r.value].dirname == Some(name)
    ensures r.None? ==> forall q :: q in queue ==> table[q].dirname != Some(name)
  {
    if queue == [] then None
    else if table[queue[0]].dirname == Some(name) then Some(queue[0])
    else FirstNamed(table, queue[1..], name)
  }

  /** A queued process is found by its directory only if nobody before it has
      the same. */
  lemma {:induction false} FirstNamedIsFirst(table: map<nat, ProcInfo>, queue: seq<nat>, name: string, k: nat)
    requires forall q :: q in queue ==> q in table
    requires k < |queue| && table[queue[k]].dirname == Some(name)
    requires forall j :: 0 <= j < k ==> table[queue[j]].dirname != Some(name)
    ensures FirstNamed(table, queue, name) == Some(queue[k])
  {
    if k > 0 {
      assert table[queue[0]].dirname != Some(name);
      FirstNamedIsFirst(table, queue[1..], name, k - 1);
    }
  }

  datatype Trimmed = Trimmed(queue: seq<nat>, proc: Option<nat>, events: seq<Event>)

  /** One victim: it belongs to the process being queued, or to a queued
      process, or to nobody. */
  function Evict(table: map<nat, ProcInfo>, t: Trimmed, victim: string): (r: Trimmed)
    requires forall q :: q in t.queue ==> q in table
    requires t.proc.Some? ==> t.proc.value in table
    ensures forall q :: q in r.queue ==> q in table
    ensures r.proc.Some? ==> r.proc == t.proc
  {
    if t.proc.Some? && table[t.proc.value].dirname == Some(victim) then
      t.(proc := None, events := t.events + [Stopped(t.proc.value)])
    else
      match FirstNamed(table, t.queue, victim)
      case None => t
      case Some(q) =>
        RemoveFirstEffect(t.queue, q);
        t.(queue := RemoveFirst(t.queue, q), events := t.events + [Stopped(q)])
  }

  function EvictAll(table: map<nat, ProcInfo>, t: Trimmed, victims: seq<string>): (r: Trimmed)
    requires forall q :: q in t.queue ==> q in table
    requires t.proc.Some? ==> t.proc.value in table
    ensures forall q :: q in r.queue ==> q in table
    ensures r.proc.Some? ==> r.proc == t.proc
  {
    if victims == [] then t
    else Evict(table, EvictAll(table, t, victims[..|victims| - 1]), victims[|victims| - 1])
  }

  // ---- The operations ------------------------------------------------------

  /** Directory spared while `pid` is queued: that of the running process, or
      its own when nothing runs. */
  function Spared(d: DaemonView, pid: nat): string
    requires pid in d.table && d.table[pid].dirname.Some?
    requires d.queue != [] ==> d.queue[0] in d.table && d.table[d.queue[0]].dirname.Some?
  {
    BaseName(if d.queue != [] then d.table[d.queue[0]].dirname.value else d.table[pid].dirname.value)
  }

  /** `victims` are the directories deleted meanwhile; none when trimming is
      switched off. */
  function Enqueue(d: DaemonView, pid: nat, victims: seq<string>, killable: set<nat>): (r: Outcome)
    requires pid in d.table
    requires forall q :: q in d.queue ==> q in d.table
  {
    var t := EvictAll(d.table, Trimmed(d.queue, Some(pid), []), victims);
    var queued := d.(queue := if t.proc.Some? then t.queue + [pid] else t.queue);
    if d.queue != [] then Outcome(queued, t.events)
    else
      var woken := WakeHead(queued, killable);
      woken.(events := t.events + woken.events)
  }

  /** The name of a process's directory arrives; a process that already had
      one leaves the queue first. */
  function Named(d: DaemonView, pid: nat, name: string): (r: DaemonView)
    requires pid in d.table
  {
    d.(table := d.table[pid := d.table[pid].(dirname := Some(name))],
       queue := if d.table[pid].dirname.Some? then RemoveFirst(d.queue, pid) else d.queue)
  }

  function Announce(d: DaemonView, pid: nat, name: string, victims: seq<string>, killable: set<nat>): (r: Outcome)
    requires pid in d.table
    requires forall q :: q in d.queue ==> q in d.table
  {
    RemoveFirstEffect(d.queue, pid);
    Enqueue(Named(d, pid, name), pid, victims, killable)
  }

  function Add(d: DaemonView, pid: nat): (r: DaemonView) {
    DaemonView(d.order + [pid], d.table[pid := ProcInfo(None, Unknown)], d.queue,
               d.accepting && |d.order| + 1 < MAX_CLIENT_COUNT)
  }

  /** The daemon without a process. */
  function Forgotten(d: DaemonView, pid: nat): DaemonView {
    d.(order := RemoveFirst(d.order, pid), table := d.table - {pid}, queue := RemoveFirst(d.queue, pid))
  }

  /** A reaped child leaves both lists; if it was the running one, the next in
      line is woken. The socket is watched again once there is room. */
  function Remove(d: DaemonView, pid: nat, killable: set<nat>): (r: Outcome)
    requires WellFormed(d)
  {
    if pid !in d.table then Outcome(d, [])
    else
      RemoveFirstEffect(d.queue, pid);
      var rest := Forgotten(d, pid);
      var woken := if d.table[pid].kind == PostCreate then WakeHead(rest, killable) else Outcome(rest, []);
      woken.(daemon := woken.daemon.(accepting := woken.daemon.accepting || |woken.daemon.order| < MAX_CLIENT_COUNT))
  }

  // ---- What the operations do ------------------------------------------------

  /** Waking a queue of processes that do not run: those that cannot be
      signalled are dropped from the front, the first that can be is continued
      and becomes the running head, and nothing else changes. */
  lemma {:induction false} WakeHeadEffect(d: DaemonView, killable: set<nat>) returns (k: nat)
    requires forall q :: q in d.queue ==> q in d.table && d.table[q].kind == Unknown
    ensures k <= |d.queue|
    ensures forall i :: 0 <= i < k ==> d.queue[i] !in killable
    ensures k < |d.queue| ==> d.queue[k] in killable
    ensures var r := WakeHead(d, killable);
      && r.daemon.queue == d.queue[k..] && r.daemon.order == d.order && r.daemon.accepting == d.accepting
      && r.daemon.table ==
         (if k < |d.queue| then d.table[d.queue[k] := d.table[d.queue[k]].(kind := PostCreate)] else d.table)
      && r.events == AllUnreachable(d.queue, k) + (if k < |d.queue| then [Continued(d.queue[k])] else [])
    decreases |d.queue|
  {
    if d.queue == [] || d.queue[0] in killable {
      k := 0;
    } else {
      var rest := d.(queue := d.queue[1..]);
      var j := WakeHeadEffect(rest, killable);
      k := j + 1;
      assert rest.queue[j..] == d.queue[k..];
      UnreachableCons(d.queue, k);
    }
  }

  function AllUnreachable(queue: seq<nat>, k: nat): seq<Event>
    requires k <= |queue|
  {
    seq(k, i requires 0 <= i < k => Unreachable(queue[i]))
  }

  lemma UnreachableCons(queue: seq<nat>, k: nat)
    requires 0 < k <= |queue|
    ensures AllUnreachable(queue, k) == [Unreachable(queue[0])] + AllUnreachable(queue[1..], k - 1)
  {
  }

  /** The processes still in the game after trimming. */
  function Survivors(t: Trimmed): seq<nat> {
    if t.proc.Some? then t.queue + [t.proc.value] else t.queue
  }

  ghost predicate TrimKeeps(queue: seq<nat>, pid: nat, t: Trimmed) {
    && NoDuplicates(t.queue)
    && (forall q :: q in t.queue ==> q in queue)
    && (queue != [] ==> t.queue != [] && t.queue[0] == queue[0])
    && (t.proc.Some? ==> t.proc.value == pid)
    && (queue == [] ==> t == Trimmed([], Some(pid), []))
    && (forall e :: e in t.events ==> e.Stopped?)
    && (forall p :: Event.Stopped(p) in t.events <==> p in queue + [pid] && p !in Survivors(t))
  }

  /** Trimming never touches the spared directory's process, and SIGINT goes to
      exactly those processes that lose their place. */
  lemma {:induction false} EvictAllEffect(table: map<nat, ProcInfo>, queue: seq<nat>, pid: nat, victims: seq<string>,
      spared: string)
    requires NoDuplicates(queue) && pid !in queue && pid in table
    requires forall q :: q in queue ==> q in table
    requires spared !in victims
    requires table[if queue != [] then queue[0] else pid].dirname == Some(spared)
    ensures TrimKeeps(queue, pid, EvictAll(table, Trimmed(queue, Some(pid), []), victims))
  {
    if victims != [] {
      EvictAllEffect(table, queue, pid, victims[..|victims| - 1], spared);
      assert victims[|victims| - 1] in victims;
      EvictEffect(table, queue, pid, EvictAll(table, Trimmed(queue, Some(pid), []), victims[..|victims| - 1]),
                  victims[|victims| - 1], spared);
    }
  }

  /** Whoever is stopped was waiting and owned the deleted directory, and
      nobody is only where nobody waiting owned it. */
  lemma EvictStopsOwner(table: map<nat, ProcInfo>, t: Trimmed, victim: string)
    requires forall q :: q in t.queue ==> q in table
    requires t.proc.Some? ==> t.proc.value in table
    ensures var r := Evict(table, t, victim);
      if r.events == t.events then r == t && forall p :: p in Survivors(t) ==> table[p].dirname != Some(victim)
      else exists p :: p in Survivors(t) && table[p].dirname == Some(victim) && r.events == t.events + [Stopped(p)]
  {
    var r := Evict(table, t, victim);
    if t.proc.Some? && table[t.proc.value].dirname == Some(victim) {
      assert t.proc.value in Survivors(t) && r.events == t.events + [Stopped(t.proc.value)];
    } else {
      var found := FirstNamed(table, t.queue, victim);
      if found.Some? {
        assert found.value in Survivors(t) && r.events == t.events + [Stopped(found.value)];
      } else {
        forall p | p in Survivors(t) ensures table[p].dirname != Some(victim) {
          assert p in t.queue || t.proc == Some(p);
        }
      }
    }
  }

  /** All in all only owners of deleted directories are stopped. */
  lemma {:induction false} EvictAllStopsOwners(table: map<nat, ProcInfo>, t: Trimmed, victims: seq<string>)
    requires forall q :: q in t.queue ==> q in table
    requires t.proc.Some? ==> t.proc.value in table
    ensures forall p :: Event.Stopped(p) in EvictAll(table, t, victims).events ==>
      Event.Stopped(p) in t.events || (p in table && table[p].dirname.Some? && table[p].dirname.value in victims)
  {
    if victims != [] {
      var before, last := victims[..|victims| - 1], victims[|victims| - 1];
      EvictAllStopsOwners(table, t, before);
      EvictStopsOwner(table, EvictAll(table, t, before), last);
      assert last in victims && forall v :: v in before ==> v in victims;
    }
  }

  predicate Waits(t: Trimmed, p: nat) { p in t.queue || t.proc == Some(p) }

  /** No two of those that wait own the same directory. */
  ghost predicate OwnersDiffer(table: map<nat, ProcInfo>, t: Trimmed) {
    && NoDuplicates(t.queue) && (t.proc.Some? ==> t.proc.value !in t.queue)
    && (forall p :: Waits(t, p) ==> p in table)
    && forall p, q :: Waits(t, p) && Waits(t, q) && p != q ==>
         table[p].dirname.None? || table[p].dirname != table[q].dirname
  }

  lemma EvictHits(table: map<nat, ProcInfo>, t: Trimmed, victim: string)
    requires OwnersDiffer(table, t)
    ensures forall q :: q in t.queue ==> Waits(t, q)
    ensures t.proc.Some? ==> Waits(t, t.proc.value)
    ensures forall p :: Waits(Evict(table, t, victim), p) <==> Waits(t, p) && table[p].dirname != Some(victim)
    ensures OwnersDiffer(table, Evict(table, t, victim))
  {
    assert forall q :: q in t.queue ==> Waits(t, q);
    assert t.proc.Some? ==> Waits(t, t.proc.value);
    if !(t.proc.Some? && table[t.proc.value].dirname == Some(victim)) {
      var found := FirstNamed(table, t.queue, victim);
      if found.Some? {
        RemoveFirstEffect(t.queue, found.value);
        assert Waits(t, found.value);
      }
    }
  }

  /** Exactly the owners of deleted directories lose their places, if no two of
      those that wait own the same. */
  lemma {:induction false} OwnersLosePlaces(table: map<nat, ProcInfo>, t: Trimmed, victims: seq<string>)
    requires OwnersDiffer(table, t)
    requires forall q :: q in t.queue ==> q in table
    requires t.proc.Some? ==> t.proc.value in table
    ensures var r := EvictAll(table, t, victims);
      && OwnersDiffer(table, r)
      && forall p :: Waits(r, p) <==> Waits(t, p) && (table[p].dirname.None? || table[p].dirname.value !in victims)
  {
    if victims != [] {
      var before, last := victims[..|victims| - 1], victims[|victims| - 1];
      OwnersLosePlaces(table, t, before);
      EvictHits(table, EvictAll(table, t, before), last);
      assert forall v :: v in victims <==> v in before || v == last;
    }
  }

  lemma EvictEffect(table: map<nat, ProcInfo>, queue: seq<nat>, pid: nat, t: Trimmed, victim: string, spared: string)
    requires TrimKeeps(queue, pid, t) && pid !in queue && pid in table
    requires forall q :: q in queue ==> q in table
    requires victim != spared && table[if queue != [] then queue[0] else pid].dirname == Some(spared)
    ensures TrimKeeps(queue, pid, Evict(table, t, victim))
    ensures var r := Evict(table, t, victim);
      if r == t then forall p :: p in Survivors(t) ==> table[p].dirname != Some(victim)
      else exists p :: p in Survivors(t) && p !in Survivors(r) && table[p].dirname == Some(victim)
             && r.events == t.events + [Stopped(p)]
  {
    var r := Evict(table, t, victim);
    EvictStopsOwner(table, t, victim);
    if !(t.proc.Some? && table[pid].dirname == Some(victim)) {
      var found := FirstNamed(table, t.queue, victim);
      if found.Some? {
        RemoveFirstEffect(t.queue, found.value);
        assert r.queue == RemoveFirst(t.queue, found.value);
      }
    }
  }

  // ---- What every operation keeps ----------------------------------------------

  /** The queue is empty or headed by the one process that was continued. */
  ghost predicate HeadRuns(d: DaemonView) {
    && (d.queue != [] ==> d.queue[0] in d.table && d.table[d.queue[0]].kind == PostCreate)
    && (forall p :: p in d.table && d.table[p].kind == PostCreate ==> d.queue != [] && d.queue[0] == p)
  }

  ghost predicate DaemonAgrees(d: DaemonView) {
    && WellFormed(d)
    && HeadRuns(d)
    && d.accepting == (|d.order| < MAX_CLIENT_COUNT)
    && |d.order| <= MAX_CLIENT_COUNT
  }

  /** What reading the first announcement of `pid` does to a daemon: its name
      is stored, everyone else's stays, a process runs afterwards iff it ran
      before or is continued now, and SIGINT only reaches processes outside
      the new queue. */
  ghost predicate AnnounceKeeps(d: DaemonView, pid: nat, name: string, out: Outcome)
    requires pid in d.table
  {
    && DaemonAgrees(out.daemon)
    && out.daemon.order == d.order
    && out.daemon.table.Keys == d.table.Keys
    && (forall p :: p in d.table ==> out.daemon.table[p].dirname == if p == pid then Some(name) else d.table[p].dirname)
    && (forall p :: p in d.table ==>
          (out.daemon.table[p].kind == PostCreate <==>
             d.table[p].kind == PostCreate || Event.Continued(p) in out.events))
    && (forall p :: Event.Stopped(p) in out.events ==>
          p in out.daemon.table && out.daemon.table[p].dirname.Some? && p !in out.daemon.queue)
    && (forall p :: p in out.daemon.queue ==> p in d.queue || p == pid)
  }

  /** With somebody running, the survivors of trimming stay in line and nobody is woken. */
  lemma AnnounceBusy(d: DaemonView, pid: nat, name: string, victims: seq<string>, killable: set<nat>,
      spared: string) returns (t: Trimmed)
    requires DaemonAgrees(d) && pid in d.table && pid !in d.queue && d.table[pid] == ProcInfo(None, Unknown)
    requires spared !in victims && d.queue != [] && d.table[d.queue[0]].dirname == Some(spared)
    ensures TrimKeeps(d.queue, pid, t)
    ensures t == EvictAll(Named(d, pid, name).table, Trimmed(d.queue, Some(pid), []), victims)
    ensures Announce(d, pid, name, victims, killable) == Outcome(Named(d, pid, name).(queue := Survivors(t)), t.events)
  {
    var n := Named(d, pid, name);
    t := EvictAll(n.table, Trimmed(n.queue, Some(pid), []), victims);
    EvictAllEffect(n.table, n.queue, pid, victims, spared);
  }

  lemma WakeOnly(d: DaemonView, pid: nat, killable: set<nat>)
    requires d.queue == [pid] && pid in d.table && d.table[pid].kind == Unknown
    ensures WakeHead(d, killable) ==
      if pid in killable then
        Outcome(d.(table := d.table[pid := d.table[pid].(kind := PostCreate)]), [Continued(pid)])
      else Outcome(d.(queue := []), [Unreachable(pid)])
  {
    var k := WakeHeadEffect(d, killable);
    assert [pid][1..] == [];
  }

  /** With nobody running, the announced process is continued at once or, if it
      cannot be signalled, dropped. */
  lemma AnnounceIdle(d: DaemonView, pid: nat, name: string, victims: seq<string>, killable: set<nat>)
    requires d.queue == [] && pid in d.table && d.table[pid] == ProcInfo(None, Unknown)
    requires name !in victims
    ensures var n := Named(d, pid, name);
      Announce(d, pid, name, victims, killable) ==
        if pid in killable then
          Outcome(n.(queue := [pid], table := n.table[pid := n.table[pid].(kind := PostCreate)]), [Continued(pid)])
        else Outcome(n, [Unreachable(pid)])
  {
    var n := Named(d, pid, name);
    EvictAllEffect(n.table, [], pid, victims, name);
    assert [] + [pid] == [pid];
    WakeOnly(n.(queue := [pid]), pid, killable);
  }

  lemma BusyKeeps(d: DaemonView, pid: nat, name: string, t: Trimmed)
    requires DaemonAgrees(d) && pid in d.table && pid !in d.queue && d.table[pid] == ProcInfo(None, Unknown)
    requires d.queue != [] && TrimKeeps(d.queue, pid, t)
    ensures AnnounceKeeps(d, pid, name, Outcome(Named(d, pid, name).(queue := Survivors(t)), t.events))
  {
    var out := Outcome(Named(d, pid, name).(queue := Survivors(t)), t.events);
    assert d.queue[0] in d.queue;
    assert WellFormed(out.daemon) by {
      assert forall q :: q in Survivors(t) ==> q in d.queue || q == pid;
    }
    assert HeadRuns(out.daemon);
    assert forall p :: Event.Continued(p) !in t.events;
  }

  lemma IdleKeeps(d: DaemonView, pid: nat, name: string, victims: seq<string>, killable: set<nat>)
    requires DaemonAgrees(d) && d.queue == [] && pid in d.table && d.table[pid] == ProcInfo(None, Unknown)
    requires name !in victims
    ensures AnnounceKeeps(d, pid, name, Announce(d, pid, name, victims, killable))
  {
    AnnounceIdle(d, pid, name, victims, killable);
    if pid in killable { ContinuedKeeps(d, pid, name); } else { UnreachedKeeps(d, pid, name); }
  }

  lemma ContinuedKeeps(d: DaemonView, pid: nat, name: string)
    requires DaemonAgrees(d) && d.queue == [] && pid in d.table && d.table[pid] == ProcInfo(None, Unknown)
    ensures var n := Named(d, pid, name);
      var running := n.(queue := [pid], table := n.table[pid := n.table[pid].(kind := PostCreate)]);
      AnnounceKeeps(d, pid, name, Outcome(running, [Continued(pid)]))
  {
  }

  lemma UnreachedKeeps(d: DaemonView, pid: nat, name: string)
    requires DaemonAgrees(d) && d.queue == [] && pid in d.table && d.table[pid] == ProcInfo(None, Unknown)
    ensures AnnounceKeeps(d, pid, name, Outcome(Named(d, pid, name), [Unreachable(pid)]))
  {
  }

  lemma AnnounceEffect(d: DaemonView, pid: nat, name: string, victims: seq<string>, killable: set<nat>, spared: string)
    requires DaemonAgrees(d) && pid in d.table && pid !in d.queue && d.table[pid] == ProcInfo(None, Unknown)
    requires spared !in victims
    requires (if d.queue != [] then d.table[d.queue[0]].dirname else Some(name)) == Some(spared)
    ensures AnnounceKeeps(d, pid, name, Announce(d, pid, name, victims, killable))
    ensures StopsExactly(d, pid, victims, Announce(d, pid, name, victims, killable))
  {
    if d.queue == [] {
      IdleKeeps(d, pid, name, victims, killable);
      AnnounceIdle(d, pid, name, victims, killable);
    } else {
      var t := AnnounceBusy(d, pid, name, victims, killable, spared);
      BusyKeeps(d, pid, name, t);
      EvictAllStopsOwners(Named(d, pid, name).table, Trimmed(d.queue, Some(pid), []), victims);
    }
  }

  /** SIGINT goes to those that waited, or wanted to, and lose their place while
      somebody runs, and each of them owned a deleted directory. */
  ghost predicate StopsExactly(d: DaemonView, pid: nat, victims: seq<string>, out: Outcome) {
    && (forall p :: Event.Stopped(p) in out.events <==>
          d.queue != [] && p in d.queue + [pid] && p !in out.daemon.queue)
    && (forall p :: Event.Stopped(p) in out.events ==>
          p in out.daemon.table && out.daemon.table[p].dirname.Some? && out.daemon.table[p].dirname.value in victims)
  }

  /** And exactly the owners of deleted directories are those, if no two of them
      own the same. */
  lemma AnnounceStopsOwners(d: DaemonView, pid: nat, name: string, victims: seq<string>, killable: set<nat>,
      spared: string)
    requires DaemonAgrees(d) && pid in d.table && pid !in d.queue && d.table[pid] == ProcInfo(None, Unknown)
    requires spared !in victims
    requires (if d.queue != [] then d.table[d.queue[0]].dirname else Some(name)) == Some(spared)
    requires OwnersDiffer(Named(d, pid, name).table, Trimmed(d.queue, Some(pid), []))
    ensures var n, out := Named(d, pid, name), Announce(d, pid, name, victims, killable);
      forall p :: p in d.queue || p == pid ==>
        (Event.Stopped(p) in out.events <==> n.table[p].dirname.Some? && n.table[p].dirname.value in victims)
  {
    AnnounceEffect(d, pid, name, victims, killable, spared);
    if d.queue != [] {
      var t := AnnounceBusy(d, pid, name, victims, killable, spared);
      OwnersLosePlaces(Named(d, pid, name).table, Trimmed(d.queue, Some(pid), []), victims);
      assert forall p :: p in Survivors(t) <==> Waits(t, p);
      assert forall p :: p in d.queue || p == pid ==> Waits(Trimmed(d.queue, Some(pid), []), p);
    }
  }

  /** What removing a reaped process does: it is in no list any more, and a
      process runs afterwards iff it ran before or is continued now. */
  ghost predicate RemoveKeeps(d: DaemonView, pid: nat, out: Outcome) {
    && DaemonAgrees(out.daemon)
    && out.daemon.table.Keys == d.table.Keys - {pid}
    && (forall p :: p in out.daemon.table ==> out.daemon.table[p].dirname == d.table[p].dirname)
    && (forall p :: p in out.daemon.table ==>
          (out.daemon.table[p].kind == PostCreate <==>
             d.table[p].kind == PostCreate || Event.Continued(p) in out.events))
    && (forall e :: e in out.events ==> !e.Stopped?)
    && (forall p :: p in out.daemon.queue ==> p in d.queue && p != pid)
  }

  lemma RemoveEffect(d: DaemonView, pid: nat, killable: set<nat>)
    requires DaemonAgrees(d) && pid in d.table
    ensures RemoveKeeps(d, pid, Remove(d, pid, killable))
  {
    RemoveFirstEffect(d.order, pid);
    var at := RemoveFirstSplit(d.order, pid);
    if d.table[pid].kind == PostCreate {
      var k := RemoveRunning(d, pid, killable);
      RunningKeeps(d, pid, k);
    } else {
      RemoveFirstEffect(d.queue, pid);
    }
  }

  /** The daemon after its running process `pid` left and the queue moved on to
      position k: the processes before k could not be signalled. */
  ghost function MovedOn(d: DaemonView, pid: nat, k: nat): Outcome
    requires 1 <= k <= |d.queue|
    requires k < |d.queue| ==> d.queue[k] in d.table && d.queue[k] != pid
  {
    var order := RemoveFirst(d.order, pid);
    var table := d.table - {pid};
    Outcome(
      DaemonView(order,
                 if k < |d.queue| then table[d.queue[k] := table[d.queue[k]].(kind := PostCreate)] else table,
                 d.queue[k..],
                 d.accepting || |order| < MAX_CLIENT_COUNT),
      seq(k - 1, i requires 0 <= i < k - 1 => Unreachable(d.queue[i + 1]))
      + (if k < |d.queue| then [Event.Continued(d.queue[k])] else []))
  }

  /** When the running process is reaped, the first of the others that can be
      signalled is continued; those before it are dropped. */
  lemma RemoveRunning(d: DaemonView, pid: nat, killable: set<nat>) returns (k: nat)
    requires DaemonAgrees(d) && pid in d.table && d.table[pid].kind == PostCreate
    ensures d.queue != [] && d.queue[0] == pid && 1 <= k <= |d.queue|
    ensures forall i :: 1 <= i < k ==> d.queue[i] !in killable
    ensures k < |d.queue| ==> d.queue[k] in killable && d.queue[k] in d.table && d.queue[k] != pid
    ensures Remove(d, pid, killable) == MovedOn(d, pid, k)
  {
    var rest := d.(order := RemoveFirst(d.order, pid), table := d.table - {pid}, queue := d.queue[1..]);
    var j := WakeHeadEffect(rest, killable);
    k := j + 1;
    assert rest.queue[j..] == d.queue[k..];
    assert seq(j, i requires 0 <= i < j => Unreachable(rest.queue[i]))
      == seq(k - 1, i requires 0 <= i < k - 1 => Unreachable(d.queue[i + 1]));
  }

  lemma Dequeued(queue: seq<nat>, k: nat)
    requires NoDuplicates(queue) && 1 <= k <= |queue|
    ensures NoDuplicates(queue[k..])
    ensures forall q :: q in queue[k..] ==> q in queue && q != queue[0]
  {
    forall q | q in queue[k..]
      ensures q in queue && q != queue[0]
    {
      var i :| 0 <= i < |queue| - k && queue[k..][i] == q;
      assert queue[i + k] == q;
    }
  }

  lemma MovedOnEvents(d: DaemonView, pid: nat, k: nat)
    requires 1 <= k <= |d.queue|
    requires k < |d.queue| ==> d.queue[k] in d.table && d.queue[k] != pid
    ensures var events := MovedOn(d, pid, k).events;
      && (forall p :: Event.Continued(p) in events <==> k < |d.queue| && p == d.queue[k])
      && (forall e :: e in events ==> !e.Stopped?)
  {
    var out := MovedOn(d, pid, k);
    assert k < |d.queue| ==> out.events[k - 1] == Event.Continued(d.queue[k]);
  }

  lemma OrderWithout(d: DaemonView, pid: nat)
    requires WellFormed(d) && pid in d.table
    ensures var order := RemoveFirst(d.order, pid);
      NoDuplicates(order) && |order| == |d.order| - 1 && forall p :: p in order <==> p in d.table && p != pid
  {
    RemoveFirstEffect(d.order, pid);
    var at := RemoveFirstSplit(d.order, pid);
  }

  lemma MovedOnAgrees(d: DaemonView, pid: nat, k: nat)
    requires DaemonAgrees(d) && pid in d.table && d.table[pid].kind == PostCreate
    requires d.queue != [] && d.queue[0] == pid && 1 <= k <= |d.queue|
    requires k < |d.queue| ==> d.queue[k] in d.table && d.queue[k] != pid
    ensures DaemonAgrees(MovedOn(d, pid, k).daemon)
  {
    OrderWithout(d, pid);
    Dequeued(d.queue, k);
    var out := MovedOn(d, pid, k).daemon;
    assert k < |d.queue| ==> out.queue[0] == d.queue[k];
    forall q | q in out.queue
      ensures q in out.table && out.table[q].dirname.Some?
    {
    }
    assert HeadRuns(out);
  }

  lemma RunningKeeps(d: DaemonView, pid: nat, k: nat)
    requires DaemonAgrees(d) && pid in d.table && d.table[pid].kind == PostCreate
    requires d.queue != [] && d.queue[0] == pid && 1 <= k <= |d.queue|
    requires k < |d.queue| ==> d.queue[k] in d.table && d.queue[k] != pid
    ensures RemoveKeeps(d, pid, MovedOn(d, pid, k))
  {
    Dequeued(d.queue, k);
    MovedOnEvents(d, pid, k);
    MovedOnAgrees(d, pid, k);
  }

  // ---- The lists stay consistent, whatever is announced ------------------------

  lemma {:induction false} WakeHeadWellFormed(d: DaemonView, killable: set<nat>)
    requires WellFormed(d)
    ensures WellFormed(WakeHead(d, killable).daemon)
    decreases |d.queue|
  {
    if d.queue != [] && d.table[d.queue[0]].kind != PostCreate && d.queue[0] !in killable {
      assert forall q :: q in d.queue[1..] ==> q in d.queue;
      WakeHeadWellFormed(d.(queue := d.queue[1..]), killable);
    }
  }

  lemma {:induction false} EvictAllSubset(table: map<nat, ProcInfo>, t: Trimmed, victims: seq<string>)
    requires NoDuplicates(t.queue)
    requires forall q :: q in t.queue ==> q in table
    requires t.proc.Some? ==> t.proc.value in table
    ensures NoDuplicates(EvictAll(table, t, victims).queue)
    ensures forall q :: q in EvictAll(table, t, victims).queue ==> q in t.queue
  {
    if victims != [] {
      var before := EvictAll(table, t, victims[..|victims| - 1]);
      EvictAllSubset(table, t, victims[..|victims| - 1]);
      var found := FirstNamed(table, before.queue, victims[|victims| - 1]);
      if found.Some? { RemoveFirstEffect(before.queue, found.value); }
    }
  }

  lemma NamedWellFormed(d: DaemonView, pid: nat, name: string)
    requires WellFormed(d) && pid in d.table
    ensures WellFormed(Named(d, pid, name)) && pid !in Named(d, pid, name).queue
  {
    RemoveFirstEffect(d.queue, pid);
  }

  lemma EnqueueWellFormed(d: DaemonView, pid: nat, victims: seq<string>, killable: set<nat>)
    requires WellFormed(d) && pid in d.table && d.table[pid].dirname.Some? && pid !in d.queue
    ensures WellFormed(Enqueue(d, pid, victims, killable).daemon)
  {
    var t := EvictAll(d.table, Trimmed(d.queue, Some(pid), []), victims);
    EvictAllSubset(d.table, Trimmed(d.queue, Some(pid), []), victims);
    var queue := if t.proc.Some? then t.queue + [pid] else t.queue;
    assert forall q :: q in queue ==> q in d.queue || q == pid;
    WakeHeadWellFormed(d.(queue := queue), killable);
  }

  lemma RemoveWellFormed(d: DaemonView, pid: nat, killable: set<nat>)
    requires WellFormed(d)
    ensures WellFormed(Remove(d, pid, killable).daemon)
  {
    if pid in d.table {
      RemoveFirstEffect(d.queue, pid);
      OrderWithout(d, pid);
      WakeHeadWellFormed(Forgotten(d, pid), killable);
    }
  }
}
