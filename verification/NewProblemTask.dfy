/** The NewProblem task: a temporary entry is created, perhaps left to its
    author for a while, and handed to the daemon. The main loop starts, cancels
    and finishes the task while a thread runs it, so a run of the thread is
    split where the main loop can get in between. First the steps on values,
    then the objects. */
module NewProblemTask {
  import opened Common

  datatype Status = New | Running | Stopped | Canceled | Failed | Done

  datatype EntryState = Temporary | Complete

  datatype Response = NoEntry | OwnEntry(id: nat) | OtherEntry(path: string) | ErrorMessage

  /** Where the thread is; `Returned` holds what `run` handed to the GTask. */
  datatype Thread = Idle | Begun | Created | Notifying | Returned(code: int, error: bool)

  const CODE_ERROR := -1
  const CODE_STOP := 0
  const CODE_DONE := 1
  const CODE_CANCELLED := 2

  const ACCEPTED := 0
  const FAILED := 1
  const DUPLICATE := 2
  const DROPPED := 3
  const INVALID_DATA := 4

  /** `cancellable` is None between runs of the thread; `entries` are the
      entries this task registered with the service and that still are, `obj`
      the one it holds; `made` numbers them. */
  datatype TaskView = TaskView(
    wait: bool, status: Status, cancellable: Option<bool>, code: int, response: Option<Response>, signals: seq<Status>,
    obj: Option<nat>, entries: map<nat, EntryState>, made: nat, thread: Thread)

  /** The daemon's answer: negative when it could not be reached, else an HTTP
      status. The flags tell which follow-up calls fail. */
  datatype Answer = Answer(r: int, message: string, found: bool, deleteFails: bool, announceFails: bool)

  /** What the steps of creating the entry come to: the answer of the limiter,
      and whether saving and registering the directory work. */
  datatype Creation = Creation(limit: int, saved: bool, registered: bool)

  function NewTask(wait: bool): TaskView {
    TaskView(wait, New, None, 0, None, [], None, map[], 0, Idle)
  }

  function WithStatus(t: TaskView, status: Status): TaskView {
    if t.status == status then t else t.(status := status, signals := t.signals + [status])
  }

  /** A status is announced once, when it is new. */
  lemma AnnouncedWhenNew(t: TaskView, status: Status)
    ensures var u := WithStatus(t, status);
      && u.status == status && u.obj == t.obj && u.entries == t.entries && u.thread == t.thread
      && u.signals == if status == t.status then t.signals else t.signals + [status]
  {
  }

  predicate IsCancelled(t: TaskView) { t.cancellable == Some(true) || t.status == Canceled }

  /** The held entry is unregistered, whether or not its directory could be
      deleted. */
  function Dropped(t: TaskView): TaskView {
    if t.obj.None? then t else t.(entries := t.entries - {t.obj.value}, obj := None)
  }

  function Started(t: TaskView): TaskView {
    if t.status != New && t.status != Stopped then t
    else WithStatus(t.(cancellable := Some(false), thread := Begun), Running)
  }

  function Cancelled(t: TaskView, deleteFails: bool): TaskView {
    if IsCancelled(t) then t
    else if t.status == Running then t.(cancellable := Some(true))
    else if t.status == Stopped then
      if deleteFails && t.obj.Some? then Dropped(t) else WithStatus(Dropped(t), Canceled)
    else t
  }

  /** Limits are checked, the directory is saved and registered. */
  function EntryMade(t: TaskView, c: Creation): TaskView {
    if t.obj.Some? then t.(thread := Notifying)
    else if c.limit <= 0 || !c.saved || !c.registered then t.(thread := Returned(CODE_ERROR, true))
    else t.(obj := Some(t.made), entries := t.entries[t.made := Temporary], made := t.made + 1, thread := Created)
  }

  function Checked(t: TaskView): TaskView {
    if IsCancelled(t) then t.(thread := Returned(CODE_CANCELLED, false))
    else if t.wait then t.(thread := Returned(CODE_STOP, false))
    else t.(thread := Notifying)
  }

  function Closed(t: TaskView, response: Response, code: nat, error: bool): TaskView {
    Dropped(t).(response := Some(response), thread := Returned(CODE_DONE + code, error))
  }

  function Notified(t: TaskView, a: Answer): TaskView
    requires t.obj.Some?
  {
    if a.r < 0 then Dropped(t).(thread := Returned(CODE_ERROR, true))
    else if a.r == 303 then
      if !a.found then Dropped(t).(thread := Returned(CODE_ERROR, true))
      else Closed(t, OtherEntry(a.message), DUPLICATE, a.announceFails)
    else if a.r == 410 then Closed(t, NoEntry, DROPPED, false)
    else if a.r == 200 then
      t.(entries := t.entries[t.obj.value := Complete], response := Some(OwnEntry(t.obj.value)),
         thread := Returned(CODE_DONE + ACCEPTED, a.announceFails))
    else Closed(t, NoEntry, INVALID_DATA, a.deleteFails)
  }

  /** What GTask makes of a returned code: a cancelled task and an error both
      read as -1. */
  function Propagated(t: TaskView): int
    requires t.thread.Returned?
  {
    if t.cancellable == Some(true) || t.thread.error then -1 else t.thread.code
  }

  function Finished(t: TaskView): TaskView
    requires t.thread.Returned?
  {
    var code := Propagated(t);
    var t' :=
      if code == CODE_STOP then WithStatus(t, Stopped)
      else if code >= CODE_DONE then WithStatus(t.(code := code - CODE_DONE), Done)
      else if IsCancelled(t) then WithStatus(Dropped(t), Canceled)
      else WithStatus(t.(response := Some(ErrorMessage)), Failed);
    t'.(cancellable := None, thread := Idle)
  }

  datatype Step =
    | Start
    | Cancel(deleteFails: bool)
    | Create(creation: Creation)
    | Check
    | Notify(answer: Answer)
    | Finish

  predicate Enabled(t: TaskView, step: Step) {
    match step
    case Start => true
    case Cancel(_) => true
    case Create(_) => t.thread == Begun
    case Check => t.thread == Created
    case Notify(_) => t.thread == Notifying && t.obj.Some?
    case Finish => t.thread.Returned?
  }

  function Apply(t: TaskView, step: Step): TaskView
    requires Enabled(t, step)
  {
    match step
    case Start => Started(t)
    case Cancel(deleteFails) => Cancelled(t, deleteFails)
    case Create(creation) => EntryMade(t, creation)
    case Check => Checked(t)
    case Notify(answer) => Notified(t, answer)
    case Finish => Finished(t)
  }

  function Run(t: TaskView, steps: seq<Step>): Option<TaskView>
    decreases |steps|
  {
    if steps == [] then Some(t)
    else if Enabled(t, steps[0]) then Run(Apply(t, steps[0]), steps[1..])
    else None
  }

  lemma RunThen(t: TaskView, step: Step, rest: seq<Step>, end: TaskView)
    requires Enabled(t, step) && Run(Apply(t, step), rest) == Some(end)
    ensures Run(t, [step] + rest) == Some(end)
  {
    assert ([step] + rest)[1..] == rest;
  }

  // ---- The invariant -----------------------------------------------------------

  predicate Holds(t: TaskView, state: EntryState) {
    t.obj.Some? && t.obj.value in t.entries && t.entries[t.obj.value] == state
  }

  /** The task never loses sight of an entry it registered. */
  predicate NothingLeaks(t: TaskView) {
    t.entries.Keys == if t.obj.Some? then {t.obj.value} else {}
  }

  predicate ThreadSound(t: TaskView) {
    match t.thread
    case Idle => true
    case Begun => t.obj.None? || Holds(t, Temporary)
    case Created => Holds(t, Temporary)
    case Notifying => Holds(t, Temporary)
    case Returned(code, error) =>
      && (code == CODE_ERROR ==> t.obj.None? && error)
      && (code == CODE_STOP ==> Holds(t, Temporary) && !error)
      && (code == CODE_DONE + ACCEPTED ==> Holds(t, Complete))
      && (code == CODE_CANCELLED ==> Holds(t, Temporary) && t.cancellable == Some(true) && !error)
      && (code in {CODE_DONE + DUPLICATE, CODE_DONE + DROPPED, CODE_DONE + INVALID_DATA} ==> t.obj.None?)
      && -1 <= code <= CODE_DONE + INVALID_DATA
  }

  predicate StatusSound(t: TaskView) {
    match t.status
    case New => t.obj.None?
    case Running => true
    case Stopped => t.obj.None? || Holds(t, Temporary)
    case Canceled => t.obj.None?
    case Failed => t.obj.None? || Holds(t, Complete)
    case Done =>
      && t.code in {ACCEPTED, DUPLICATE, DROPPED, INVALID_DATA}
      && (if t.code == ACCEPTED then Holds(t, Complete) else t.obj.None?)
  }

  predicate Inv(t: TaskView) {
    && (t.status == Running <==> t.thread != Idle)
    && (t.status == Running <==> t.cancellable.Some?)
    && NothingLeaks(t)
    && ThreadSound(t)
    && StatusSound(t)
    && (forall id :: id in t.entries ==> id < t.made)
  }

  lemma StepKeeps(t: TaskView, step: Step)
    requires Inv(t) && Enabled(t, step)
    ensures Inv(Apply(t, step))
  {
    match step
    case Start =>
    case Cancel(deleteFails) => CancelKeeps(t, deleteFails);
    case Create(_) =>
    case Check =>
    case Notify(answer) => NotifyKeeps(t, answer);
    case Finish => FinishKeeps(t);
  }

  lemma CancelKeeps(t: TaskView, deleteFails: bool)
    requires Inv(t)
    ensures Inv(Cancelled(t, deleteFails))
  {
  }

  lemma NotifyKeeps(t: TaskView, answer: Answer)
    requires Inv(t) && t.thread == Notifying && t.obj.Some?
    ensures Inv(Notified(t, answer))
  {
    DroppedKeeps(t);
    if answer.r == 200 { assert t.entries[t.obj.value := Complete].Keys == {t.obj.value}; }
  }

  lemma DroppedKeeps(t: TaskView)
    requires NothingLeaks(t)
    ensures Dropped(t).entries == map[] && Dropped(t).obj.None?
  {
  }

  lemma FinishKeeps(t: TaskView)
    requires Inv(t) && t.thread.Returned?
    ensures Inv(Finished(t))
  {
  }

  lemma {:induction false} RunKeeps(t: TaskView, steps: seq<Step>)
    requires Inv(t) && Run(t, steps).Some?
    ensures Inv(Run(t, steps).value)
    decreases |steps|
  {
    if steps != [] {
      StepKeeps(t, steps[0]);
      RunKeeps(Apply(t, steps[0]), steps[1..]);
    }
  }

  // ---- Main results --------------------------------------------------------------

  /** Over every run: a task that is over keeps no temporary entry, a cancelled
      one keeps none at all, and a done one keeps its own entry, completed,
      exactly when it reports that the problem was accepted. */
  lemma NoTemporaryEntryLeft(wait: bool, steps: seq<Step>)
    requires Run(NewTask(wait), steps).Some?
    ensures var t := Run(NewTask(wait), steps).value;
      && (t.status in {Done, Failed, Canceled} ==> forall id :: id in t.entries ==> t.entries[id] == Complete)
      && (t.status == Canceled ==> t.entries == map[])
      && (t.status == Done ==> (t.code == ACCEPTED <==> t.obj.Some? && t.entries == map[t.obj.value := Complete]))
      && (t.status == Done && t.code != ACCEPTED ==> t.entries == map[])
      && |t.entries| <= 1
  {
    RunKeeps(NewTask(wait), steps);
    var t := Run(NewTask(wait), steps).value;
    if t.obj.Some? {
      assert t.entries.Keys == {t.obj.value};
      assert |t.entries| == |t.entries.Keys|;
    } else {
      assert t.entries == map[];
    }
  }

  /** Once a running task is cancelled it can only become cancelled. */
  lemma {:induction false} CancelIsFinal(t: TaskView, steps: seq<Step>)
    requires Inv(t) && Run(t, steps).Some?
    requires (t.status == Running && t.cancellable == Some(true)) || t.status == Canceled
    ensures var u := Run(t, steps).value; u.status == Canceled || (u.status == Running && u.cancellable == Some(true))
    decreases |steps|
  {
    if steps != [] {
      StepKeeps(t, steps[0]);
      CancelIsFinal(Apply(t, steps[0]), steps[1..]);
    }
  }

  lemma CancelledWhileRunning(wait: bool, before: seq<Step>, deleteFails: bool, after: seq<Step>)
    requires Run(NewTask(wait), before).Some? && Run(NewTask(wait), before).value.status == Running
    requires Run(Cancelled(Run(NewTask(wait), before).value, deleteFails), after).Some?
    ensures Run(Cancelled(Run(NewTask(wait), before).value, deleteFails), after).value.status in {Running, Canceled}
  {
    RunKeeps(NewTask(wait), before);
    var t := Run(NewTask(wait), before).value;
    StepKeeps(t, Cancel(deleteFails));
    CancelIsFinal(Cancelled(t, deleteFails), after);
  }

  /** The code for a cancelled run is larger than the one for success, so a
      bare comparison would report a failed problem as done. It never gets that
      far: GTask hides it, and a done task never reports FAILED. */
  lemma CancelledCodeHidden(wait: bool, steps: seq<Step>)
    requires Run(NewTask(wait), steps).Some?
    ensures var t := Run(NewTask(wait), steps).value;
      && (t.thread.Returned? && t.thread.code == CODE_CANCELLED ==>
        Propagated(t) == -1 && Finished(t).status == Canceled)
      && (t.status == Done ==> t.code != FAILED)
      && CODE_CANCELLED == CODE_DONE + FAILED
  {
    RunKeeps(NewTask(wait), steps);
  }

  /** How the daemon's answer ends a task, the thread having asked it: only a
      known duplicate, a refusal or an acceptance that was also announced, or an
      invalid problem that was also deleted, are reported as done. */
  lemma AnswerDecides(wait: bool, steps: seq<Step>, a: Answer)
    requires Run(NewTask(wait), steps).Some? && Enabled(Run(NewTask(wait), steps).value, Notify(a))
    ensures var t := Run(NewTask(wait), steps).value;
      var u := Finished(Notified(t, a));
      && (t.cancellable == Some(true) <==> u.status == Canceled)
      && (t.cancellable != Some(true) ==>
           && (u.status == Done && u.code == 0 <==> a.r == 200 && !a.announceFails)
           && (u.status == Done && u.code == 2 <==> a.r == 303 && a.found && !a.announceFails)
           && (u.status == Done && u.code == 3 <==> a.r == 410)
           && (u.status == Done && u.code == 4 <==> a.r >= 0 && a.r !in {200, 303, 410} && !a.deleteFails)
           && (u.status != Done ==> u.status == Failed && u.response == Some(ErrorMessage))
           && (u.status == Failed && u.obj.Some? <==> a.r == 200 && a.announceFails))
  {
    RunKeeps(NewTask(wait), steps);
  }

  lemma NotifiedEnds(t: TaskView, a: Answer)
    requires Inv(t) && Enabled(t, Notify(a)) && Finished(Notified(t, a)).status == Done
    ensures var u := Finished(Notified(t, a));
      && u.response == Some(if a.r == 200 then OwnEntry(t.obj.value)
                            else if a.r == 303 then OtherEntry(a.message) else NoEntry)
      && u.entries == (if a.r == 200 then map[t.obj.value := Complete] else map[])
  {
    DroppedKeeps(t);
    assert t.entries[t.obj.value := Complete] == map[t.obj.value := Complete];
  }

  /** And what a done task gives back: its own entry, the one it is a duplicate of,
      or none. */
  lemma ResponseDecides(wait: bool, steps: seq<Step>, a: Answer)
    requires Run(NewTask(wait), steps).Some? && Enabled(Run(NewTask(wait), steps).value, Notify(a))
    requires Finished(Notified(Run(NewTask(wait), steps).value, a)).status == Done
    ensures var t := Run(NewTask(wait), steps).value;
      var u := Finished(Notified(t, a));
      && t.obj.Some?
      && u.response == Some(if a.r == 200 then OwnEntry(t.obj.value)
                            else if a.r == 303 then OtherEntry(a.message) else NoEntry)
      && u.entries == (if a.r == 200 then map[t.obj.value := Complete] else map[])
  {
    RunKeeps(NewTask(wait), steps);
    NotifiedEnds(Run(NewTask(wait), steps).value, a);
  }

  /** An entry is made exactly if the limiter allows it and saving and registering
      work; without one the task fails, or is cancelled if someone asked for that.
      A task that has its entry already goes straight to the daemon. */
  lemma CreationDecides(wait: bool, steps: seq<Step>, c: Creation)
    requires Run(NewTask(wait), steps).Some? && Enabled(Run(NewTask(wait), steps).value, Create(c))
    ensures var t := Run(NewTask(wait), steps).value;
      var u := Apply(t, Create(c));
      && (t.obj.Some? ==> u == t.(thread := Notifying))
      && (t.obj.None? ==> (u.obj.Some? <==> c.limit > 0 && c.saved && c.registered))
      && (t.obj.None? && u.obj.Some? ==> u.thread == Created && u.entries == map[u.obj.value := Temporary])
      && (u.obj.None? ==>
            && u.entries == map[] && u.thread.Returned?
            && Finished(u).status == if t.cancellable == Some(true) then Canceled else Failed)
  {
    RunKeeps(NewTask(wait), steps);
    var t := Run(NewTask(wait), steps).value;
    if t.obj.None? { assert t.entries == map[]; }
  }

  lemma {:induction false} WaitStays(t: TaskView, steps: seq<Step>)
    requires Run(t, steps).Some?
    ensures Run(t, steps).value.wait == t.wait
    decreases |steps|
  {
    if steps != [] { WaitStays(Apply(t, steps[0]), steps[1..]); }
  }

  /** With a fresh entry the task goes on to the daemon exactly if nobody cancelled
      it and its author does not want to wait; in the latter case it stops and keeps
      the temporary entry. */
  lemma CheckDecides(wait: bool, steps: seq<Step>)
    requires Run(NewTask(wait), steps).Some? && Enabled(Run(NewTask(wait), steps).value, Check)
    ensures var t := Run(NewTask(wait), steps).value;
      var u := Apply(t, Check);
      if t.cancellable == Some(true) then
        u.thread.Returned? && Finished(u).status == Canceled && Finished(u).entries == map[]
      else if wait then
        && u.thread.Returned? && Finished(u).status == Stopped && Finished(u).entries == t.entries
        && t.obj.Some? && Finished(u).obj == t.obj && t.entries == map[t.obj.value := Temporary]
      else u == t.(thread := Notifying)
  {
    RunKeeps(NewTask(wait), steps);
    WaitStays(NewTask(wait), steps);
    var t := Run(NewTask(wait), steps).value;
    DroppedKeeps(t);
    assert t.entries.Keys == {t.obj.value};
  }

  /** Whatever is reached: only new and stopped tasks start, with the entry they
      have. Cancelling changes running and stopped tasks only: the former are
      asked to stop; the latter lose their entry, and are cancelled at once unless
      its directory cannot be deleted. */
  lemma RequestsDecide(wait: bool, steps: seq<Step>, deleteFails: bool)
    requires Run(NewTask(wait), steps).Some?
    ensures var t := Run(NewTask(wait), steps).value;
      var started, cancelled := Apply(t, Start), Apply(t, Cancel(deleteFails));
      && (t.status !in {New, Stopped} ==> started == t)
      && (t.status in {New, Stopped} ==>
            && started.status == Running && started.thread == Begun && started.cancellable == Some(false)
            && started.obj == t.obj && started.entries == t.entries)
      && (t.status !in {Running, Stopped} ==> cancelled == t)
      && (t.status == Running ==> cancelled == t.(cancellable := Some(true)))
      && (t.status == Stopped ==>
            && cancelled.entries == map[] && cancelled.obj.None?
            && cancelled.status == if deleteFails && t.obj.Some? then Stopped else Canceled)
  {
    RunKeeps(NewTask(wait), steps);
    DroppedKeeps(Run(NewTask(wait), steps).value);
  }

  /** A problem the daemon accepted keeps its completed entry exactly if nobody
      cancelled the task by the time it is finished. */
  lemma AcceptedKeptExactly(wait: bool, steps: seq<Step>)
    requires Run(NewTask(wait), steps).Some?
    requires var t := Run(NewTask(wait), steps).value; t.thread.Returned? && t.thread.code == CODE_DONE + ACCEPTED
    ensures var t := Run(NewTask(wait), steps).value;
      && t.obj.Some? && t.entries == map[t.obj.value := Complete]
      && (t.cancellable != Some(true) ==> Finished(t).entries == t.entries)
      && (t.cancellable == Some(true) ==> Finished(t).entries == map[] && Finished(t).status == Canceled)
  {
    RunKeeps(NewTask(wait), steps);
    var t := Run(NewTask(wait), steps).value;
    assert t.entries.Keys == {t.obj.value};
  }

  const ACCEPTED_RUN := [
    Start, Create(Creation(1, true, true)), Check, Notify(Answer(200, "", true, false, false))]

  const ACCEPTED_TASK := TaskView(
    false, Running, Some(false), 0, Some(OwnEntry(0)), [Running],
    Some(0), map[0 := Complete], 1, Returned(CODE_DONE, false))

  lemma AcceptedReached()
    ensures Run(NewTask(false), ACCEPTED_RUN) == Some(ACCEPTED_TASK)
  {
    var t1 := Apply(NewTask(false), ACCEPTED_RUN[0]);
    var t2 := Apply(t1, ACCEPTED_RUN[1]);
    var t3 := Apply(t2, ACCEPTED_RUN[2]);
    assert t3.entries == map[0 := Temporary] && t3.entries[0 := Complete] == map[0 := Complete];
    assert Apply(t3, ACCEPTED_RUN[3]) == ACCEPTED_TASK;
    RunThen(t3, ACCEPTED_RUN[3], [], ACCEPTED_TASK);
    RunThen(t2, ACCEPTED_RUN[2], ACCEPTED_RUN[3..], ACCEPTED_TASK);
    RunThen(t1, ACCEPTED_RUN[1], ACCEPTED_RUN[2..], ACCEPTED_TASK);
    RunThen(NewTask(false), ACCEPTED_RUN[0], ACCEPTED_RUN[1..], ACCEPTED_TASK);
  }

  /** Such a run: the cancel comes between the daemon's answer and the end, and
      the accepted problem is deleted. */
  lemma AcceptedThenCancelled()
    ensures Run(NewTask(false), ACCEPTED_RUN) == Some(ACCEPTED_TASK) && ACCEPTED_TASK.entries == map[0 := Complete]
    ensures var end := Run(NewTask(false), ACCEPTED_RUN + [Cancel(false), Finish]);
      end.Some? && end.value.status == Canceled && end.value.entries == map[]
  {
    AcceptedReached();
    RunJoins(NewTask(false), ACCEPTED_RUN, ACCEPTED_TASK, [Cancel(false), Finish]);
    var cancelled := Cancelled(ACCEPTED_TASK, false);
    RunThen(cancelled, Finish, [], Finished(cancelled));
    RunThen(ACCEPTED_TASK, Cancel(false), [Finish], Finished(cancelled));
  }

  lemma {:induction false} RunJoins(t: TaskView, first: seq<Step>, middle: TaskView, more: seq<Step>)
    requires Run(t, first) == Some(middle)
    ensures Run(t, first + more) == Run(middle, more)
    decreases |first|
  {
    if first == [] {
      assert first + more == more;
    } else {
      assert (first + more)[1..] == first[1..] + more;
      RunJoins(Apply(t, first[0]), first[1..], middle, more);
    }
  }

  /** The statuses announced form a path of the life cycle that ends in the
      present status. */
  predicate Follows(before: Status, after: Status) {
    || (before in {New, Stopped} && after == Running)
    || (before == Running && after in {Stopped, Done, Failed, Canceled})
    || (before == Stopped && after == Canceled)
  }

  predicate LifeCycle(signals: seq<Status>, last: Status) {
    if signals == [] then last == New
    else
      && signals[|signals| - 1] == last
      && var before := if |signals| == 1 then New else signals[|signals| - 2];
         Follows(before, last) && LifeCycle(signals[..|signals| - 1], before)
  }

  lemma StepMoves(t: TaskView, step: Step)
    requires Inv(t) && Enabled(t, step)
    ensures var u := Apply(t, step);
      if u.status == t.status then u.signals == t.signals
      else u.signals == t.signals + [u.status] && Follows(t.status, u.status)
  {
  }

  lemma Extended(signals: seq<Status>, before: Status, after: Status)
    requires LifeCycle(signals, before) && Follows(before, after)
    ensures LifeCycle(signals + [after], after)
  {
    assert (signals + [after])[..|signals|] == signals;
  }

  lemma {:induction false} RunLives(t: TaskView, steps: seq<Step>)
    requires Inv(t) && LifeCycle(t.signals, t.status) && Run(t, steps).Some?
    ensures LifeCycle(Run(t, steps).value.signals, Run(t, steps).value.status)
    decreases |steps|
  {
    if steps != [] {
      var u := Apply(t, steps[0]);
      assert Inv(u) && LifeCycle(u.signals, u.status) by {
        StepKeeps(t, steps[0]);
        StepMoves(t, steps[0]);
        if u.status != t.status { Extended(t.signals, t.status, u.status); }
      }
      RunLives(u, steps[1..]);
    }
  }

  lemma StatusesFollowLifeCycle(wait: bool, steps: seq<Step>)
    requires Run(NewTask(wait), steps).Some?
    ensures LifeCycle(Run(NewTask(wait), steps).value.signals, Run(NewTask(wait), steps).value.status)
  {
    RunLives(NewTask(wait), steps);
  }

  // ---- The objects -----------------------------------------------------------

  /** The entries registered with the service on behalf of a task. */
  class Service {
    var entries: map<nat, EntryState>
    var made: nat

    constructor ()
      ensures entries == map[] && made == 0
    {
      entries, made := map[], 0;
    }

    method Register() returns (id: nat)
      modifies this
      ensures id == old(made) && made == id + 1 && entries == old(entries)[id := Temporary]
    {
      id := made;
      entries, made := entries[id := Temporary], made + 1;
    }

    method SetComplete(id: nat)
      modifies this`entries
      ensures entries == old(entries)[id := Complete]
    {
      entries := entries[id := Complete];
    }

    method Destroy(id: nat)
      modifies this`entries
      ensures entries == old(entries) - {id}
    {
      entries := entries - {id};
    }
  }

  class Task {
    const service: Service
    const wait: bool
    var status: Status
    var cancellable: Option<bool>
    var code: int
    var results: Option<Response>
    var signals: seq<Status>
    var obj: Option<nat>
    ghost var thread: Thread

    ghost function View(): TaskView
      reads this, service
    {
      TaskView(wait, status, cancellable, code, results, signals, obj, service.entries, service.made, thread)
    }

    constructor (service: Service, wait: bool)
      requires service.entries == map[] && service.made == 0
      ensures View() == NewTask(wait) && this.service == service
    {
      this.service, this.wait := service, wait;
      status, cancellable, code, results, signals, obj, thread := New, None, 0, None, [], None, Idle;
    }

    method ChangeStatus(after: Status)
      modifies this`status, this`signals
      ensures View() == WithStatus(old(View()), after)
    {
      if status == after { return; }
      status := after;
      signals := signals + [after];
    }

    method CheckCancelled() returns (cancelled: bool)
      ensures cancelled == IsCancelled(View())
    {
      cancelled := cancellable == Some(true) || status == Canceled;
    }

    method RemoveTemporaryEntry(deleteFails: bool) returns (error: bool)
      modifies this`obj, service`entries
      ensures View() == Dropped(old(View())) && error == (deleteFails && old(obj).Some?)
    {
      if obj.None? { return false; }
      error := deleteFails;
      service.Destroy(obj.value);
      obj := None;
    }

    method CancelTask(deleteFails: bool) returns (error: bool)
      requires Inv(View())
      modifies this`cancellable, this`status, this`signals, this`obj, service`entries
      ensures View() == Cancelled(old(View()), deleteFails)
      ensures !error <==> IsCancelled(View())
    {
      var cancelled := CheckCancelled();
      if cancelled { return false; }
      if status == Running {
        cancellable := Some(true);
        error := false;
      } else if status == Stopped {
        error := RemoveTemporaryEntry(deleteFails);
        if !error { ChangeStatus(Canceled); }
      } else {
        error := true;
      }
    }

    method StartTask() returns (error: bool)
      modifies this`cancellable, this`status, this`signals, this`thread
      ensures View() == Started(old(View())) && error == (old(status) != New && old(status) != Stopped)
    {
      if status != New && status != Stopped { return true; }
      cancellable := Some(false);
      thread := Begun;
      ChangeStatus(Running);
      error := false;
    }

    method CreateEntry(c: Creation) returns (r: Option<int>)
      requires thread == Begun
      modifies this`obj, this`thread, service
      ensures View() == EntryMade(old(View()), c)
      ensures r == if thread.Returned? then Some(thread.code) else None
    {
      r := None;
      if obj.Some? {
        thread := Notifying;
        return;
      }
      var failed := true;
      if c.limit == 0 {
        // too many problems recently
      } else if c.limit < 0 {
        // no more problems, or the limits cannot be checked
      } else if c.saved {
        failed := !c.registered;
      }
      if failed {
        thread := Returned(CODE_ERROR, true);
        return Some(CODE_ERROR);
      }
      var id := service.Register();
      obj := Some(id);
      thread := Created;
    }

    method CheckCreated() returns (r: Option<int>)
      requires thread == Created
      modifies this`thread
      ensures View() == Checked(old(View()))
      ensures r == if thread.Returned? then Some(thread.code) else None
    {
      var cancelled := CheckCancelled();
      if cancelled { thread := Returned(CODE_CANCELLED, false); return Some(CODE_CANCELLED); }
      if wait { thread := Returned(CODE_STOP, false); return Some(CODE_STOP); }
      thread := Notifying;
      r := None;
    }

    method NotifyDirectory(a: Answer) returns (r: int, error: bool)
      requires thread == Notifying && obj.Some?
      modifies this`obj, this`results, this`thread, service`entries
      ensures View() == Notified(old(View()), a) && thread == Returned(r, error)
    {
      var problem := NoEntry;
      error := false;
      if a.r < 0 {
        var ignored := RemoveTemporaryEntry(a.deleteFails);
        thread := Returned(CODE_ERROR, true);
        return CODE_ERROR, true;
      } else if a.r == 303 {
        service.Destroy(obj.value);
        obj := None;
        if !a.found {
          thread := Returned(CODE_ERROR, true);
          return CODE_ERROR, true;
        }
        problem, r, error := OtherEntry(a.message), DUPLICATE, a.announceFails;
      } else if a.r == 410 {
        service.Destroy(obj.value);
        obj := None;
        r := DROPPED;
      } else if a.r == 200 {
        service.SetComplete(obj.value);
        problem, r, error := OwnEntry(obj.value), ACCEPTED, a.announceFails;
      } else {
        error := RemoveTemporaryEntry(a.deleteFails);
        r := INVALID_DATA;
      }
      results := Some(problem);
      r := CODE_DONE + r;
      thread := Returned(r, error);
    }

    /** `code` and `error` are what the thread returned. */
    method FinishGtask(code: int, error: bool, deleteFails: bool)
      requires thread == Returned(code, error)
      modifies this, service`entries
      ensures View() == Finished(old(View()))
    {
      var propagated := if cancellable == Some(true) || error then -1 else code;
      var cancelled := CheckCancelled();
      if propagated == CODE_STOP {
        ChangeStatus(Stopped);
      } else if propagated >= CODE_DONE {
        this.code := propagated - CODE_DONE;
        ChangeStatus(Done);
      } else if cancelled {
        var ignored := RemoveTemporaryEntry(deleteFails);
        ChangeStatus(Canceled);
      } else {
        results := Some(ErrorMessage);
        ChangeStatus(Failed);
      }
      cancellable := None;
      thread := Idle;
    }

    /** The results, for a task that is over and was not cancelled. */
    method FinishTask() returns (result: Option<(Response, int)>)
      requires Inv(View())
      ensures result.Some? <==> status in {Done, Failed}
      ensures result.Some? ==>
        result.value == (if results.Some? then results.value else NoEntry, code)
    {
      if status != Done && status != Failed { return None; }
      result := Some((if results.Some? then results.value else NoEntry, code));
    }
  }
}
