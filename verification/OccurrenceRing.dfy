/** The last eight crashed executables and the throttle built on them. The
    specification is a list, newest entry first; the program keeps it in a ring. */
module OccurrenceRing {
  import opened Common

  datatype Occurrence = Occurrence(executable: string, stamp: nat)

  const SIZE := 8

  // ---- The list --------------------------------------------------------------

  /** The first entry of the executable, or the length. */
  function Position(q: seq<Occurrence>, executable: string): (k: nat)
    ensures k <= |q|
    ensures k < |q| ==> q[k].executable == executable
    ensures forall j :: 0 <= j < k ==> q[j].executable != executable
  {
    if q == [] || q[0].executable == executable then 0 else 1 + Position(q[1..], executable)
  }

  function Lookup(q: seq<Occurrence>, executable: string): nat {
    var k := Position(q, executable);
    if k < |q| then q[k].stamp else 0
  }

  function Newest<T>(s: seq<T>): seq<T> { if |s| <= SIZE then s else s[..SIZE] }

  /** A known executable keeps its place, a new one comes first. */
  function Update(q: seq<Occurrence>, o: Occurrence): seq<Occurrence> {
    var k := Position(q, o.executable);
    if k < |q| then q[k := o] else Newest([o] + q)
  }

  function After(updates: seq<Occurrence>): seq<Occurrence> {
    if updates == [] then [] else Update(After(updates[..|updates| - 1]), updates[|updates| - 1])
  }

  // ---- What the list means ------------------------------------------------------

  function Inserted(log: seq<string>, executable: string): seq<string> {
    if executable in Newest(log) then log else [executable] + log
  }

  /** Executables by insertion, newest first: an update inserts unless the
      executable is among the newest eight inserted. */
  function Insertions(updates: seq<Occurrence>): seq<string> {
    if updates == [] then []
    else Inserted(Insertions(updates[..|updates| - 1]), updates[|updates| - 1].executable)
  }

  /** Fewer than eight insertions followed the executable's own. */
  predicate Retained(updates: seq<Occurrence>, executable: string) {
    var log := Insertions(updates);
    exists k :: 0 <= k < |log| && log[k] == executable && k < 8
  }

  function Latest(updates: seq<Occurrence>, executable: string): nat {
    if updates == [] then 0
    else if updates[|updates| - 1].executable == executable then updates[|updates| - 1].stamp
    else Latest(updates[..|updates| - 1], executable)
  }

  ghost predicate Distinct(q: seq<Occurrence>) {
    forall i, j :: 0 <= i < j < |q| ==> q[i].executable != q[j].executable
  }

  ghost predicate SameNames(q: seq<Occurrence>, log: seq<string>) {
    |q| == |Newest(log)| && forall i :: 0 <= i < |q| ==> q[i].executable == Newest(log)[i]
  }

  ghost predicate StampsLatest(q: seq<Occurrence>, updates: seq<Occurrence>) {
    forall i :: 0 <= i < |q| ==> q[i].stamp == Latest(updates, q[i].executable)
  }

  lemma NamesUpdated(q: seq<Occurrence>, log: seq<string>, o: Occurrence)
    requires SameNames(q, log)
    ensures SameNames(Update(q, o), Inserted(log, o.executable))
  {
    var k := Position(q, o.executable);
    if k < |q| {
      assert Newest(log)[k] == o.executable;
    } else {
      assert o.executable !in Newest(log);
    }
  }

  lemma DistinctUpdated(q: seq<Occurrence>, o: Occurrence)
    requires Distinct(q)
    ensures Distinct(Update(q, o))
  {
  }

  lemma StampsUpdated(q: seq<Occurrence>, updates: seq<Occurrence>, o: Occurrence)
    requires Distinct(q) && StampsLatest(q, updates)
    ensures StampsLatest(Update(q, o), updates + [o])
  {
    assert (updates + [o])[..|updates|] == updates;
    assert forall e :: e != o.executable ==> Latest(updates + [o], e) == Latest(updates, e);
  }

  lemma {:induction false} AfterMatches(updates: seq<Occurrence>)
    ensures SameNames(After(updates), Insertions(updates))
    ensures Distinct(After(updates)) && StampsLatest(After(updates), updates)
  {
    if updates != [] {
      var before, o := updates[..|updates| - 1], updates[|updates| - 1];
      AfterMatches(before);
      NamesUpdated(After(before), Insertions(before), o);
      DistinctUpdated(After(before), o);
      StampsUpdated(After(before), before, o);
      assert before + [o] == updates;
    }
  }

  /** The lookup knows the latest stamp of an executable exactly while fewer
      than eight insertions have followed its own, however often it was updated. */
  lemma LookupIsLatest(updates: seq<Occurrence>, executable: string)
    ensures Lookup(After(updates), executable) ==
      if Retained(updates, executable) then Latest(updates, executable) else 0
  {
    AfterMatches(updates);
    var q, log := After(updates), Insertions(updates);
    var at := Position(q, executable);
    if at < |q| {
      assert log[at] == executable;
    }
  }

  ghost predicate AllDifferent(updates: seq<Occurrence>) {
    forall i, j :: 0 <= i < j < |updates| ==> updates[i].executable != updates[j].executable
  }

  lemma InsertedNew(log: seq<string>, before: seq<Occurrence>, o: Occurrence)
    requires forall u :: u in before ==> u.executable != o.executable
    requires |log| == |before| && forall k :: 0 <= k < |log| ==> log[k] == before[|before| - 1 - k].executable
    ensures Inserted(log, o.executable) == [o.executable] + log
  {
    forall k | 0 <= k < |Newest(log)| ensures Newest(log)[k] != o.executable {
      assert before[|before| - 1 - k] in before;
    }
  }

  lemma {:induction false} EachInserted(updates: seq<Occurrence>)
    requires AllDifferent(updates)
    ensures var log := Insertions(updates);
      |log| == |updates| && forall k :: 0 <= k < |log| ==> log[k] == updates[|updates| - 1 - k].executable
  {
    if updates != [] {
      var before, o := updates[..|updates| - 1], updates[|updates| - 1];
      EachInserted(before);
      InsertedNew(Insertions(before), before, o);
    }
  }

  lemma {:induction false} LatestOfDifferent(updates: seq<Occurrence>, i: nat)
    requires AllDifferent(updates) && i < |updates|
    ensures Latest(updates, updates[i].executable) == updates[i].stamp
  {
    if i < |updates| - 1 { LatestOfDifferent(updates[..|updates| - 1], i); }
  }

  /** Of different executables the last eight are on record, with their stamps. */
  lemma LastEightKnown(updates: seq<Occurrence>, i: nat)
    requires AllDifferent(updates) && i < |updates|
    ensures Lookup(After(updates), updates[i].executable) == if |updates| - i <= 8 then updates[i].stamp else 0
  {
    LookupIsLatest(updates, updates[i].executable);
    EachInserted(updates);
    LatestOfDifferent(updates, i);
    var log := Insertions(updates);
    assert log[|updates| - 1 - i] == updates[i].executable;
  }

  // ---- The throttle --------------------------------------------------------------

  /** A crash seen in the journal; `dumped` tells whether saving it works. */
  datatype Crash = Crash(executable: string, now: nat, dumped: bool)

  predicate Due(q: seq<Occurrence>, c: Crash, throttle: nat) {
    var last := Lookup(q, c.executable);
    last <= c.now && c.now - last >= throttle
  }

  predicate Saves(q: seq<Occurrence>, c: Crash, throttle: nat) { Due(q, c, throttle) && c.dumped }

  /** The saved crashes of a run, in order. */
  function Saved(crashes: seq<Crash>, throttle: nat): seq<Occurrence> {
    if crashes == [] then []
    else
      var before := Saved(crashes[..|crashes| - 1], throttle);
      var c := crashes[|crashes| - 1];
      if Saves(After(before), c, throttle) then before + [Occurrence(c.executable, c.now)] else before
  }

  /** A crash is due exactly when its executable's last saved crash, if still
      on record, is a throttle ago; a forgotten executable is always due once
      the clock itself has passed the throttle. */
  lemma DueExactly(updates: seq<Occurrence>, c: Crash, throttle: nat)
    ensures Due(After(updates), c, throttle) <==>
      c.now >= throttle + if Retained(updates, c.executable) then Latest(updates, c.executable) else 0
  {
    LookupIsLatest(updates, c.executable);
  }

  /** Every saved crash was due when it was saved. */
  lemma {:induction false} SavedWhenDue(crashes: seq<Crash>, throttle: nat, j: nat)
    requires j < |Saved(crashes, throttle)|
    ensures var s := Saved(crashes, throttle);
      s[j].stamp >= throttle + if Retained(s[..j], s[j].executable) then Latest(s[..j], s[j].executable) else 0
  {
    var before := Saved(crashes[..|crashes| - 1], throttle);
    var c := crashes[|crashes| - 1];
    var s := Saved(crashes, throttle);
    if j < |before| {
      SavedWhenDue(crashes[..|crashes| - 1], throttle, j);
      assert s[..j] == before[..j] && s[j] == before[j];
    } else {
      assert s[..j] == before;
      DueExactly(before, c, throttle);
    }
  }

  /** And every crash that is due is saved if saving works: nothing else keeps one
      back, and nothing else is saved. */
  lemma SavedExactly(crashes: seq<Crash>, c: Crash, throttle: nat)
    ensures var s := Saved(crashes, throttle);
      var last := if Retained(s, c.executable) then Latest(s, c.executable) else 0;
      Saved(crashes + [c], throttle) ==
        if c.dumped && c.now >= last + throttle then s + [Occurrence(c.executable, c.now)] else s
  {
    assert (crashes + [c])[..|crashes|] == crashes;
    DueExactly(Saved(crashes, throttle), c, throttle);
  }

  lemma {:induction false} LatestAt(updates: seq<Occurrence>, executable: string, i: nat) returns (k: nat)
    requires i < |updates| && updates[i].executable == executable
    ensures i <= k < |updates| && updates[k].executable == executable && updates[k].stamp == Latest(updates, executable)
  {
    if updates[|updates| - 1].executable == executable {
      k := |updates| - 1;
    } else {
      k := LatestAt(updates[..|updates| - 1], executable, i);
    }
  }

  /** Two saved crashes of an executable that stayed on record in between are
      at least the throttle apart. */
  lemma {:induction false} ThrottleHolds(crashes: seq<Crash>, throttle: nat, i: nat, j: nat)
    requires i < j < |Saved(crashes, throttle)|
    requires Saved(crashes, throttle)[i].executable == Saved(crashes, throttle)[j].executable
    requires forall m :: i < m <= j ==> Retained(Saved(crashes, throttle)[..m], Saved(crashes, throttle)[i].executable)
    ensures Saved(crashes, throttle)[j].stamp - Saved(crashes, throttle)[i].stamp >= throttle
  {
    var s := Saved(crashes, throttle);
    SavedWhenDue(crashes, throttle, j);
    var k := LatestAt(s[..j], s[i].executable, i);
    if i < k {
      ThrottleHolds(crashes, throttle, i, k);
    }
  }

  // ---- The ring ------------------------------------------------------------------

  type Slots = s: seq<Option<Occurrence>> | |s| == SIZE witness seq(SIZE, _ => None)

  /** Before the first round only the slots below the head are taken. */
  predicate ValidRing(slots: Slots, head: int) {
    && -1 <= head < SIZE
    && if head >= 0 && slots[head].Some? then forall i :: 0 <= i < SIZE ==> slots[i].Some?
       else forall i :: 0 <= i < SIZE ==> (slots[i].Some? <==> i < head)
  }

  function Filled(slots: Slots, head: int): (n: nat)
    requires ValidRing(slots, head)
    ensures n <= SIZE
  {
    if head < 0 then 0 else if slots[head].Some? then SIZE else head
  }

  /** The slot visited after `i` steps back from the head. */
  function Back(head: int, i: nat): (k: nat)
    requires 0 <= head < SIZE && i < SIZE
    ensures k < SIZE
  {
    if head - 1 - i >= 0 then head - 1 - i else head - 1 - i + SIZE
  }

  function Contents(slots: Slots, head: int): (q: seq<Occurrence>)
    requires ValidRing(slots, head)
    ensures |q| == Filled(slots, head)
    ensures forall i :: 0 <= i < |q| ==> q[i] == slots[Back(head, i)].value
  {
    seq(Filled(slots, head), i requires 0 <= i < Filled(slots, head) => slots[Back(head, i)].value)
  }

  lemma RingRestamped(slots: Slots, head: int, i: nat, o: Occurrence)
    requires ValidRing(slots, head) && 0 <= head && i < Filled(slots, head)
    ensures ValidRing(slots[Back(head, i) := Some(o)], head)
    ensures Contents(slots[Back(head, i) := Some(o)], head) == Contents(slots, head)[i := o]
  {
    var slots' := slots[Back(head, i) := Some(o)];
    assert Filled(slots', head) == Filled(slots, head);
    forall j | 0 <= j < Filled(slots, head) ensures Contents(slots', head)[j] == Contents(slots, head)[i := o][j] {
      assert j != i ==> Back(head, j) != Back(head, i);
    }
  }

  lemma RingInserted(slots: Slots, head: int, o: Occurrence)
    requires ValidRing(slots, head)
    ensures var h := if head < 0 then 0 else head;
      var slots' := slots[h := Some(o)];
      var head' := if h + 1 >= SIZE then 0 else h + 1;
      ValidRing(slots', head') && Contents(slots', head') == Newest([o] + Contents(slots, head))
  {
    var h := if head < 0 then 0 else head;
    var slots' := slots[h := Some(o)];
    var head' := if h + 1 >= SIZE then 0 else h + 1;
    var was := [o] + Contents(slots, head);
    assert Filled(slots', head') == |Newest(was)|;
    forall j | 0 <= j < |Newest(was)| ensures Contents(slots', head')[j] == Newest(was)[j] {
      if j > 0 { assert Back(head', j) == Back(h, j - 1) != h; }
    }
  }

  class OccurrenceQueue {
    var head: int
    const occurrences: array<Option<Occurrence>>

    ghost predicate Valid()
      reads this, occurrences
    {
      occurrences.Length == SIZE && ValidRing(occurrences[..], head)
    }

    ghost function List(): seq<Occurrence>
      reads this, occurrences
      requires Valid()
    {
      Contents(occurrences[..], head)
    }

    constructor ()
      ensures Valid() && List() == [] && fresh(occurrences)
    {
      head := -1;
      occurrences := new Option<Occurrence>[SIZE](_ => None);
    }

    /** Steps back from the head to the executable, newest entry first. */
    method Find(executable: string) returns (index: Option<nat>)
      requires Valid() && head >= 0
      ensures var k := Position(List(), executable);
        index == if k < |List()| then Some(Back(head, k)) else None
    {
      ghost var q := List();
      var at := if head == 0 then SIZE - 1 else head - 1;
      var i := 0;
      while i < SIZE
        invariant i <= SIZE && q == List() && (i < SIZE ==> at == Back(head, i))
        invariant i <= |q| && forall j :: 0 <= j < i ==> q[j].executable != executable
      {
        if occurrences[at].None? { return None; }
        if occurrences[at].value.executable == executable { return Some(at); }
        at := if at == 0 then SIZE - 1 else at - 1;
        i := i + 1;
      }
      return None;
    }

    method GetLastOccurrence(executable: string) returns (stamp: nat)
      requires Valid()
      ensures stamp == Lookup(List(), executable)
    {
      if head < 0 { return 0; }
      var index := Find(executable);
      if index.Some? { return occurrences[index.value].value.stamp; }
      return 0;
    }

    /** Overwrites the slot at the head and moves on. */
    method Insert(o: Occurrence)
      requires Valid()
      modifies this, occurrences
      ensures Valid() && List() == Newest([o] + old(List()))
    {
      ghost var before, start := occurrences[..], head;
      if head < 0 { head := 0; }
      RingInserted(before, start, o);
      occurrences[head] := Some(o);
      assert occurrences[..] == before[head := Some(o)];
      head := head + 1;
      if head >= SIZE { head := 0; }
    }

    method UpdateOccurrence(executable: string, stamp: nat)
      requires Valid()
      modifies this, occurrences
      ensures Valid() && List() == Update(old(List()), Occurrence(executable, stamp))
    {
      var o := Occurrence(executable, stamp);
      if head >= 0 {
        var index := Find(executable);
        if index.Some? {
          ghost var before := occurrences[..];
          RingRestamped(before, head, Position(List(), executable), o);
          occurrences[index.value] := Some(o);
          assert occurrences[..] == before[index.value := Some(o)];
          return;
        }
      }
      Insert(o);
    }

    /** One crash from the journal. */
    method WatchCores(c: Crash, throttle: nat) returns (saved: bool)
      requires Valid()
      modifies this, occurrences
      ensures Valid() && saved == Saves(old(List()), c, throttle)
      ensures List() == if saved then Update(old(List()), Occurrence(c.executable, c.now)) else old(List())
    {
      var last := GetLastOccurrence(c.executable);
      if c.now < last { return false; }
      if c.now - last < throttle { return false; }
      if !c.dumped { return false; }
      UpdateOccurrence(c.executable, c.now);
      saved := true;
    }
  }
}
