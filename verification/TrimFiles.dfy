/** Trimming a directory to a size: its tree is scanned for the 128 heaviest
    files, which are deleted heaviest first until the directory fits, and all
    that is repeated a limited number of times. */
module TrimFiles {
  import opened Common

  /** What `lstat` finds; times in seconds. */
  datatype Node =
    | Unreadable
    | File(size: nat, mtime: int)
    | Link(size: nat, mtime: int)
    | Special
    | Dir(opens: bool, entries: seq<Entry>)

  datatype Entry = Entry(name: string, node: Node)

  /** A candidate for deletion, `weight` standing for size and age. */
  datatype Victim = Victim(path: string, weight: real, size: nat)

  const LIMIT := 128
  const STAT_SIZE := 144
  const PASSES := 99

  // ---- The bounded list ---------------------------------------------------------

  ghost predicate Sorted(list: seq<Victim>) {
    forall i, j :: 0 <= i < j < |list| ==> list[i].weight <= list[j].weight
  }

  /** The first entry at least as heavy as w. */
  function Place(list: seq<Victim>, w: real): (k: nat)
    ensures k <= |list|
    ensures forall j :: 0 <= j < k ==> list[j].weight < w
    ensures k < |list| ==> list[k].weight >= w
  {
    if list == [] || list[0].weight >= w then 0 else 1 + Place(list[1..], w)
  }

  function Inserted(list: seq<Victim>, v: Victim): seq<Victim> {
    var k := Place(list, v.weight);
    list[..k] + [v] + list[k..]
  }

  function Insert(list: seq<Victim>, v: Victim): seq<Victim> {
    if Place(list, v.weight) == 0 && |list| >= LIMIT then list
    else if |list| >= LIMIT then Inserted(list, v)[1..]
    else Inserted(list, v)
  }

  function Collected(found: seq<Victim>): seq<Victim>
    decreases |found|
  {
    if found == [] then [] else Insert(Collected(found[..|found| - 1]), found[|found| - 1])
  }

  /** Everything offered is in the list or was rejected; what was rejected is no
      heavier than what was kept, and nothing is rejected while there is room. */
  ghost predicate Heaviest(list: seq<Victim>, rejected: multiset<Victim>, offered: multiset<Victim>) {
    && offered == multiset(list) + rejected
    && Sorted(list) && |list| <= LIMIT
    && NoHeavier(rejected, list)
    && (rejected != multiset{} ==> |list| == LIMIT)
  }

  lemma InsertedMultiset(list: seq<Victim>, v: Victim)
    ensures multiset(Inserted(list, v)) == multiset(list) + multiset{v}
  {
    var k := Place(list, v.weight);
    assert list == list[..k] + list[k..];
  }

  lemma InsertedSorted(list: seq<Victim>, v: Victim)
    requires Sorted(list)
    ensures Sorted(Inserted(list, v)) && multiset(Inserted(list, v)) == multiset(list) + multiset{v}
  {
    InsertedMultiset(list, v);
    var all, k := Inserted(list, v), Place(list, v.weight);
    forall i, j | 0 <= i < j < |all| ensures all[i].weight <= all[j].weight {
      assert i < k ==> all[i] == list[i];
      assert j > k ==> all[j] == list[j - 1];
      if i > k { assert all[i] == list[i - 1]; }
      if j < k { assert all[j] == list[j]; }
    }
  }

  lemma InsertWithRoom(list: seq<Victim>, v: Victim, rejected: multiset<Victim>, offered: multiset<Victim>)
    requires Heaviest(list, rejected, offered) && |list| < LIMIT
    ensures Heaviest(Insert(list, v), rejected, offered + multiset{v})
  {
    InsertedSorted(list, v);
    assert rejected == multiset{};
  }

  lemma RejectLight(list: seq<Victim>, v: Victim, rejected: multiset<Victim>, offered: multiset<Victim>)
    requires Heaviest(list, rejected, offered) && |list| == LIMIT && Place(list, v.weight) == 0
    ensures Heaviest(list, rejected + multiset{v}, offered + multiset{v})
  {
    forall r, i | r in rejected + multiset{v} && 0 <= i < |list| ensures r.weight <= list[i].weight {
      assert list[0].weight <= list[i].weight;
    }
  }

  lemma InsertedFirst(list: seq<Victim>, v: Victim)
    requires Sorted(list) && Place(list, v.weight) > 0
    ensures Inserted(list, v)[0] == list[0] && Sorted(Inserted(list, v)[1..])
    ensures multiset(list) + multiset{v} == multiset{list[0]} + multiset(Inserted(list, v)[1..])
    ensures forall i :: 0 <= i < |list| ==> list[0].weight <= Inserted(list, v)[1..][i].weight
  {
    InsertedSorted(list, v);
    var all := Inserted(list, v);
    assert all == [list[0]] + all[1..];
    forall i | 0 <= i < |list| ensures list[0].weight <= all[1..][i].weight {
      assert all[1..][i] == all[i + 1];
    }
  }

  lemma Swapped(list: multiset<Victim>, kept: multiset<Victim>, first: Victim, v: Victim, rejected: multiset<Victim>)
    requires list + multiset{v} == multiset{first} + kept
    ensures kept + (rejected + multiset{first}) == list + rejected + multiset{v}
  {
    assert kept + (rejected + multiset{first}) == (multiset{first} + kept) + rejected;
  }

  ghost predicate NoHeavier(rejected: multiset<Victim>, list: seq<Victim>) {
    forall r, i :: r in rejected && 0 <= i < |list| ==> r.weight <= list[i].weight
  }

  lemma NoHeavierDropped(list: seq<Victim>, kept: seq<Victim>, rejected: multiset<Victim>)
    requires |list| > 0 && NoHeavier(rejected, list) && forall i :: 0 <= i < |kept| ==> list[0].weight <= kept[i].weight
    ensures NoHeavier(rejected + multiset{list[0]}, kept)
  {
  }

  lemma DropLightest(list: seq<Victim>, v: Victim, rejected: multiset<Victim>, offered: multiset<Victim>)
    requires Heaviest(list, rejected, offered) && |list| == LIMIT && Place(list, v.weight) > 0
    ensures Heaviest(Inserted(list, v)[1..], rejected + multiset{list[0]}, offered + multiset{v})
  {
    InsertedFirst(list, v);
    var kept := Inserted(list, v)[1..];
    NoHeavierDropped(list, kept, rejected);
    Swapped(multiset(list), multiset(kept), list[0], v, rejected);
  }

  lemma InsertKeepsHeaviest(list: seq<Victim>, v: Victim, rejected: multiset<Victim>,
      offered: multiset<Victim>) returns (out: multiset<Victim>)
    requires Heaviest(list, rejected, offered)
    ensures Heaviest(Insert(list, v), out, offered + multiset{v})
  {
    if |list| < LIMIT {
      InsertWithRoom(list, v, rejected, offered);
      out := rejected;
    } else if Place(list, v.weight) == 0 {
      RejectLight(list, v, rejected, offered);
      out := rejected + multiset{v};
    } else {
      DropLightest(list, v, rejected, offered);
      out := rejected + multiset{list[0]};
    }
  }

  lemma {:induction false} CollectedHeaviest(found: seq<Victim>) returns (rejected: multiset<Victim>)
    ensures Heaviest(Collected(found), rejected, multiset(found))
    decreases |found|
  {
    if found == [] {
      rejected := multiset{};
    } else {
      var before, v := found[..|found| - 1], found[|found| - 1];
      var out := CollectedHeaviest(before);
      rejected := InsertKeepsHeaviest(Collected(before), v, out, multiset(before));
      assert found == before + [v];
    }
  }

  /** Whatever the order of the scan, the list ends up sorted and holds the
      min(128, n) heaviest of the files offered. */
  lemma HoldsHeaviest(found: seq<Victim>)
    ensures var list := Collected(found);
      && Sorted(list) && |list| == Min(128, |found|)
      && multiset(list) <= multiset(found)
      && forall v, i :: v in multiset(found) - multiset(list) && 0 <= i < |list| ==> v.weight <= list[i].weight
  {
    var rejected := CollectedHeaviest(found);
    var list := Collected(found);
    assert multiset(found) - multiset(list) == rejected;
    assert |multiset(found)| == |multiset(list)| + |rejected|;
    assert rejected == multiset{} <==> |rejected| == 0;
  }

  // ---- The tree ---------------------------------------------------------------------

  predicate DotOrDotdot(name: string) { name == "." || name == ".." }

  function PathOf(dir: string, name: string): string {
    if dir != "" && dir[|dir| - 1] == '/' then dir + name else dir + "/" + name
  }

  /** The name and the inode are charged to a file as well. */
  function Cost(name: string, size: nat): nat { size + |name| + STAT_SIZE }

  /** Kilobytes, times the age in minutes once that exceeds one. */
  function Weight(cost: nat, mtime: int, now: int): real {
    var kilobytes := cost as real / 1024.0;
    var age := (now - mtime) / 60;
    if age > 1 then kilobytes * age as real else kilobytes
  }

  /** A file of k minutes weighs k times its kilobytes, but at least once. */
  lemma WeightExactly(cost: nat, mtime: int, now: int, k: int)
    requires 60 * k <= now - mtime < 60 * (k + 1)
    ensures Weight(cost, mtime, now) * 1024.0 == cost as real * (if k > 1 then k as real else 1.0)
  {
    assert (now - mtime) / 60 == k;
  }

  lemma HeavierByAge(kilobytes: real, a: int, b: int)
    requires kilobytes > 0.0 && a > b
    ensures kilobytes * a as real > kilobytes * b as real
  {
  }

  /** Of two files of one cost the older weighs more, if it is at least two minutes
      old and the other one at least a minute younger. */
  lemma OlderIsHeavier(cost: nat, older: int, here: int, newer: int, there: int)
    requires cost > 0 && here - older >= 120 && here - older >= there - newer + 60
    ensures Weight(cost, older, here) > Weight(cost, newer, there)
  {
    var a, b := (here - older) / 60, (there - newer) / 60;
    assert a >= 2 && a > b;
    HeavierByAge(cost as real / 1024.0, a, if b > 1 then b else 1);
  }

  /** Of two files of one age the costlier weighs more. */
  lemma CostlierIsHeavier(more: nat, less: nat, m: int, here: int, n: int, there: int)
    requires more > less && here - m == there - n
    ensures Weight(more, m, here) > Weight(less, n, there)
  {
    var age := (here - m) / 60;
    var a, b := more as real / 1024.0, less as real / 1024.0;
    if age > 1 {
      assert (a - b) * age as real > 0.0;
      assert a * age as real - b * age as real == (a - b) * age as real;
    }
  }

  predicate Deletable(e: Entry) { !DotOrDotdot(e.name) && (e.node.File? || e.node.Link?) }

  predicate Scanned(e: Entry) { !DotOrDotdot(e.name) && e.node.Dir? && e.node.opens }

  function SizeOf(entries: seq<Entry>): nat
    decreases entries
  {
    if entries == [] then 0
    else
      var e := entries[0];
      (if Deletable(e) then Cost(e.name, e.node.size) else if Scanned(e) then SizeOf(e.node.entries) else 0)
        + SizeOf(entries[1..])
  }

  /** The time as read in each directory of one scan, by path. */
  type Clock = string -> int

  function VictimOf(path: string, e: Entry, now: int): Victim
    requires Deletable(e)
  {
    Victim(path, Weight(Cost(e.name, e.node.size), e.node.mtime, now), e.node.size)
  }

  function Candidates(dir: string, entries: seq<Entry>, times: Clock, preserved: seq<string>): seq<Victim>
    decreases entries
  {
    if entries == [] then []
    else
      var e := entries[0];
      var path := PathOf(dir, e.name);
      (if Deletable(e) then
         if path in preserved then [] else [VictimOf(path, e, times(dir))]
       else if Scanned(e) then Candidates(path, e.node.entries, times, preserved)
       else [])
        + Candidates(dir, entries[1..], times, preserved)
  }

  function Removed(dir: string, entries: seq<Entry>, gone: set<string>): seq<Entry>
    decreases entries
  {
    if entries == [] then []
    else
      var e := entries[0];
      var path := PathOf(dir, e.name);
      (if Deletable(e) && path in gone then []
       else if Scanned(e) then [Entry(e.name, Dir(true, Removed(path, e.node.entries, gone)))]
       else [e])
        + Removed(dir, entries[1..], gone)
  }

  predicate Contains(dir: string, entries: seq<Entry>, path: string)
    decreases entries
  {
    entries != []
    && var e := entries[0];
       || (Deletable(e) && PathOf(dir, e.name) == path)
       || (Scanned(e) && Contains(PathOf(dir, e.name), e.node.entries, path))
       || Contains(dir, entries[1..], path)
  }

  /** Deleting takes away the named files and nothing else. */
  lemma {:induction false} RemovedExactly(dir: string, entries: seq<Entry>, gone: set<string>, path: string)
    ensures Contains(dir, Removed(dir, entries, gone), path) <==> Contains(dir, entries, path) && path !in gone
    decreases entries
  {
    if entries != [] {
      var e := entries[0];
      var here := PathOf(dir, e.name);
      var rest := Removed(dir, entries[1..], gone);
      RemovedExactly(dir, entries[1..], gone, path);
      if Deletable(e) && here in gone {
        assert Removed(dir, entries, gone) == rest;
      } else if Scanned(e) {
        RemovedExactly(here, e.node.entries, gone, path);
        var left := Entry(e.name, Dir(true, Removed(here, e.node.entries, gone)));
        assert Removed(dir, entries, gone) == [left] + rest;
        assert ([left] + rest)[1..] == rest;
      } else {
        assert Removed(dir, entries, gone) == [e] + rest;
        assert ([e] + rest)[1..] == rest;
      }
    }
  }

  lemma {:induction false} RemovedTwice(dir: string, entries: seq<Entry>, a: set<string>, b: set<string>)
    ensures Removed(dir, Removed(dir, entries, a), b) == Removed(dir, entries, a + b)
    decreases entries
  {
    if entries != [] {
      var e := entries[0];
      var here := PathOf(dir, e.name);
      var rest := Removed(dir, entries[1..], a);
      RemovedTwice(dir, entries[1..], a, b);
      if Deletable(e) && here in a {
        assert Removed(dir, entries, a) == rest;
      } else if Scanned(e) {
        RemovedTwice(here, e.node.entries, a, b);
        var left := Entry(e.name, Dir(true, Removed(here, e.node.entries, a)));
        assert Removed(dir, entries, a) == [left] + rest;
        assert ([left] + rest)[1..] == rest;
      } else {
        assert Removed(dir, entries, a) == [e] + rest;
        assert ([e] + rest)[1..] == rest;
      }
    }
  }

  /** What the named files are charged for in the tree. */
  function CostIn(dir: string, entries: seq<Entry>, gone: set<string>): nat
    decreases entries
  {
    if entries == [] then 0
    else
      var e := entries[0];
      var path := PathOf(dir, e.name);
      (if Deletable(e) && path in gone then Cost(e.name, e.node.size)
       else if Scanned(e) then CostIn(path, e.node.entries, gone)
       else 0)
        + CostIn(dir, entries[1..], gone)
  }

  /** Deleting frees exactly that: sizes, names and inodes. */
  lemma {:induction false} RemovedFreesExactly(dir: string, entries: seq<Entry>, gone: set<string>)
    ensures SizeOf(Removed(dir, entries, gone)) + CostIn(dir, entries, gone) == SizeOf(entries)
    decreases entries
  {
    if entries != [] {
      var e := entries[0];
      var here := PathOf(dir, e.name);
      var rest := Removed(dir, entries[1..], gone);
      RemovedFreesExactly(dir, entries[1..], gone);
      if Deletable(e) && here in gone {
        assert Removed(dir, entries, gone) == rest;
      } else if Scanned(e) {
        RemovedFreesExactly(here, e.node.entries, gone);
        var left := Entry(e.name, Dir(true, Removed(here, e.node.entries, gone)));
        assert Removed(dir, entries, gone) == [left] + rest;
        assert ([left] + rest)[1..] == rest;
      } else {
        assert Removed(dir, entries, gone) == [e] + rest;
        assert ([e] + rest)[1..] == rest;
      }
    }
  }

  function SizeIn(found: seq<Victim>, gone: set<string>): nat {
    if found == [] then 0 else (if found[0].path in gone then found[0].size else 0) + SizeIn(found[1..], gone)
  }

  lemma {:induction false} SizeInAppends(a: seq<Victim>, b: seq<Victim>, gone: set<string>)
    ensures SizeIn(a + b, gone) == SizeIn(a, gone) + SizeIn(b, gone)
  {
    if a == [] {
      assert a + b == b;
    } else {
      assert (a + b)[1..] == a[1..] + b;
      SizeInAppends(a[1..], b, gone);
    }
  }

  /** Deleting frees at least the bytes of the candidates deleted. */
  lemma {:induction false} RemovedFrees(dir: string, entries: seq<Entry>, times: Clock, preserved: seq<string>,
      gone: set<string>)
    ensures var found := Candidates(dir, entries, times, preserved);
      SizeOf(Removed(dir, entries, gone)) + SizeIn(found, gone) <= SizeOf(entries)
    decreases entries
  {
    if entries != [] {
      var e := entries[0];
      var here := PathOf(dir, e.name);
      var rest := Removed(dir, entries[1..], gone);
      var others := Candidates(dir, entries[1..], times, preserved);
      RemovedFrees(dir, entries[1..], times, preserved, gone);
      if Deletable(e) {
        var own := if here in preserved then [] else [VictimOf(here, e, times(dir))];
        assert Candidates(dir, entries, times, preserved) == own + others;
        SizeInAppends(own, others, gone);
        assert Removed(dir, entries, gone) == (if here in gone then [] else [e]) + rest;
        assert ([e] + rest)[1..] == rest;
        assert [] + rest == rest;
      } else if Scanned(e) {
        RemovedFrees(here, e.node.entries, times, preserved, gone);
        var left := Entry(e.name, Dir(true, Removed(here, e.node.entries, gone)));
        SizeInAppends(Candidates(here, e.node.entries, times, preserved), others, gone);
        assert Removed(dir, entries, gone) == [left] + rest;
        assert ([left] + rest)[1..] == rest;
      } else {
        assert Candidates(dir, entries, times, preserved) == [] + others == others;
        assert Removed(dir, entries, gone) == [e] + rest;
        assert ([e] + rest)[1..] == rest;
      }
    }
  }

  /** What the scan of one entry gives: its size, and a candidate unless it is
      to be preserved. */
  lemma OneEntry(dir: string, name: string, node: Node, times: Clock, preserved: seq<string>)
    requires name != "." && name != ".."
    ensures var path := dir + (if dir != "" && dir[|dir| - 1] == '/' then "" else "/") + name;
      var size, found := SizeOf([Entry(name, node)]), Candidates(dir, [Entry(name, node)], times, preserved);
      match node
      case Unreadable => size == 0 && found == []
      case Special => size == 0 && found == []
      case Dir(opens, inside) =>
        && size == (if opens then SizeOf(inside) else 0)
        && found == if opens then Candidates(path, inside, times, preserved) else []
      case _ =>
        && size == node.size + |name| + 144
        && found == if path in preserved then []
                    else [Victim(path, Weight(node.size + |name| + 144, node.mtime, times(dir)), node.size)]
  {
    var path := dir + (if dir != "" && dir[|dir| - 1] == '/' then "" else "/") + name;
    assert path == PathOf(dir, name);
    assert [Entry(name, node)][1..] == [];
  }

  lemma LinksToItselfAndUp(dir: string, name: string, node: Node, times: Clock, preserved: seq<string>)
    requires name == "." || name == ".."
    ensures SizeOf([Entry(name, node)]) == 0 && Candidates(dir, [Entry(name, node)], times, preserved) == []
  {
    assert [Entry(name, node)][1..] == [];
  }

  lemma {:induction false} SizesAdd(a: seq<Entry>, b: seq<Entry>)
    ensures SizeOf(a + b) == SizeOf(a) + SizeOf(b)
  {
    if a == [] {
      assert a + b == b;
    } else {
      assert (a + b)[1..] == a[1..] + b;
      SizesAdd(a[1..], b);
    }
  }

  /** Sizes and candidates of a directory are those of its entries, one by one. */
  lemma {:induction false} EntriesAdd(dir: string, a: seq<Entry>, b: seq<Entry>, times: Clock, preserved: seq<string>)
    ensures SizeOf(a + b) == SizeOf(a) + SizeOf(b)
    ensures Candidates(dir, a + b, times, preserved)
         == Candidates(dir, a, times, preserved) + Candidates(dir, b, times, preserved)
  {
    SizesAdd(a, b);
    if a == [] {
      assert a + b == b;
    } else {
      EntriesAdd(dir, a[1..], b, times, preserved);
      assert [a[0]] + a[1..] == a && [a[0]] + (a[1..] + b) == a + b;
      Prepended(dir, a[0], a[1..], b, times, preserved);
    }
  }

  lemma Prepended(dir: string, e: Entry, a: seq<Entry>, b: seq<Entry>, times: Clock, preserved: seq<string>)
    requires Candidates(dir, a + b, times, preserved)
          == Candidates(dir, a, times, preserved) + Candidates(dir, b, times, preserved)
    ensures Candidates(dir, [e] + (a + b), times, preserved)
         == Candidates(dir, [e] + a, times, preserved) + Candidates(dir, b, times, preserved)
  {
    FirstEntry(dir, e, a, times, preserved);
    FirstEntry(dir, e, a + b, times, preserved);
  }

  lemma FirstEntry(dir: string, e: Entry, rest: seq<Entry>, times: Clock, preserved: seq<string>)
    ensures Candidates(dir, [e] + rest, times, preserved)
         == OwnCandidates(dir, e, times, preserved) + Candidates(dir, rest, times, preserved)
  {
    assert ([e] + rest)[1..] == rest;
  }

  /** File e is in the directory d, which is the scanned one or below it. */
  ghost predicate LiesIn(dir: string, entries: seq<Entry>, d: string, e: Entry)
    decreases entries
  {
    || (d == dir && e in entries)
    || exists sub <- entries :: Scanned(sub) && LiesIn(PathOf(dir, sub.name), sub.node.entries, d, e)
  }

  /** Every file of the tree that is not preserved is a candidate, with the time
      read in its own directory. */
  lemma {:induction false} FileIsCandidate(dir: string, entries: seq<Entry>, times: Clock, preserved: seq<string>,
      d: string, e: Entry)
    requires LiesIn(dir, entries, d, e) && Deletable(e) && PathOf(d, e.name) !in preserved
    ensures VictimOf(PathOf(d, e.name), e, times(d)) in Candidates(dir, entries, times, preserved)
    decreases entries
  {
    assert entries != [];
    if d == dir && e == entries[0] {
    } else if Scanned(entries[0]) && LiesIn(PathOf(dir, entries[0].name), entries[0].node.entries, d, e) {
      FileIsCandidate(PathOf(dir, entries[0].name), entries[0].node.entries, times, preserved, d, e);
    } else {
      LiesInRest(dir, entries, d, e);
      FileIsCandidate(dir, entries[1..], times, preserved, d, e);
    }
  }

  /** A path is in the tree exactly if it is that of a file in some directory. */
  lemma {:induction false} ContainsExactly(dir: string, entries: seq<Entry>, path: string)
    ensures Contains(dir, entries, path) <==>
      exists d, e :: LiesIn(dir, entries, d, e) && Deletable(e) && PathOf(d, e.name) == path
    decreases entries
  {
    if entries != [] {
      var first := entries[0];
      var below := PathOf(dir, first.name);
      ContainsExactly(dir, entries[1..], path);
      if Scanned(first) { ContainsExactly(below, first.node.entries, path); }
      forall d, e | LiesIn(dir, entries, d, e) && Deletable(e) && PathOf(d, e.name) == path
        ensures Contains(dir, entries, path)
      {
        if !(d == dir && e == first) && !(Scanned(first) && LiesIn(below, first.node.entries, d, e)) {
          LiesInRest(dir, entries, d, e);
        }
      }
      forall d, e | LiesIn(dir, entries[1..], d, e) ensures LiesIn(dir, entries, d, e) {
        RestLiesIn(dir, entries, d, e);
      }
    }
  }

  lemma RestLiesIn(dir: string, entries: seq<Entry>, d: string, e: Entry)
    requires entries != [] && LiesIn(dir, entries[1..], d, e)
    ensures LiesIn(dir, entries, d, e)
  {
  }

  lemma InRest<T>(s: seq<T>, x: T)
    requires x in s && x != s[0]
    ensures x in s[1..]
  {
  }

  lemma LiesInRest(dir: string, entries: seq<Entry>, d: string, e: Entry)
    requires entries != [] && LiesIn(dir, entries, d, e) && !(d == dir && e == entries[0])
    requires !(Scanned(entries[0]) && LiesIn(PathOf(dir, entries[0].name), entries[0].node.entries, d, e))
    ensures LiesIn(dir, entries[1..], d, e)
  {
    if d == dir && e in entries {
      InRest(entries, e);
    } else {
      var sub :| sub in entries && Scanned(sub) && LiesIn(PathOf(dir, sub.name), sub.node.entries, d, e);
      InRest(entries, sub);
    }
  }

  lemma {:induction false} CandidatesNotPreserved(dir: string, entries: seq<Entry>, times: Clock,
      preserved: seq<string>)
    ensures forall v :: v in Candidates(dir, entries, times, preserved) ==> v.path !in preserved
    decreases entries
  {
    if entries != [] {
      CandidatesNotPreserved(dir, entries[1..], times, preserved);
      if Scanned(entries[0]) {
        CandidatesNotPreserved(PathOf(dir, entries[0].name), entries[0].node.entries, times, preserved);
      }
    }
  }

  // ---- One pass ------------------------------------------------------------------------

  /** The running size after trying these files; `refused` cannot be unlinked. */
  function Running(tried: seq<Victim>, size: int, refused: set<string>): int {
    if tried == [] then size
    else
      var v := tried[|tried| - 1];
      Running(tried[..|tried| - 1], size, refused) - if v.path in refused then 0 else v.size
  }

  function Gone(tried: seq<Victim>, refused: set<string>): set<string> {
    set v | v in tried && v.path !in refused :: v.path
  }

  /** How many of the files, heaviest first, a pass tries. */
  predicate Stops(heavy: seq<Victim>, n: nat, size: int, cap: int, refused: set<string>)
    requires n <= |heavy|
  {
    && (n == |heavy| || Running(heavy[..n], size, refused) <= cap)
    && (forall i :: 0 <= i < n ==> Running(heavy[..i], size, refused) > cap)
  }

  /** The pass is determined by that: there is one such number. */
  lemma StopsOnce(heavy: seq<Victim>, m: nat, n: nat, size: int, cap: int, refused: set<string>)
    requires m <= |heavy| && n <= |heavy|
    requires Stops(heavy, m, size, cap, refused) && Stops(heavy, n, size, cap, refused)
    ensures m == n
  {
  }

  lemma {:induction false} FreedAtLeast(tried: seq<Victim>, found: seq<Victim>, size: int, refused: set<string>,
      gone: set<string>)
    requires multiset(tried) <= multiset(found)
    requires forall v :: v in tried && v.path !in refused ==> v.path in gone
    ensures size - Running(tried, size, refused) <= SizeIn(found, gone)
    decreases |tried|
  {
    if tried != [] {
      var n := |tried| - 1;
      var v := tried[n];
      assert tried == tried[..n] + [v];
      assert v in multiset(found);
      var k :| 0 <= k < |found| && found[k] == v;
      var others := found[..k] + found[k + 1..];
      assert found == found[..k] + ([v] + found[k + 1..]);
      assert multiset(others) == multiset(found) - multiset{v};
      assert multiset(tried[..n]) == multiset(tried) - multiset{v};
      FreedAtLeast(tried[..n], others, size, refused, gone);
      SizeInAppends(found[..k], [v] + found[k + 1..], gone);
      SizeInAppends([v], found[k + 1..], gone);
      SizeInAppends(found[..k], found[k + 1..], gone);
    }
  }

  /** The victims of a tree, heaviest first. */
  function Heavy(dir: string, entries: seq<Entry>, times: Clock, preserved: seq<string>): seq<Victim> {
    Reverse(Collected(Candidates(dir, entries, times, preserved)))
  }

  lemma HeavyWithin(dir: string, entries: seq<Entry>, times: Clock, preserved: seq<string>, n: nat)
    requires n <= |Heavy(dir, entries, times, preserved)|
    ensures var heavy := Heavy(dir, entries, times, preserved);
      && multiset(heavy) == multiset(Collected(Candidates(dir, entries, times, preserved)))
      && multiset(heavy) == multiset(heavy[..n]) + multiset(heavy[n..])
      && multiset(heavy) <= multiset(Candidates(dir, entries, times, preserved))
  {
    var heavy := Heavy(dir, entries, times, preserved);
    HoldsHeaviest(Candidates(dir, entries, times, preserved));
    ReverseMultiset(Collected(Candidates(dir, entries, times, preserved)));
    assert heavy == heavy[..n] + heavy[n..];
  }

  /** In a pass over a tree's own victims the running size is an upper bound of
      what is left. */
  lemma RunningBoundsRest(dir: string, entries: seq<Entry>, times: Clock, preserved: seq<string>, refused: set<string>,
      n: nat)
    requires n <= |Heavy(dir, entries, times, preserved)|
    ensures var tried := Heavy(dir, entries, times, preserved)[..n];
      SizeOf(Removed(dir, entries, Gone(tried, refused))) <= Running(tried, SizeOf(entries), refused)
  {
    var tried := Heavy(dir, entries, times, preserved)[..n];
    HeavyWithin(dir, entries, times, preserved, n);
    FreedAtLeast(tried, Candidates(dir, entries, times, preserved), SizeOf(entries), refused, Gone(tried, refused));
    RemovedFrees(dir, entries, times, preserved, Gone(tried, refused));
  }

  lemma PassSparesPreserved(dir: string, entries: seq<Entry>, times: Clock, preserved: seq<string>,
      refused: set<string>,
      n: nat)
    requires n <= |Heavy(dir, entries, times, preserved)|
    ensures forall path :: path in preserved ==> path !in Gone(Heavy(dir, entries, times, preserved)[..n], refused)
  {
    var tried := Heavy(dir, entries, times, preserved)[..n];
    HeavyWithin(dir, entries, times, preserved, n);
    CandidatesNotPreserved(dir, entries, times, preserved);
    forall v | v in tried ensures v.path !in preserved {
      assert v in multiset(tried) && v in multiset(Candidates(dir, entries, times, preserved));
    }
  }

  /** Of a list cut in two, what is not in the front is in the back. */
  lemma NotTried(found: multiset<Victim>, heavy: seq<Victim>, n: nat, v: Victim)
    requires n <= |heavy| && v in found - multiset(heavy[..n]) && v !in found - multiset(heavy)
    ensures v in heavy[n..]
  {
    assert heavy == heavy[..n] + heavy[n..];
    assert multiset(heavy) == multiset(heavy[..n]) + multiset(heavy[n..]);
    assert v in multiset(heavy[n..]);
  }

  lemma LeftIsLighter(found: seq<Victim>, list: seq<Victim>, n: nat, i: nat, v: Victim)
    requires Sorted(list) && n <= |list| && i < n
    requires forall u, j :: u in multiset(found) - multiset(list) && 0 <= j < |list| ==> u.weight <= list[j].weight
    requires v in multiset(found) - multiset(Reverse(list)[..n])
    ensures v.weight <= Reverse(list)[i].weight
  {
    var heavy := Reverse(list);
    ReverseMultiset(list);
    if v !in multiset(found) - multiset(list) {
      NotTried(multiset(found), heavy, n, v);
      var j :| n <= j < |heavy| && heavy[j] == v;
      assert heavy[i] == list[|list| - 1 - i] && v == list[|list| - 1 - j];
    }
  }

  /** What a pass has tried is the heaviest of all candidates of the tree. */
  lemma PassTakesHeaviest(dir: string, entries: seq<Entry>, times: Clock, preserved: seq<string>, n: nat, i: nat,
      v: Victim)
    requires i < n <= |Heavy(dir, entries, times, preserved)|
    requires v in multiset(Candidates(dir, entries, times, preserved))
                  - multiset(Heavy(dir, entries, times, preserved)[..n])
    ensures v.weight <= Heavy(dir, entries, times, preserved)[i].weight
  {
    var found := Candidates(dir, entries, times, preserved);
    HoldsHeaviest(found);
    LeftIsLighter(found, Collected(found), n, i, v);
  }

  lemma HeavierIsTried(dir: string, entries: seq<Entry>, times: Clock, preserved: seq<string>, n: nat, a: Victim,
      b: Victim)
    requires n <= |Heavy(dir, entries, times, preserved)|
    requires a in Candidates(dir, entries, times, preserved) && a.weight > b.weight
    requires b in Heavy(dir, entries, times, preserved)[..n]
    ensures a in Heavy(dir, entries, times, preserved)[..n]
  {
    var tried := Heavy(dir, entries, times, preserved)[..n];
    var i :| 0 <= i < n && tried[i] == b;
    if a !in tried {
      assert a in multiset(Candidates(dir, entries, times, preserved)) - multiset(tried);
      PassTakesHeaviest(dir, entries, times, preserved, n, i, a);
    }
  }

  /** File e in directory d is a victim of the pass. */
  ghost predicate TriedFile(dir: string, entries: seq<Entry>, times: Clock, preserved: seq<string>, n: nat,
      d: string, e: Entry)
    requires Deletable(e)
  {
    && n <= |Heavy(dir, entries, times, preserved)|
    && VictimOf(PathOf(d, e.name), e, times(d)) in Heavy(dir, entries, times, preserved)[..n]
  }

  ghost predicate MayGo(dir: string, entries: seq<Entry>, preserved: seq<string>, d: string, e: Entry) {
    LiesIn(dir, entries, d, e) && Deletable(e) && PathOf(d, e.name) !in preserved
  }

  /** No pass tries a file while it leaves one that takes as much room and is
      older, by a minute or more and by now two minutes old. */
  lemma OlderGoesFirst(dir: string, entries: seq<Entry>, times: Clock, preserved: seq<string>, n: nat,
      d: string, older: Entry, c: string, newer: Entry)
    requires MayGo(dir, entries, preserved, d, older) && MayGo(dir, entries, preserved, c, newer)
    requires older.node.size + |older.name| == newer.node.size + |newer.name|
    requires times(d) - older.node.mtime >= 120
    requires times(d) - older.node.mtime >= times(c) - newer.node.mtime + 60
    requires TriedFile(dir, entries, times, preserved, n, c, newer)
    ensures TriedFile(dir, entries, times, preserved, n, d, older)
  {
    FileIsCandidate(dir, entries, times, preserved, d, older);
    OlderIsHeavier(Cost(older.name, older.node.size), older.node.mtime, times(d), newer.node.mtime, times(c));
    HeavierIsTried(dir, entries, times, preserved, n, VictimOf(PathOf(d, older.name), older, times(d)),
      VictimOf(PathOf(c, newer.name), newer, times(c)));
  }

  /** Nor while it leaves one of the same age that takes more room. */
  lemma CostlierGoesFirst(dir: string, entries: seq<Entry>, times: Clock, preserved: seq<string>, n: nat,
      d: string, larger: Entry, c: string, smaller: Entry)
    requires MayGo(dir, entries, preserved, d, larger) && MayGo(dir, entries, preserved, c, smaller)
    requires larger.node.size + |larger.name| > smaller.node.size + |smaller.name|
    requires times(d) - larger.node.mtime == times(c) - smaller.node.mtime
    requires TriedFile(dir, entries, times, preserved, n, c, smaller)
    ensures TriedFile(dir, entries, times, preserved, n, d, larger)
  {
    FileIsCandidate(dir, entries, times, preserved, d, larger);
    CostlierIsHeavier(Cost(larger.name, larger.node.size), Cost(smaller.name, smaller.node.size), larger.node.mtime,
      times(d), smaller.node.mtime, times(c));
    HeavierIsTried(dir, entries, times, preserved, n, VictimOf(PathOf(d, larger.name), larger, times(d)),
      VictimOf(PathOf(c, smaller.name), smaller, times(c)));
  }

  /** The running size is the size less the bytes of the files unlinked. */
  lemma {:induction false} RunningExactly(tried: seq<Victim>, size: int, refused: set<string>, gone: set<string>)
    requires forall v :: v in tried ==> (v.path in gone <==> v.path !in refused)
    ensures Running(tried, size, refused) == size - SizeIn(tried, gone)
    ensures forall v :: SizeIn([v], gone) == if v.path in gone then v.size else 0
    decreases |tried|
  {
    if tried != [] {
      var before, v := tried[..|tried| - 1], tried[|tried| - 1];
      assert tried == before + [v];
      SizeInAppends(before, [v], gone);
      RunningExactly(before, size, refused, gone);
    }
  }

  lemma {:induction false} RunningFalls(heavy: seq<Victim>, i: nat, j: nat, size: int, refused: set<string>)
    requires i <= j <= |heavy|
    ensures Running(heavy[..j], size, refused) <= Running(heavy[..i], size, refused)
    decreases j
  {
    if i < j {
      RunningFalls(heavy, i, j - 1, size, refused);
      assert heavy[..j][..j - 1] == heavy[..j - 1];
    }
  }

  /** The i-th file is tried although the tree already fits. */
  ghost predicate TriedInVain(dir: string, entries: seq<Entry>, heavy: seq<Victim>, cap: int, refused: set<string>,
      n: nat, i: nat)
    requires n <= |heavy| && i < |heavy|
  {
    i < n && SizeOf(Removed(dir, entries, Gone(heavy[..i], refused))) <= cap
  }

  /** That happens exactly while the true size is at or below the cap and the
      running one, which leaves names and inodes of deleted files in, is not. */
  lemma TriedInVainExactly(dir: string, entries: seq<Entry>, heavy: seq<Victim>, cap: int, refused: set<string>,
      n: nat, i: nat)
    requires n <= |heavy| && i < |heavy| && Stops(heavy, n, SizeOf(entries), cap, refused)
    ensures TriedInVain(dir, entries, heavy, cap, refused, n, i) <==>
      && SizeOf(entries) - CostIn(dir, entries, Gone(heavy[..i], refused)) <= cap
      && cap < Running(heavy[..i], SizeOf(entries), refused)
  {
    RemovedFreesExactly(dir, entries, Gone(heavy[..i], refused));
    if i >= n { RunningFalls(heavy, n, i, SizeOf(entries), refused); }
  }

  /** Two empty, new files of which one would do: both are deleted. */
  function TwoEmpty(now: int): seq<Entry> { [Entry("a", File(0, now)), Entry("b", File(0, now))] }

  const EMPTY_VICTIMS :=
    [Victim("d/a", Cost("a", 0) as real / 1024.0, 0), Victim("d/b", Cost("b", 0) as real / 1024.0, 0)]

  lemma TwoEmptyHeavy(times: Clock)
    ensures Heavy("d", TwoEmpty(times("d")), times, []) == EMPTY_VICTIMS
  {
    var a, b, entries := EMPTY_VICTIMS[0], EMPTY_VICTIMS[1], TwoEmpty(times("d"));
    assert PathOf("d", "a") == "d/a" && PathOf("d", "b") == "d/b";
    assert entries[1..][1..] == [];
    assert Candidates("d", entries[1..], times, []) == [b];
    assert Candidates("d", entries, times, []) == [a, b];
    assert [a, b][..1] == [a] && [a][..0] == [];
    assert Collected([a]) == [a];
    assert Place([a], b.weight) == 0;
    assert Collected([a, b]) == [b, a];
  }

  lemma TwoEmptyRemoved(now: int, gone: set<string>)
    requires gone == {"d/a"} || gone == {"d/a", "d/b"}
    ensures Removed("d", TwoEmpty(now), gone) == if "d/b" in gone then [] else [TwoEmpty(now)[1]]
    ensures SizeOf(TwoEmpty(now)) == 2 * Cost("a", 0) && SizeOf([TwoEmpty(now)[1]]) == Cost("a", 0)
  {
    var entries := TwoEmpty(now);
    assert PathOf("d", "a") == "d/a" && PathOf("d", "b") == "d/b";
    assert "d/a"[2] != "d/b"[2];
    assert entries[1..][1..] == [];
    assert Removed("d", entries[1..], gone) == if "d/b" in gone then [] else [entries[1]];
    assert [entries[1]][1..] == [];
    assert SizeOf(entries[1..]) == Cost("b", 0) == Cost("a", 0);
    assert SizeOf(entries) == Cost("a", 0) + SizeOf(entries[1..]);
  }

  lemma BothEmptyFilesGo(times: Clock)
    ensures var entries := TwoEmpty(times("d"));
      var heavy := Heavy("d", entries, times, []);
      && |heavy| == 2 && Stops(heavy, 2, SizeOf(entries), Cost("a", 0), {})
      && TriedInVain("d", entries, heavy, Cost("a", 0), {}, 2, 1)
      && Removed("d", entries, Gone(heavy, {})) == []
  {
    var entries, heavy := TwoEmpty(times("d")), EMPTY_VICTIMS;
    TwoEmptyHeavy(times);
    assert heavy[..1] == [heavy[0]] && heavy[..0] == [];
    assert Gone(heavy[..1], {}) == {"d/a"};
    assert Gone(heavy, {}) == {"d/a", "d/b"} by { assert heavy[0] in heavy && heavy[1] in heavy; }
    TwoEmptyRemoved(times("d"), {"d/a"});
    TwoEmptyRemoved(times("d"), {"d/a", "d/b"});
    forall i | 0 <= i < 2 ensures Running(heavy[..i], SizeOf(entries), {}) > Cost("a", 0) {
      EmptyFilesFreeNothing(heavy[..i], SizeOf(entries), {});
    }
  }

  /** Empty files free nothing on paper: once over the cap, a pass whose
      victims are all empty tries every one of them. */
  lemma EmptyFilesAllGo(heavy: seq<Victim>, n: nat, size: int, cap: int, refused: set<string>)
    requires n <= |heavy| && Stops(heavy, n, size, cap, refused) && size > cap
    requires forall v :: v in heavy ==> v.size == 0
    ensures n == |heavy|
  {
    EmptyFilesFreeNothing(heavy[..n], size, refused);
  }

  lemma {:induction false} EmptyFilesFreeNothing(tried: seq<Victim>, size: int, refused: set<string>)
    requires forall v :: v in tried ==> v.size == 0
    ensures Running(tried, size, refused) == size
  {
    if tried != [] {
      EmptyFilesFreeNothing(tried[..|tried| - 1], size, refused);
    }
  }

  lemma {:induction false} RemovedNothing(dir: string, entries: seq<Entry>)
    ensures Removed(dir, entries, {}) == entries
    decreases entries
  {
    if entries != [] {
      var e := entries[0];
      RemovedNothing(dir, entries[1..]);
      if Scanned(e) { RemovedNothing(PathOf(dir, e.name), e.node.entries); }
      assert [e] + entries[1..] == entries;
    }
  }

  /** One more file is tried. */
  lemma TriedOne(dir: string, root: seq<Entry>, heavy: seq<Victim>, i: nat, size: int, refused: set<string>)
    requires i < |heavy|
    ensures var v := heavy[i];
      && Running(heavy[..i + 1], size, refused) ==
         Running(heavy[..i], size, refused) - (if v.path in refused then 0 else v.size)
      && Removed(dir, root, Gone(heavy[..i + 1], refused))
           == if v.path in refused then Removed(dir, root, Gone(heavy[..i], refused))
              else Removed(dir, Removed(dir, root, Gone(heavy[..i], refused)), {v.path})
  {
    var v := heavy[i];
    var tried := heavy[..i];
    assert heavy[..i + 1] == tried + [v];
    assert (tried + [v])[..|tried|] == tried;
    assert Gone(tried + [v], refused) == Gone(tried, refused) + if v.path in refused then {} else {v.path};
    if v.path in refused {
      assert Gone(tried, refused) + {} == Gone(tried, refused);
    } else {
      RemovedTwice(dir, root, Gone(tried, refused), {v.path});
    }
  }

  // ---- The program ----------------------------------------------------------------------

  method InsertNameAndSizes(list: seq<Victim>, v: Victim) returns (r: seq<Victim>)
    ensures r == Insert(list, v)
  {
    var cur := 0;
    while cur < |list| && list[cur].weight < v.weight
      invariant cur <= |list| && forall j :: 0 <= j < cur ==> list[j].weight < v.weight
    {
      cur := cur + 1;
    }
    assert cur == Place(list, v.weight);
    r := list;
    if cur != 0 || |list| < LIMIT {
      r := list[..cur] + [v] + list[cur..];
      if |r| > LIMIT { r := r[1..]; }
    }
  }

  function OwnSize(e: Entry): nat {
    if Deletable(e) then Cost(e.name, e.node.size) else if Scanned(e) then SizeOf(e.node.entries) else 0
  }

  function OwnCandidates(dir: string, e: Entry, times: Clock, preserved: seq<string>): seq<Victim> {
    var path := PathOf(dir, e.name);
    if Deletable(e) then
      if path in preserved then [] else [VictimOf(path, e, times(dir))]
    else if Scanned(e) then Candidates(path, e.node.entries, times, preserved)
    else []
  }

  lemma NextEntry(dir: string, entries: seq<Entry>, i: nat, times: Clock, preserved: seq<string>)
    requires i < |entries|
    ensures SizeOf(entries[i..]) == OwnSize(entries[i]) + SizeOf(entries[i + 1..])
    ensures Candidates(dir, entries[i..], times, preserved)
         == OwnCandidates(dir, entries[i], times, preserved) + Candidates(dir, entries[i + 1..], times, preserved)
  {
    assert entries[i..][1..] == entries[i + 1..];
  }

  /** A file joins the list unless it is to be preserved. */
  method OfferFile(dir: string, e: Entry, times: Clock, preserved: seq<string>, list: seq<Victim>,
      ghost seen: seq<Victim>)
    returns (worst: seq<Victim>)
    requires Deletable(e) && list == Collected(seen) && |list| <= LIMIT
    ensures worst == Collected(seen + OwnCandidates(dir, e, times, preserved)) && |worst| <= LIMIT
  {
    var path := PathOf(dir, e.name);
    ghost var own := OwnCandidates(dir, e, times, preserved);
    worst := list;
    if path !in preserved {
      assert (seen + own)[..|seen|] == seen;
      worst := InsertNameAndSizes(list, VictimOf(path, e, times(dir)));
    } else {
      assert seen + own == seen;
    }
  }

  /** What is still ahead of the scan of a directory. */
  ghost predicate Ahead(dir: string, entries: seq<Entry>, times: Clock, preserved: seq<string>, i: nat, size: nat,
      seen: seq<Victim>, all: seq<Victim>)
    requires i <= |entries|
  {
    size + SizeOf(entries[i..]) == SizeOf(entries) && seen + Candidates(dir, entries[i..], times, preserved) == all
  }

  lemma AheadOne(dir: string, entries: seq<Entry>, times: Clock, preserved: seq<string>, i: nat, size: nat,
      seen: seq<Victim>, all: seq<Victim>)
    requires i < |entries| && Ahead(dir, entries, times, preserved, i, size, seen, all)
    ensures Ahead(dir, entries, times, preserved, i + 1,
                  size + OwnSize(entries[i]), seen + OwnCandidates(dir, entries[i], times, preserved), all)
  {
    NextEntry(dir, entries, i, times, preserved);
    var own := OwnCandidates(dir, entries[i], times, preserved);
    var rest := Candidates(dir, entries[i + 1..], times, preserved);
    assert seen + (own + rest) == seen + own + rest;
  }

  /** Scans one directory, adding to a list that already holds what was found
      before. */
  method GetDirSize(dir: string, entries: seq<Entry>, times: Clock, preserved: seq<string>, list: seq<Victim>,
      ghost found: seq<Victim>)
    returns (size: nat, worst: seq<Victim>)
    requires list == Collected(found) && |list| <= LIMIT
    ensures size == SizeOf(entries)
    ensures worst == Collected(found + Candidates(dir, entries, times, preserved)) && |worst| <= LIMIT
    decreases entries
  {
    size, worst := 0, list;
    ghost var seen := found;
    ghost var all := found + Candidates(dir, entries, times, preserved);
    for i := 0 to |entries|
      invariant Ahead(dir, entries, times, preserved, i, size, seen, all)
      invariant worst == Collected(seen) && |worst| <= LIMIT
    {
      AheadOne(dir, entries, times, preserved, i, size, seen, all);
      var e := entries[i];
      ghost var own := OwnCandidates(dir, e, times, preserved);
      if Scanned(e) {
        var sz, w := GetDirSize(PathOf(dir, e.name), e.node.entries, times, preserved, worst, seen);
        size, worst := size + sz, w;
      } else if Deletable(e) {
        size := size + Cost(e.name, e.node.size);
        worst := OfferFile(dir, e, times, preserved, worst, seen);
      } else {
        assert seen + own == seen;
      }
      seen := seen + own;
    }
    assert seen + [] == seen;
  }

  /** One pass: the tree it met, the times it read and how many files it tried. */
  datatype Pass = Pass(root: seq<Entry>, times: Clock, tried: nat)

  /** A pass starts above the cap with something to delete, and tries the
      heaviest files of its tree until the stopping rule says so. */
  ghost predicate IsPass(dir: string, p: Pass, preserved: seq<string>, cap: int, refused: set<string>) {
    var heavy := Heavy(dir, p.root, p.times, preserved);
    && SizeOf(p.root) > cap && heavy != []
    && p.tried <= |heavy| && Stops(heavy, p.tried, SizeOf(p.root), cap, refused)
  }

  ghost function Deleted(dir: string, p: Pass, preserved: seq<string>, refused: set<string>): set<string>
    requires p.tried <= |Heavy(dir, p.root, p.times, preserved)|
  {
    Gone(Heavy(dir, p.root, p.times, preserved)[..p.tried], refused)
  }

  /** The passes lead from one tree to the next, the last to `end`. */
  ghost predicate PassRun(dir: string, passes: seq<Pass>, start: seq<Entry>, end: seq<Entry>, clock: nat -> Clock,
      preserved: seq<string>, cap: int, refused: set<string>)
  {
    if passes == [] then start == end
    else
      var last := passes[|passes| - 1];
      && IsPass(dir, last, preserved, cap, refused) && last.times == clock(|passes| - 1)
      && end == Removed(dir, last.root, Deleted(dir, last, preserved, refused))
      && PassRun(dir, passes[..|passes| - 1], start, last.root, clock, preserved, cap, refused)
  }

  lemma OneMorePass(dir: string, passes: seq<Pass>, pass: Pass, start: seq<Entry>, end: seq<Entry>, clock: nat -> Clock,
      preserved: seq<string>, cap: int, refused: set<string>)
    requires PassRun(dir, passes, start, pass.root, clock, preserved, cap, refused)
    requires IsPass(dir, pass, preserved, cap, refused) && pass.times == clock(|passes|)
    requires end == Removed(dir, pass.root, Deleted(dir, pass, preserved, refused))
    ensures PassRun(dir, passes + [pass], start, end, clock, preserved, cap, refused)
    ensures SizeOf(start) > cap
  {
    assert (passes + [pass])[..|passes|] == passes;
    if passes != [] { var gone := PassesDelete(dir, passes, start, pass.root, clock, preserved, cap, refused); }
  }

  /** What the passes took away, all in all: never a preserved file, and nothing
      at all where the tree fits from the start. */
  lemma {:induction false} PassesDelete(dir: string, passes: seq<Pass>, start: seq<Entry>, end: seq<Entry>,
      clock: nat -> Clock,
      preserved: seq<string>, cap: int, refused: set<string>) returns (gone: set<string>)
    requires PassRun(dir, passes, start, end, clock, preserved, cap, refused)
    ensures end == Removed(dir, start, gone)
    ensures forall path :: path in preserved ==> path !in gone
    ensures SizeOf(start) <= cap ==> passes == [] && gone == {}
  {
    if passes == [] {
      gone := {};
      RemovedNothing(dir, start);
    } else {
      var last, before := passes[|passes| - 1], passes[..|passes| - 1];
      var g := PassesDelete(dir, before, start, last.root, clock, preserved, cap, refused);
      var d := Deleted(dir, last, preserved, refused);
      PassSparesPreserved(dir, last.root, last.times, preserved, refused, last.tried);
      RemovedTwice(dir, start, g, d);
      gone := g + d;
    }
  }

  /** So a preserved file is there afterwards if it was there before. */
  lemma PreservedSurvive(dir: string, passes: seq<Pass>, start: seq<Entry>, end: seq<Entry>, clock: nat -> Clock,
      preserved: seq<string>, cap: int, refused: set<string>, path: string)
    requires PassRun(dir, passes, start, end, clock, preserved, cap, refused) && path in preserved
    ensures Contains(dir, end, path) <==> Contains(dir, start, path)
  {
    var gone := PassesDelete(dir, passes, start, end, clock, preserved, cap, refused);
    RemovedExactly(dir, start, gone, path);
  }

  /** A directory on disk with the files that cannot be unlinked. */
  class FileSystem {
    const dir: string
    const refused: set<string>
    var root: seq<Entry>

    constructor (dir: string, root: seq<Entry>, refused: set<string>)
      ensures this.dir == dir && this.root == root && this.refused == refused
    {
      this.dir, this.root, this.refused := dir, root, refused;
    }

    method Unlink(path: string) returns (ok: bool)
      modifies this
      ensures ok == (path !in refused)
      ensures root == if ok then Removed(dir, old(root), {path}) else old(root)
    {
      ok := path !in refused;
      if ok { root := Removed(dir, root, {path}); }
    }

    /** Deletes victims, heaviest first, while the size is above the cap. */
    method DeleteWorst(heavy: seq<Victim>, size: int, cap: int) returns (left: int, ghost n: nat)
      modifies this
      ensures n <= |heavy| && Stops(heavy, n, size, cap, refused)
      ensures left == Running(heavy[..n], size, refused)
      ensures root == Removed(dir, old(root), Gone(heavy[..n], refused))
    {
      left := size;
      var i := 0;
      RemovedNothing(dir, root);
      assert Gone(heavy[..0], refused) == {};
      while i < |heavy| && left > cap
        invariant i <= |heavy| && left == Running(heavy[..i], size, refused)
        invariant forall j :: 0 <= j < i ==> Running(heavy[..j], size, refused) > cap
        invariant root == Removed(dir, old(root), Gone(heavy[..i], refused))
      {
        TriedOne(dir, old(root), heavy, i, size, refused);
        var ok := Unlink(heavy[i].path);
        if ok {
          left := left - heavy[i].size;
        }
        i := i + 1;
      }
      n := i;
    }

    /** Scans the tree and, unless that ends the trimming, makes one pass. */
    method TrimOnce(cap: nat, preserved: seq<string>, times: Clock) returns (enough: bool, ghost pass: Pass)
      modifies this
      ensures enough <==> SizeOf(old(root)) <= cap || Candidates(dir, old(root), times, preserved) == []
      ensures enough ==> root == old(root)
      ensures !enough ==>
        && pass.root == old(root) && pass.times == times && IsPass(dir, pass, preserved, cap, refused)
        && root == Removed(dir, old(root), Deleted(dir, pass, preserved, refused))
    {
      ghost var found := Candidates(dir, root, times, preserved);
      var size, worst := GetDirSize(dir, root, times, preserved, [], []);
      assert [] + found == found;
      HoldsHeaviest(found);
      pass := Pass(root, times, 0);
      enough := size <= cap || worst == [];
      if !enough {
        var left;
        ghost var n;
        left, n := DeleteWorst(Reverse(worst), size, cap);
        pass := pass.(tried := n);
      }
    }

    /** `clock` gives the times read in each pass. The result tells whether trimming
        stopped by itself. */
    method DeleteFiles(cap: nat, preserved: seq<string>, clock: nat -> Clock)
        returns (done: bool, ghost passes: seq<Pass>)
      modifies this
      ensures PassRun(dir, passes, old(root), root, clock, preserved, cap, refused)
      ensures |passes| <= 99
      ensures done <==> |passes| < 99
      ensures done ==> SizeOf(root) <= cap || Candidates(dir, root, clock(|passes|), preserved) == []
      ensures SizeOf(old(root)) <= cap ==> root == old(root)
      ensures forall path :: path in preserved ==> (Contains(dir, root, path) <==> Contains(dir, old(root), path))
    {
      var count := PASSES + 1;
      passes, done := [], false;
      while count > 1 && !done
        invariant 1 <= count <= PASSES + 1 && |passes| == PASSES + (if done then 0 else 1) - count
        invariant done ==> SizeOf(root) <= cap || Candidates(dir, root, clock(|passes|), preserved) == []
        invariant PassRun(dir, passes, old(root), root, clock, preserved, cap, refused)
        invariant SizeOf(old(root)) <= cap ==> passes == []
        decreases count
      {
        var times := clock(PASSES + 1 - count);
        count := count - 1;
        var enough;
        ghost var pass;
        enough, pass := TrimOnce(cap, preserved, times);
        if enough {
          done := true;
        } else {
          OneMorePass(dir, passes, pass, old(root), root, clock, preserved, cap, refused);
          passes := passes + [pass];
        }
      }
      forall path | path in preserved
        ensures Contains(dir, root, path) <==> Contains(dir, old(root), path)
      {
        PreservedSurvive(dir, passes, old(root), root, clock, preserved, cap, refused, path);
      }
    }
  }
}
