/** Saving elements into a problem directory under a size and a count limit.
    A directory is a map from item names to sizes. */
module SaveElements {
  import opened Common

  type Files = map<string, nat>

  type Errno = n: nat | n >= 1 witness 1

  /** What the copy of a descriptor does: it returns how many bytes there were
      to copy, or fails and may leave an item; it stores at most its bound in
      either case. */
  datatype Copy = Copied(length: nat) | CopyFailed(errno: Errno, left: Option<nat>)

  datatype Value =
    | Text(size: nat, allowed: bool)
    | Bytes(size: nat, allowed: bool)
    | Handle(postCreate: bool, valid: bool, nonBlocking: bool, copy: Copy)
    | Unsupported

  /** How the item's name is looked up: prohibited, not readable, or as the
      directory has it. */
  datatype Lookup = Prohibited | Unreadable(errno: Errno) | AsStored

  datatype Element = Element(name: string, lookup: Lookup, value: Value)

  datatype Flags = Flags(ioFatal: bool, countFatal: bool, sizeFatal: bool, descriptors: bool)

  /** Zero stands for no limit. */
  datatype Limits = Limits(count: nat, size: nat)

  /** `size` and `items` are the running figures of the loop, `error` tells
      whether an error is recorded already. */
  datatype Progress = Progress(files: Files, size: int, items: nat, error: bool)

  datatype Result = Result(progress: Progress, failure: Option<int>)

  const EPERM := 1
  const EIO := 5
  const E2BIG := 7
  const EACCES := 13
  const EINVAL := 22
  const EFBIG := 27
  const ENOTSUP := 95

  const HUGE := 0x8000_0000_0000_0000

  function Skipped(p: Progress): Result { Result(p, None) }

  function Refused(p: Progress, code: int): Result { Result(p.(error := true), Some(code)) }

  function RefusedIf(fatal: bool, p: Progress, code: int): Result {
    if fatal then Refused(p, code) else Skipped(p)
  }

  function ItemSize(files: Files, name: string): nat { if name in files then files[name] else 0 }

  /** A new item is counted before anything else is known about it. */
  function Counted(p: Progress, name: string): Progress {
    if name in p.files then p else p.(items := p.items + 1)
  }

  function Stored(p: Progress, name: string, size: nat): Progress {
    p.(files := p.files[name := size], size := p.size - ItemSize(p.files, name) + size)
  }

  function SaveData(p: Progress, name: string, size: nat, allowed: bool, f: Flags, l: Limits): Result {
    var item := ItemSize(p.files, name);
    if !allowed then Refused(p, -EPERM)
    else if l.size != 0 && size > item && p.size - item + size > l.size then RefusedIf(f.sizeFatal, p, -EFBIG)
    else Skipped(Stored(p, name, size))
  }

  /** How many bytes a descriptor may add. */
  function MaxSize(p: Progress, name: string, l: Limits): (m: nat)
  {
    var base := p.size - ItemSize(p.files, name);
    if base > l.size then ItemSize(p.files, name) else l.size - base
  }

  function SaveDescriptor(p: Progress, name: string, copy: Copy, f: Flags, l: Limits): Result {
    var max := MaxSize(p, name, l);
    match copy
    case CopyFailed(errno, left) =>
      RefusedIf(f.ioFatal, if left.None? then p else p.(files := p.files[name := Min(left.value, max)]), 0 - errno)
    case Copied(length) =>
      if length < max then Skipped(Stored(p, name, length))
      else if f.sizeFatal then Refused(p.(files := p.files[name := max]), -EFBIG)
      else Skipped(Stored(p, name, max))
  }

  /** An error recorded earlier makes even a valid handle look bad. */
  function SaveHandle(p: Progress, name: string, v: Value, f: Flags, l: Limits): Result
    requires v.Handle?
  {
    if !f.descriptors then RefusedIf(f.ioFatal, p, -EIO)
    else if v.postCreate then Refused(p, -EINVAL)
    else if !v.valid || p.error then RefusedIf(f.ioFatal, p.(error := true), -EIO)
    else if !v.nonBlocking then RefusedIf(f.ioFatal, p, -EIO)
    else SaveDescriptor(p, name, v.copy, f, l)
  }

  function SaveValue(p: Progress, name: string, v: Value, f: Flags, l: Limits): Result {
    match v
    case Text(size, allowed) => if size >= HUGE then Refused(p, -EINVAL) else SaveData(p, name, size, allowed, f, l)
    case Bytes(size, allowed) => SaveData(p, name, size, allowed, f, l)
    case Handle(_, _, _, _) => SaveHandle(p, name, v, f, l)
    case Unsupported => RefusedIf(f.ioFatal, p, -ENOTSUP)
  }

  function SaveOne(p: Progress, e: Element, f: Flags, l: Limits): Result {
    match e.lookup
    case Prohibited => Refused(p, -EACCES)
    case Unreadable(errno) => RefusedIf(f.ioFatal, p, 0 - errno)
    case AsStored =>
      if e.name !in p.files && l.count != 0 && p.items >= l.count then RefusedIf(f.countFatal, p, -E2BIG)
      else SaveValue(Counted(p, e.name), e.name, e.value, f, l)
  }

  function Save(p: Progress, elements: seq<Element>, f: Flags, l: Limits): Result
    decreases |elements|
  {
    if elements == [] then Skipped(p)
    else
      var r := SaveOne(p, elements[0], f, l);
      if r.failure.Some? then r else Save(r.progress, elements[1..], f, l)
  }

  // ---- Directory sizes ---------------------------------------------------------

  ghost function Total(files: Files): nat
    decreases |files|
  {
    if files == map[] then 0
    else
      var name :| name in files;
      files[name] + Total(files - {name})
  }

  lemma {:induction false} TotalSplits(files: Files, name: string)
    requires name in files
    ensures Total(files) == files[name] + Total(files - {name})
    decreases |files|
  {
    var k :| k in files && Total(files) == files[k] + Total(files - {k});
    if k != name {
      TotalSplits(files - {k}, name);
      TotalSplits(files - {name}, k);
      assert files - {k} - {name} == files - {name} - {k};
    }
  }

  lemma TotalStored(files: Files, name: string, size: nat)
    ensures Total(files[name := size]) == Total(files) - ItemSize(files, name) + size
    ensures ItemSize(files, name) <= Total(files)
  {
    var stored := files[name := size];
    TotalSplits(stored, name);
    assert stored - {name} == files - {name};
    if name in files {
      TotalSplits(files, name);
    } else {
      assert files - {name} == files;
    }
  }

  lemma CountStored(files: Files, name: string, size: nat)
    ensures |files[name := size]| == if name in files then |files| else |files| + 1
  {
    var stored := files[name := size];
    if name in files {
      assert stored.Keys == files.Keys;
    } else {
      assert stored.Keys == files.Keys + {name};
    }
  }

  // ---- Accounting ----------------------------------------------------------------

  /** What a step may do to the directory: nothing, or store one item. */
  predicate Touches(files: Files, name: string, files': Files) {
    files' == files || (name in files' && files' == files[name := files'[name]])
  }

  /** The element gets past the checks of its name. */
  predicate Admitted(p: Progress, e: Element, l: Limits) {
    e.lookup.AsStored? && (e.name in p.files || l.count == 0 || p.items < l.count)
  }

  /** The value is a descriptor that passes its checks. */
  predicate Usable(p: Progress, v: Value, f: Flags) {
    v.Handle? && f.descriptors && !v.postCreate && v.valid && !p.error && v.nonBlocking
  }

  /** The element gets as far as being copied. */
  predicate Copies(p: Progress, e: Element, f: Flags, l: Limits) { Admitted(p, e, l) && Usable(p, e.value, f) }

  /** The copy fails and leaves another size than the item had. */
  predicate LeavesResidue(p: Progress, e: Element, f: Flags, l: Limits) {
    && Copies(p, e, f, l) && e.value.copy.CopyFailed? && e.value.copy.left.Some?
    && Min(e.value.copy.left.value, MaxSize(p, e.name, l)) != ItemSize(p.files, e.name)
  }

  predicate Grows(p: Progress, e: Element, f: Flags, l: Limits) {
    LeavesResidue(p, e, f, l) && Min(e.value.copy.left.value, MaxSize(p, e.name, l)) > ItemSize(p.files, e.name)
  }

  /** Bytes a copy puts on disk, or takes off it, without counting them: when it
      fails, or when it is cut off and that ends the loop. */
  function CopyUncounted(p: Progress, name: string, copy: Copy, f: Flags, l: Limits): int {
    var max, item := MaxSize(p, name, l), ItemSize(p.files, name);
    match copy
    case CopyFailed(_, left) => if left.None? then 0 else Min(left.value, max) - item
    case Copied(length) => if length >= max && f.sizeFatal then max - item else 0
  }

  function Uncounted(p: Progress, e: Element, f: Flags, l: Limits): int {
    if Copies(p, e, f, l) then CopyUncounted(p, e.name, e.value.copy, f, l) else 0
  }

  function AllUncounted(p: Progress, elements: seq<Element>, f: Flags, l: Limits): int
    decreases |elements|
  {
    if elements == [] then 0
    else
      var r := SaveOne(p, elements[0], f, l);
      Uncounted(p, elements[0], f, l) + if r.failure.Some? then 0 else AllUncounted(r.progress, elements[1..], f, l)
  }

  lemma DescriptorAccounted(p: Progress, name: string, copy: Copy, f: Flags, l: Limits)
    ensures var q := SaveDescriptor(p, name, copy, f, l).progress;
      Total(q.files) - q.size == Total(p.files) - p.size + CopyUncounted(p, name, copy, f, l)
  {
    var max := MaxSize(p, name, l);
    TotalStored(p.files, name, max);
    match copy
    case Copied(length) => TotalStored(p.files, name, length);
    case CopyFailed(_, left) => if left.Some? { TotalStored(p.files, name, Min(left.value, max)); }
  }

  lemma DataAccounted(p: Progress, name: string, size: nat, allowed: bool, f: Flags, l: Limits)
    ensures var q := SaveData(p, name, size, allowed, f, l).progress;
      Total(q.files) - q.size == Total(p.files) - p.size
  {
    TotalStored(p.files, name, size);
  }

  lemma ValueAccounted(p: Progress, name: string, v: Value, f: Flags, l: Limits)
    ensures var q := SaveValue(p, name, v, f, l).progress;
      var uncounted := if Usable(p, v, f) then CopyUncounted(p, name, v.copy, f, l) else 0;
      Total(q.files) - q.size == Total(p.files) - p.size + uncounted
  {
    match v
    case Text(size, allowed) => DataAccounted(p, name, size, allowed, f, l);
    case Bytes(size, allowed) => DataAccounted(p, name, size, allowed, f, l);
    case Handle(_, _, _, copy) => DescriptorAccounted(p, name, copy, f, l);
    case Unsupported =>
  }

  lemma OneAccounted(p: Progress, e: Element, f: Flags, l: Limits)
    ensures var q := SaveOne(p, e, f, l).progress;
      Total(q.files) - q.size == Total(p.files) - p.size + Uncounted(p, e, f, l)
  {
    if Admitted(p, e, l) {
      var c := Counted(p, e.name);
      assert SaveOne(p, e, f, l) == SaveValue(c, e.name, e.value, f, l);
      ValueAccounted(c, e.name, e.value, f, l);
    }
  }

  /** Conservation: the real size is the running size and all that was not
      counted, whatever the elements and the copies do. */
  lemma {:induction false} SizeAccounted(p: Progress, elements: seq<Element>, f: Flags, l: Limits)
    ensures var q := Save(p, elements, f, l).progress;
      Total(q.files) - q.size == Total(p.files) - p.size + AllUncounted(p, elements, f, l)
    decreases |elements|
  {
    if elements != [] {
      OneAccounted(p, elements[0], f, l);
      var r := SaveOne(p, elements[0], f, l);
      if r.failure.None? { SizeAccounted(r.progress, elements[1..], f, l); }
    }
  }

  /** The running size is the real one whenever the loop goes round. */
  ghost predicate Tracked(p: Progress, elements: seq<Element>, f: Flags, l: Limits)
    decreases |elements|
  {
    && p.size == Total(p.files)
    && (elements != [] ==>
          var r := SaveOne(p, elements[0], f, l);
          r.failure.None? ==> Tracked(r.progress, elements[1..], f, l))
  }

  /** No copy after which the loop goes on leaves another size. */
  predicate Clean(p: Progress, elements: seq<Element>, f: Flags, l: Limits)
    decreases |elements|
  {
    elements != [] ==>
      var r := SaveOne(p, elements[0], f, l);
      r.failure.Some? || (!LeavesResidue(p, elements[0], f, l) && Clean(r.progress, elements[1..], f, l))
  }

  /** The accounting is right throughout exactly when every failing copy leaves
      its item at the size it had. */
  lemma {:induction false} TrackedExactly(p: Progress, elements: seq<Element>, f: Flags, l: Limits)
    requires p.size == Total(p.files)
    ensures Tracked(p, elements, f, l) <==> Clean(p, elements, f, l)
    ensures var r := Save(p, elements, f, l);
      Clean(p, elements, f, l) && r.failure.None? ==> r.progress.size == Total(r.progress.files)
    decreases |elements|
  {
    if elements != [] {
      var e, rest := elements[0], elements[1..];
      var r := SaveOne(p, e, f, l);
      OneAccounted(p, e, f, l);
      if r.failure.None? {
        assert Uncounted(p, e, f, l) == 0 <==> !LeavesResidue(p, e, f, l);
        if !LeavesResidue(p, e, f, l) { TrackedExactly(r.progress, rest, f, l); }
      }
    }
  }

  // ---- The size limit ---------------------------------------------------------------

  /** No copy after which the loop goes on leaves more than the item had. */
  predicate Safe(p: Progress, elements: seq<Element>, f: Flags, l: Limits)
    decreases |elements|
  {
    elements != [] ==>
      var r := SaveOne(p, elements[0], f, l);
      r.failure.Some? || (!Grows(p, elements[0], f, l) && Safe(r.progress, elements[1..], f, l))
  }

  /** The running size never passes the larger of what it was and the limit,
      and a single element never puts more on disk than it counts or may. */
  lemma OneBounded(p: Progress, e: Element, f: Flags, l: Limits, bound: nat)
    requires l.size != 0 && l.size <= bound && p.size <= bound
    ensures var r := SaveOne(p, e, f, l);
      r.progress.size <= bound && (r.failure.Some? ==> r.progress.size + Uncounted(p, e, f, l) <= bound)
  {
  }

  /** Any list of elements whose failing copies leave no item larger than it was
      keeps the directory within the larger of its former size and the limit. */
  lemma {:induction false} SizeStaysWithinLimit(p: Progress, elements: seq<Element>, f: Flags, l: Limits, bound: nat)
    requires l.size != 0 && l.size <= bound && Total(p.files) <= p.size <= bound
    requires Safe(p, elements, f, l)
    ensures Total(Save(p, elements, f, l).progress.files) <= bound
    decreases |elements|
  {
    if elements != [] {
      var e := elements[0];
      OneBounded(p, e, f, l, bound);
      OneAccounted(p, e, f, l);
      var r := SaveOne(p, e, f, l);
      if r.failure.None? { SizeStaysWithinLimit(r.progress, elements[1..], f, l, bound); }
    }
  }

  /** Where input and output errors end the loop that is no condition. */
  lemma {:induction false} FatalErrorsAreSafe(p: Progress, elements: seq<Element>, f: Flags, l: Limits)
    requires f.ioFatal
    ensures Safe(p, elements, f, l)
    decreases |elements|
  {
    if elements != [] {
      var r := SaveOne(p, elements[0], f, l);
      if r.failure.None? { FatalErrorsAreSafe(r.progress, elements[1..], f, l); }
    }
  }

  /** Where they do not it is exact: once a failing copy is passed over, every
      harmless rest of the list keeps the limit if and only if the copy did not
      leave its item larger than it was. */
  lemma LimitKeptExactly(p: Progress, e: Element, f: Flags, l: Limits)
    requires l.size != 0 && p.size == Total(p.files)
    requires Copies(p, e, f, l) && e.value.copy.CopyFailed? && !f.ioFatal
    ensures (forall rest :: Safe(SaveOne(p, e, f, l).progress, rest, f, l)
                ==> Total(Save(p, [e] + rest, f, l).progress.files) <= Max(p.size, l.size))
       <==> !Grows(p, e, f, l)
  {
    if Grows(p, e, f, l) {
      TotalStored(p.files, e.name, 0);
      RoomTakenAgain(p, e, f, l);
    } else {
      forall rest | Safe(SaveOne(p, e, f, l).progress, rest, f, l)
        ensures Total(Save(p, [e] + rest, f, l).progress.files) <= Max(p.size, l.size)
      {
        assert ([e] + rest)[1..] == rest;
        SizeStaysWithinLimit(p, [e] + rest, f, l, Max(p.size, l.size));
      }
    }
  }

  /** Data for the same item then pass the check and exceed the limit. */
  lemma RoomTakenAgain(p: Progress, e: Element, f: Flags, l: Limits)
    requires l.size != 0 && p.size == Total(p.files) <= l.size && Grows(p, e, f, l) && !f.ioFatal
    ensures exists rest ::
      && Safe(SaveOne(p, e, f, l).progress, rest, f, l)
      && Total(Save(p, [e] + rest, f, l).progress.files) > l.size
  {
    var x := Min(e.value.copy.left.value, MaxSize(p, e.name, l));
    var more := Element(e.name, AsStored, Bytes(l.size - p.size + x, true));
    var q := SaveOne(p, e, f, l).progress;
    var last := SaveOne(q, more, f, l).progress;
    OneAccounted(p, e, f, l);
    OneAccounted(q, more, f, l);
    assert last.size == l.size;
    var rest := [more];
    assert rest[1..] == [] && ([e] + rest)[1..] == rest;
    assert Safe(q, rest, f, l);
    assert Save(q, rest, f, l) == Skipped(last);
    assert Save(p, [e] + rest, f, l) == Save(q, rest, f, l);
  }

  /** By how much: for every limit there are two elements that fill the
      directory to twice the limit. */
  lemma ResidueBreaksLimit(l: Limits, f: Flags)
    requires l.size > 0 && (l.count == 0 || l.count >= 2) && !f.ioFatal && f.descriptors
    ensures var failing := Element("a", AsStored, Handle(false, true, true, CopyFailed(EIO, Some(l.size))));
      var r := Save(Progress(map[], 0, 0, false), [failing, Element("b", AsStored, Bytes(l.size, true))], f, l);
      r.failure.None? && r.progress.size == l.size && Total(r.progress.files) == 2 * l.size
  {
    var failing := Element("a", AsStored, Handle(false, true, true, CopyFailed(EIO, Some(l.size))));
    var second := Element("b", AsStored, Bytes(l.size, true));
    var start := Progress(map[], 0, 0, false);
    var after := SaveOne(start, failing, f, l).progress;
    assert after == Progress(map["a" := l.size], 0, 1, false);
    assert [failing, second][1..] == [second];
    assert Save(start, [failing, second], f, l) == Save(after, [second], f, l);
    var last := SaveOne(after, second, f, l).progress;
    assert [second][1..] == [];
    assert Save(after, [second], f, l) == Skipped(last);
    TotalStored(map[], "a", l.size);
    TotalStored(after.files, "b", l.size);
    assert Total(map[]) == 0;
  }

  // ---- The count -------------------------------------------------------------------

  /** A name that is counted without ever becoming an item. */
  predicate Wastes(p: Progress, e: Element, f: Flags, l: Limits) {
    var q := SaveOne(p, e, f, l).progress;
    q.items == p.items + 1 && e.name !in q.files
  }

  /** The element's data are not stored: refused, of no known type, or from a
      descriptor that is not copied or whose copy fails without a trace. */
  predicate Unstored(p: Progress, e: Element, f: Flags, l: Limits) {
    match e.value
    case Text(size, allowed) => size >= HUGE || !allowed || (l.size != 0 && size > 0 && p.size + size > l.size)
    case Bytes(size, allowed) => !allowed || (l.size != 0 && size > 0 && p.size + size > l.size)
    case Unsupported => true
    case Handle(_, _, _, copy) => !Copies(p, e, f, l) || (copy.CopyFailed? && copy.left.None?)
  }

  /** An element uses up a place for nothing exactly when its name is new and
      there is room for it, but its data are not stored. */
  lemma WastesExactly(p: Progress, e: Element, f: Flags, l: Limits)
    ensures Wastes(p, e, f, l) <==> e.name !in p.files && Admitted(p, e, l) && Unstored(p, e, f, l)
  {
  }

  function Wasted(p: Progress, elements: seq<Element>, f: Flags, l: Limits): nat
    decreases |elements|
  {
    if elements == [] then 0
    else
      var r := SaveOne(p, elements[0], f, l);
      (if Wastes(p, elements[0], f, l) then 1 else 0)
        + if r.failure.Some? then 0 else Wasted(r.progress, elements[1..], f, l)
  }

  lemma ValueTouches(p: Progress, name: string, v: Value, f: Flags, l: Limits)
    ensures var q := SaveValue(p, name, v, f, l).progress;
      q.items == p.items && Touches(p.files, name, q.files)
  {
  }

  lemma OneCounted(p: Progress, e: Element, f: Flags, l: Limits)
    ensures var q := SaveOne(p, e, f, l).progress;
      && q.items - |q.files| == p.items - |p.files| + (if Wastes(p, e, f, l) then 1 else 0)
      && (l.count != 0 ==> q.items <= Max(p.items, l.count))
  {
    if e.lookup.AsStored? && !(e.name !in p.files && l.count != 0 && p.items >= l.count) {
      var r := SaveOne(p, e, f, l);
      assert r == SaveValue(Counted(p, e.name), e.name, e.value, f, l);
      ValueTouches(Counted(p, e.name), e.name, e.value, f, l);
      if r.progress.files != p.files {
        CountStored(p.files, e.name, r.progress.files[e.name]);
      }
    }
  }

  /** Items never exceed the larger of their former number and the limit; the
      running count is the real one plus the names that were counted and then
      refused, which use up room of others. */
  lemma {:induction false} CountStaysWithinLimit(p: Progress, elements: seq<Element>, f: Flags, l: Limits)
    requires p.items >= |p.files| && l.count != 0
    ensures var q := Save(p, elements, f, l).progress;
      && |q.files| <= q.items <= Max(p.items, l.count)
      && q.items - |q.files| == p.items - |p.files| + Wasted(p, elements, f, l)
    decreases |elements|
  {
    if elements != [] {
      OneCounted(p, elements[0], f, l);
      var r := SaveOne(p, elements[0], f, l);
      if r.failure.None? {
        CountStaysWithinLimit(r.progress, elements[1..], f, l);
      }
    }
  }

  /** A name refused for its data still takes a place: with room for one item
      the second, small element no longer fits into the empty directory. */
  lemma RefusedElementTakesPlace(f: Flags)
    requires !f.sizeFatal && !f.countFatal
    ensures var big := Element("big", AsStored, Bytes(9, true));
      var r := Save(Progress(map[], 0, 0, false), [big, Element("b", AsStored, Bytes(1, true))], f, Limits(1, 5));
      r == Result(Progress(map[], 0, 1, false), None)
  {
    var big, small := Element("big", AsStored, Bytes(9, true)), Element("b", AsStored, Bytes(1, true));
    var q := Progress(map[], 0, 1, false);
    assert SaveOne(Progress(map[], 0, 0, false), big, f, Limits(1, 5)) == Skipped(q);
    assert [big, small][1..] == [small];
    assert SaveOne(q, small, f, Limits(1, 5)) == Skipped(q);
    assert [small][1..] == [];
    assert Save(q, [small], f, Limits(1, 5)) == Save(q, [], f, Limits(1, 5));
  }

  // ---- Contents -------------------------------------------------------------------

  /** Data are stored in full or not at all, and a non-fatal refusal keeps what
      the item held; only descriptors are ever cut off. */
  lemma {:induction false} DataNeverTruncated(p: Progress, elements: seq<Element>, f: Flags, l: Limits, name: string)
    requires forall e :: e in elements && e.name == name ==> e.value.Text? || e.value.Bytes?
    ensures var q := Save(p, elements, f, l).progress;
      || (name in q.files && name in p.files && q.files[name] == p.files[name])
      || (name !in q.files && name !in p.files)
      || (name in q.files && exists e :: e in elements && e.name == name && q.files[name] == e.value.size)
    decreases |elements|
  {
    if elements != [] {
      var e := elements[0];
      var r := SaveOne(p, e, f, l);
      if e.lookup.AsStored? { ValueTouches(Counted(p, e.name), e.name, e.value, f, l); }
      if r.failure.None? {
        DataNeverTruncated(r.progress, elements[1..], f, l, name);
      }
      if e.name == name && name in r.progress.files && r.progress.files != p.files {
        assert r.progress.files[name] == e.value.size;
      }
    }
  }

  /** The element brings data that may be saved, in a place that is there or free. */
  predicate BringsData(p: Progress, e: Element, l: Limits) {
    && e.lookup.AsStored? && (e.name in p.files || l.count == 0 || p.items < l.count)
    && match e.value
       case Text(size, allowed) => allowed && size < 0x8000_0000_0000_0000
       case Bytes(_, allowed) => allowed
       case _ => false
  }

  /** They are no more than the item has, or stay within the limit if it has one. */
  predicate Fits(p: Progress, e: Element, l: Limits) {
    && BringsData(p, e, l)
    && var item := if e.name in p.files then p.files[e.name] else 0;
       l.size == 0 || e.value.size <= item || p.size - item + e.value.size <= l.size
  }

  /** Data that fit replace the item, whatever its size was; others change neither
      the directory nor its size. */
  lemma DataStoredExactly(p: Progress, e: Element, f: Flags, l: Limits)
    requires BringsData(p, e, l)
    ensures var r := SaveOne(p, e, f, l);
      var item := if e.name in p.files then p.files[e.name] else 0;
      if Fits(p, e, l) then
        && r.failure.None? && r.progress.files == p.files[e.name := e.value.size]
        && r.progress.size == p.size - item + e.value.size
      else
        && r.failure == (if f.sizeFatal then Some(-27) else None)
        && r.progress.files == p.files && r.progress.size == p.size
  {
  }

  lemma NotStored(p: Progress, e: Element, f: Flags, l: Limits)
    requires (e.value.Text? || e.value.Bytes?) && !Fits(p, e, l)
    ensures SaveOne(p, e, f, l).progress.files == p.files
  {
  }

  /** None of the elements that get their turn fits the item of this name. */
  ghost predicate NoneFits(p: Progress, elements: seq<Element>, f: Flags, l: Limits, name: string)
    decreases |elements|
  {
    elements != [] ==>
      && !(elements[0].name == name && Fits(p, elements[0], l))
      && var r := SaveOne(p, elements[0], f, l);
         r.failure.None? ==> NoneFits(r.progress, elements[1..], f, l, name)
  }

  lemma {:induction false} ItemKept(p: Progress, elements: seq<Element>, f: Flags, l: Limits, name: string)
    requires forall e :: e in elements && e.name == name ==> e.value.Text? || e.value.Bytes?
    requires NoneFits(p, elements, f, l, name)
    ensures var q := Save(p, elements, f, l).progress;
      (name in q.files <==> name in p.files) && (name in p.files ==> q.files[name] == p.files[name])
    decreases |elements|
  {
    if elements != [] {
      var e := elements[0];
      if e.name == name { NotStored(p, e, f, l); } else { OthersUntouched(p, e, f, l, name); }
      var r := SaveOne(p, e, f, l);
      if r.failure.None? { ItemKept(r.progress, elements[1..], f, l, name); }
    }
  }

  lemma {:induction false} SaveAppends(p: Progress, a: seq<Element>, b: seq<Element>, f: Flags, l: Limits)
    requires Save(p, a, f, l).failure.None?
    ensures Save(p, a + b, f, l) == Save(Save(p, a, f, l).progress, b, f, l)
    decreases |a|
  {
    if a == [] {
      assert a + b == b;
    } else {
      assert (a + b)[1..] == a[1..] + b;
      SaveAppends(SaveOne(p, a[0], f, l).progress, a[1..], b, f, l);
    }
  }

  /** In a list the last data that fit when their turn comes decide what the item
      is afterwards. */
  lemma LastFittingDecides(p: Progress, before: seq<Element>, e: Element, behind: seq<Element>, f: Flags, l: Limits)
    requires Save(p, before, f, l).failure.None?
    requires forall d :: d in behind && d.name == e.name ==> d.value.Text? || d.value.Bytes?
    requires var q := Save(p, before, f, l).progress;
      Fits(q, e, l) && NoneFits(SaveOne(q, e, f, l).progress, behind, f, l, e.name)
    ensures var files := Save(p, before + [e] + behind, f, l).progress.files;
      e.name in files && files[e.name] == e.value.size
  {
    var q := Save(p, before, f, l).progress;
    DataStoredExactly(q, e, f, l);
    SaveSnoc(p, before, e, f, l);
    SaveAppends(p, before + [e], behind, f, l);
    ItemKept(SaveOne(q, e, f, l).progress, behind, f, l, e.name);
  }

  /** What is stored of a descriptor that can be copied: all of it if the limit
      allows, otherwise what is left of the limit; where the rest of the directory
      is past the limit already, no more than the item had. */
  lemma DescriptorStoredExactly(p: Progress, name: string, length: nat, f: Flags, l: Limits)
    ensures var r := SaveDescriptor(p, name, Copied(length), f, l);
      var item := if name in p.files then p.files[name] else 0;
      var others := p.size - item;
      && name in r.progress.files && r.progress.files == p.files[name := r.progress.files[name]]
      && var stored := r.progress.files[name];
         && (others > l.size ==> stored == if length < item then length else item)
         && (others <= l.size < others + length ==> stored == l.size - others)
         && (others + length <= l.size ==> stored == length)
         && (r.failure.None? ==> r.progress.size == others + stored)
         && (r.failure.Some? ==> r.failure == Some(-27) && r.progress.size == p.size)
         && (r.failure.Some? <==> f.sizeFatal && length >= if others > l.size then item else l.size - others)
  {
  }

  /** Every way in which an element ends the loop, with the number returned. */
  lemma FailsExactly(p: Progress, e: Element, f: Flags, l: Limits)
    ensures var r := SaveOne(p, e, f, l);
      var io := (code: int) => if f.ioFatal then Some(code) else None;
      && (r.failure.Some? ==> r.progress.error)
      && match e.lookup
         case Prohibited => r.failure == Some(-13) && r.progress.files == p.files
         case Unreadable(errno) => r.failure == io(0 - errno) && r.progress.files == p.files
         case AsStored =>
           if e.name !in p.files && l.count != 0 && p.items >= l.count then
             r == if f.countFatal then Result(p.(error := true), Some(-7)) else Result(p, None)
           else match e.value
             case Text(size, allowed) =>
               && (size >= 0x8000_0000_0000_0000 ==> r.failure == Some(-22) && r.progress.files == p.files)
               && (size < 0x8000_0000_0000_0000 && !allowed ==> r.failure == Some(-1) && r.progress.files == p.files)
             case Bytes(_, allowed) => !allowed ==> r.failure == Some(-1) && r.progress.files == p.files
             case Unsupported => r.failure == io(-95) && r.progress.files == p.files
             case Handle(postCreate, valid, nonBlocking, copy) =>
               if !f.descriptors then r.failure == io(-5) && r.progress.files == p.files
               else if postCreate then r.failure == Some(-22) && r.progress.files == p.files
               else if !valid || p.error || !nonBlocking then r.failure == io(-5) && r.progress.files == p.files
               else copy.CopyFailed? ==> r.failure == io(0 - copy.errno)
  {
  }

  /** What one element does to an item of another name: nothing. */
  lemma OthersUntouched(p: Progress, e: Element, f: Flags, l: Limits, name: string)
    requires e.name != name || (p.error && e.value.Handle?)
    ensures var q := SaveOne(p, e, f, l).progress;
      (name in q.files <==> name in p.files) && (name in p.files ==> q.files[name] == p.files[name])
  {
    if e.lookup.AsStored? { ValueTouches(Counted(p, e.name), e.name, e.value, f, l); }
  }

  /** One bad handle spoils every descriptor after it, good ones included: in
      any list that follows, an item that comes by descriptor is left as it was. */
  lemma {:induction false} BadHandleSpoilsRest(p: Progress, elements: seq<Element>, f: Flags, l: Limits, name: string)
    requires p.error && forall e :: e in elements && e.name == name ==> e.value.Handle?
    ensures var q := Save(p, elements, f, l).progress;
      (name in q.files <==> name in p.files) && (name in p.files ==> q.files[name] == p.files[name])
    decreases |elements|
  {
    if elements != [] {
      OthersUntouched(p, elements[0], f, l, name);
      var r := SaveOne(p, elements[0], f, l);
      assert r.progress.error;
      if r.failure.None? {
        BadHandleSpoilsRest(r.progress, elements[1..], f, l, name);
      }
    }
  }

  /** And only that keeps a good descriptor out: a valid, non-blocking one that
      can be copied is stored, as far as its bound goes, exactly when no error
      is on record; otherwise the directory stays as it is. */
  lemma GoodDescriptorStoredExactly(p: Progress, e: Element, f: Flags, l: Limits)
    requires Admitted(p, e, l) && f.descriptors
    requires e.value.Handle? && !e.value.postCreate && e.value.valid && e.value.nonBlocking && e.value.copy.Copied?
    ensures var q := SaveOne(p, e, f, l).progress;
      q.files == if p.error then p.files else p.files[e.name := Min(e.value.copy.length, MaxSize(p, e.name, l))]
    ensures e.name !in p.files ==> (e.name in SaveOne(p, e, f, l).progress.files <==> !p.error)
  {
  }

  /** Where an error comes from, in a loop that goes on: a bad handle, or
      another descriptor after one. */
  lemma ErrorRecordedExactly(p: Progress, e: Element, f: Flags, l: Limits)
    requires SaveOne(p, e, f, l).failure.None?
    ensures SaveOne(p, e, f, l).progress.error <==>
      p.error || (Admitted(p, e, l) && e.value.Handle? && f.descriptors && !e.value.postCreate && !e.value.valid)
  {
  }

  /** The element gets as far as its handle, and that is bad. */
  predicate BadHandle(p: Progress, e: Element, f: Flags, l: Limits) {
    Admitted(p, e, l) && e.value.Handle? && f.descriptors && !e.value.postCreate && !e.value.valid
  }

  predicate AnyBadHandle(p: Progress, elements: seq<Element>, f: Flags, l: Limits)
    decreases |elements|
  {
    && elements != []
    && (|| BadHandle(p, elements[0], f, l)
        || (var r := SaveOne(p, elements[0], f, l);
            r.failure.None? && AnyBadHandle(r.progress, elements[1..], f, l)))
  }

  lemma {:induction false} ErrorsOfList(p: Progress, elements: seq<Element>, f: Flags, l: Limits)
    requires Save(p, elements, f, l).failure.None?
    ensures Save(p, elements, f, l).progress.error <==> p.error || AnyBadHandle(p, elements, f, l)
    decreases |elements|
  {
    if elements != [] {
      ErrorRecordedExactly(p, elements[0], f, l);
      ErrorsOfList(SaveOne(p, elements[0], f, l).progress, elements[1..], f, l);
    }
  }

  lemma {:induction false} SaveSnoc(p: Progress, elements: seq<Element>, e: Element, f: Flags, l: Limits)
    requires Save(p, elements, f, l).failure.None?
    ensures Save(p, elements + [e], f, l) == SaveOne(Save(p, elements, f, l).progress, e, f, l)
    decreases |elements|
  {
    if elements == [] {
      var r := SaveOne(p, e, f, l);
      assert elements + [e] == [e] && [e][1..] == [];
      assert r.failure.None? ==> Save(r.progress, [], f, l) == r;
    } else {
      assert (elements + [e])[1..] == elements[1..] + [e];
      SaveSnoc(SaveOne(p, elements[0], f, l).progress, elements[1..], e, f, l);
    }
  }

  /** In a list saved from a fresh start, a good descriptor whose turn comes is
      stored, up to its bound, exactly if no handle before it was bad. */
  lemma GoodDescriptorInList(p: Progress, before: seq<Element>, e: Element, f: Flags, l: Limits)
    requires !p.error && Save(p, before, f, l).failure.None?
    requires var q := Save(p, before, f, l).progress; Admitted(q, e, l) && f.descriptors
    requires e.value.Handle? && !e.value.postCreate && e.value.valid && e.value.nonBlocking && e.value.copy.Copied?
    ensures var q := Save(p, before, f, l).progress;
      Save(p, before + [e], f, l).progress.files ==
        if AnyBadHandle(p, before, f, l) then q.files
        else q.files[e.name := Min(e.value.copy.length, MaxSize(q, e.name, l))]
  {
    ErrorsOfList(p, before, f, l);
    SaveSnoc(p, before, e, f, l);
    GoodDescriptorStoredExactly(Save(p, before, f, l).progress, e, f, l);
  }

  /** Without a limit on their number a bad handle is one that is seen on the
      list itself. */
  lemma {:induction false} BadHandlesSeen(p: Progress, elements: seq<Element>, f: Flags, l: Limits)
    requires l.count == 0 && Save(p, elements, f, l).failure.None?
    ensures AnyBadHandle(p, elements, f, l) <==>
      exists e :: e in elements && e.lookup.AsStored? && e.value.Handle? && f.descriptors
        && !e.value.postCreate && !e.value.valid
    decreases |elements|
  {
    if elements != [] {
      BadHandlesSeen(SaveOne(p, elements[0], f, l).progress, elements[1..], f, l);
      assert forall e :: e in elements <==> e == elements[0] || e in elements[1..];
    }
  }

  /** For descriptors a size limit of zero does not mean unlimited: one is cut
      off at the size its item had, and at nothing where the item is all the
      directory holds; it is stored in full exactly if it fits that. Data are
      always stored in full. */
  lemma ZeroLimit(p: Progress, name: string, copy: Copy, f: Flags, count: nat, size: nat)
    requires p.size == Total(p.files) && copy.Copied?
    ensures var q := SaveDescriptor(p, name, copy, f, Limits(count, 0)).progress;
      var room := if Total(p.files) == ItemSize(p.files, name) then 0 else ItemSize(p.files, name);
      && name in q.files && q.files[name] == Min(copy.length, room)
      && (q.files[name] == copy.length <==> copy.length <= room)
    ensures SaveData(p, name, size, true, f, Limits(count, 0)) == Skipped(Stored(p, name, size))
  {
    TotalStored(p.files, name, 0);
  }

  // ---- The loop ----------------------------------------------------------------------

  class DumpDir {
    var files: Files

    constructor (files: Files)
      ensures this.files == files
    {
      this.files := files;
    }

    method Put(name: string, size: nat)
      modifies this
      ensures files == old(files)[name := size]
    {
      files := files[name := size];
    }

    /** Copies at most `max` bytes of a descriptor. */
    method CopyFd(name: string, copy: Copy, max: nat) returns (r: int)
      modifies this
      ensures copy.Copied? ==> r == copy.length && files == old(files)[name := Min(copy.length, max)]
      ensures copy.CopyFailed? ==> r == 0 - copy.errno
      ensures copy.CopyFailed? ==>
        files == if copy.left.None? then old(files) else old(files)[name := Min(copy.left.value, max)]
    {
      match copy
      case Copied(length) =>
        r := length;
        files := files[name := Min(length, max)];
      case CopyFailed(errno, left) =>
        r := 0 - errno;
        if left.Some? { files := files[name := Min(left.value, max)]; }
    }
  }

  /** The body of the loop. */
  class Saver {
    const dd: DumpDir
    const flags: Flags
    const limits: Limits
    var ddSize: int
    var ddItems: nat
    var error: bool

    ghost function View(): Progress
      reads this, dd
    {
      Progress(dd.files, ddSize, ddItems, error)
    }

    constructor (dd: DumpDir, flags: Flags, limits: Limits, size: int, items: nat)
      ensures View() == Progress(dd.files, size, items, false)
      ensures this.dd == dd && this.flags == flags && this.limits == limits
    {
      this.dd, this.flags, this.limits := dd, flags, limits;
      ddSize, ddItems, error := size, items, false;
    }

    method Refuse(fatal: bool, code: int) returns (failure: Option<int>)
      modifies this`error
      ensures Result(View(), failure) == RefusedIf(fatal, old(View()), code)
    {
      if fatal {
        error := true;
        return Some(code);
      }
      failure := None;
    }

    method PutData(name: string, size: nat, allowed: bool) returns (failure: Option<int>)
      modifies this, dd
      ensures Result(View(), failure) == SaveData(old(View()), name, size, allowed, flags, limits)
    {
      var item := if name in dd.files then dd.files[name] else 0;
      var base := ddSize - item;
      if !allowed {
        failure := Refuse(true, -EPERM);
        return;
      }
      if limits.size != 0 && size > item && base + size > limits.size {
        failure := Refuse(flags.sizeFatal, -EFBIG);
        return;
      }
      dd.Put(name, size);
      ddSize := base + size;
      failure := None;
    }

    method PutDescriptor(name: string, copy: Copy) returns (failure: Option<int>)
      modifies this, dd
      ensures Result(View(), failure) == SaveDescriptor(old(View()), name, copy, flags, limits)
    {
      var item := if name in dd.files then dd.files[name] else 0;
      var base := ddSize - item;
      var max := if base > limits.size then item else limits.size - base;
      var r := dd.CopyFd(name, copy, max);
      if r < 0 {
        failure := Refuse(flags.ioFatal, r);
        return;
      }
      if r >= max {
        if flags.sizeFatal {
          failure := Refuse(true, -EFBIG);
          return;
        }
        ddSize := base + max;
      } else {
        ddSize := base + r;
      }
      failure := None;
    }

    method PutHandle(name: string, v: Value) returns (failure: Option<int>)
      requires v.Handle?
      modifies this, dd
      ensures Result(View(), failure) == SaveHandle(old(View()), name, v, flags, limits)
    {
      if !flags.descriptors {
        failure := Refuse(flags.ioFatal, -EIO);
      } else if v.postCreate {
        failure := Refuse(true, -EINVAL);
      } else {
        if !v.valid { error := true; }
        if error {
          failure := Refuse(flags.ioFatal, -EIO);
        } else if !v.nonBlocking {
          failure := Refuse(flags.ioFatal, -EIO);
        } else {
          failure := PutDescriptor(name, v.copy);
        }
      }
    }

    method PutElement(e: Element) returns (failure: Option<int>)
      modifies this, dd
      ensures Result(View(), failure) == SaveOne(old(View()), e, flags, limits)
    {
      match e.lookup {
        case Prohibited =>
          failure := Refuse(true, -EACCES);
          return;
        case Unreadable(errno) =>
          failure := Refuse(flags.ioFatal, 0 - errno);
          return;
        case AsStored =>
          if e.name !in dd.files {
            if limits.count != 0 && ddItems >= limits.count {
              failure := Refuse(flags.countFatal, -E2BIG);
              return;
            }
            ddItems := ddItems + 1;
          }
      }
      match e.value
      case Text(size, allowed) =>
        if size >= HUGE {
          failure := Refuse(true, -EINVAL);
        } else {
          failure := PutData(e.name, size, allowed);
        }
      case Bytes(size, allowed) => failure := PutData(e.name, size, allowed);
      case Handle(_, _, _, _) => failure := PutHandle(e.name, e.value);
      case Unsupported => failure := Refuse(flags.ioFatal, -ENOTSUP);
    }
  }

  /** `size` and `items` are what the directory reports about itself, negative
      when that fails. */
  method SaveElementsInDumpDir(dd: DumpDir, elements: seq<Element>, flags: Flags, limits: Limits, size: int, items: int)
    returns (retval: int, error: bool)
    modifies dd
    ensures size < 0 ==> retval == size && error && dd.files == old(dd.files)
    ensures size >= 0 && items < 0 ==> retval == items && error && dd.files == old(dd.files)
    ensures size >= 0 && items >= 0 ==>
      var r := Save(Progress(old(dd.files), size, items, false), elements, flags, limits);
      && dd.files == r.progress.files && error == r.progress.error
      && retval == if r.failure.Some? then r.failure.value else 0
  {
    if size < 0 { return size, true; }
    if items < 0 { return items, true; }
    var saver := new Saver(dd, flags, limits, size, items);
    ghost var whole := Save(saver.View(), elements, flags, limits);
    var i := 0;
    while i < |elements|
      invariant 0 <= i <= |elements| && saver.dd == dd && saver.flags == flags && saver.limits == limits && fresh(saver)
      invariant whole == Save(saver.View(), elements[i..], flags, limits)
    {
      assert elements[i..][1..] == elements[i + 1..];
      var failure := saver.PutElement(elements[i]);
      if failure.Some? { return failure.value, saver.error; }
      i := i + 1;
    }
    return 0, saver.error;
  }
}
