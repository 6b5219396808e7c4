/**
 One writer and any number of opening readers over one directory, step by
 step (src/store/reader.rs, src/store/writer.rs).  Each step is one file
 system operation; the writer and the readers may stop for good at any of them.
 */
module Recovery {
  import opened Wrappers
  import opened Documents
  import opened Segments
  import opened Files
  import opened History
  import MergeMeaning

  const MAX_ATTEMPTS := 20

  /** `Writing`: the lock is held, `next` is being placed or, once committed, retired from. */
  datatype Writer = NoWriter | Writing(next: Index, committed: bool)

  /** `attempt` counts files found missing so far; `first` commits existed when the open began. */
  datatype Reader = Reader(phase: Phase, attempt: nat, first: nat)

  datatype Phase =
    | Trying
    | Locked
    | Unlocked
    | Sweeping(at: nat, ix: Index, listed: set<FileName>)
    | Opening(at: nat, ix: Index, todo: seq<FileName>)
    | Done(result: Opened, at: nat)

  datatype Holder = Free | HeldByWriter | HeldByReader(r: nat)

  /** `history` is every index committed so far, oldest first. */
  datatype State = State(dir: Directory, history: seq<Index>, writer: Writer, holder: Holder, readers: map<nat, Reader>)

  datatype Event =
    | WriterLocks(next: Index)
    | WriterScratches(n: FileName, x: Option<Data>)
    | WriterPlaces(source: FileName, n: FileName)
    | WriterDiscards(n: FileName)
    | WriterCommits
    | WriterRetires(n: FileName)
    | WriterStops
    | Stages(tag: nat, x: Option<Data>)
    | ReaderStarts(r: nat)
    | ReaderLocks(r: nat)
    | ReaderSkipsLock(r: nat)
    | ReaderReads(r: nat)
    | ReaderSweeps(r: nat, n: FileName)
    | ReaderUnlocks(r: nat)
    | ReaderOpens(r: nat)
    | ReaderDies(r: nat)

  function Current(s: State): Option<Index> {
    if s.history == [] then None else Some(s.history[|s.history| - 1])
  }

  /** The index being written over. */
  function Base(s: State): Option<Index> {
    if s.writer.Writing? && s.writer.committed
    then (if |s.history| < 2 then None else Some(s.history[|s.history| - 2]))
    else Current(s)
  }

  ghost predicate NewName(s: State, n: FileName) {
    && s.writer.Writing? && n in Referenced(s.writer.next)
    && (Base(s).Some? ==> n !in Referenced(Base(s).value))
  }

  function Put(dir: Directory, n: FileName, x: Option<Data>): Directory {
    match x
    case None => dir - {n}
    case Some(data) => dir[n := data]
  }

  function Moved(dir: Directory, a: FileName, b: FileName): Directory
    requires a in dir
  {
    (dir - {a})[b := dir[a]]
  }

  ghost predicate WriterStep(a: State, e: Event, b: State) {
    match e
    case WriterLocks(next) =>
      && a.holder == Free && a.writer == NoWriter && WellFormed(next)
      && (Current(a).Some? ==> Extends(Current(a).value, next))
      && b == a.(writer := Writing(next, false), holder := HeldByWriter)
    case WriterScratches(n, x) =>
      a.writer.Writing? && n.Tmp? && b == a.(dir := Put(a.dir, n, x))
    case WriterPlaces(source, n) =>
      && NewName(a, n) && !a.writer.committed
      && (source.Tmp? || source.Staged?) && source in a.dir && a.dir[source] == Referenced(a.writer.next)[n]
      && b == a.(dir := Moved(a.dir, source, n))
    case WriterDiscards(n) =>
      NewName(a, n) && !a.writer.committed && b == a.(dir := a.dir - {n})
    case WriterCommits =>
      && a.writer.Writing? && !a.writer.committed && Holds(a.dir, a.writer.next)
      && Tmp(Manifest) in a.dir && a.dir[Tmp(Manifest)] == Header(a.writer.next)
      && b == a.(dir := Moved(a.dir, Tmp(Manifest), Manifest), history := a.history + [a.writer.next],
                 writer := a.writer.(committed := true))
    case WriterRetires(n) =>
      && a.writer.Writing? && a.writer.committed && Base(a).Some?
      && n in Referenced(Base(a).value) && n !in Referenced(a.writer.next) && b == a.(dir := a.dir - {n})
    case WriterStops =>
      a.writer.Writing? && b == a.(writer := NoWriter, holder := Free)
    case Stages(tag, x) =>
      b == a.(dir := Put(a.dir, Staged(tag), x))
    case _ => false
  }

  function Release(s: State, r: nat): Holder {
    if s.holder == HeldByReader(r) then Free else s.holder
  }

  function AfterRead(s: State, r: nat): State
    requires r in s.readers
  {
    if Manifest !in s.dir || !s.dir[Manifest].Header?
    then s.(readers := s.readers[r := s.readers[r].(phase := Done(Absent, |s.history|))], holder := Release(s, r))
    else
      var ix := s.dir[Manifest].index;
      var at := if s.history == [] then 0 else |s.history| - 1;
      var phase := if s.holder == HeldByReader(r) then Sweeping(at, ix, s.dir.Keys) else Opening(at, ix, NamesToOpen(ix));
      s.(readers := s.readers[r := s.readers[r].(phase := phase)])
  }

  /** Opening one more file: missing means start over, a mismatch is corruption, the last one means done. */
  function AfterOpen(dir: Directory, reader: Reader): Reader
    requires reader.phase.Opening?
  {
    var Opening(at, ix, todo) := reader.phase;
    if todo == [] then reader.(phase := Done(Opened(ix), at))
    else if todo[0] !in dir then
      if reader.attempt + 1 == MAX_ATTEMPTS then reader.(phase := Done(Vanished(todo[0]), at), attempt := reader.attempt + 1)
      else reader.(phase := Trying, attempt := reader.attempt + 1)
    else if todo[0] !in Referenced(ix) || dir[todo[0]] != Referenced(ix)[todo[0]] then reader.(phase := Done(Corrupt(todo[0]), at))
    else reader.(phase := Opening(at, ix, todo[1..]))
  }

  ghost predicate ReaderStep(a: State, e: Event, b: State) {
    match e
    case ReaderStarts(r) =>
      r !in a.readers && b == a.(readers := a.readers[r := Reader(Trying, 0, |a.history|)])
    case ReaderLocks(r) =>
      && r in a.readers && a.readers[r].phase == Trying && a.holder == Free
      && b == a.(holder := HeldByReader(r), readers := a.readers[r := a.readers[r].(phase := Locked)])
    case ReaderSkipsLock(r) =>
      r in a.readers && a.readers[r].phase == Trying && b == a.(readers := a.readers[r := a.readers[r].(phase := Unlocked)])
    case ReaderReads(r) =>
      r in a.readers && (a.readers[r].phase == Locked || a.readers[r].phase == Unlocked) && b == AfterRead(a, r)
    case ReaderSweeps(r, n) =>
      && r in a.readers && a.readers[r].phase.Sweeping? && n in a.readers[r].phase.listed
      && IsListed(n) && IsCleanable(n) && n !in Referenced(a.readers[r].phase.ix)
      && b == a.(dir := a.dir - {n})
    case ReaderUnlocks(r) =>
      && r in a.readers && a.readers[r].phase.Sweeping?
      && b == a.(holder := Release(a, r),
                 readers := a.readers[r := a.readers[r].(phase := Opening(a.readers[r].phase.at, a.readers[r].phase.ix, NamesToOpen(a.readers[r].phase.ix)))])
    case ReaderOpens(r) =>
      r in a.readers && a.readers[r].phase.Opening? && b == a.(readers := a.readers[r := AfterOpen(a.dir, a.readers[r])])
    case ReaderDies(r) =>
      r in a.readers && b == a.(readers := a.readers - {r}, holder := Release(a, r))
    case _ => false
  }

  ghost predicate Step(a: State, e: Event, b: State) {
    WriterStep(a, e, b) || ReaderStep(a, e, b)
  }

  ghost predicate Start(s: State) {
    && s.history == [] && s.writer == NoWriter && s.holder == Free && s.readers == map[] && Manifest !in s.dir
  }

  ghost predicate Run(states: seq<State>, events: seq<Event>) {
    && |states| == |events| + 1 && Start(states[0])
    && forall k | 0 <= k < |events| :: Step(states[k], events[k], states[k + 1])
  }

  // ----- The invariant -----

  ghost predicate HoldsLock(p: Phase) {
    p.Locked? || p.Sweeping?
  }

  ghost predicate LockInv(s: State) {
    && (s.holder == HeldByWriter <==> s.writer.Writing?)
    && (forall r: nat {:trigger HasLock(s, r)} :: HasLock(s, r) <==> s.holder == HeldByReader(r))
  }

  ghost predicate HasLock(s: State, r: nat) {
    r in s.readers && HoldsLock(s.readers[r].phase)
  }

  ghost predicate ReaderInv(history: seq<Index>, reader: Reader) {
    && reader.first + reader.attempt <= |history|
    && match reader.phase
       case Sweeping(at, ix, _) => at == |history| - 1 && history[at] == ix && reader.first + reader.attempt <= at + 1
       case Opening(at, ix, todo) =>
         at < |history| && history[at] == ix && reader.first + reader.attempt <= at + 1 && (forall n | n in todo :: n in Referenced(ix))
       case Done(Opened(ix), at) => at < |history| && history[at] == ix && reader.first <= at + 1
       case Done(Vanished(_), _) => reader.attempt == MAX_ATTEMPTS
       case Done(Absent, at) => reader.first == at == 0
       case Done(Corrupt(n), at) =>
         && at < |history| && history[at].stateGen > 0 && n == Overlay(history[at].stateGen)
         && Rewritten(history, at)
       case _ => true
  }

  ghost predicate ReadersInv(s: State) {
    forall r {:trigger s.readers[r]} | r in s.readers :: ReaderInv(s.history, s.readers[r])
  }

  ghost predicate WriterInv(s: State) {
    s.writer.Writing? ==>
      && WellFormed(s.writer.next)
      && if s.writer.committed then Current(s) == Some(s.writer.next)
         else Current(s).Some? ==> Extends(Current(s).value, s.writer.next)
  }

  function Last(history: seq<Index>): Option<Index> {
    if history == [] then None else Some(history[|history| - 1])
  }

  /** A segment file on disk has the one content any committed manifest naming it vouches for. */
  ghost predicate NamesAgree(dir: Directory, history: seq<Index>) {
    forall k, n | 0 <= k < |history| && n in dir && !n.Overlay? && n in Referenced(history[k]) :: dir[n] == Referenced(history[k])[n]
  }

  /** Some writer since the `k`th commit has written overlay generation `gen` as `data`; its own commit may not have landed. */
  ghost predicate WrittenSince(history: seq<Index>, k: nat, gen: nat, data: Data) {
    exists p: nat, next: Index :: k <= p < |history| && AttemptAt(history, p, next) && next.stateGen == gen && data == OverlayData(next.overlay)
  }

  /** `next` could be written over the `p`th commit. */
  ghost predicate AttemptAt(history: seq<Index>, p: nat, next: Index)
    requires p < |history|
  {
    Extends(history[p], next)
  }

  /** Some writer since the `k`th commit has written its overlay generation with other patches. */
  ghost predicate Rewritten(history: seq<Index>, k: nat)
    requires k < |history|
  {
    exists data :: data != OverlayData(history[k].overlay) && WrittenSince(history, k, history[k].stateGen, data)
  }

  /** An overlay on disk is that of the committed manifest naming it, or a later writer's of the same generation. */
  ghost predicate OverlaysAgree(dir: Directory, history: seq<Index>) {
    forall k | 0 <= k < |history| && history[k].stateGen > 0 && Overlay(history[k].stateGen) in dir ::
      WrittenSince(history, k, history[k].stateGen, dir[Overlay(history[k].stateGen)])
  }

  ghost predicate DirInv(dir: Directory, history: seq<Index>) {
    Chain(history) && Commits(dir, Last(history)) && NamesAgree(dir, history) && OverlaysAgree(dir, history)
  }

  ghost predicate Inv(s: State) {
    DirInv(s.dir, s.history) && LockInv(s) && WriterInv(s) && ReadersInv(s)
  }

  // ----- What each step does to the directory -----

  lemma {:induction false} ScratchKeeps(dir: Directory, history: seq<Index>, n: FileName, x: Option<Data>)
    requires DirInv(dir, history) && (n.Tmp? || n.Staged?)
    ensures DirInv(Put(dir, n, x), history)
  {
    hide Chain, WrittenSince, Referenced;
    forall k | 0 <= k < |history|
      ensures n !in Referenced(history[k])
    {
      ReferencedNames(history[k]);
    }
  }

  lemma {:induction false} RemoveKeeps(dir: Directory, history: seq<Index>, n: FileName)
    requires DirInv(dir, history) && n != Manifest && (history != [] ==> n !in Referenced(history[|history| - 1]))
    ensures DirInv(dir - {n}, history)
  {
    hide Chain, WrittenSince, Referenced;
  }

  lemma {:induction false} PlaceKeeps(dir: Directory, history: seq<Index>, next: Index, n: FileName)
    requires DirInv(dir, history) && WellFormed(next) && (history != [] ==> Extends(history[|history| - 1], next))
    requires n in Referenced(next) && (history != [] ==> n !in Referenced(history[|history| - 1]))
    ensures DirInv(dir[n := Referenced(next)[n]], history)
  {
    ReferencedNames(next);
    hide Chain, Extends, WellFormed, Referenced;
    PlaceNamesAgree(dir, history, next, n);
    PlaceOverlaysAgree(dir, history, next, n);
  }

  lemma {:induction false} LongerChain(history: seq<Index>, next: Index)
    requires Chain(history) && WellFormed(next) && (history != [] ==> Extends(history[|history| - 1], next))
    ensures Chain(history + [next])
  {
    hide Extends, WellFormed;
  }

  lemma {:induction false} PlaceNamesAgree(dir: Directory, history: seq<Index>, next: Index, n: FileName)
    requires Chain(history) && NamesAgree(dir, history) && WellFormed(next)
    requires (history != [] ==> Extends(history[|history| - 1], next)) && n in Referenced(next)
    ensures NamesAgree(dir[n := Referenced(next)[n]], history)
  {
    LongerChain(history, next);
    hide Chain, Extends, WellFormed, Referenced;
    var longer := history + [next];
    forall k | 0 <= k < |history| && n in Referenced(history[k]) && !n.Overlay?
      ensures Referenced(next)[n] == Referenced(history[k])[n]
    {
      assert longer[k] == history[k] && longer[|history|] == next;
      NeverReused(longer, k, |history|, n);
    }
  }

  lemma {:induction false} PlaceOverlaysAgree(dir: Directory, history: seq<Index>, next: Index, n: FileName)
    requires OverlaysAgree(dir, history) && WellFormed(next)
    requires (history != [] ==> Extends(history[|history| - 1], next)) && n in Referenced(next)
    ensures OverlaysAgree(dir[n := Referenced(next)[n]], history)
  {
    if n.Overlay? && history != [] {
      ReferencedIff(next, n, Referenced(next)[n]);
      hide Extends, WellFormed, Referenced;
      assert AttemptAt(history, |history| - 1, next);
    }
  }

  lemma {:induction false} CommitKeeps(dir: Directory, history: seq<Index>, next: Index)
    requires DirInv(dir, history) && WellFormed(next) && (history != [] ==> Extends(history[|history| - 1], next))
    requires Holds(dir, next) && Tmp(Manifest) in dir && dir[Tmp(Manifest)] == Header(next)
    ensures DirInv(Moved(dir, Tmp(Manifest), Manifest), history + [next])
  {
    LongerChain(history, next);
    ReferencedNames(next);
    hide Chain, Extends, WellFormed, Referenced, NamesAgree, OverlaysAgree;
    CommitNamesAgree(dir, history, next);
    CommitOverlaysAgree(dir, history, next);
  }

  lemma {:induction false} CommitNamesAgree(dir: Directory, history: seq<Index>, next: Index)
    requires NamesAgree(dir, history) && Holds(dir, next) && Tmp(Manifest) in dir
    ensures NamesAgree(Moved(dir, Tmp(Manifest), Manifest), history + [next])
  {
    var longer := history + [next];
    forall k, n | 0 <= k < |longer| && n in Moved(dir, Tmp(Manifest), Manifest) && !n.Overlay? && n in Referenced(longer[k])
      ensures Moved(dir, Tmp(Manifest), Manifest)[n] == Referenced(longer[k])[n]
    {
      ReferencedNames(longer[k]);
      if k < |history| {
        assert n in Referenced(history[k]);
      }
    }
  }

  lemma {:induction false} CommitOverlaysAgree(dir: Directory, history: seq<Index>, next: Index)
    requires OverlaysAgree(dir, history) && Holds(dir, next) && WellFormed(next) && Tmp(Manifest) in dir
    ensures OverlaysAgree(Moved(dir, Tmp(Manifest), Manifest), history + [next])
  {
    var longer := history + [next];
    forall k | 0 <= k < |longer| && longer[k].stateGen > 0 && Overlay(longer[k].stateGen) in Moved(dir, Tmp(Manifest), Manifest)
      ensures WrittenSince(longer, k, longer[k].stateGen, dir[Overlay(longer[k].stateGen)])
    {
      if k < |history| {
        assert longer[k] == history[k];
        WrittenLonger(history, next, k, history[k].stateGen, dir[Overlay(history[k].stateGen)]);
      } else {
        assert Overlay(next.stateGen) in Referenced(next);
        ExtendsItself(next);
        assert AttemptAt(longer, k, next);
      }
    }
  }

  lemma {:induction false} WrittenLonger(history: seq<Index>, next: Index, k: nat, gen: nat, data: Data)
    requires WrittenSince(history, k, gen, data)
    ensures WrittenSince(history + [next], k, gen, data)
  {
    hide Extends;
    var p: nat, n :| k <= p < |history| && AttemptAt(history, p, n) && n.stateGen == gen && data == OverlayData(n.overlay);
    assert AttemptAt(history + [next], p, n);
  }

  lemma {:induction false} ExtendsItself(ix: Index)
    requires WellFormed(ix)
    ensures Extends(ix, ix)
  {
    forall s {:trigger FreshOrFrom(ix, s)} | s in ix.segments
      ensures FreshOrFrom(ix, s)
    {
      assert s in ix.segments && MergeMeaning.Descends(s, s);
    }
  }

  // ----- Writer steps -----

  lemma {:induction false} ReaderInvLonger(history: seq<Index>, next: Index, reader: Reader)
    requires ReaderInv(history, reader) && !HoldsLock(reader.phase)
    ensures ReaderInv(history + [next], reader)
  {
    match reader.phase {
      case Done(Corrupt(n), at) =>
        var data :| data != OverlayData(history[at].overlay) && WrittenSince(history, at, history[at].stateGen, data);
        WrittenLonger(history, next, at, history[at].stateGen, data);
      case _ =>
    }
  }

  lemma {:induction false} PlacesKeeps(dir: Directory, history: seq<Index>, next: Index, source: FileName, n: FileName)
    requires DirInv(dir, history) && WellFormed(next) && (history != [] ==> Extends(history[|history| - 1], next))
    requires n in Referenced(next) && (history != [] ==> n !in Referenced(history[|history| - 1]))
    requires (source.Tmp? || source.Staged?) && source in dir && dir[source] == Referenced(next)[n]
    ensures DirInv(Moved(dir, source, n), history)
  {
    ScratchKeeps(dir, history, source, None);
    PlaceKeeps(dir - {source}, history, next, n);
  }

  lemma {:induction false} DropKeeps(dir: Directory, history: seq<Index>, ix: Index, n: FileName)
    requires DirInv(dir, history) && n in Referenced(ix) && (history != [] ==> n !in Referenced(history[|history| - 1]))
    ensures DirInv(dir - {n}, history)
  {
    ReferencedNames(ix);
    RemoveKeeps(dir, history, n);
  }

  lemma {:induction false} WriterKeepsDir(a: State, e: Event, b: State)
    requires Inv(a) && WriterStep(a, e, b) && !e.WriterCommits?
    ensures DirInv(b.dir, b.history)
  {
    hide DirInv, ReadersInv, LockInv, Extends, WellFormed, Referenced;
    match e {
      case WriterScratches(n, x) => ScratchKeeps(a.dir, a.history, n, x);
      case Stages(tag, x) => ScratchKeeps(a.dir, a.history, Staged(tag), x);
      case WriterPlaces(source, n) => PlacesKeeps(a.dir, a.history, a.writer.next, source, n);
      case WriterDiscards(n) => DropKeeps(a.dir, a.history, a.writer.next, n);
      case WriterRetires(n) => DropKeeps(a.dir, a.history, Base(a).value, n);
      case _ =>
    }
  }

  /** The locking part of the invariant depends only on who holds the lock. */
  lemma {:induction false} SameLocks(a: State, b: State)
    requires LockInv(a) && b.readers == a.readers && b.holder == a.holder && (b.writer.Writing? <==> a.writer.Writing?)
    ensures LockInv(b)
  {
    forall r: nat {:trigger HasLock(b, r)}
      ensures HasLock(b, r) <==> b.holder == HeldByReader(r)
    {
      assert HasLock(b, r) == HasLock(a, r);
    }
  }

  lemma {:induction false} CommitsKeeps(a: State, b: State)
    requires Inv(a) && WriterStep(a, WriterCommits, b)
    ensures Inv(b)
  {
    hide DirInv, ReadersInv, LockInv, Extends, Referenced, Files.Holds;
    CommitKeeps(a.dir, a.history, a.writer.next);
    SameLocks(a, b);
    WriterAlone(a);
    CommitReaders(a, b);
  }

  lemma {:induction false} WriterAlone(s: State)
    requires LockInv(s) && s.writer.Writing?
    ensures forall r {:trigger s.readers[r]} | r in s.readers :: !HoldsLock(s.readers[r].phase)
  {
    forall r {:trigger s.readers[r]} | r in s.readers
      ensures !HoldsLock(s.readers[r].phase)
    {
      assert HasLock(s, r) <==> s.holder == HeldByReader(r);
    }
  }

  lemma {:induction false} CommitReaders(a: State, b: State)
    requires ReadersInv(a) && a.writer.Writing? && b.history == a.history + [a.writer.next] && b.readers == a.readers
    requires forall r {:trigger a.readers[r]} | r in a.readers :: !HoldsLock(a.readers[r].phase)
    ensures ReadersInv(b)
  {
    hide ReaderInv;
    forall r {:trigger b.readers[r]} | r in b.readers
      ensures ReaderInv(b.history, b.readers[r])
    {
      ReaderInvLonger(a.history, a.writer.next, a.readers[r]);
    }
  }

  lemma {:induction false} WriterStepKeeps(a: State, e: Event, b: State)
    requires Inv(a) && WriterStep(a, e, b)
    ensures Inv(b)
  {
    hide DirInv, ReaderInv, Extends, WellFormed, Referenced, Files.Holds;
    match e {
      case WriterCommits => CommitsKeeps(a, b);
      case WriterLocks(_) => LockMoves(a, b);
      case WriterStops => LockMoves(a, b);
      case _ =>
        WriterKeepsDir(a, e, b);
        SameLocks(a, b);
    }
  }

  lemma {:induction false} LockMoves(a: State, b: State)
    requires LockInv(a) && b.readers == a.readers && !a.holder.HeldByReader?
    requires b.holder == if b.writer.Writing? then HeldByWriter else Free
    ensures LockInv(b)
  {
    forall r: nat {:trigger HasLock(b, r)}
      ensures HasLock(b, r) <==> b.holder == HeldByReader(r)
    {
      assert HasLock(b, r) == HasLock(a, r);
    }
  }

  // ----- Reader steps -----

  /** One reader changes phase, taking, keeping or giving up the lock. */
  lemma {:induction false} OneReader(a: State, b: State, r: nat, reader: Reader)
    requires LockInv(a) && ReadersInv(a) && ReaderInv(a.history, reader)
    requires b.history == a.history && b.writer == a.writer && b.readers == a.readers[r := reader]
    requires if HoldsLock(reader.phase) then b.holder == HeldByReader(r) && (a.holder == Free || a.holder == HeldByReader(r))
             else b.holder == Release(a, r)
    ensures LockInv(b) && ReadersInv(b)
  {
    forall q: nat {:trigger HasLock(b, q)}
      ensures HasLock(b, q) <==> b.holder == HeldByReader(q)
    {
      assert HasLock(a, q) <==> a.holder == HeldByReader(q);
    }
  }

  lemma {:induction false} ReadKeeps(a: State, r: nat)
    requires Inv(a) && r in a.readers && (a.readers[r].phase == Locked || a.readers[r].phase == Unlocked)
    ensures Inv(AfterRead(a, r))
  {
    hide Chain, NamesAgree, OverlaysAgree, Rewritten, Files.Holds, Referenced, WellFormed, Extends;
    var b := AfterRead(a, r);
    assert HasLock(a, r) <==> a.holder == HeldByReader(r);
    assert ReaderInv(a.history, a.readers[r]);
    if Manifest in a.dir {
      NamesToOpenAre(a.dir[Manifest].index);
    }
    OneReader(a, b, r, b.readers[r]);
  }

  /** A file found missing was retired: a newer index has been committed since the manifest was read. */
  lemma {:induction false} MissingMeansNewer(dir: Directory, history: seq<Index>, at: nat, n: FileName)
    requires DirInv(dir, history) && at < |history| && n in Referenced(history[at]) && n !in dir
    ensures at < |history| - 1
  {
  }

  /** A file found with other contents is an overlay that a later writer wrote again, under the same generation. */
  lemma {:induction false} MismatchMeansReuse(dir: Directory, history: seq<Index>, at: nat, n: FileName)
    requires DirInv(dir, history) && at < |history| && n in Referenced(history[at]) && n in dir && dir[n] != Referenced(history[at])[n]
    ensures history[at].stateGen > 0 && n == Overlay(history[at].stateGen) && Rewritten(history, at)
  {
    ReferencedNames(history[at]);
    if n.Overlay? {
      ReferencedIff(history[at], n, Referenced(history[at])[n]);
    }
  }

  lemma {:induction false} OpenKeeps(a: State, r: nat)
    requires Inv(a) && r in a.readers && a.readers[r].phase.Opening?
    ensures ReaderInv(a.history, AfterOpen(a.dir, a.readers[r])) && !HoldsLock(AfterOpen(a.dir, a.readers[r]).phase)
  {
    hide DirInv, Referenced, Rewritten, LockInv, WriterInv;
    var reader := a.readers[r];
    assert ReaderInv(a.history, reader);
    var Opening(at, ix, todo) := reader.phase;
    if todo != [] {
      assert todo[0] in todo;
      if todo[0] !in a.dir {
        MissingMeansNewer(a.dir, a.history, at, todo[0]);
      } else if a.dir[todo[0]] != Referenced(ix)[todo[0]] {
        MismatchMeansReuse(a.dir, a.history, at, todo[0]);
      }
    }
  }

  lemma {:induction false} LockingKeeps(a: State, e: Event, b: State)
    requires LockInv(a) && ReadersInv(a) && ReaderStep(a, e, b) && (e.ReaderStarts? || e.ReaderLocks? || e.ReaderSkipsLock? || e.ReaderUnlocks?)
    ensures LockInv(b) && ReadersInv(b)
  {
    assert HasLock(a, e.r) <==> a.holder == HeldByReader(e.r);
    if e.r in a.readers {
      assert ReaderInv(a.history, a.readers[e.r]);
      if e.ReaderUnlocks? {
        NamesToOpenAre(a.readers[e.r].phase.ix);
      }
    }
    OneReader(a, b, e.r, b.readers[e.r]);
  }

  lemma {:induction false} SweepsKeeps(a: State, r: nat, n: FileName, b: State)
    requires Inv(a) && ReaderStep(a, ReaderSweeps(r, n), b)
    ensures DirInv(b.dir, b.history) && LockInv(b)
  {
    hide DirInv, LockInv, Referenced;
    assert ReaderInv(a.history, a.readers[r]);
    RemoveKeeps(a.dir, a.history, n);
    SameLocks(a, b);
  }

  lemma {:induction false} OpensKeeps(a: State, r: nat, b: State)
    requires Inv(a) && ReaderStep(a, ReaderOpens(r), b)
    ensures LockInv(b) && ReadersInv(b)
  {
    OpenKeeps(a, r);
    assert HasLock(a, r) <==> a.holder == HeldByReader(r);
    OneReader(a, b, r, b.readers[r]);
  }

  /** Readers change nothing but the directory, the lock and themselves; only sweeping changes the directory. */
  lemma {:induction false} ReaderFrame(a: State, e: Event, b: State)
    requires ReaderStep(a, e, b)
    ensures b.history == a.history && b.writer == a.writer && (!e.ReaderSweeps? ==> b.dir == a.dir)
    ensures e.ReaderSweeps? ==> b.readers == a.readers
  {
  }

  lemma {:induction false} ReaderStepKeeps(a: State, e: Event, b: State)
    requires Inv(a) && ReaderStep(a, e, b)
    ensures Inv(b)
  {
    hide DirInv, ReaderInv, LockInv, AfterRead, AfterOpen, WellFormed, Extends;
    ReaderFrame(a, e, b);
    if e.ReaderReads? {
      ReadKeeps(a, e.r);
    } else if e.ReaderSweeps? {
      SweepsKeeps(a, e.r, e.n, b);
    } else if e.ReaderOpens? {
      OpensKeeps(a, e.r, b);
    } else if e.ReaderDies? {
      DeathKeeps(a, b, e.r);
    } else {
      LockingKeeps(a, e, b);
    }
  }

  lemma {:induction false} DeathKeeps(a: State, b: State, r: nat)
    requires LockInv(a) && ReadersInv(a) && r in a.readers && b == a.(readers := a.readers - {r}, holder := Release(a, r))
    ensures LockInv(b) && ReadersInv(b)
  {
    forall q: nat {:trigger HasLock(b, q)}
      ensures HasLock(b, q) <==> b.holder == HeldByReader(q)
    {
      assert HasLock(a, q) <==> a.holder == HeldByReader(q);
    }
    forall q {:trigger b.readers[q]} | q in b.readers
      ensures ReaderInv(b.history, b.readers[q])
    {
      assert a.readers[q] == b.readers[q];
    }
  }

  // ----- Runs -----

  lemma {:induction false} RunKeepsInv(states: seq<State>, events: seq<Event>, k: nat)
    requires Run(states, events) && k < |states|
    ensures Inv(states[k])
  {
    if k == 0 {
      assert forall r: nat :: !HasLock(states[0], r);
    } else {
      RunKeepsInv(states, events, k - 1);
      assert Step(states[k - 1], events[k - 1], states[k]);
      if WriterStep(states[k - 1], events[k - 1], states[k]) {
        WriterStepKeeps(states[k - 1], events[k - 1], states[k]);
      } else {
        ReaderStepKeeps(states[k - 1], events[k - 1], states[k]);
      }
    }
  }

  /** `s` comes up in some run. */
  ghost predicate Reachable(s: State) {
    exists states, events :: Run(states, events) && states[|states| - 1] == s
  }

  lemma {:induction false} ReachStep(a: State, e: Event, b: State)
    requires Reachable(a) && Step(a, e, b)
    ensures Reachable(b)
  {
    var states, events :| Run(states, events) && states[|states| - 1] == a;
    var more, done := states + [b], events + [e];
    assert more[|more| - 1] == b;
    forall k | 0 <= k < |done|
      ensures Step(more[k], done[k], more[k + 1])
    {
      if k < |events| {
        assert Step(states[k], events[k], states[k + 1]);
      }
    }
    assert Run(more, done);
  }

  /**
   In every run, at every operation, whoever stopped where: the directory opens
   as the last committed index, and only the manifest rename changes which one
   that is.
   */
  lemma {:induction false} OldOrNewInEveryRun(states: seq<State>, events: seq<Event>, k: nat)
    requires Run(states, events) && k < |events|
    ensures Commits(states[k].dir, Current(states[k])) && Commits(states[k + 1].dir, Current(states[k + 1]))
    ensures if events[k].WriterCommits?
            then states[k].writer.Writing? && states[k + 1].history == states[k].history + [states[k].writer.next]
            else states[k + 1].history == states[k].history
  {
    RunStep(states, events, k);
    hide Run, Inv, Step;
    RunKeepsInv(states, events, k);
    RunKeepsInv(states, events, k + 1);
    InvCommits(states[k]);
    InvCommits(states[k + 1]);
    HistoryGrows(states[k], events[k], states[k + 1]);
  }

  lemma {:induction false} RunStep(states: seq<State>, events: seq<Event>, k: nat)
    requires Run(states, events) && k < |events|
    ensures |states| == |events| + 1 && Step(states[k], events[k], states[k + 1])
  {
  }

  lemma {:induction false} InvCommits(s: State)
    requires Inv(s)
    ensures Commits(s.dir, Current(s))
  {
    hide LockInv, ReadersInv, WriterInv, Chain, NamesAgree, OverlaysAgree, Commits;
  }

  lemma {:induction false} HistoryGrows(a: State, e: Event, b: State)
    requires Step(a, e, b)
    ensures if e.WriterCommits? then a.writer.Writing? && b.history == a.history + [a.writer.next] else b.history == a.history
  {
    if ReaderStep(a, e, b) {
      ReaderFrame(a, e, b);
    }
  }

  /**
   In every run, a reader's sweep never removes the manifest, a file the current
   manifest names, anything staged, or anything at all while a writer holds the lock.
   */
  lemma {:induction false} SweepsSafeInEveryRun(states: seq<State>, events: seq<Event>, k: nat)
    requires Run(states, events) && k < |events| && events[k].ReaderSweeps?
    ensures states[k].writer == NoWriter && Current(states[k]).Some?
    ensures forall n | n in states[k].dir && n !in states[k + 1].dir ::
              (n.Idx? || n.DocTable? || n.Del? || n.Overlay? || n.Tmp?) && n !in Referenced(Current(states[k]).value)
  {
    RunStep(states, events, k);
    hide DirInv, Referenced, Run, WriterInv, Rewritten;
    RunKeepsInv(states, events, k);
    var r := events[k].r;
    assert HasLock(states[k], r) <==> states[k].holder == HeldByReader(r);
    assert ReaderInv(states[k].history, states[k].readers[r]);
  }

  /** A sweeping reader may remove, of what it listed, exactly those files that the index it read does not name. */
  lemma {:induction false} SweepableIff(a: State, r: nat, n: FileName)
    requires r in a.readers && a.readers[r].phase.Sweeping? && n in a.readers[r].phase.listed
    ensures ReaderStep(a, ReaderSweeps(r, n), a.(dir := a.dir - {n}))
            <==> (n.Idx? || n.DocTable? || n.Del? || n.Overlay? || n.Tmp?) && n !in Referenced(a.readers[r].phase.ix)
  {
  }

  /** In every run, no step removes or replaces the lock file. */
  lemma {:induction false} LockStaysInEveryRun(states: seq<State>, events: seq<Event>, k: nat)
    requires Run(states, events) && k < |states|
    ensures Lock in states[k].dir <==> Lock in states[0].dir
    ensures Lock in states[0].dir ==> states[k].dir[Lock] == states[0].dir[Lock]
    decreases k
  {
    if k > 0 {
      LockStaysInEveryRun(states, events, k - 1);
      RunStep(states, events, k - 1);
      hide Run, ReaderStep, WriterStep;
      LockStays(states[k - 1], events[k - 1], states[k]);
    }
  }

  lemma {:induction false} LockStays(a: State, e: Event, b: State)
    requires Step(a, e, b)
    ensures Lock in b.dir <==> Lock in a.dir
    ensures Lock in a.dir ==> b.dir[Lock] == a.dir[Lock]
  {
    if e.ReaderSweeps? {
      SweepableOnly(a, e, b);
    } else if WriterStep(a, e, b) {
      if a.writer.Writing? {
        ReferencedNames(a.writer.next);
      }
      if Base(a).Some? {
        ReferencedNames(Base(a).value);
      }
      hide Referenced;
    } else {
      ReaderFrame(a, e, b);
    }
  }

  lemma {:induction false} SweepableOnly(a: State, e: Event, b: State)
    requires Step(a, e, b) && e.ReaderSweeps?
    ensures b.dir == a.dir - {e.n} && (e.n.Idx? || e.n.DocTable? || e.n.Del? || e.n.Overlay? || e.n.Tmp?)
  {
  }

  /**
   In every run, an open that succeeds returns one committed index, and one
   that was current at some moment since the open began.
   */
  lemma {:induction false} OpensCommittedInEveryRun(states: seq<State>, events: seq<Event>, k: nat, r: nat)
    requires Run(states, events) && k < |states| && r in states[k].readers
    requires states[k].readers[r].phase.Done? && states[k].readers[r].phase.result.Opened?
    ensures var reader := states[k].readers[r];
      reader.first <= reader.phase.at + 1 <= |states[k].history| && states[k].history[reader.phase.at] == reader.phase.result.index
  {
    RunKeepsInv(states, events, k);
    assert ReaderInv(states[k].history, states[k].readers[r]);
  }

  /** A later commit's overlay generation is just below the `at`th's: the next patch uses the same one again. */
  ghost predicate ComesRound(history: seq<Index>, at: nat)
    requires at < |history|
  {
    exists q :: at < q < |history| && history[q].stateGen == history[at].stateGen - 1
  }

  lemma {:induction false} RewrittenComesRound(history: seq<Index>, at: nat)
    requires Chain(history) && at < |history| && history[at].stateGen > 0 && Rewritten(history, at)
    ensures ComesRound(history, at)
  {
    hide Extends, Chain;
    var data :| data != OverlayData(history[at].overlay) && WrittenSince(history, at, history[at].stateGen, data);
    var p: nat, next :| at <= p < |history| && AttemptAt(history, p, next) && next.stateGen == history[at].stateGen && data == OverlayData(next.overlay);
    WalkBack(history, at, p, next);
  }

  lemma {:induction false} WalkBack(history: seq<Index>, at: nat, p: nat, next: Index)
    requires Chain(history) && at <= p < |history| && AttemptAt(history, p, next)
    requires next.stateGen == history[at].stateGen > 0 && next.overlay != history[at].overlay
    ensures ComesRound(history, at)
    decreases p
  {
    if next.stateGen == history[p].stateGen {
      assert Extends(history[p - 1], history[p]);
      WalkBack(history, at, p - 1, history[p]);
    }
  }

  /**
   In every run, an open that finds no index began before the first commit; one
   that gives up on missing files saw twenty commits land while it was trying;
   and one that reports corruption was reading an overlay whose generation came
   round again.
   */
  lemma {:induction false} FailuresInEveryRun(states: seq<State>, events: seq<Event>, k: nat, r: nat)
    requires Run(states, events) && k < |states| && r in states[k].readers && states[k].readers[r].phase.Done?
    ensures states[k].readers[r].phase.result.Absent? ==> states[k].readers[r].first == 0
    ensures states[k].readers[r].phase.result.Vanished? ==> |states[k].history| >= states[k].readers[r].first + 20
    ensures states[k].readers[r].phase.result.Corrupt? ==>
              var at := states[k].readers[r].phase.at;
              && at < |states[k].history| && states[k].history[at].stateGen > 0
              && states[k].readers[r].phase.result.name == Overlay(states[k].history[at].stateGen)
              && ComesRound(states[k].history, at)
  {
    hide Run, Chain, Commits, NamesAgree, OverlaysAgree, ComesRound, WrittenSince;
    RunKeepsInv(states, events, k);
    var reader := states[k].readers[r];
    assert ReaderInv(states[k].history, reader);
    if reader.phase.result.Corrupt? {
      RewrittenComesRound(states[k].history, reader.phase.at);
    }
  }

  /** In state `s`, the next file that reader `r` opens is not there. */
  ghost predicate AtMissing(s: State, r: nat) {
    && r in s.readers && s.readers[r].phase.Opening?
    && s.readers[r].phase.todo != [] && s.readers[r].phase.todo[0] !in s.dir
  }

  /** How many files reader `r` has found missing up to state `k`, since it began. */
  ghost function Misses(states: seq<State>, events: seq<Event>, k: nat, r: nat): nat
    requires |states| == |events| + 1 && k < |states|
  {
    if k == 0 || events[k - 1] == ReaderStarts(r) then 0
    else Misses(states, events, k - 1, r) + if events[k - 1] == ReaderOpens(r) && AtMissing(states[k - 1], r) then 1 else 0
  }

  /** In every run, an open starts over whenever a file is missing, and gives up exactly at the twentieth. */
  lemma {:induction false} GivesUpInEveryRun(states: seq<State>, events: seq<Event>, k: nat, r: nat)
    requires Run(states, events) && k < |states| && r in states[k].readers
    ensures var reader := states[k].readers[r];
      && reader.attempt == Misses(states, events, k, r) <= 20
      && (reader.phase.Done? && reader.phase.result.Vanished? <==> Misses(states, events, k, r) == 20)
    decreases k
  {
    if k > 0 {
      RunStep(states, events, k - 1);
      var a, e, b := states[k - 1], events[k - 1], states[k];
      hide Run;
      if r in a.readers {
        GivesUpInEveryRun(states, events, k - 1, r);
      }
      OneAttempt(a, e, b, r);
    }
  }

  lemma {:induction false} OneAttempt(a: State, e: Event, b: State, r: nat)
    requires Step(a, e, b) && r in b.readers
    requires r in a.readers ==> a.readers[r].attempt <= 20 && (GaveUp(a.readers[r]) <==> a.readers[r].attempt == 20)
    ensures e == ReaderStarts(r) ==> b.readers[r].attempt == 0
    ensures e != ReaderStarts(r) ==>
              r in a.readers && b.readers[r].attempt == a.readers[r].attempt + (if e == ReaderOpens(r) && AtMissing(a, r) then 1 else 0)
    ensures b.readers[r].attempt <= 20 && (GaveUp(b.readers[r]) <==> b.readers[r].attempt == 20)
  {
    hide Referenced, WellFormed, Extends, NewName;
  }

  ghost predicate GaveUp(reader: Reader) {
    reader.phase.Done? && reader.phase.result.Vanished?
  }
}
