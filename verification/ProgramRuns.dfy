/**
 Runs in which every writer commits, or tries to, what the program may write
 over the current index: whose overlay it is that a reader finds.
 */
module ProgramRuns {
  import opened Wrappers
  import opened Documents
  import opened Segments
  import opened Files
  import opened History
  import opened Recovery
  import opened Writers
  import MergeMeaning
  import MergeCommit
  import Reconcile
  import MergeRuns

  /** What a writer may set out to commit. */
  ghost predicate Allowed(history: seq<Index>, next: Index) {
    if history == [] then FirstBuild(next) else Writes(history, next)
  }

  ghost predicate ProgramStep(a: State, e: Event, b: State) {
    Step(a, e, b) && (e.WriterLocks? ==> Allowed(a.history, e.next))
  }

  ghost predicate ProgramRun(states: seq<State>, events: seq<Event>) {
    Run(states, events) && forall k | 0 <= k < |events| && events[k].WriterLocks? :: Allowed(states[k].history, events[k].next)
  }

  ghost predicate Comes(s: State) {
    exists states, events :: ProgramRun(states, events) && states[|states| - 1] == s
  }

  lemma {:induction false} ComesStep(a: State, e: Event, b: State)
    requires Comes(a) && ProgramStep(a, e, b)
    ensures Comes(b)
  {
    hide Step, Allowed;
    var states, events :| ProgramRun(states, events) && states[|states| - 1] == a;
    var more, done := states + [b], events + [e];
    forall k | 0 <= k < |done|
      ensures Step(more[k], done[k], more[k + 1]) && (done[k].WriterLocks? ==> Allowed(more[k].history, done[k].next))
    {
      if k < |events| {
        assert more[k] == states[k] && more[k + 1] == states[k + 1] && done[k] == events[k];
        assert Step(states[k], events[k], states[k + 1]);
      }
    }
    assert ProgramRun(more, done) && more[|more| - 1] == b;
  }

  // ----- Whose overlay stands on disk -----

  /** A writer since the `k`th commit may have written its overlay generation as `data`. */
  ghost predicate Rewrote(history: seq<Index>, k: nat, data: Data)
    requires k < |history|
  {
    exists p: nat, next: Index :: k <= p < |history| && WrittenOver(history, p, next) && next.stateGen == history[k].stateGen && data == OverlayData(next.overlay)
  }

  ghost predicate WrittenOver(history: seq<Index>, p: nat, next: Index)
    requires p < |history|
  {
    Writes(history[..p + 1], next)
  }

  ghost predicate OverlaysWritten(dir: Directory, history: seq<Index>) {
    forall k | 0 <= k < |history| && history[k].stateGen > 0 && Overlay(history[k].stateGen) in dir ::
      var data := dir[Overlay(history[k].stateGen)];
      data == OverlayData(history[k].overlay) || Rewrote(history, k, data)
  }

  ghost predicate WriterAllowed(s: State) {
    s.writer.Writing? && !s.writer.committed ==> Allowed(s.history, s.writer.next)
  }

  /** Corruption was reported of an overlay that a later writer wrote otherwise. */
  ghost predicate ReaderSaw(history: seq<Index>, reader: Reader) {
    reader.phase.Done? && reader.phase.result.Corrupt? ==>
      && reader.phase.at < |history| && history[reader.phase.at].stateGen > 0
      && exists data :: data != OverlayData(history[reader.phase.at].overlay) && Rewrote(history, reader.phase.at, data)
  }

  ghost predicate ReadersSaw(s: State) {
    forall r {:trigger s.readers[r]} | r in s.readers :: ReaderSaw(s.history, s.readers[r])
  }

  ghost predicate ProgramInv(s: State) {
    OverlaysWritten(s.dir, s.history) && WriterAllowed(s) && ReadersSaw(s) && Written(s.history)
  }

  lemma {:induction false} RewroteLonger(history: seq<Index>, next: Index, k: nat, data: Data)
    requires k < |history| && Rewrote(history, k, data)
    ensures Rewrote(history + [next], k, data)
  {
    hide Writes;
    var p: nat, n :| k <= p < |history| && WrittenOver(history, p, n) && n.stateGen == history[k].stateGen && data == OverlayData(n.overlay);
    assert (history + [next])[..p + 1] == history[..p + 1];
    assert WrittenOver(history + [next], p, n);
  }

  /** Placing a file of the index being written. */
  lemma {:induction false} PlaceWritten(dir: Directory, history: seq<Index>, next: Index, n: FileName)
    requires OverlaysWritten(dir, history) && WellFormed(next) && n in Referenced(next) && (history != [] ==> Writes(history, next))
    ensures OverlaysWritten(dir[n := Referenced(next)[n]], history)
  {
    if n.Overlay? && history != [] {
      ReferencedIff(next, n, Referenced(next)[n]);
      hide Writes, WellFormed, Referenced;
      assert history[..|history| - 1 + 1] == history;
      assert WrittenOver(history, |history| - 1, next);
    }
  }

  lemma {:induction false} OtherWritten(dir: Directory, after: Directory, history: seq<Index>)
    requires OverlaysWritten(dir, history) && forall n: FileName | n.Overlay? && n in after :: n in dir && after[n] == dir[n]
    ensures OverlaysWritten(after, history)
  {
    hide Rewrote;
  }

  lemma {:induction false} CommitWritten(dir: Directory, history: seq<Index>, next: Index)
    requires OverlaysWritten(dir, history) && Holds(dir, next) && Tmp(Manifest) in dir
    ensures OverlaysWritten(Moved(dir, Tmp(Manifest), Manifest), history + [next])
  {
    hide Rewrote;
    var longer := history + [next];
    forall k | 0 <= k < |longer| && longer[k].stateGen > 0 && Overlay(longer[k].stateGen) in Moved(dir, Tmp(Manifest), Manifest)
      ensures var data := dir[Overlay(longer[k].stateGen)]; data == OverlayData(longer[k].overlay) || Rewrote(longer, k, data)
    {
      if k < |history| {
        assert longer[k] == history[k];
        var data := dir[Overlay(history[k].stateGen)];
        if data != OverlayData(history[k].overlay) {
          RewroteLonger(history, next, k, data);
        }
      } else {
        assert Overlay(next.stateGen) in Referenced(next);
      }
    }
  }

  lemma {:induction false} SawLonger(history: seq<Index>, next: Index, reader: Reader)
    requires ReaderSaw(history, reader)
    ensures ReaderSaw(history + [next], reader)
  {
    hide Rewrote;
    if reader.phase.Done? && reader.phase.result.Corrupt? {
      var at := reader.phase.at;
      var data :| data != OverlayData(history[at].overlay) && Rewrote(history, at, data);
      RewroteLonger(history, next, at, data);
    }
  }

  lemma {:induction false} WrittenLonger(history: seq<Index>, next: Index)
    requires Written(history) && Allowed(history, next)
    ensures Written(history + [next])
  {
    hide Writes, FirstBuild;
    var longer := history + [next];
    forall k | 0 < k < |longer|
      ensures Writes(longer[..k], longer[k])
    {
      assert longer[..k] == history[..k];
      assert history[..|history|] == history;
    }
  }

  // ----- Every step keeps it -----

  lemma {:induction false} CommitKeepsProgram(a: State, b: State)
    requires Inv(a) && ProgramInv(a) && WriterStep(a, WriterCommits, b)
    ensures ProgramInv(b)
  {
    hide Inv, Writes, FirstBuild, Rewrote, Files.Holds, OverlaysWritten, ReaderSaw;
    CommitWritten(a.dir, a.history, a.writer.next);
    WrittenLonger(a.history, a.writer.next);
    forall r {:trigger b.readers[r]} | r in b.readers
      ensures ReaderSaw(b.history, b.readers[r])
    {
      assert ReaderSaw(a.history, a.readers[r]);
      SawLonger(a.history, a.writer.next, a.readers[r]);
    }
  }

  lemma {:induction false} WriterKeepsProgram(a: State, e: Event, b: State)
    requires Inv(a) && ProgramInv(a) && WriterStep(a, e, b) && (e.WriterLocks? ==> Allowed(a.history, e.next))
    ensures ProgramInv(b)
  {
    hide Inv, ProgramInv, Allowed;
    match e {
      case WriterCommits => CommitKeepsProgram(a, b);
      case WriterPlaces(source, n) => PlacesKeepProgram(a, source, n, b);
      case _ => OtherKeepProgram(a, e, b);
    }
  }

  lemma {:induction false} OtherKeepProgram(a: State, e: Event, b: State)
    requires ProgramInv(a) && WriterStep(a, e, b) && !e.WriterCommits? && !e.WriterPlaces? && (e.WriterLocks? ==> Allowed(a.history, e.next))
    ensures ProgramInv(b)
  {
    hide Writes, FirstBuild, Rewrote, OverlaysWritten, ReaderSaw, WellFormed, Extends, Referenced, Allowed, Written;
    OtherWritten(a.dir, b.dir, a.history);
  }

  lemma {:induction false} PlacesKeepProgram(a: State, source: FileName, n: FileName, b: State)
    requires Inv(a) && ProgramInv(a) && WriterStep(a, WriterPlaces(source, n), b)
    ensures ProgramInv(b)
  {
    hide DirInv, LockInv, ReadersInv, Writes, FirstBuild, Rewrote, OverlaysWritten, ReaderSaw, WellFormed, Extends, Referenced;
    PlaceWritten(a.dir, a.history, a.writer.next, n);
    OtherWritten(a.dir[n := Referenced(a.writer.next)[n]], b.dir, a.history);
  }

  lemma {:induction false} OpenSaw(a: State, r: nat)
    requires Inv(a) && ProgramInv(a) && r in a.readers && a.readers[r].phase.Opening?
    ensures ReaderSaw(a.history, AfterOpen(a.dir, a.readers[r]))
  {
    hide Rewrote, LockInv, WriterInv, Chain, Commits, NamesAgree, OverlaysAgree, Writes, Written;
    var reader := a.readers[r];
    assert ReaderInv(a.history, reader);
    var Opening(at, ix, todo) := reader.phase;
    if todo != [] && todo[0] in a.dir && (todo[0] !in Referenced(ix) || a.dir[todo[0]] != Referenced(ix)[todo[0]]) {
      assert todo[0] in todo;
      MismatchMeansReuse(a.dir, a.history, at, todo[0]);
      OverlayIs(ix);
    }
  }

  lemma {:induction false} OverlayIs(ix: Index)
    ensures ix.stateGen > 0 ==> Overlay(ix.stateGen) in Referenced(ix) && Referenced(ix)[Overlay(ix.stateGen)] == OverlayData(ix.overlay)
  {
  }

  lemma {:induction false} ReaderKeepsProgram(a: State, e: Event, b: State)
    requires Inv(a) && ProgramInv(a) && ReaderStep(a, e, b)
    ensures ProgramInv(b)
  {
    hide Inv, Writes, Rewrote, OverlaysWritten, ReaderStep, AfterOpen, Written, Allowed;
    ReaderFrame(a, e, b);
    SweepsLess(a, e, b);
    OtherWritten(a.dir, b.dir, a.history);
    forall r {:trigger b.readers[r]} | r in b.readers
      ensures ReaderSaw(b.history, b.readers[r])
    {
      ReaderMoves(a, e, b, r);
      if r in a.readers && b.readers[r] == a.readers[r] {
        assert ReaderSaw(a.history, a.readers[r]);
      } else if b.readers[r].phase.Done? && b.readers[r].phase.result.Corrupt? {
        OpenSaw(a, r);
      }
    }
  }

  lemma {:induction false} SweepsLess(a: State, e: Event, b: State)
    requires ReaderStep(a, e, b)
    ensures forall n | n in b.dir :: n in a.dir && b.dir[n] == a.dir[n]
  {
    ReaderFrame(a, e, b);
  }

  /** Only opening a file can end in a report of corruption. */
  lemma {:induction false} ReaderMoves(a: State, e: Event, b: State, r: nat)
    requires ReaderStep(a, e, b) && r in b.readers
    ensures || (r in a.readers && b.readers[r] == a.readers[r])
            || (e == ReaderOpens(r) && r in a.readers && a.readers[r].phase.Opening? && b.readers[r] == AfterOpen(a.dir, a.readers[r]))
            || !(b.readers[r].phase.Done? && b.readers[r].phase.result.Corrupt?)
  {
    hide AfterOpen;
  }

  lemma {:induction false} ProgramRunKeeps(states: seq<State>, events: seq<Event>, k: nat)
    requires ProgramRun(states, events) && k < |states|
    ensures ProgramInv(states[k])
  {
    ProgramRunParts(states, events, k);
    hide Inv, ProgramInv, Allowed, ProgramRun, Run, Step, WriterStep, ReaderStep;
    if k == 0 {
      StartKeeps(states[0]);
    } else {
      ProgramRunKeeps(states, events, k - 1);
      RunKeepsInv(states, events, k - 1);
      StepKeepsProgram(states[k - 1], events[k - 1], states[k]);
    }
  }

  lemma {:induction false} ProgramRunParts(states: seq<State>, events: seq<Event>, k: nat)
    requires ProgramRun(states, events) && k < |states|
    ensures Run(states, events) && |states| == |events| + 1 && Start(states[0])
    ensures k > 0 ==> ProgramStep(states[k - 1], events[k - 1], states[k])
  {
    hide Allowed, Step;
    assert k > 0 ==> Step(states[k - 1], events[k - 1], states[k - 1 + 1]);
  }

  lemma {:induction false} StartKeeps(s: State)
    requires Start(s)
    ensures ProgramInv(s)
  {
    hide Writes, FirstBuild;
  }

  lemma {:induction false} StepKeepsProgram(a: State, e: Event, b: State)
    requires Inv(a) && ProgramInv(a) && ProgramStep(a, e, b)
    ensures ProgramInv(b)
  {
    hide Inv, ProgramInv, Allowed, WriterStep, ReaderStep;
    if WriterStep(a, e, b) {
      WriterKeepsProgram(a, e, b);
    } else {
      ReaderKeepsProgram(a, e, b);
    }
  }

  // ----- When a generation comes round with other patches -----

  /** Over `b` the next overlay has `a`'s generation, and need not have its patches. */
  ghost predicate Rewritable(b: Index, a: Index) {
    b.stateGen + 1 == a.stateGen && (CanPatch(Live(b)) || (b.overlay != map[] && b.overlay != a.overlay))
  }

  ghost predicate ComesBack(history: seq<Index>, at: nat)
    requires at < |history|
  {
    exists q :: at < q < |history| && Rewritable(history[q], history[at])
  }

  lemma {:induction false} WrittenBack(history: seq<Index>, at: nat, p: nat, next: Index)
    requires Written(history) && at <= p < |history| && Writes(history[..p + 1], next)
    requires next.stateGen == history[at].stateGen > 0 && next.overlay != history[at].overlay
    ensures ComesBack(history, at)
    decreases p
  {
    hide Live, WellFormed, CanPatch, PatchSound, FirstBuild, ByUpdate, ByMerge, ByBuild;
    WrittenWell(history, p);
    WrittenSound(history, p);
    assert history[..p + 1][p] == history[p];
    if ByUpdate(history[p], next) {
      UpdateGeneration(history[p], next);
      if !CanPatch(Live(history[p])) {
        NothingPatched(history[p], next);
      }
      assert Rewritable(history[p], history[at]);
    } else {
      OtherGeneration(history[..p + 1], next);
      WrittenBack(history, at, p - 1, history[p]);
    }
  }

  lemma {:induction false} UpdateGeneration(a: Index, b: Index)
    requires ByUpdate(a, b) && b.stateGen > 0
    ensures b.stateGen == a.stateGen + 1 && b.overlay != map[]
  {
    hide Reconcile.Records, Reconcile.IsPlan, Live;
  }

  lemma {:induction false} OtherGeneration(history: seq<Index>, b: Index)
    requires history != [] && Writes(history, b) && !ByUpdate(history[|history| - 1], b) && b.stateGen > 0
    ensures b.stateGen == history[|history| - 1].stateGen && b.overlay == history[|history| - 1].overlay
  {
    hide ByUpdate, MergeMeaning.Batch, PlannedGroup, MergeCommit.Committed;
    var a := history[|history| - 1];
    if ByMerge(history, b) {
      var prepared, j: nat, groups :| MergesInto(history, b, prepared, j, groups);
      CommittedOverlay(a, prepared);
    } else {
      BuildGeneration(a, b);
    }
  }

  lemma {:induction false} BuildGeneration(a: Index, b: Index)
    requires ByBuild(b, a.nextSegmentId, a.generation + 1)
    ensures b.stateGen == 0
  {
  }
}
