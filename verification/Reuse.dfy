/**
 The one way an open can report corruption of a sound index: overlay
 generations start again from one after the overlay has been dropped, so a
 reader holding an old manifest may find a later overlay under the name it
 knows, committed or not.
 */
module Reuse {
  import opened Wrappers
  import opened Documents
  import opened Segments
  import opened Files
  import opened History
  import opened Recovery
  import opened Writers
  import opened ProgramRuns
  import Convergence
  import Reconcile
  import Update
  import MergeMeaning
  import Postings

  /** A set of states closed under steps, all meeting the invariant. */
  ghost predicate Closed(reach: State -> bool) {
    && (forall a, e, b {:trigger reach(a), ProgramStep(a, e, b)} :: reach(a) && ProgramStep(a, e, b) ==> reach(b))
    && (forall s {:trigger reach(s), Inv(s)} :: reach(s) ==> Inv(s))
  }

  lemma {:induction false} ComesClosed()
    ensures Closed(s => Comes(s))
  {
    hide ProgramStep, Inv;
    var reach := (s: State) => Comes(s);
    forall a, e, b {:trigger reach(a), ProgramStep(a, e, b)} | reach(a) && ProgramStep(a, e, b)
      ensures reach(b)
    {
      ComesStep(a, e, b);
    }
    forall s {:trigger reach(s), Inv(s)} | reach(s)
      ensures Inv(s)
    {
      ComesInv(s);
    }
  }

  lemma {:induction false} ComesInv(s: State)
    requires Comes(s)
    ensures Inv(s)
  {
    hide Allowed;
    var states, events :| ProgramRun(states, events) && states[|states| - 1] == s;
    RunKeepsInv(states, events, |states| - 1);
  }

  ghost predicate Quiet(s: State) {
    s.writer == NoWriter && s.holder == Free
  }

  lemma {:induction false} PlaceOne(reach: State -> bool, s: State, n: FileName) returns (t: State)
    requires Closed(reach) && reach(s) && s.writer.Writing? && !s.writer.committed && NewName(s, n)
    ensures reach(t) && t == s.(dir := t.dir) && n in t.dir && t.dir[n] == Referenced(s.writer.next)[n]
    ensures forall k | k != n && !k.Tmp? && k in s.dir :: k in t.dir && t.dir[k] == s.dir[k]
  {
    var data := Referenced(s.writer.next)[n];
    ReferencedNames(s.writer.next);
    var s1 := s.(dir := Put(s.dir, Tmp(n), Some(data)));
    assert ProgramStep(s, WriterScratches(Tmp(n), Some(data)), s1);
    t := s1.(dir := Moved(s1.dir, Tmp(n), n));
    assert ProgramStep(s1, WriterPlaces(Tmp(n), n), t);
  }

  /** A writer can place any of its new files, moving nothing but temporaries besides. */
  lemma {:induction false} PlaceNames(reach: State -> bool, s: State, todo: set<FileName>) returns (t: State)
    requires Closed(reach) && reach(s) && s.writer.Writing? && !s.writer.committed && forall n | n in todo :: NewName(s, n)
    ensures reach(t) && t == s.(dir := t.dir)
    ensures forall n | n in todo :: n in t.dir && n in Referenced(s.writer.next) && t.dir[n] == Referenced(s.writer.next)[n]
    ensures forall n | n !in todo && !n.Tmp? && n in s.dir :: n in t.dir && t.dir[n] == s.dir[n]
    decreases |todo|
  {
    if todo == {} {
      t := s;
    } else {
      var n :| n in todo;
      assert NewName(s, n);
      var s1 := PlaceOne(reach, s, n);
      forall k | k in todo - {n}
        ensures NewName(s1, k)
      {
        assert NewName(s, k);
      }
      ReferencedNames(s.writer.next);
      t := PlaceNames(reach, s1, todo - {n});
    }
  }

  lemma {:induction false} FinishCommit(reach: State -> bool, s: State) returns (t: State)
    requires Closed(reach) && reach(s) && s.writer.Writing? && !s.writer.committed && Holds(s.dir, s.writer.next)
    ensures reach(t) && Quiet(t) && t.history == s.history + [s.writer.next] && t.readers == s.readers
  {
    var next := s.writer.next;
    ReferencedNames(next);
    var s1 := s.(dir := Put(s.dir, Tmp(Manifest), Some(Header(next))));
    assert ProgramStep(s, WriterScratches(Tmp(Manifest), Some(Header(next))), s1);
    var s2 := s1.(dir := Moved(s1.dir, Tmp(Manifest), Manifest), history := s1.history + [next], writer := s1.writer.(committed := true));
    assert ProgramStep(s1, WriterCommits, s2);
    t := s2.(writer := NoWriter, holder := Free);
    assert ProgramStep(s2, WriterStops, t);
  }

  lemma {:induction false} AllowedExtends(s: State, next: Index)
    requires Allowed(s.history, next) && (Current(s).Some? ==> WellFormed(Current(s).value))
    ensures WellFormed(next) && (Current(s).Some? ==> Extends(Current(s).value, next))
  {
    hide Writes, Extends, WellFormed, FirstBuild;
    if Current(s).Some? {
      WritesExtends(s.history, next);
      ExtendsWell(Current(s).value, next);
    } else {
      FirstWell(next);
    }
  }

  lemma {:induction false} CurrentWell(reach: State -> bool, s: State)
    requires Closed(reach) && reach(s)
    ensures Current(s).Some? ==> WellFormed(Current(s).value)
  {
    hide WellFormed;
    assert Inv(s);
  }

  /** The writer takes the lock for what it may write. */
  lemma {:induction false} LocksFor(reach: State -> bool, s: State, next: Index) returns (t: State)
    requires Closed(reach) && reach(s) && Quiet(s) && Allowed(s.history, next)
    ensures reach(t) && t == s.(writer := Writing(next, false), holder := HeldByWriter)
    ensures WellFormed(next) && (Current(s).Some? ==> WellFormed(Current(s).value) && Extends(Current(s).value, next))
  {
    hide Inv, WellFormed, Extends, Allowed;
    CurrentWell(reach, s);
    AllowedExtends(s, next);
    t := s.(writer := Writing(next, false), holder := HeldByWriter);
    assert ProgramStep(s, WriterLocks(next), t);
  }

  /** From a quiet state whatever the program may write can be committed. */
  lemma {:induction false} CommitReach(reach: State -> bool, s: State, next: Index) returns (t: State)
    requires Closed(reach) && reach(s) && Quiet(s) && Allowed(s.history, next)
    ensures reach(t) && Quiet(t) && t.history == s.history + [next] && t.readers == s.readers
  {
    hide ProgramStep, Inv, Extends, WellFormed, Allowed;
    ReferencedNames(next);
    var s1 := LocksFor(reach, s, next);
    var s2 := PlaceNames(reach, s1, set n | n in Referenced(next) && NewName(s1, n));
    CurrentHolds(reach, s);
    forall n | n in Referenced(next)
      ensures n in s2.dir && s2.dir[n] == Referenced(next)[n]
    {
      if !NewName(s1, n) {
        CommonAgree(Current(s).value, next, n);
      }
    }
    t := FinishCommit(reach, s2);
  }

  lemma {:induction false} CurrentHolds(reach: State -> bool, s: State)
    requires Closed(reach) && reach(s)
    ensures Commits(s.dir, Current(s))
  {
    assert Inv(s);
  }

  function Arrived(s: State): Reader
    requires s.history != []
  {
    Reader(Opening(|s.history| - 1, Current(s).value, NamesToOpen(Current(s).value)), 0, |s.history|)
  }

  /** A reader can read the current manifest without the lock. */
  lemma {:induction false} ReaderArrives(reach: State -> bool, s: State, r: nat) returns (t: State)
    requires Closed(reach) && reach(s) && Quiet(s) && r !in s.readers && s.history != []
    ensures reach(t) && t == s.(readers := s.readers[r := Arrived(s)])
  {
    CurrentHolds(reach, s);
    var s1 := s.(readers := s.readers[r := Reader(Trying, 0, |s.history|)]);
    var s2 := s.(readers := s.readers[r := Reader(Unlocked, 0, |s.history|)]);
    t := s.(readers := s.readers[r := Arrived(s)]);
    StartsUnlocked(s, r, s1, s2);
    ReadsManifest(s, r, s2, t);
    hide ProgramStep, Inv, Arrived;
    assert reach(s1) && reach(s2);
  }

  lemma {:induction false} StartsUnlocked(s: State, r: nat, s1: State, s2: State)
    requires r !in s.readers && s1 == s.(readers := s.readers[r := Reader(Trying, 0, |s.history|)])
    requires s2 == s.(readers := s.readers[r := Reader(Unlocked, 0, |s.history|)])
    ensures ProgramStep(s, ReaderStarts(r), s1) && ProgramStep(s1, ReaderSkipsLock(r), s2)
  {
    assert s2.readers == s1.readers[r := Reader(Unlocked, 0, |s.history|)];
  }

  lemma {:induction false} ReadsManifest(s: State, r: nat, s2: State, t: State)
    requires Commits(s.dir, Current(s)) && Quiet(s) && r !in s.readers && s.history != []
    requires s2 == s.(readers := s.readers[r := Reader(Unlocked, 0, |s.history|)])
    requires t == s.(readers := s.readers[r := Arrived(s)])
    ensures ProgramStep(s2, ReaderReads(r), t)
  {
    hide Files.Holds, NamesToOpen;
    assert t.readers == s2.readers[r := Arrived(s)];
  }

  lemma {:induction false} ReaderOpensOne(reach: State -> bool, s: State, r: nat, at: nat, ix: Index, todo: seq<FileName>) returns (t: State)
    requires Closed(reach) && reach(s) && Holds(s.dir, ix) && r in s.readers && todo != [] && todo[0] in Referenced(ix)
    requires s.readers[r].phase == Opening(at, ix, todo)
    ensures reach(t) && t == s.(readers := s.readers[r := s.readers[r].(phase := Opening(at, ix, todo[1..]))])
  {
    hide ProgramStep, Inv, Files.Holds, Referenced;
    t := s.(readers := s.readers[r := s.readers[r].(phase := Opening(at, ix, todo[1..]))]);
    OpensStep(s, r, at, ix, todo, t);
  }

  lemma {:induction false} OpensStep(s: State, r: nat, at: nat, ix: Index, todo: seq<FileName>, t: State)
    requires Holds(s.dir, ix) && r in s.readers && todo != [] && todo[0] in Referenced(ix)
    requires s.readers[r].phase == Opening(at, ix, todo)
    requires t == s.(readers := s.readers[r := s.readers[r].(phase := Opening(at, ix, todo[1..]))])
    ensures ProgramStep(s, ReaderOpens(r), t)
  {
    hide Referenced;
    assert AfterOpen(s.dir, s.readers[r]) == s.readers[r].(phase := Opening(at, ix, todo[1..]));
  }

  /** While the directory holds its index, a reader opens file after file. */
  lemma {:induction false} ReaderAdvances(reach: State -> bool, s: State, r: nat, at: nat, ix: Index, front: seq<FileName>, rest: seq<FileName>)
    returns (t: State)
    requires Closed(reach) && reach(s) && Holds(s.dir, ix) && r in s.readers && forall n | n in front :: n in Referenced(ix)
    requires s.readers[r].phase == Opening(at, ix, front + rest)
    ensures reach(t) && t == s.(readers := s.readers[r := s.readers[r].(phase := Opening(at, ix, rest))])
    decreases |front|
  {
    hide ProgramStep, Inv, Files.Holds, Referenced;
    if front == [] {
      t := s;
      assert front + rest == rest;
      assert s.readers == s.readers[r := s.readers[r].(phase := Opening(at, ix, rest))];
    } else {
      var todo := front + rest;
      assert todo[0] == front[0] && front[0] in front && todo[1..] == front[1..] + rest;
      var s1 := ReaderOpensOne(reach, s, r, at, ix, todo);
      t := ReaderAdvances(reach, s1, r, at, ix, front[1..], rest);
      assert t.readers == s.readers[r := s.readers[r].(phase := Opening(at, ix, rest))];
    }
  }

  /** From a quiet state the rest of a chain can be committed, one index after another. */
  lemma {:induction false} CommitRest(reach: State -> bool, s: State, history: seq<Index>, n: nat) returns (t: State)
    requires Closed(reach) && reach(s) && Quiet(s) && Written(history) && |s.history| <= n <= |history| && s.history == history[..|s.history|]
    ensures reach(t) && Quiet(t) && t.history == history[..n] && t.readers == s.readers
    decreases n
  {
    hide Inv, ProgramStep, Writes, FirstBuild;
    if |s.history| == n {
      t := s;
    } else {
      var before := CommitRest(reach, s, history, n - 1);
      t := CommitReach(reach, before, history[n - 1]);
    }
  }

  function Empty(): State {
    State(map[], [], NoWriter, Free, map[])
  }

  /** A reader that has read the current manifest and opened all of it but the overlay. */
  lemma {:induction false} ReaderAtOverlay(reach: State -> bool, s: State, a: Index) returns (t: State)
    requires Closed(reach) && reach(s) && Quiet(s) && s.readers == map[] && Current(s) == Some(a) && a.stateGen > 0
    ensures reach(t) && Quiet(t) && t.history == s.history && 0 in t.readers
    ensures t.readers[0].phase == Opening(|s.history| - 1, a, [Overlay(a.stateGen)])
  {
    var s1 := ReaderArrives(reach, s, 0);
    FilesInOrderAre(a.segments);
    CurrentHolds(reach, s1);
    t := ReaderAdvances(reach, s1, 0, |s.history| - 1, a, FilesInOrder(a.segments), [Overlay(a.stateGen)]);
  }

  /** An update over `b` that writes the next generation with other patches than `avoid`. */
  lemma {:induction false} OtherPatches(b: Index, avoid: map<DocId, Meta>) returns (next: Index)
    requires WellFormed(b) && PatchSound(b) && (CanPatch(Live(b)) || (b.overlay != map[] && b.overlay != avoid))
    ensures ByUpdate(b, next) && next.stateGen == b.stateGen + 1 && next.overlay != avoid
  {
    hide WellFormed, PatchSound, CanPatch, Live, ByUpdate;
    if CanPatch(Live(b)) {
      next := PatchingUpdate(b, avoid);
    } else {
      next := IndexingUpdate(b);
    }
  }

  /** A writer starts on `next` and gets as far as its overlay. */
  lemma {:induction false} AttemptPlaces(reach: State -> bool, s: State, next: Index) returns (t: State)
    requires Closed(reach) && reach(s) && Quiet(s) && Current(s).Some? && Writes(s.history, next)
    requires next.stateGen == Current(s).value.stateGen + 1
    ensures reach(t) && t.history == s.history && t.readers == s.readers && t.writer.Writing? && t.holder == HeldByWriter
    ensures Overlay(next.stateGen) in t.dir && t.dir[Overlay(next.stateGen)] == OverlayData(next.overlay)
  {
    hide ProgramStep, Inv, Extends, Writes;
    var n := Overlay(next.stateGen);
    var s1 := LocksFor(reach, s, next);
    ReferencedIff(next, n, OverlayData(next.overlay));
    if n in Referenced(Current(s).value) {
      ReferencedIff(Current(s).value, n, Referenced(Current(s).value)[n]);
    }
    t := PlaceOne(reach, s1, n);
  }

  lemma {:induction false} SeesOther(reach: State -> bool, s: State, at: nat, a: Index) returns (t: State)
    requires Closed(reach) && reach(s) && a.stateGen > 0 && Overlay(a.stateGen) in s.dir && s.dir[Overlay(a.stateGen)] != OverlayData(a.overlay)
    requires 0 in s.readers && s.readers[0].phase == Opening(at, a, [Overlay(a.stateGen)])
    ensures reach(t) && t == s.(readers := t.readers)
    ensures 0 in t.readers && t.readers[0].phase == Done(Corrupt(Overlay(a.stateGen)), at)
  {
    var last := Overlay(a.stateGen);
    assert last in Referenced(a) && Referenced(a)[last] == OverlayData(a.overlay);
    t := s.(readers := s.readers[0 := AfterOpen(s.dir, s.readers[0])]);
    assert ProgramStep(s, ReaderOpens(0), t);
  }

  lemma {:induction false} EmptyComes()
    ensures Comes(Empty())
  {
    hide Allowed;
    assert ProgramRun([Empty()], []) && [Empty()][|[Empty()]| - 1] == Empty();
  }

  /**
   Whenever the program can write an overlay generation again with other
   patches, some run of it with this very history has a reader report its sound
   index as corrupt: the writer that does it need not even commit.
   */
  lemma {:induction false} ReusedOverlayMisleads(history: seq<Index>, at: nat) returns (s: State)
    requires Written(history) && at < |history| && ComesBack(history, at)
    ensures Comes(s) && s.history == history && Commits(s.dir, Current(s))
    ensures 0 in s.readers && s.readers[0].phase == Done(Corrupt(Overlay(history[at].stateGen)), at)
  {
    hide Comes, Rewritable, Written, Commits;
    var reach := (s: State) => Comes(s);
    ComesClosed();
    EmptyComes();
    var q :| at < q < |history| && Rewritable(history[q], history[at]);
    s := Misled(reach, history, at, q);
    CurrentHolds(reach, s);
  }

  lemma {:induction false} Misled(reach: State -> bool, history: seq<Index>, at: nat, q: nat) returns (s: State)
    requires Closed(reach) && reach(Empty()) && Written(history)
    requires at < q < |history| && Rewritable(history[q], history[at])
    ensures reach(s) && s.history == history
    ensures 0 in s.readers && s.readers[0].phase == Done(Corrupt(Overlay(history[at].stateGen)), at)
  {
    hide Closed, Inv, Extends, WellFormed, Written, PatchSound, CanPatch, Live, ByUpdate;
    var s1 := CommitRest(reach, Empty(), history, at + 1);
    var s2 := ReaderAtOverlay(reach, s1, history[at]);
    var s3 := CommitRest(reach, s2, history, q + 1);
    WrittenWell(history, q);
    WrittenSound(history, q);
    var next := OtherPatches(history[q], history[at].overlay);
    var s4 := AttemptPlaces(reach, s3, next);
    var s5 := SeesOther(reach, s4, at, history[at]);
    var s6 := StopsWriting(reach, s5);
    s := CommitRest(reach, s6, history, |history|);
    assert history[..|history|] == history;
  }

  lemma {:induction false} StopsWriting(reach: State -> bool, s: State) returns (t: State)
    requires Closed(reach) && reach(s) && s.writer.Writing?
    ensures reach(t) && Quiet(t) && t == s.(writer := NoWriter, holder := Free)
  {
    t := s.(writer := NoWriter, holder := Free);
    assert ProgramStep(s, WriterStops, t);
  }

  /** A reader of the `at`th index has reported corruption. */
  ghost predicate Misreads(s: State, r: nat, at: nat) {
    r in s.readers && s.readers[r].phase.Done? && s.readers[r].phase.result.Corrupt? && s.readers[r].phase.at == at
  }

  /**
   Exactly when an open can report a sound index as corrupt: over commits of the
   program, a reader of the `at`th may do so if and only if some later index has
   the generation just below its own, and there either a live document can be
   patched or the overlay is neither empty nor the `at`th's.
   */
  lemma {:induction false} CorruptIff(history: seq<Index>, at: nat)
    requires Written(history) && at < |history|
    ensures (exists s, r :: Comes(s) && s.history == history && Misreads(s, r, at)) <==> ComesBack(history, at)
  {
    hide ComesBack, Written, Allowed, Step;
    if s, r :| Comes(s) && s.history == history && Misreads(s, r, at) {
      var states, events :| ProgramRun(states, events) && states[|states| - 1] == s;
      ProgramRunKeeps(states, events, |states| - 1);
      MisreadWritten(s, r, at);
    }
    if ComesBack(history, at) {
      var s := ReusedOverlayMisleads(history, at);
      assert Misreads(s, 0, at);
    }
  }

  lemma {:induction false} MisreadWritten(s: State, r: nat, at: nat)
    requires ProgramInv(s) && Misreads(s, r, at) && at < |s.history|
    ensures ComesBack(s.history, at)
  {
    hide Written, Writes, ComesBack, OverlaysWritten;
    assert ReaderSaw(s.history, s.readers[r]);
    var data :| data != OverlayData(s.history[at].overlay) && Rewrote(s.history, at, data);
    var p: nat, next: Index :| at <= p < |s.history| && WrittenOver(s.history, p, next) && next.stateGen == s.history[at].stateGen && data == OverlayData(next.overlay);
    WrittenBack(s.history, at, p, next);
  }

  /**
   Three commits of the program suffice: build a tree of one file, touch the
   file, put another in its place.  A reader of the second may then report it as
   corrupt, while the third, sound, is current.
   */
  lemma {:induction false} ThreeCommitsMislead(f: CrawledFile, g: CrawledFile) returns (s: State)
    requires f.kind == g.kind == TextFile && Postings.ValidDoc(DocOf(f)) && Postings.ValidDoc(DocOf(g)) && g.meta.path != f.meta.path && g.meta.inode == 0
    ensures Comes(s) && |s.history| == 3 && Commits(s.dir, Some(s.history[2])) && Misreads(s, 0, 1)
  {
    hide Comes, Written, CanPatch, Live, Commits;
    var history := ThreeCommits(f, g);
    assert Rewritable(history[2], history[1]);
    s := ReusedOverlayMisleads(history, 1);
  }

  /**
   Real updates do this: with one document patched, deleting it drops the
   overlay, and the next patch of another document reuses its generation.
   */
  lemma {:induction false} UpdatesReuseOverlays(d: Doc, m: Meta) returns (a: Index, b: Index, c: Index)
    ensures Update.Updates(a, b, [Reconcile.Delete(0)], []) && Update.Updates(b, c, [Reconcile.Patch(1, m)], [])
    ensures Chain([a, b, c]) && a.stateGen == c.stateGen == 1 && a.overlay != c.overlay && ComesRound([a, b, c], 0)
  {
    var s := Segment(0, 0, [d, d], {}, 0);
    var s' := Segment(0, 0, [d, d], {0}, 1);
    a := Index([s], map[0 := m], 1, 1, 1);
    b := Index([s'], map[], 1, 0, 2);
    c := Index([s'], map[1 := m], 1, 1, 3);
    OneSegment(s);
    OneSegment(s');
    DeleteUpdates(d, m, a, b);
    PatchUpdates(d, m, b, c);
    UpdateExtends(a, b, [Reconcile.Delete(0)], []);
    UpdateExtends(b, c, [Reconcile.Patch(1, m)], []);
    assert 0 in a.overlay && 0 !in c.overlay;
    assert [a, b, c][1].stateGen == [a, b, c][0].stateGen - 1;
  }

  lemma {:induction false} DeleteUpdates(d: Doc, m: Meta, a: Index, b: Index)
    requires a == Index([Segment(0, 0, [d, d], {}, 0)], map[0 := m], 1, 1, 1)
    requires b == Index([Segment(0, 0, [d, d], {0}, 1)], map[], 1, 0, 2)
    ensures Update.Updates(a, b, [Reconcile.Delete(0)], [])
  {
    var changes := [Reconcile.Delete(0)];
    assert changes[..0] == [];
    assert Convergence.Added(changes) == [];
    assert changes[0].id == 0 && Convergence.Deleted(changes) == {0};
    assert Update.LocalsOf(a.segments[0], {0}) == {0} by {
      assert 0 in Update.LocalsOf(a.segments[0], {0});
    }
    assert {0} == {} + {0};
    assert Update.Buried(a.segments[0], {0}) == b.segments[0];
    assert Update.Tombstoned(a.segments, {0}) == b.segments;
    assert Update.Patched(a.overlay, changes) == a.overlay;
  }

  lemma {:induction false} PatchUpdates(d: Doc, m: Meta, b: Index, c: Index)
    requires b == Index([Segment(0, 0, [d, d], {0}, 1)], map[], 1, 0, 2)
    requires c == Index([Segment(0, 0, [d, d], {0}, 1)], map[1 := m], 1, 1, 3)
    ensures Update.Updates(b, c, [Reconcile.Patch(1, m)], [])
  {
    var changes := [Reconcile.Patch(1, m)];
    assert changes[..0] == [];
    assert Convergence.Added(changes) == [];
    assert Convergence.Deleted(changes) == {};
    assert Update.LocalsOf(b.segments[0], {}) == {};
    assert Update.Tombstoned(b.segments, {}) == c.segments;
    assert Update.Patched(b.overlay, []) == b.overlay;
    assert Update.Patched(b.overlay, changes) == c.overlay;
    assert 1 in c.overlay && c.overlay - {} == c.overlay;
  }

  lemma {:induction false} OneSegment(s: Segment)
    ensures IdBound([s]) == s.End()
  {
    assert [s][..0] == [];
  }
}
