/**
 Successive committed indexes: what every build, update and merge keeps about
 ids, so that a file name is never committed with two contents.
 */
module History {
  import opened Wrappers
  import opened Documents
  import opened Postings
  import opened Build
  import opened Segments
  import opened Reconcile
  import opened Convergence
  import opened Update
  import opened MergePrepare
  import opened MergeCommit
  import opened MergeMeaning
  import opened MergeRuns
  import opened Files

  /** A segment of `b` is new, or descends from the segment of `a` with its id. */
  ghost predicate FreshOrFrom(a: Index, s: Segment) {
    s.id >= a.nextSegmentId || exists t :: t in a.segments && Descends(t, s)
  }

  /** What committing `b` over `a` keeps. */
  ghost predicate Extends(a: Index, b: Index) {
    && WellFormed(a) && WellFormed(b) && a.nextSegmentId <= b.nextSegmentId
    && (forall s {:trigger FreshOrFrom(a, s)} | s in b.segments :: FreshOrFrom(a, s))
    && (b.stateGen == 0 || b.stateGen == a.stateGen + 1 || (b.stateGen == a.stateGen && b.overlay == a.overlay))
  }

  // ----- Every commit extends -----

  lemma {:induction false} UpdateExtends(a: Index, b: Index, changes: seq<Change>, built: seq<BuiltSegment>)
    requires WellFormed(a) && Updates(a, b, changes, built) && PatchesBelow(changes, IdBound(a.segments))
    ensures Extends(a, b)
  {
    UpdateWellFormed(a, b, changes, built);
    AppendedOrder(built, DocsFor(Added(changes)), IdBound(a.segments), a.nextSegmentId);
    forall s {:trigger FreshOrFrom(a, s)} | s in b.segments
      ensures FreshOrFrom(a, s)
    {
      var j :| 0 <= j < |b.segments| && b.segments[j] == s;
      if j < |a.segments| {
        assert s == Buried(a.segments[j], LocalsOf(a.segments[j], Deleted(changes)));
        assert a.segments[j] in a.segments && Descends(a.segments[j], s);
      }
    }
  }

  lemma {:induction false} MergeExtends(prepared: seq<PreparedMerge>, snapshot: Index, groups: seq<seq<Segment>>, a: Index)
    requires WellFormed(a) && Batch(prepared, snapshot, groups, a)
    ensures Extends(a, Committed(a, prepared))
  {
    var b := Committed(a, prepared);
    MergeWellFormed(prepared, snapshot, groups, a);
    forall s {:trigger FreshOrFrom(a, s)} | s in b.segments
      ensures FreshOrFrom(a, s)
    {
      CommittedSegments(a, prepared, s);
      if s in a.segments {
        assert Descends(s, s);
      }
    }
  }

  lemma {:induction false} RebuildExtends(a: Index, b: Index)
    requires WellFormed(a) && Rebuilds(a, b)
    ensures Extends(a, b)
  {
    assert forall s | s in b.segments :: FreshOrFrom(a, s);
  }

  /** Every step of a run keeps its index or extends it. */
  lemma {:induction false} StepExtends(a: State, e: Event, b: State)
    requires Inv(a) && Step(a, e, b)
    ensures b.index == a.index || Extends(a.index, b.index)
  {
    match e {
      case Reconciled(changes, built) => UpdateExtends(a.index, b.index, changes, built);
      case MergeStarted(_) =>
      case MergeFinished =>
        var m := a.merging.value;
        if Committable(m, a.index) {
          MergeExtends(m.prepared, m.snapshot, m.groups, a.index);
        }
      case Rebuilt(_) => RebuildExtends(a.index, b.index);
    }
  }

  // ----- Names are never reused -----

  ghost predicate Chain(history: seq<Index>) {
    && (forall k | 0 <= k < |history| :: WellFormed(history[k]))
    && forall k | 0 < k < |history| :: Extends(history[k - 1], history[k])
  }

  /** A later segment with an old id descends from the old segment. */
  lemma {:induction false} DescendsBack(history: seq<Index>, j: nat, k: nat, s: Segment)
    requires Chain(history) && j <= k < |history| && s in history[k].segments && s.id < history[j].nextSegmentId
    ensures exists t :: t in history[j].segments && Descends(t, s)
    decreases k - j
  {
    if j == k {
      assert Descends(s, s);
    } else {
      NextIdGrows(history, j, k - 1);
      assert Extends(history[k - 1], history[k]) && FreshOrFrom(history[k - 1], s);
      var m :| m in history[k - 1].segments && Descends(m, s);
      DescendsBack(history, j, k - 1, m);
      var t :| t in history[j].segments && Descends(t, m);
      assert Descends(t, s);
    }
  }

  lemma {:induction false} NextIdGrows(history: seq<Index>, j: nat, k: nat)
    requires Chain(history) && j <= k < |history|
    ensures history[j].nextSegmentId <= history[k].nextSegmentId
    decreases k - j
  {
    if j < k {
      NextIdGrows(history, j, k - 1);
      assert Extends(history[k - 1], history[k]);
    }
  }

  /** The segment that owns a referenced segment file. */
  lemma {:induction false} OwnerOf(ix: Index, n: FileName) returns (s: Segment)
    requires WellFormed(ix) && n in Referenced(ix) && !n.Overlay?
    ensures s in ix.segments && OwnedBy(s, n) && Referenced(ix)[n] == SegmentFiles(s)[n]
    ensures s.id < ix.nextSegmentId
  {
    ReferencedIff(ix, n, Referenced(ix)[n]);
    var i :| 0 <= i < |ix.segments| && OwnedBy(ix.segments[i], n) && Referenced(ix)[n] == SegmentFiles(ix.segments[i])[n];
    s := ix.segments[i];
  }

  /**
   A segment, doc-table or deletion file named by two committed manifests has
   the same contents under both, however far apart they are.
   */
  lemma {:induction false} NeverReused(history: seq<Index>, j: nat, k: nat, n: FileName)
    requires Chain(history) && j <= k < |history| && !n.Overlay?
    requires n in Referenced(history[j]) && n in Referenced(history[k])
    ensures Referenced(history[j])[n] == Referenced(history[k])[n]
  {
    var a := OwnerOf(history[j], n);
    var b := OwnerOf(history[k], n);
    DescendsBack(history, j, k, b);
    var t :| t in history[j].segments && Descends(t, b);
    SameSegment(history[j], t, a);
  }

  /** No committed manifest from `j` to `k` dropped the overlay. */
  ghost predicate NoReset(history: seq<Index>, j: nat, k: nat) {
    forall i | j < i <= k && i < |history| :: history[i].stateGen >= history[i - 1].stateGen
  }

  /** Overlay generations are reused only after the overlay has been dropped. */
  lemma {:induction false} OverlayNotReused(history: seq<Index>, j: nat, k: nat)
    requires Chain(history) && j <= k < |history| && NoReset(history, j, k)
    ensures history[j].stateGen <= history[k].stateGen
    ensures history[j].stateGen == history[k].stateGen > 0 ==> history[j].overlay == history[k].overlay
    decreases k - j
  {
    if j < k {
      OverlayNotReused(history, j, k - 1);
      assert Extends(history[k - 1], history[k]);
    }
  }

  /** A name both of two successive manifests use has the same contents under both, overlays included. */
  lemma {:induction false} CommonAgree(a: Index, b: Index, n: FileName)
    requires Extends(a, b) && n in Referenced(a) && n in Referenced(b)
    ensures Referenced(a)[n] == Referenced(b)[n]
  {
    if n.Overlay? {
      ReferencedNames(a);
      ReferencedNames(b);
      ReferencedIff(a, n, Referenced(a)[n]);
      ReferencedIff(b, n, Referenced(b)[n]);
    } else {
      NeverReused([a, b], 0, 1, n);
    }
  }
}
