/**
 What a build, an update or a merge has to write and may retire is what the
 commit protocol asks for (src/store/writer.rs, src/store/update.rs, src/store/merge.rs).
 */
module Publishing {
  import opened Wrappers
  import opened Segments
  import opened Files
  import opened Disk
  import opened FaultFs
  import opened Commit
  import opened History
  import opened Documents
  import MergeRuns
  import Recovery

  /** `work` places each of these files once. */
  ghost predicate Covers(work: seq<Placement>, files: Directory, names: set<FileName>)
    requires names <= files.Keys
  {
    && ValidWork(work)
    && (forall k | 0 <= k < |work| :: work[k].name in names && work[k].data == files[work[k].name])
    && (forall n | n in names :: SuppliedBy(work, n, files[n]))
  }

  /** A new index's files are those it shares with the old one, contents and all, and those to be placed. */
  lemma {:induction false} ExtensionPublishes(a: Index, b: Index, work: seq<Placement>, retire: seq<FileName>)
    requires Extends(a, b) && Covers(work, Referenced(b), Referenced(b).Keys - Referenced(a).Keys)
    requires forall n | n in retire :: n in Referenced(a) && n !in Referenced(b)
    ensures Publishable(Some(a), b, work, retire)
  {
    hide Extends, Referenced;
    forall n | n in Referenced(b)
      ensures SuppliedBy(work, n, Referenced(b)[n]) || InBase(Some(a), n, Referenced(b)[n])
    {
      if n in Referenced(a) {
        CommonAgree(a, b, n);
      }
    }
  }

  /** The files to place, in some order; a merge takes two of them from staging. */
  lemma {:induction false} PlanPlacements(files: Directory, names: set<FileName>) returns (work: seq<Placement>)
    requires names <= files.Keys && forall n | n in names :: IsCleanable(n) && !n.Tmp?
    ensures Covers(work, files, names) && forall k | 0 <= k < |work| :: work[k].staged == None
    decreases |names|
  {
    if names == {} {
      work := [];
    } else {
      hide Covers;
      var n :| n in names;
      var front := PlanPlacements(files, names - {n});
      work := front + [Placement(n, files[n], None)];
      CoversMore(front, files, names, n);
    }
  }

  lemma {:induction false} CoversMore(front: seq<Placement>, files: Directory, names: set<FileName>, n: FileName)
    requires n in names && names <= files.Keys && IsCleanable(n) && !n.Tmp? && Covers(front, files, names - {n})
    ensures Covers(front + [Placement(n, files[n], None)], files, names)
  {
    var work := front + [Placement(n, files[n], None)];
    forall m | m in names
      ensures SuppliedBy(work, m, files[m])
    {
      if m == n {
        assert work[|front|].name == n;
      } else {
        assert SuppliedBy(front, m, files[m]);
        var k :| 0 <= k < |front| && front[k].name == m && front[k].data == files[m];
        assert work[k] == front[k];
      }
    }
  }

  /**
   Whatever a step of a run commits over the last index, there is a list of files
   to place under which the commit protocol applies, retiring anything dropped.
   */
  lemma {:induction false} EveryStepPublishes(a: MergeRuns.State, e: MergeRuns.Event, b: MergeRuns.State, retire: seq<FileName>) returns (work: seq<Placement>)
    requires MergeRuns.Inv(a) && MergeRuns.Step(a, e, b) && b.index != a.index
    requires forall n | n in retire :: n in Referenced(a.index) && n !in Referenced(b.index)
    ensures Publishable(Some(a.index), b.index, work, retire)
  {
    hide MergeRuns.Inv, MergeRuns.Step, Referenced, Publishable;
    StepExtends(a, e, b);
    CleanNames(a.index, b.index);
    work := PlanPlacements(Referenced(b.index), Referenced(b.index).Keys - Referenced(a.index).Keys);
    ExtensionPublishes(a.index, b.index, work, retire);
  }

  // ----- Retiring after a failed sync -----

  /** The directory of `base` at rest, everything on stable storage. */
  function AtRest(base: Index): Disk {
    Disk(Referenced(base)[Manifest := Header(base)], {}, map[])
  }

  lemma {:induction false} AtRestIs(base: Index)
    ensures Rests(AtRest(base), Some(base)) && Recoverable(AtRest(base), {Some(base)})
  {
    ReferencedNames(base);
    var d := AtRest(base);
    forall n | n in Referenced(base)
      ensures Settled(d, n, Referenced(base)[n]) && Pinned(d, n, Referenced(base)[n])
    {
    }
    assert Outcomes(d, Manifest) == {Some(Header(base))};
    assert SafeEntry(d, {Some(base)}, Some(Header(base)));
  }

  /**
   With nothing wrong but the sync after the rename, a commit that retires
   anything leaves a directory that some power loss turns into neither index.
   */
  method FailedSyncLosesBoth(base: Index, next: Index, retire: seq<FileName>, ghost s: Recovery.State)
    returns (fs: FaultFs, ghost after: Directory)
    requires Publishable(Some(base), next, [], retire) && retire != []
    ensures fresh(fs) && Commits(fs.disk.files, Some(next))
    ensures PowerLoss(fs.disk, after) && !CommitsOneOf(after, {Some(base), Some(next)})
  {
    hide Recoverable, Rests, Publishable;
    AtRestIs(base);
    var plan := FaultPlan(None, Some(3), None, None);
    fs := new FaultFs(plan, _ => false, AtRest(base));
    ghost var synced, died;
    var ok;
    ok, synced, died := Publish(fs, Some(base), next, [], retire, true, s);
    RetiredIsBase(base, next, retire);
    assert retire[0] in retire && !Whole(fs.disk.files, Some(base));
    RecoverableIff(fs.disk, {Some(base), Some(next)});
    after :| PowerLoss(fs.disk, after) && !CommitsOneOf(after, {Some(base), Some(next)});
  }

  lemma {:induction false} RetiredIsBase(base: Index, next: Index, retire: seq<FileName>)
    requires Publishable(Some(base), next, [], retire)
    ensures forall n | n in retire :: n in Referenced(base)
  {
  }

  /** Such a commit: rebuilding over one indexed file when the tree has become empty. */
  lemma {:induction false} EmptyRebuildRetires(d: Doc) returns (base: Index, next: Index, retire: seq<FileName>)
    ensures MergeRuns.Rebuilds(base, next) && WellFormed(base) && WellFormed(next)
    ensures retire != [] && Publishable(Some(base), next, [], retire)
  {
    base := Index([Segment(0, 0, [d], {}, 0)], map[], 1, 0, 1);
    next := Index([], map[], 1, 0, 2);
    retire := [Idx(0), DocTable(0)];
    assert [Segment(0, 0, [d], {}, 0)][..0] == [];
    assert Referenced(next) == map[];
  }

  lemma {:induction false} CleanNames(a: Index, b: Index)
    requires Extends(a, b)
    ensures forall n | n in Referenced(b) :: IsCleanable(n) && !n.Tmp?
  {
    ReferencedNames(b);
  }
}
