/**
 The orphan sweep of an open (src/store/reader.rs) on a disk whose entries are
 not all durable: it removes files and syncs nothing, so it is exactly as safe
 as the manifest entry it trusts.
 */
module Sweeping {
  import opened Wrappers
  import opened Documents
  import opened Segments
  import opened Files
  import opened Disk
  import opened FaultFs
  import opened Commit
  import opened Publishing
  import Recovery

  predicate Orphan(ix: Index, n: FileName) {
    IsListed(n) && IsCleanable(n) && n !in Referenced(ix)
  }

  /** A manifest naming `n` may come back. */
  ghost predicate MayName(d: Disk, n: FileName) {
    exists ix :: Some(Header(ix)) in Outcomes(d, Manifest) && n in Referenced(ix)
  }

  function Lost(d: Disk, d': Disk): set<FileName> {
    d.files.Keys - d'.files.Keys
  }

  // ----- Removing files -----

  /** Only what is gone was touched. */
  lemma {:induction false} RemovalsGone(d: Disk, d': Disk, names: seq<FileName>)
    requires Removals(d, d', names)
    ensures d'.files.Keys <= d.files.Keys && (forall n | n in Lost(d, d') :: n in names)
    ensures Untouched(d, d', Lost(d, d'))
    decreases names
  {
    if names == [] {
      UntouchedStay(d, {});
    } else {
      hide Untouched, Outcomes;
      var front, n := names[..|names| - 1], names[|names| - 1];
      var m :| Removals(d, m, front) && (d' == m || (n in m.files && d' == Removed(m, n)));
      assert names == front + [n] && n in names && forall k | k in front :: k in names;
      RemovalsGone(d, m, front);
      OneGone(m, d', n);
      UntouchedTrans(d, m, d', Lost(d, m), Lost(d, d'));
    }
  }

  lemma {:induction false} OneGone(m: Disk, d': Disk, n: FileName)
    requires d' == m || (n in m.files && d' == Removed(m, n))
    ensures d'.files.Keys <= m.files.Keys && (forall k | k in m.files && k != n :: k in d'.files)
    ensures forall names: set<FileName> {:trigger Untouched(m, d', names)} :: (Lost(m, d') <= names) ==> Untouched(m, d', names)
  {
  }

  /** Removing files is safe exactly when no manifest that may come back names one that is gone. */
  lemma {:induction false} RemovalsSafeIff(d: Disk, d': Disk, names: seq<FileName>, choices: set<Option<Index>>)
    requires Removals(d, d', names) && Recoverable(d, choices) && Manifest !in names
    ensures Recoverable(d', choices) <==> forall n | n in Lost(d, d') :: !MayName(d, n)
  {
    hide Outcomes, Removals, MayName, Recoverable;
    RemovalsManifest(d, d', names);
    RemovalsGone(d, d', names);
    if n :| n in Lost(d, d') && MayName(d, n) {
      GoneUnsafe(d, d', n, choices);
    } else {
      KeptSafe(d, d', choices);
    }
  }

  lemma {:induction false} GoneUnsafe(d: Disk, d': Disk, n: FileName, choices: set<Option<Index>>)
    requires n in Lost(d, d') && MayName(d, n) && Outcomes(d', Manifest) == Outcomes(d, Manifest)
    ensures !Recoverable(d', choices)
  {
    var ix :| Some(Header(ix)) in Outcomes(d, Manifest) && n in Referenced(ix);
    assert Entry(d'.files, n) in Outcomes(d', n);
    assert !Pinned(d', n, Referenced(ix)[n]);
    assert !SafeEntry(d', choices, Some(Header(ix)));
  }

  lemma {:induction false} KeptSafe(d: Disk, d': Disk, choices: set<Option<Index>>)
    requires Recoverable(d, choices) && Outcomes(d', Manifest) == Outcomes(d, Manifest)
    requires Untouched(d, d', Lost(d, d')) && forall n | n in Lost(d, d') :: !MayName(d, n)
    ensures Recoverable(d', choices)
  {
    hide Outcomes, AllPinned, Untouched;
    forall x {:trigger SafeEntry(d', choices, x)} | x in Outcomes(d', Manifest)
      ensures SafeEntry(d', choices, x)
    {
      assert SafeEntry(d, choices, x);
      if x.Some? && x.value.Header? {
        assert forall n | n in Referenced(x.value.index) :: MayName(d, n);
        UntouchedPinned(d, d', Lost(d, d'), Referenced(x.value.index));
      }
    }
  }

  // ----- The sweep -----

  /**
   Every orphan listed is tried once, and what cannot be removed is left.  The
   index read stays committed; what a power loss can leave stays one of
   `choices` exactly when nothing gone is named by a manifest it may bring back.
   */
  method Sweep(fs: FaultFs, ix: Index, ghost choices: set<Option<Index>>)
    requires Commits(fs.disk.files, Some(ix))
    modifies fs
    ensures Commits(fs.disk.files, Some(ix)) && fs.disk.files.Keys <= old(fs.disk).files.Keys
    ensures forall n | n in Lost(old(fs.disk), fs.disk) :: (n.Idx? || n.DocTable? || n.Del? || n.Overlay? || n.Tmp?) && n !in Referenced(ix)
    ensures Untouched(old(fs.disk), fs.disk, Lost(old(fs.disk), fs.disk))
    ensures old(fs.Sure(|fs.disk.files|)) ==> fs.disk.files == Swept(old(fs.disk).files, ix) && SweptOnly(old(fs.disk).files, fs.disk.files, ix)
    ensures Recoverable(old(fs.disk), choices) ==>
              (Recoverable(fs.disk, choices) <==> forall n | n in Lost(old(fs.disk), fs.disk) :: !MayName(old(fs.disk), n))
  {
    hide Removals, Recoverable, MayName, Untouched, Referenced, Outcomes, Removed;
    ghost var d0 := fs.disk;
    var todo := fs.disk.files.Keys;
    ghost var names: seq<FileName> := [];
    ghost var sure := fs.Sure(|todo|);
    RemovalsNone(d0);
    while todo != {}
      invariant todo <= d0.files.Keys && Removals(d0, fs.disk, names)
      invariant forall n | n in names :: Orphan(ix, n)
      invariant sure ==> fs.Sure(|todo|) && forall n | n in d0.files && n !in todo && Orphan(ix, n) :: n !in fs.disk.files
      decreases todo
    {
      var n :| n in todo;
      ghost var d := fs.disk;
      if Orphan(ix, n) {
        var _ := fs.RemoveFile(n);
        RemovalsMore(d0, d, fs.disk, names, n);
        names := names + [n];
      }
      todo := todo - {n};
    }
    SweptState(d0, fs.disk, ix, names);
    OrphanNames(d0, fs.disk, ix);
    if Recoverable(d0, choices) {
      RemovalsSafeIff(d0, fs.disk, names, choices);
    }
  }

  /** Orphans by their names. */
  lemma {:induction false} OrphanNames(d: Disk, d': Disk, ix: Index)
    requires Commits(d.files, Some(ix))
    ensures (forall n | n in Lost(d, d') :: Orphan(ix, n)) ==>
              forall n | n in Lost(d, d') :: (n.Idx? || n.DocTable? || n.Del? || n.Overlay? || n.Tmp?) && n !in Referenced(ix)
    ensures d'.files == Swept(d.files, ix) ==> SweptOnly(d.files, d'.files, ix)
  {
    SweepKeeps(d.files, ix);
  }

  lemma {:induction false} SweptState(d: Disk, d': Disk, ix: Index, names: seq<FileName>)
    requires Commits(d.files, Some(ix)) && Removals(d, d', names) && forall n | n in names :: Orphan(ix, n)
    ensures Commits(d'.files, Some(ix)) && d'.files.Keys <= d.files.Keys && Manifest !in names
    ensures forall n | n in Lost(d, d') :: Orphan(ix, n)
    ensures Untouched(d, d', Lost(d, d'))
    ensures (forall n | n in d.files && Orphan(ix, n) :: n !in d'.files) ==> d'.files == Swept(d.files, ix)
  {
    RemovalsGone(d, d', names);
    forall n | n in d'.files
      ensures d'.files[n] == d.files[n]
    {
      assert Entry(d'.files, n) == Entry(d.files, n);
    }
    forall n | n in Referenced(ix)
      ensures n in d'.files
    {
      assert n !in Lost(d, d');
    }
    assert Manifest !in Lost(d, d');
    if forall n | n in d.files && Orphan(ix, n) :: n !in d'.files {
      forall n
        ensures n in d'.files <==> n in Swept(d.files, ix)
      {
        assert n in d.files && n !in d'.files ==> n in Lost(d, d');
      }
    }
  }

  /**
   A sweep that meets no failure is safe exactly when every index that a power
   loss may bring back has all its files among those of the index read.
   */
  lemma {:induction false} SweepSafeIff(d: Disk, d': Disk, ix: Index, choices: set<Option<Index>>)
    requires Commits(d.files, Some(ix)) && Recoverable(d, choices) && d'.files == Swept(d.files, ix)
    ensures (forall n | n in Lost(d, d') :: !MayName(d, n))
            <==> forall other | Some(Header(other)) in Outcomes(d, Manifest) :: Referenced(other).Keys <= Referenced(ix).Keys
  {
    hide Recoverable, Outcomes, Referenced, Commits, Swept, MayName;
    forall other | Some(Header(other)) in Outcomes(d, Manifest)
      ensures forall n | n in Referenced(other) && n !in Referenced(ix) :: n in Lost(d, d') && MayName(d, n)
    {
      forall n | n in Referenced(other) && n !in Referenced(ix)
        ensures n in Lost(d, d') && MayName(d, n)
      {
        PossibleSwept(d, d', ix, other, n, choices);
      }
    }
    forall n | n in Lost(d, d') && MayName(d, n)
      ensures exists other :: Some(Header(other)) in Outcomes(d, Manifest) && !(Referenced(other).Keys <= Referenced(ix).Keys)
    {
      SweptNamed(d, d', ix, n);
    }
  }

  lemma {:induction false} PossibleSwept(d: Disk, d': Disk, ix: Index, other: Index, n: FileName, choices: set<Option<Index>>)
    requires Recoverable(d, choices) && Some(Header(other)) in Outcomes(d, Manifest) && n in Referenced(other) && n !in Referenced(ix)
    requires d'.files == Swept(d.files, ix)
    ensures n in Lost(d, d') && MayName(d, n)
  {
    hide Recoverable, Outcomes, Referenced;
    PossiblePinned(d, other, n, choices);
  }

  lemma {:induction false} SweptNamed(d: Disk, d': Disk, ix: Index, n: FileName)
    requires n in Lost(d, d') && MayName(d, n) && d'.files == Swept(d.files, ix)
    ensures exists other :: Some(Header(other)) in Outcomes(d, Manifest) && !(Referenced(other).Keys <= Referenced(ix).Keys)
  {
    hide Outcomes, Referenced;
    var other :| Some(Header(other)) in Outcomes(d, Manifest) && n in Referenced(other);
    assert n in Referenced(other).Keys && n !in Referenced(ix).Keys;
  }

  lemma {:induction false} PossiblePinned(d: Disk, other: Index, n: FileName, choices: set<Option<Index>>)
    requires Recoverable(d, choices) && Some(Header(other)) in Outcomes(d, Manifest) && n in Referenced(other)
    ensures n in d.files && IsListed(n) && IsCleanable(n)
  {
    ReferencedNames(other);
    assert SafeEntry(d, choices, Some(Header(other)));
    assert Pinned(d, n, Referenced(other)[n]) && Entry(d.files, n) in Outcomes(d, n);
  }

  // ----- A process that dies at the second sync -----

  /**
   After a commit whose rename was not synced, the next open's sweep is safe
   exactly when the old index has no file that the new one lacks.
   */
  lemma {:induction false} UnsyncedSweepIff(d: Disk, d': Disk, base: Index, next: Index)
    requires Commits(d.files, Some(next)) && Recoverable(d, {Some(base), Some(next)}) && Some(Header(base)) in Outcomes(d, Manifest)
    requires d'.files == Swept(d.files, next)
    ensures (forall n | n in Lost(d, d') :: !MayName(d, n)) <==> Referenced(base).Keys <= Referenced(next).Keys
  {
    hide Outcomes, Referenced, Commits, Swept, MayName, Recoverable;
    SweepSafeIff(d, d', next, {Some(base), Some(next)});
    forall other | Some(Header(other)) in Outcomes(d, Manifest)
      ensures other == base || other == next
    {
      PossibleChosen(d, {Some(base), Some(next)}, other);
    }
  }

  lemma {:induction false} PossibleChosen(d: Disk, choices: set<Option<Index>>, other: Index)
    requires Recoverable(d, choices) && Some(Header(other)) in Outcomes(d, Manifest)
    ensures Some(other) in choices
  {
    hide Outcomes, AllPinned;
    assert SafeEntry(d, choices, Some(Header(other)));
  }

  /**
   With nothing wrong but a process that dies at the sync after the rename, the
   next open finds the new index and sweeps away the old one's files; then some
   power loss leaves neither.
   */
  method DeathThenSweepLosesBoth(base: Index, next: Index, retire: seq<FileName>, ghost s: Recovery.State)
    returns (dead: FaultFs, fs: FaultFs, ghost after: Directory)
    requires Publishable(Some(base), next, [], retire) && retire != []
    ensures fresh(dead) && dead.plan == FaultPlan(None, None, None, Some(7)) && dead.crashed && Commits(dead.disk.files, Some(next))
    ensures Recoverable(dead.disk, {Some(base), Some(next)})
    ensures fresh(fs) && fs.plan == FaultPlan(None, None, None, None) && fs.disk.files == Swept(dead.disk.files, next)
    ensures Commits(fs.disk.files, Some(next))
    ensures PowerLoss(fs.disk, after) && !CommitsOneOf(after, {Some(base), Some(next)})
  {
    hide Recoverable, Rests, Publishable, Untouched, Outcomes, CommitsOneOf, PowerLoss, MayName, Lost, Swept;
    AtRestIs(base);
    dead := new FaultFs(FaultPlan(None, None, None, Some(7)), _ => false, AtRest(base));
    ghost var synced, died;
    var ok;
    ok, synced, died := Publish(dead, Some(base), next, [], retire, true, s);
    assert ok && died;
    fs := new FaultFs(FaultPlan(None, None, None, None), _ => false, dead.disk);
    Sweep(fs, next, {Some(base), Some(next)});
    RetiredMissing(base, next, retire);
    UnsyncedSweepIff(dead.disk, fs.disk, base, next);
    RecoverableIff(fs.disk, {Some(base), Some(next)});
    after :| PowerLoss(fs.disk, after) && !CommitsOneOf(after, {Some(base), Some(next)});
  }

  lemma {:induction false} RetiredMissing(base: Index, next: Index, retire: seq<FileName>)
    requires Publishable(Some(base), next, [], retire) && retire != []
    ensures !(Referenced(base).Keys <= Referenced(next).Keys)
  {
    assert retire[0] in retire;
  }
}
