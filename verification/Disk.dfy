/**
 A directory with a volatile view and what a power loss may leave of it.

 Entries become durable only when the directory is synced, and independently
 of each other; a file's bytes become durable when the file is synced.
 */
module Disk {
  import opened Wrappers
  import opened Segments
  import opened Files

  /**
   `unsynced` files may come back torn; `stale[n]` are the earlier states in which
   the entry `n` may come back instead of its current one.
   */
  datatype Disk = Disk(files: Directory, unsynced: set<FileName>, stale: map<FileName, set<Option<Data>>>)

  function Entry(dir: Directory, n: FileName): Option<Data> {
    if n in dir then Some(dir[n]) else None
  }

  /** What a power loss now may leave under `n`. */
  function Outcomes(d: Disk, n: FileName): set<Option<Data>> {
    (if n in d.stale then d.stale[n] else {})
    + {Entry(d.files, n)}
    + (if n in d.files && n in d.unsynced then {Some(Torn)} else {})
  }

  // ----- Operations that succeed -----

  function Created(d: Disk, n: FileName): Disk {
    Disk(d.files[n := Torn], d.unsynced + {n}, d.stale[n := Outcomes(d, n)])
  }

  function Written(d: Disk, n: FileName, data: Data): Disk {
    Disk(d.files[n := data], d.unsynced + {n}, d.stale)
  }

  function Synced(d: Disk, n: FileName): Disk {
    d.(unsynced := d.unsynced - {n})
  }

  function Renamed(d: Disk, a: FileName, b: FileName): Disk
    requires a in d.files && a != b
  {
    Disk((d.files - {a})[b := d.files[a]],
         if a in d.unsynced then d.unsynced - {a} + {b} else d.unsynced - {a, b},
         d.stale[a := Outcomes(d, a)][b := Outcomes(d, b)])
  }

  function Removed(d: Disk, n: FileName): Disk {
    Disk(d.files - {n}, d.unsynced - {n}, d.stale[n := Outcomes(d, n)])
  }

  /** The directory's own entries become durable; those of `staging/` do not. */
  function DirSynced(d: Disk): Disk {
    d.(stale := map n | n in d.stale && !IsListed(n) :: d.stale[n])
  }

  // ----- Power loss -----

  /** `after` is a directory that a power loss may leave. */
  ghost predicate PowerLoss(d: Disk, after: Directory) {
    forall n :: Entry(after, n) in Outcomes(d, n)
  }

  ghost predicate Pinned(d: Disk, n: FileName, data: Data) {
    Outcomes(d, n) == {Some(data)}
  }

  ghost predicate AllPinned(d: Disk, files: Directory) {
    forall n | n in files :: Pinned(d, n, files[n])
  }

  /** `x` is a manifest entry under which recovery finds every file whole. */
  ghost predicate SafeEntry(d: Disk, choices: set<Option<Index>>, x: Option<Data>) {
    match x
    case None => None in choices
    case Some(Header(ix)) => Some(ix) in choices && AllPinned(d, Referenced(ix))
    case Some(_) => false
  }

  /** Whatever a power loss leaves is one of `choices`, complete. */
  ghost predicate Recoverable(d: Disk, choices: set<Option<Index>>) {
    forall x {:trigger SafeEntry(d, choices, x)} | x in Outcomes(d, Manifest) :: SafeEntry(d, choices, x)
  }

  ghost predicate CommitsOneOf(dir: Directory, choices: set<Option<Index>>) {
    exists ix :: ix in choices && Commits(dir, ix)
  }

  lemma {:induction false} PinnedSurvives(d: Disk, files: Directory, after: Directory)
    requires AllPinned(d, files) && PowerLoss(d, after)
    ensures forall n | n in files :: n in after && after[n] == files[n]
  {
    forall n | n in files
      ensures n in after && after[n] == files[n]
    {
      assert Pinned(d, n, files[n]);
      assert Entry(after, n) in Outcomes(d, n);
    }
  }

  /** A recoverable disk reopens, after any power loss, as one of its choices. */
  lemma {:induction false} RecoverableReopens(d: Disk, choices: set<Option<Index>>, after: Directory)
    requires Recoverable(d, choices) && PowerLoss(d, after)
    ensures CommitsOneOf(after, choices)
  {
    var x := Entry(after, Manifest);
    assert x in Outcomes(d, Manifest) && SafeEntry(d, choices, x);
    match x {
      case None => assert Commits(after, None);
      case Some(Header(ix)) =>
        PinnedSurvives(d, Referenced(ix), after);
        assert Commits(after, Some(ix));
      case Some(_) =>
    }
  }

  /** The directory a power loss leaves when every entry comes back as `pick` says. */
  lemma {:induction false} LossExists(d: Disk, n: FileName, x: Option<Data>, m: FileName, y: Option<Data>) returns (after: Directory)
    requires x in Outcomes(d, n) && y in Outcomes(d, m) && (n == m ==> x == y)
    ensures PowerLoss(d, after) && Entry(after, n) == x && Entry(after, m) == y
  {
    after := Put(Put(d.files, n, x), m, y);
    forall k
      ensures Entry(after, k) in Outcomes(d, k)
    {
    }
  }

  // ----- What each operation leaves to a power loss -----

  /** Some power loss leaves `x` under `n`. */
  ghost predicate MayLeave(d: Disk, n: FileName, x: Option<Data>) {
    exists after :: PowerLoss(d, after) && Entry(after, n) == x
  }

  lemma {:induction false} MayLeaveIs(d: Disk, n: FileName, x: Option<Data>)
    ensures MayLeave(d, n, x) <==> x in Outcomes(d, n)
  {
    if x in Outcomes(d, n) {
      var _ := LossExists(d, n, x, n, x);
    }
  }

  /** Entries come back independently of each other. */
  lemma {:induction false} LossIff(d: Disk, after: Directory)
    ensures PowerLoss(d, after) <==> forall n :: MayLeave(d, n, Entry(after, n))
  {
    forall n
      ensures MayLeave(d, n, Entry(after, n)) <==> Entry(after, n) in Outcomes(d, n)
    {
      MayLeaveIs(d, n, Entry(after, n));
    }
  }

  /** Until it is synced, a file that was written may come back torn; and with its entry not synced, as before. */
  lemma {:induction false} WriteLoss(d: Disk, n: FileName, data: Data, x: Option<Data>)
    ensures MayLeave(Written(Created(d, n), n, data), n, x) <==> x == Some(data) || x == Some(Torn) || MayLeave(d, n, x)
    ensures MayLeave(Synced(Written(Created(d, n), n, data), n), n, x) <==> x == Some(data) || MayLeave(d, n, x)
  {
    MayLeaveIs(d, n, x);
    MayLeaveIs(Written(Created(d, n), n, data), n, x);
    MayLeaveIs(Synced(Written(Created(d, n), n, data), n), n, x);
  }

  /** A synced file under its new name is whole there, or not there yet; under the old one it may still be. */
  lemma {:induction false} RenameLoss(d: Disk, a: FileName, b: FileName, x: Option<Data>)
    requires a in d.files && a != b
    ensures MayLeave(Renamed(d, a, b), b, x)
            <==> x == Some(d.files[a]) || (a in d.unsynced && x == Some(Torn)) || MayLeave(d, b, x)
    ensures MayLeave(Renamed(d, a, b), a, x) <==> x == None || MayLeave(d, a, x)
  {
    MayLeaveIs(d, a, x);
    MayLeaveIs(d, b, x);
    MayLeaveIs(Renamed(d, a, b), a, x);
    MayLeaveIs(Renamed(d, a, b), b, x);
  }

  lemma {:induction false} RemoveLoss(d: Disk, n: FileName, x: Option<Data>)
    ensures MayLeave(Removed(d, n), n, x) <==> x == None || MayLeave(d, n, x)
  {
    MayLeaveIs(d, n, x);
    MayLeaveIs(Removed(d, n), n, x);
  }

  /** A synced directory's entries stay; only a file that is not synced itself may still be torn. */
  lemma {:induction false} SyncDirLoss(d: Disk, n: FileName, x: Option<Data>)
    ensures MayLeave(DirSynced(d), n, x)
            <==> if IsListed(n) then x == Entry(d.files, n) || (n in d.files && n in d.unsynced && x == Some(Torn)) else MayLeave(d, n, x)
  {
    MayLeaveIs(d, n, x);
    MayLeaveIs(DirSynced(d), n, x);
  }

  /** What an operation does to one name it does to no other. */
  lemma {:induction false} OthersLoss(d: Disk, n: FileName, data: Data, b: FileName, m: FileName, x: Option<Data>)
    requires m != n && m != b
    ensures MayLeave(Created(d, n), m, x) <==> MayLeave(d, m, x)
    ensures MayLeave(Written(d, n, data), m, x) <==> MayLeave(d, m, x)
    ensures MayLeave(Synced(d, n), m, x) <==> MayLeave(d, m, x)
    ensures MayLeave(Removed(d, n), m, x) <==> MayLeave(d, m, x)
    ensures n in d.files && n != b ==> (MayLeave(Renamed(d, n, b), m, x) <==> MayLeave(d, m, x))
  {
    hide MayLeave;
    MayLeaveIs(d, m, x);
    MayLeaveIs(Created(d, n), m, x);
    MayLeaveIs(Written(d, n, data), m, x);
    MayLeaveIs(Synced(d, n), m, x);
    MayLeaveIs(Removed(d, n), m, x);
    if n in d.files && n != b {
      MayLeaveIs(Renamed(d, n, b), m, x);
    }
  }

  /** Recoverable is exactly what is wanted: every power loss leaves one of the choices, complete. */
  lemma {:induction false} RecoverableIff(d: Disk, choices: set<Option<Index>>)
    ensures Recoverable(d, choices) <==> forall after | PowerLoss(d, after) :: CommitsOneOf(after, choices)
  {
    if Recoverable(d, choices) {
      forall after | PowerLoss(d, after)
        ensures CommitsOneOf(after, choices)
      {
        RecoverableReopens(d, choices, after);
      }
    } else {
      var x :| x in Outcomes(d, Manifest) && !SafeEntry(d, choices, x);
      var after := UnsafeLoss(d, choices, x);
      assert !CommitsOneOf(after, choices);
    }
  }

  /** An unsafe entry may come back with a file of its index missing or torn. */
  lemma {:induction false} UnsafeLoss(d: Disk, choices: set<Option<Index>>, x: Option<Data>) returns (after: Directory)
    requires x in Outcomes(d, Manifest) && !SafeEntry(d, choices, x)
    ensures PowerLoss(d, after) && !CommitsOneOf(after, choices)
  {
    if x.Some? && x.value.Header? && !AllPinned(d, Referenced(x.value.index)) {
      var files := Referenced(x.value.index);
      var n :| n in files && !Pinned(d, n, files[n]);
      ReferencedNames(x.value.index);
      assert Entry(d.files, n) in Outcomes(d, n);
      var y :| y in Outcomes(d, n) && y != Some(files[n]);
      after := LossExists(d, Manifest, x, n, y);
    } else {
      after := LossExists(d, Manifest, x, Manifest, x);
    }
  }

  function Put(dir: Directory, n: FileName, x: Option<Data>): Directory {
    match x
    case None => dir - {n}
    case Some(data) => dir[n := data]
  }

  /**
   Removing a file is safe exactly when no manifest that a power loss could
   still bring back names it: retirement and sweeping both rest on the new
   manifest's directory entry being durable.
   */
  lemma {:induction false} RemovalSafeIff(d: Disk, choices: set<Option<Index>>, n: FileName)
    requires Recoverable(d, choices) && n in d.files && n != Manifest
    ensures (forall after | PowerLoss(Removed(d, n), after) :: CommitsOneOf(after, choices))
            <==> forall ix | Some(Header(ix)) in Outcomes(d, Manifest) :: n !in Referenced(ix)
  {
    var d' := Removed(d, n);
    assert Outcomes(d', Manifest) == Outcomes(d, Manifest);
    if forall ix | Some(Header(ix)) in Outcomes(d, Manifest) :: n !in Referenced(ix) {
      RemovalSafe(d, choices, n);
      forall after | PowerLoss(d', after)
        ensures CommitsOneOf(after, choices)
      {
        RecoverableReopens(d', choices, after);
      }
    } else {
      var ix :| Some(Header(ix)) in Outcomes(d, Manifest) && n in Referenced(ix);
      var after := LossExists(d', Manifest, Some(Header(ix)), n, None);
      assert !CommitsOneOf(after, choices);
    }
  }

  lemma {:induction false} RemovalSafe(d: Disk, choices: set<Option<Index>>, n: FileName)
    requires Recoverable(d, choices) && n != Manifest
    requires forall ix | Some(Header(ix)) in Outcomes(d, Manifest) :: n !in Referenced(ix)
    ensures Recoverable(Removed(d, n), choices)
  {
    var d' := Removed(d, n);
    forall x {:trigger SafeEntry(d', choices, x)} | x in Outcomes(d', Manifest)
      ensures SafeEntry(d', choices, x)
    {
      assert SafeEntry(d, choices, x);
      if x.Some? && x.value.Header? {
        forall k | k in Referenced(x.value.index)
          ensures Pinned(d', k, Referenced(x.value.index)[k])
        {
          assert Pinned(d, k, Referenced(x.value.index)[k]);
        }
      }
    }
  }
}
