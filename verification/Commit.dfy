/**
 Publishing a new index over an old one (src/store/writer.rs): place the new
 files, commit the manifest, retire what it no longer names; on an error before
 the commit point, remove what was placed.

 Whatever call fails and wherever the process dies, the directory commits
 exactly the old index or exactly the new one.
 */
module Commit {
  import opened Wrappers
  import opened Documents
  import opened Segments
  import opened Files
  import opened Disk
  import opened FaultFs
  import opened WriterMoves
  import Recovery

  // ----- Frames -----

  /** Outside `names` nothing moved, and power loss can leave no more than before. */
  ghost predicate Untouched(d: Disk, d': Disk, names: set<FileName>) {
    forall n | n !in names ::
      Entry(d'.files, n) == Entry(d.files, n) && Outcomes(d', n) <= Outcomes(d, n) && (n in d'.unsynced <==> n in d.unsynced)
  }

  lemma {:induction false} UntouchedTrans(a: Disk, b: Disk, c: Disk, names: set<FileName>, more: set<FileName>)
    requires Untouched(a, b, names) && Untouched(b, c, more) && names <= more
    ensures Untouched(a, c, more)
  {
    forall n | n !in more
      ensures Entry(c.files, n) == Entry(a.files, n) && Outcomes(c, n) <= Outcomes(a, n) && (n in c.unsynced <==> n in a.unsynced)
    {
      assert n !in names;
    }
  }

  lemma {:induction false} UntouchedStay(d: Disk, names: set<FileName>)
    ensures Untouched(d, d, names)
  {
  }

  lemma {:induction false} UntouchedWider(d: Disk, d': Disk, names: set<FileName>, more: set<FileName>)
    requires Untouched(d, d', names) && names <= more
    ensures Untouched(d, d', more)
  {
  }

  /** `n` holds `data` and its bytes are on stable storage. */
  ghost predicate Settled(d: Disk, n: FileName, data: Data) {
    n in d.files && d.files[n] == data && n !in d.unsynced
  }

  ghost predicate AllSettled(d: Disk, files: Directory) {
    forall n | n in files :: Settled(d, n, files[n])
  }

  // ----- Writing one file -----

  /** create, write, sync, close. */
  method WriteWhole(fs: FaultFs, n: FileName, data: Data, ghost s: Recovery.State) returns (ok: bool)
    modifies fs
    ensures ok ==> Settled(fs.disk, n, data) && n !in fs.poisoned
    ensures Untouched(old(fs.disk), fs.disk, {n})
    ensures ok && !fs.crashed ==> fs.log == old(fs.log) + WriteOps(n)
    ensures old(fs.crashed) ==> !ok && fs.crashed && fs.disk == old(fs.disk)
    ensures old(fs.Spared(1)) ==> ok && !fs.crashed && fs.poisoned == {} && fs.syncs == old(fs.syncs) + 1
    ensures old(fs.Sure(4)) ==> ok && fs.Sure(0) && fs.ops == old(fs.ops) + 4
    ensures s.writer.Writing? && n.Tmp? ==> Leads(s, old(fs.disk.files), fs.disk.files)
  {
    hide Leads, Untouched, Settled, Created, Written, Synced;
    WriteSteps(s, fs.disk, n, data);
    ok := fs.Create(n);
    if !ok { return; }
    ok := fs.Write(n, data);
    if ok {
      ok := fs.SyncAll(n);
    }
    fs.Close(n);
  }

  /** What the disk can be at each stage of writing a file. */
  lemma {:induction false} WriteSteps(s: Recovery.State, d: Disk, n: FileName, data: Data)
    ensures WriteStep(s, d, d, n) && WriteStep(s, d, Created(d, n), n)
    ensures WriteStep(s, d, Written(Created(d, n), n, Torn), n) && WriteStep(s, d, Written(Created(d, n), n, data), n)
    ensures WriteStep(s, d, Synced(Written(Created(d, n), n, data), n), n)
    ensures Settled(Synced(Written(Created(d, n), n, data), n), n, data)
  {
    WriteFrames(d, n, data);
    hide Leads, Untouched, Settled, Outcomes;
    LeadsStay(s, d.files);
    ScratchLeads(s, d.files, d.files, n, Torn);
    ScratchLeads(s, d.files, Created(d, n).files, n, Torn);
    ScratchLeads(s, d.files, Created(d, n).files, n, data);
  }

  lemma {:induction false} WriteFrames(d: Disk, n: FileName, data: Data)
    ensures Untouched(d, d, {n}) && Untouched(d, Created(d, n), {n})
    ensures Untouched(d, Written(Created(d, n), n, Torn), {n}) && Untouched(d, Written(Created(d, n), n, data), {n})
    ensures Untouched(d, Synced(Written(Created(d, n), n, data), n), {n})
    ensures Settled(Synced(Written(Created(d, n), n, data), n), n, data)
  {
    UntouchedStay(d, {n});
    OneMoved(d, n, data);
    OneMoved(Created(d, n), n, data);
    OneMoved(Created(d, n), n, Torn);
    OneMoved(Written(Created(d, n), n, data), n, data);
    SyncSettles(Created(d, n), n, data);
    hide Untouched, Settled, Created, Written, Synced;
    UntouchedTrans(d, Created(d, n), Written(Created(d, n), n, Torn), {n}, {n});
    UntouchedTrans(d, Created(d, n), Written(Created(d, n), n, data), {n}, {n});
    UntouchedTrans(d, Written(Created(d, n), n, data), Synced(Written(Created(d, n), n, data), n), {n}, {n});
  }

  lemma {:induction false} OneMoved(d: Disk, n: FileName, data: Data)
    ensures Untouched(d, Created(d, n), {n}) && Untouched(d, Written(d, n, data), {n}) && Untouched(d, Synced(d, n), {n})
  {
  }

  lemma {:induction false} SyncSettles(d: Disk, n: FileName, data: Data)
    ensures Settled(Synced(Written(d, n, data), n), n, data)
  {
  }

  ghost predicate WriteStep(s: Recovery.State, d: Disk, d': Disk, n: FileName) {
    Untouched(d, d', {n}) && (s.writer.Writing? && n.Tmp? ==> Leads(s, d.files, d'.files))
  }

  lemma {:induction false} ScratchLeads(s: Recovery.State, a: Directory, b: Directory, n: FileName, data: Data)
    ensures s.writer.Writing? && n.Tmp? && Leads(s, a, b) ==> Leads(s, a, b[n := data])
  {
    if s.writer.Writing? && n.Tmp? && Leads(s, a, b) {
      ScratchMove(s, b, n, Some(data));
      LeadsOn(s, a, b, b[n := data]);
    }
  }

  function WriteOps(n: FileName): seq<Op> {
    [Op.Create(n), Op.Write(n), SyncFile(n), Op.Close(n)]
  }

  // ----- Placing the new files -----

  /** The entries one placement may move. */
  function Moves(p: Placement): set<FileName> {
    {p.name, Tmp(p.name)} + if p.staged.Some? then {Staged(p.staged.value)} else {}
  }

  function AllMoves(work: seq<Placement>): set<FileName> {
    if work == [] then {} else AllMoves(work[..|work| - 1]) + Moves(work[|work| - 1])
  }

  lemma {:induction false} AllMovesHas(work: seq<Placement>, k: nat)
    requires k < |work|
    ensures Moves(work[k]) <= AllMoves(work)
  {
    if k < |work| - 1 {
      AllMovesHas(work[..|work| - 1], k);
    }
  }

  lemma {:induction false} AllMovesPrefix(work: seq<Placement>, k: nat)
    requires k <= |work|
    ensures AllMoves(work[..k]) <= AllMoves(work)
  {
    if k < |work| {
      AllMovesPrefix(work[..|work| - 1], k);
      assert work[..|work| - 1][..k] == work[..k];
    } else {
      assert work[..k] == work;
    }
  }

  /** A staged file, while it is there, is whole and synced. */
  ghost predicate StagedReady(d: Disk, p: Placement) {
    p.staged.Some? && Staged(p.staged.value) in d.files ==> Settled(d, Staged(p.staged.value), p.data)
  }

  /** Final names, each placed once. */
  ghost predicate ValidWork(work: seq<Placement>) {
    && (forall k | 0 <= k < |work| :: IsCleanable(work[k].name) && !work[k].name.Tmp?)
    && (forall j, k | 0 <= j < k < |work| :: work[j].name != work[k].name)
    && (forall j, k | 0 <= j < k < |work| && work[j].staged.Some? :: work[j].staged != work[k].staged)
  }

  /** How many syncs placing takes. */
  function Syncs(p: Placement): nat {
    if p.staged.Some? then 0 else 1
  }

  function AllSyncs(work: seq<Placement>): nat {
    if work == [] then 0 else AllSyncs(work[..|work| - 1]) + Syncs(work[|work| - 1])
  }

  /** How many operations placing takes. */
  function Ops(p: Placement): nat {
    if p.staged.Some? then 1 else 5
  }

  function AllOps(work: seq<Placement>): nat {
    if work == [] then 0 else AllOps(work[..|work| - 1]) + Ops(work[|work| - 1])
  }

  lemma {:induction false} AllOpsPrefix(work: seq<Placement>, k: nat)
    requires k < |work|
    ensures AllOps(work[..k]) + Ops(work[k]) <= AllOps(work)
  {
    if k < |work| - 1 {
      AllOpsPrefix(work[..|work| - 1], k);
      assert work[..|work| - 1][..k] == work[..k];
    }
  }

  lemma {:induction false} AllSyncsPrefix(work: seq<Placement>, k: nat)
    requires k < |work|
    ensures AllSyncs(work[..k]) + Syncs(work[k]) <= AllSyncs(work)
  {
    if k < |work| - 1 {
      AllSyncsPrefix(work[..|work| - 1], k);
      assert work[..|work| - 1][..k] == work[..k];
    }
  }

  /** Staged files that are to be moved are there. */
  ghost predicate StagedThere(d: Disk, work: seq<Placement>) {
    forall k | 0 <= k < |work| && work[k].staged.Some? :: Staged(work[k].staged.value) in d.files
  }

  /** What the disk can be once a file is renamed into place. */
  lemma {:induction false} RenameFrames(a: Disk, b: Disk, source: FileName, p: Placement)
    requires Untouched(a, b, Moves(p)) && (source == Tmp(p.name) || (p.staged.Some? && source == Staged(p.staged.value)))
    requires source in b.files && source != p.name
    ensures Untouched(a, Renamed(b, source, p.name), Moves(p))
    ensures Settled(b, source, p.data) ==> Settled(Renamed(b, source, p.name), p.name, p.data)
    ensures p.staged.Some? && source != Tmp(p.name) ==> Entry(Renamed(b, source, p.name).files, Tmp(p.name)) == Entry(b.files, Tmp(p.name))
  {
  }

  lemma {:induction false} PlaceFrames(d: Disk, p: Placement)
    ensures Untouched(d, d, Moves(p))
    ensures forall d' {:trigger Untouched(d, d', {Tmp(p.name)})} | Untouched(d, d', {Tmp(p.name)}) ::
              Untouched(d, d', Moves(p)) && Entry(d'.files, p.name) == Entry(d.files, p.name)
  {
  }

  method PlaceFile(fs: FaultFs, p: Placement, ghost s: Recovery.State) returns (ok: bool, created: seq<FileName>)
    requires StagedReady(fs.disk, p) && IsCleanable(p.name) && !p.name.Tmp?
    modifies fs
    ensures ok ==> Settled(fs.disk, p.name, p.data)
    ensures Untouched(old(fs.disk), fs.disk, Moves(p))
    ensures forall n | n in created :: n in Moves(p) && !n.Staged?
    ensures p.name !in created ==> !ok && Entry(fs.disk.files, p.name) == Entry(old(fs.disk).files, p.name)
    ensures Tmp(p.name) !in created ==> Entry(fs.disk.files, Tmp(p.name)) == Entry(old(fs.disk).files, Tmp(p.name))
    ensures old(fs.crashed) ==> !ok && fs.crashed
    ensures old(fs.Spared(Syncs(p))) && StagedThere(old(fs.disk), [p]) ==> ok && fs.Spared(0) && fs.syncs == old(fs.syncs) + Syncs(p)
    ensures old(fs.Sure(Ops(p))) && StagedThere(old(fs.disk), [p]) ==> ok && fs.Sure(0) && fs.ops == old(fs.ops) + Ops(p)
    ensures Placeable(s, p.name, p.data) ==> Leads(s, old(fs.disk.files), fs.disk.files)
  {
    hide Leads, Untouched, Outcomes, Referenced;
    PlaceFrames(fs.disk, p);
    assert StagedThere(fs.disk, [p]) && p.staged.Some? ==> Staged([p][0].staged.value) in fs.disk.files;
    LeadsStay(s, fs.disk.files);
    ok, created := true, [];
    var source := Tmp(p.name);
    if p.staged.Some? {
      source := Staged(p.staged.value);
    } else {
      created := [Tmp(p.name)];
      ok := WriteWhole(fs, Tmp(p.name), p.data, s);
    }
    ghost var d := fs.disk.files;
    if ok {
      created := created + [p.name];
      ghost var d2 := fs.disk;
      ok := fs.Rename(source, p.name);
      if ok {
        RenameFrames(old(fs.disk), d2, source, p);
      }
      if ok && Placeable(s, p.name, p.data) {
        PlaceMove(s, d, source, p.name);
        LeadsOn(s, old(fs.disk.files), d, fs.disk.files);
      }
    }
  }

  lemma {:induction false} MovesApart(work: seq<Placement>, j: nat, k: nat)
    requires ValidWork(work) && j < |work| && k < |work| && j != k
    ensures work[j].name !in Moves(work[k])
    ensures work[j].staged.Some? ==> Staged(work[j].staged.value) !in Moves(work[k])
  {
  }

  /** After placing `work[..k]` from `d0`. */
  ghost predicate Placed(d0: Disk, d: Disk, work: seq<Placement>, k: nat, created: seq<FileName>)
    requires k <= |work|
  {
    && (forall j | 0 <= j < k :: Settled(d, work[j].name, work[j].data))
    && Untouched(d0, d, AllMoves(work[..k]))
    && (forall j | k <= j < |work| :: StagedReady(d, work[j]))
    && Accounted(d0, d, work, created)
  }

  /** Whatever was not entered in `created` was not moved. */
  ghost predicate Accounted(d0: Disk, d: Disk, work: seq<Placement>, created: seq<FileName>) {
    && (forall n | n in created :: n in AllMoves(work))
    && (forall j | 0 <= j < |work| && work[j].name !in created :: Entry(d.files, work[j].name) == Entry(d0.files, work[j].name))
  }

  lemma {:induction false} PlacedNone(d: Disk, work: seq<Placement>)
    requires forall k | 0 <= k < |work| :: StagedReady(d, work[k])
    ensures Placed(d, d, work, 0, [])
  {
  }

  lemma {:induction false} PlacedStep(d0: Disk, d: Disk, d1: Disk, work: seq<Placement>, k: nat, created: seq<FileName>, more: seq<FileName>, ok: bool)
    requires ValidWork(work) && k < |work| && Placed(d0, d, work, k, created)
    requires Untouched(d, d1, Moves(work[k])) && (ok ==> Settled(d1, work[k].name, work[k].data))
    requires forall n | n in more :: n in Moves(work[k])
    requires work[k].name !in more ==> Entry(d1.files, work[k].name) == Entry(d.files, work[k].name)
    ensures Untouched(d0, d1, AllMoves(work[..k + 1])) && Accounted(d0, d1, work, created + more)
    ensures ok ==> Placed(d0, d1, work, k + 1, created + more)
  {
    assert work[..k + 1][..k] == work[..k];
    UntouchedTrans(d0, d, d1, AllMoves(work[..k]), AllMoves(work[..k + 1]));
    AccountedStep(d0, d, d1, work, k, created, more);
    forall j | 0 <= j < |work| && j != k
      ensures Settled(d, work[j].name, work[j].data) ==> Settled(d1, work[j].name, work[j].data)
      ensures StagedReady(d, work[j]) ==> StagedReady(d1, work[j])
    {
      MovesApart(work, j, k);
    }
  }

  lemma {:induction false} AccountedStep(d0: Disk, d: Disk, d1: Disk, work: seq<Placement>, k: nat, created: seq<FileName>, more: seq<FileName>)
    requires ValidWork(work) && k < |work| && Accounted(d0, d, work, created) && Untouched(d, d1, Moves(work[k]))
    requires forall n | n in more :: n in Moves(work[k])
    requires work[k].name !in more ==> Entry(d1.files, work[k].name) == Entry(d.files, work[k].name)
    ensures Accounted(d0, d1, work, created + more)
  {
    AllMovesHas(work, k);
    forall j | 0 <= j < |work| && work[j].name !in created + more
      ensures Entry(d1.files, work[j].name) == Entry(d0.files, work[j].name)
    {
      if j != k {
        MovesApart(work, j, k);
      }
    }
  }

  lemma {:induction false} StagedStay(d: Disk, d': Disk, work: seq<Placement>, k: nat)
    requires ValidWork(work) && k < |work| && Untouched(d, d', Moves(work[k]))
    ensures forall j | k < j < |work| && work[j].staged.Some? && Staged(work[j].staged.value) in d.files ::
              Staged(work[j].staged.value) in d'.files
  {
    forall j | k < j < |work| && work[j].staged.Some? && Staged(work[j].staged.value) in d.files
      ensures Staged(work[j].staged.value) in d'.files
    {
      MovesApart(work, j, k);
      assert Entry(d'.files, Staged(work[j].staged.value)) == Entry(d.files, Staged(work[j].staged.value));
    }
  }

  /** While nothing fails, `work[..k]` is placed after so many syncs. */
  ghost predicate Advancing(fs: FaultFs, d: Disk, syncs: nat, work: seq<Placement>, k: nat)
    requires k <= |work|
    reads fs
  {
    && fs.Spared(0) && fs.syncs == syncs + AllSyncs(work[..k])
    && forall j | k <= j < |work| && work[j].staged.Some? :: Staged(work[j].staged.value) in d.files
  }

  /** While nothing fails, `work[..k]` is placed after so many operations. */
  ghost predicate Sailing(fs: FaultFs, d: Disk, ops: nat, work: seq<Placement>, k: nat)
    requires k <= |work|
    reads fs
  {
    && fs.Sure(0) && fs.ops == ops + AllOps(work[..k])
    && forall j | k <= j < |work| && work[j].staged.Some? :: Staged(work[j].staged.value) in d.files
  }

  /** All that `work` places belongs to the index being written. */
  ghost predicate AllPlaceable(s: Recovery.State, work: seq<Placement>) {
    forall k | 0 <= k < |work| :: Placeable(s, work[k].name, work[k].data)
  }

  method PlaceAll(fs: FaultFs, work: seq<Placement>, ghost s: Recovery.State) returns (ok: bool, created: seq<FileName>)
    requires ValidWork(work) && forall k | 0 <= k < |work| :: StagedReady(fs.disk, work[k])
    modifies fs
    ensures ok ==> forall k | 0 <= k < |work| :: Settled(fs.disk, work[k].name, work[k].data)
    ensures Untouched(old(fs.disk), fs.disk, AllMoves(work)) && Accounted(old(fs.disk), fs.disk, work, created)
    ensures old(fs.crashed) ==> fs.crashed
    ensures forall n | n in created :: !n.Staged?
    ensures old(fs.Spared(AllSyncs(work))) && StagedThere(old(fs.disk), work) ==> ok && Advancing(fs, fs.disk, old(fs.syncs), work, |work|)
    ensures old(fs.Sure(AllOps(work))) && StagedThere(old(fs.disk), work) ==> ok && Sailing(fs, fs.disk, old(fs.ops), work, |work|)
    ensures AllPlaceable(s, work) ==> Leads(s, old(fs.disk.files), fs.disk.files)
  {
    hide Leads, Placeable, Untouched, Accounted, Settled, AllMoves;
    PlacedNone(fs.disk, work);
    ok, created := true, [];
    ghost var d0 := fs.disk;
    ghost var spared := fs.Spared(AllSyncs(work)) && StagedThere(fs.disk, work);
    ghost var sure := fs.Sure(AllOps(work)) && StagedThere(fs.disk, work);
    LeadsStay(s, fs.disk.files);
    for k := 0 to |work|
      invariant ok && Placed(d0, fs.disk, work, k, created)
      invariant old(fs.crashed) ==> fs.crashed
      invariant forall n | n in created :: !n.Staged?
      invariant spared ==> Advancing(fs, fs.disk, old(fs.syncs), work, k)
      invariant sure ==> Sailing(fs, fs.disk, old(fs.ops), work, k)
      invariant AllPlaceable(s, work) ==> Leads(s, d0.files, fs.disk.files)
    {
      ghost var d := fs.disk;
      ghost var syncs := fs.syncs;
      AllSyncsPrefix(work, k);
      AllOpsPrefix(work, k);
      assert work[..k + 1][..k] == work[..k];
      assert spared ==> fs.Spared(Syncs(work[k])) && StagedThere(d, [work[k]]);
      assert sure ==> fs.Sure(Ops(work[k])) && StagedThere(d, [work[k]]);
      var more;
      ok, more := PlaceFile(fs, work[k], s);
      PlacedStep(d0, d, fs.disk, work, k, created, more, ok);
      if AllPlaceable(s, work) {
        LeadsThrough(s, d0.files, d.files, fs.disk.files);
      }
      StagedStay(d, fs.disk, work, k);
      created := created + more;
      if !ok {
        AllMovesPrefix(work, k + 1);
        UntouchedWider(d0, fs.disk, AllMoves(work[..k + 1]), AllMoves(work));
        return;
      }
    }
    assert work[..|work|] == work;
  }

  // ----- The commit -----

  /** Remove what can be removed. */
  method RemoveAll(fs: FaultFs, names: seq<FileName>, ghost s: Recovery.State)
    modifies fs
    ensures Removals(old(fs.disk), fs.disk, names)
    ensures old(fs.crashed) ==> fs.crashed && fs.disk == old(fs.disk)
    ensures !fs.crashed ==> fs.log == old(fs.log) + RemoveOps(names)
    ensures !fs.crashed && (forall k :: !fs.innerFails(k)) ==> forall n | n in names :: n !in fs.disk.files
    ensures old(fs.Spared(0)) ==> fs.Spared(0)
    ensures (forall n | n in names :: Droppable(s, n)) ==> Leads(s, old(fs.disk.files), fs.disk.files)
  {
    hide Leads, Droppable, Removals, Removed, RemoveOps;
    LeadsStay(s, fs.disk.files);
    RemovalsNone(fs.disk);
    RemoveOpsMore([], Manifest);
    for k := 0 to |names|
      invariant Removals(old(fs.disk), fs.disk, names[..k])
      invariant old(fs.crashed) ==> fs.crashed && fs.disk == old(fs.disk)
      invariant !fs.crashed ==> fs.log == old(fs.log) + RemoveOps(names[..k])
      invariant !fs.crashed && (forall k :: !fs.innerFails(k)) ==> forall n | n in names[..k] :: n !in fs.disk.files
      invariant old(fs.Spared(0)) ==> fs.Spared(0)
      invariant (forall n | n in names :: Droppable(s, n)) ==> Leads(s, old(fs.disk.files), fs.disk.files)
    {
      assert names[..k + 1] == names[..k] + [names[k]] && names[..k + 1][..k] == names[..k];
      ghost var d := fs.disk;
      var _ := fs.RemoveFile(names[k]);
      RemovalsMore(old(fs.disk), d, fs.disk, names[..k], names[k]);
      RemoveOpsMore(names[..k], names[k]);
      assert names[k] in names;
      if forall n | n in names :: Droppable(s, n) {
        DropLeads(s, old(fs.disk.files), d.files, fs.disk.files, names[k]);
      }
    }
    assert names[..|names|] == names;
  }

  lemma {:induction false} DropLeads(s: Recovery.State, a: Directory, b: Directory, c: Directory, n: FileName)
    requires Leads(s, a, b) && Droppable(s, n) && (c == b || c == b - {n})
    ensures Leads(s, a, c)
  {
    DropMove(s, b, n);
    LeadsOn(s, a, b, c);
  }

  function RemoveOps(names: seq<FileName>): seq<Op> {
    if names == [] then [] else RemoveOps(names[..|names| - 1]) + [Remove(names[|names| - 1])]
  }

  lemma {:induction false} RemoveOpsMore(names: seq<FileName>, n: FileName)
    ensures RemoveOps([]) == [] && RemoveOps(names + [n]) == RemoveOps(names) + [Remove(n)]
  {
    assert (names + [n])[..|names|] == names;
  }

  /** `d'` is `d` after removing some of `names`, in order. */
  ghost predicate Removals(d: Disk, d': Disk, names: seq<FileName>)
    decreases names
  {
    if names == [] then d' == d
    else
      var n := names[|names| - 1];
      exists m: Disk {:trigger Removals(d, m, names[..|names| - 1])} ::
        Removals(d, m, names[..|names| - 1]) && (d' == m || (n in m.files && d' == Removed(m, n)))
  }

  lemma {:induction false} RemovalsNone(d: Disk)
    ensures Removals(d, d, [])
  {
  }

  lemma {:induction false} RemovalsMore(d: Disk, m: Disk, d': Disk, names: seq<FileName>, n: FileName)
    requires Removals(d, m, names) && (d' == m || (n in m.files && d' == Removed(m, n)))
    ensures Removals(d, d', names + [n])
    ensures d' == m || d'.files == m.files - {n}
  {
    assert (names + [n])[..|names|] == names;
  }

  lemma {:induction false} RemovalsUntouched(d: Disk, d': Disk, names: seq<FileName>)
    requires Removals(d, d', names)
    ensures Untouched(d, d', set n | n in names)
    decreases names
  {
    if names != [] {
      var front, n := names[..|names| - 1], names[|names| - 1];
      var m :| Removals(d, m, front) && (d' == m || (n in m.files && d' == Removed(m, n)));
      RemovalsUntouched(d, m, front);
      assert names == front + [n];
      UntouchedTrans(d, m, d', set k | k in front, set k | k in names);
    }
  }

  /** Removing what no possible manifest names keeps every recovery. */
  lemma {:induction false} RemovalsSafe(d: Disk, d': Disk, names: seq<FileName>, choices: set<Option<Index>>)
    requires Removals(d, d', names) && Recoverable(d, choices) && Manifest !in names
    requires forall n, ix | n in names && Some(Header(ix)) in Outcomes(d, Manifest) :: n !in Referenced(ix)
    ensures Recoverable(d', choices) && Outcomes(d', Manifest) == Outcomes(d, Manifest)
    decreases names
  {
    if names != [] {
      var front, n := names[..|names| - 1], names[|names| - 1];
      var m :| Removals(d, m, front) && (d' == m || (n in m.files && d' == Removed(m, n)));
      assert names == front + [n] && (forall k | k in front :: k in names) && n in names;
      RemovalsSafe(d, m, front, choices);
      if d' != m {
        RemovalSafe(m, choices, n);
      }
    }
  }

  ghost predicate Clear(names: set<FileName>, choices: set<Option<Index>>) {
    Manifest !in names && forall n, ix | n in names && Some(ix) in choices :: n !in Referenced(ix)
  }

  lemma {:induction false} UntouchedRecovers(d: Disk, d': Disk, names: set<FileName>, choices: set<Option<Index>>)
    requires Untouched(d, d', names) && Recoverable(d, choices) && Clear(names, choices)
    ensures Recoverable(d', choices)
  {
    forall x {:trigger SafeEntry(d', choices, x)} | x in Outcomes(d', Manifest)
      ensures SafeEntry(d', choices, x)
    {
      assert x in Outcomes(d, Manifest) && SafeEntry(d, choices, x);
      if x.Some? && x.value.Header? {
        UntouchedPinned(d, d', names, Referenced(x.value.index));
      }
    }
  }

  lemma {:induction false} UntouchedPinned(d: Disk, d': Disk, names: set<FileName>, files: Directory)
    requires Untouched(d, d', names) && AllPinned(d, files) && forall n | n in files :: n !in names
    ensures AllPinned(d', files)
  {
    forall n | n in files
      ensures Pinned(d', n, files[n])
    {
      assert Pinned(d, n, files[n]);
    }
  }

  /** A directory sync pins whatever is settled. */
  lemma {:induction false} SyncPins(d: Disk, files: Directory)
    requires AllSettled(d, files) && forall n | n in files :: IsListed(n)
    ensures AllPinned(DirSynced(d), files)
  {
    forall n | n in files
      ensures Pinned(DirSynced(d), n, files[n])
    {
      assert Settled(d, n, files[n]);
    }
  }

  lemma {:induction false} RenameRecovers(d: Disk, next: Index, choices: set<Option<Index>>)
    requires Recoverable(d, choices) && AllPinned(d, Referenced(next)) && Settled(d, Tmp(Manifest), Header(next)) && Clear({Tmp(Manifest)}, choices)
    ensures Recoverable(Renamed(d, Tmp(Manifest), Manifest), choices + {Some(next)})
    ensures Outcomes(Renamed(d, Tmp(Manifest), Manifest), Manifest) == Outcomes(d, Manifest) + {Some(Header(next))}
  {
    var d' := Renamed(d, Tmp(Manifest), Manifest);
    ReferencedNames(next);
    forall x {:trigger SafeEntry(d', choices + {Some(next)}, x)} | x in Outcomes(d', Manifest)
      ensures SafeEntry(d', choices + {Some(next)}, x)
    {
      if x == Some(Header(next)) {
        RenamePinned(d, Referenced(next));
      } else {
        assert SafeEntry(d, choices, x);
        if x.Some? && x.value.Header? {
          ReferencedNames(x.value.index);
          RenamePinned(d, Referenced(x.value.index));
        }
      }
    }
  }

  lemma {:induction false} RenamePinned(d: Disk, files: Directory)
    requires Tmp(Manifest) in d.files && AllPinned(d, files) && Manifest !in files && Tmp(Manifest) !in files
    ensures AllPinned(Renamed(d, Tmp(Manifest), Manifest), files)
  {
    forall n | n in files
      ensures Pinned(Renamed(d, Tmp(Manifest), Manifest), n, files[n])
    {
      assert Pinned(d, n, files[n]);
    }
  }

  lemma {:induction false} SyncRecovers(d: Disk, next: Index)
    requires Settled(d, Manifest, Header(next)) && AllSettled(d, Referenced(next))
    ensures Recoverable(DirSynced(d), {Some(next)}) && Outcomes(DirSynced(d), Manifest) == {Some(Header(next))}
  {
    ReferencedNames(next);
    SyncPins(d, Referenced(next));
    assert Outcomes(DirSynced(d), Manifest) == {Some(Header(next))};
    forall x {:trigger SafeEntry(DirSynced(d), {Some(next)}, x)} | x in Outcomes(DirSynced(d), Manifest)
      ensures SafeEntry(DirSynced(d), {Some(next)}, x)
    {
      assert x == Some(Header(next));
    }
  }

  function CommitOps(retire: seq<FileName>): seq<Op> {
    [Op.SyncDir] + WriteOps(Tmp(Manifest)) + [Op.Rename(Tmp(Manifest), Manifest), Op.SyncDir] + RemoveOps(retire)
  }

  /**
   Operation by operation: the directory, then the manifest's temporary created,
   written, synced and closed, the rename, the directory again, and the removals
   in order.
   */
  lemma {:induction false} CommitSequence(retire: seq<FileName>)
    ensures var ops, tmp := CommitOps(retire), Tmp(Manifest);
      && |ops| == 7 + |retire|
      && ops[..7] == [Op.SyncDir, Op.Create(tmp), Op.Write(tmp), SyncFile(tmp), Op.Close(tmp), Op.Rename(tmp, Manifest), Op.SyncDir]
      && forall k: nat | k < |retire| :: ops[7 + k] == Remove(retire[k])
  {
    RemovedInOrder(retire);
    var ops, first := CommitOps(retire), [Op.SyncDir] + WriteOps(Tmp(Manifest)) + [Op.Rename(Tmp(Manifest), Manifest), Op.SyncDir];
    hide RemoveOps;
    assert ops == first + RemoveOps(retire) && |first| == 7;
    assert ops[..7] == first;
    forall k: nat | k < |retire|
      ensures ops[7 + k] == Remove(retire[k])
    {
      assert ops[7 + k] == RemoveOps(retire)[k];
    }
  }

  lemma {:induction false} RemovedInOrder(retire: seq<FileName>)
    ensures |RemoveOps(retire)| == |retire| && forall k: nat | k < |retire| :: RemoveOps(retire)[k] == Remove(retire[k])
  {
    if retire != [] {
      RemovedInOrder(retire[..|retire| - 1]);
    }
  }

  /** The indexes a power loss may bring back, when that is known. */
  type Choices = Option<set<Option<Index>>>

  ghost predicate Durable(d: Disk, choices: Choices) {
    choices.Some? ==> Recoverable(d, choices.value)
  }

  ghost function OrElse(choices: Choices, next: Index): Choices {
    if choices.Some? then Some(choices.value + {Some(next)}) else None
  }

  /** The directory commits `base`, with nothing of it waiting for a sync of its bytes. */
  ghost predicate Rests(d: Disk, base: Option<Index>) {
    && Commits(d.files, base) && Manifest !in d.unsynced
    && (base.Some? ==> AllSettled(d, Referenced(base.value)))
  }

  ghost predicate Committing(d: Disk, base: Option<Index>, next: Index, retire: seq<FileName>, durable: bool) {
    && Rests(d, base) && AllSettled(d, Referenced(next))
    && Retirable(base, next, retire)
    && (durable ==> Recoverable(d, {base}))
  }

  /** What is retired belongs to the old index and not to the new one. */
  ghost predicate Retirable(base: Option<Index>, next: Index, retire: seq<FileName>) {
    forall n | n in retire :: base.Some? && n in Referenced(base.value) && n !in Referenced(next)
  }

  /** No file of `base` is gone. */
  ghost predicate Whole(dir: Directory, base: Option<Index>) {
    base.Some? ==> Holds(dir, base.value)
  }

  /**
   Steps 3 to 7 of the protocol over `base`.  `synced` tells whether the
   directory sync after the manifest rename succeeded, which the code only
   logs, and `died` whether the process was dead by then.  Once committed, a
   power loss brings back one of the two indexes if and only if that sync
   succeeded or no file of the old index was removed.
   */
  method CommitManifest(fs: FaultFs, next: Index, retire: seq<FileName>, ghost base: Option<Index>, ghost durable: bool, ghost s: Recovery.State)
    returns (ok: bool, ghost synced: bool, ghost died: bool)
    requires Committing(fs.disk, base, next, retire, durable)
    modifies fs
    ensures !ok ==> Untouched(old(fs.disk), fs.disk, {Tmp(Manifest)}) && (durable ==> Recoverable(fs.disk, {base}))
    ensures ok ==> Commits(fs.disk.files, Some(next))
    ensures ok && synced ==> Recoverable(fs.disk, {Some(next)})
    ensures ok && died && durable ==> Recoverable(fs.disk, {base, Some(next)})
    ensures ok && durable ==> (Recoverable(fs.disk, {base, Some(next)}) <==> synced || Whole(fs.disk.files, base))
    ensures ok && !fs.crashed ==> fs.log == old(fs.log) + CommitOps(retire)
    ensures old(fs.crashed) ==> !ok && fs.crashed
    ensures old(fs.Spared(2)) ==> ok && !died && (synced <==> fs.plan.failSync != Some(old(fs.syncs) + 3)) && forall n | n in retire :: n !in fs.disk.files
    ensures old(fs.Sure(6)) && fs.plan.crashAtOp == Some(old(fs.ops) + 7) ==> ok && died
    ensures ok && durable && !synced && base.Some? ==> Some(Header(base.value)) in Outcomes(fs.disk, Manifest)
    ensures died ==> !synced && fs.crashed
    ensures Over(s, base, next) ==> if ok then Lands(s, old(fs.disk.files), fs.disk.files) else Leads(s, old(fs.disk.files), fs.disk.files)
  {
    hide Leads, Lands, Recoverable, Whole, Commits, Removals, AllSettled, Untouched, Outcomes, Referenced, Droppable, Retirable, Rests, Landed, RemoveOps, WriteOps;
    ghost var d0 := fs.disk;
    ghost var choices: Choices := if durable then Some({base}) else None;
    synced, died := false, false;
    ok := WriteManifest(fs, next, retire, base, durable, s);
    ghost var d2 := fs.disk;
    if !ok { return; }
    ok := fs.Rename(Tmp(Manifest), Manifest);
    if !ok { return; }
    CommitPoint(d0, d2, next, choices);
    synced := fs.SyncDir();
    died := fs.crashed;
    ghost var d4 := fs.disk;
    RemoveAll(fs, retire, if s.writer.Writing? then Past(s) else s);
    EndState(d0, d2, d4, fs.disk, base, next, retire, durable, synced);
    if Over(s, base, next) {
      LandsAfter(s, base, next, d0, d2, fs.disk, retire);
    }
    LogJoins(old(fs.log), RemoveOps(retire));
  }

  /** Everything before the commit point: the new files are pinned, and the new manifest is whole under its temporary name. */
  method WriteManifest(fs: FaultFs, next: Index, ghost retire: seq<FileName>, ghost base: Option<Index>, ghost durable: bool, ghost s: Recovery.State)
    returns (ok: bool)
    requires Committing(fs.disk, base, next, retire, durable)
    modifies fs
    ensures Untouched(old(fs.disk), fs.disk, {Tmp(Manifest)}) && (durable ==> Recoverable(fs.disk, {base}))
    ensures ok ==> Ready(old(fs.disk), fs.disk, next, if durable then Some({base}) else None) && Settled(fs.disk, Tmp(Manifest), Header(next))
    ensures ok && !fs.crashed ==> fs.log == old(fs.log) + [Op.SyncDir] + WriteOps(Tmp(Manifest))
    ensures old(fs.crashed) ==> !ok && fs.crashed
    ensures old(fs.Spared(2)) ==> ok && fs.Spared(0) && fs.syncs == old(fs.syncs) + 2
    ensures old(fs.Sure(5)) ==> ok && fs.Sure(0) && fs.ops == old(fs.ops) + 5
    ensures s.writer.Writing? ==> Leads(s, old(fs.disk.files), fs.disk.files)
  {
    hide Leads, Recoverable, Commits, AllSettled, Untouched, Outcomes, Referenced, Retirable, Rests;
    ghost var d0 := fs.disk;
    ghost var choices: Choices := if durable then Some({base}) else None;
    LeadsStay(s, d0.files);
    UntouchedStay(d0, {Tmp(Manifest)});
    ok := fs.SyncDir();
    if !ok { return; }
    assert old(fs.Spared(2)) ==> fs.Spared(1) && fs.syncs == old(fs.syncs) + 1;
    ReadyAtSync(d0, base, next, retire, durable);
    ghost var d1 := fs.disk;
    ok := WriteWhole(fs, Tmp(Manifest), Header(next), s);
    ReadyStays(d0, d1, fs.disk, next, choices);
  }

  lemma {:induction false} RetireNames(base: Option<Index>, next: Index, retire: seq<FileName>)
    requires Retirable(base, next, retire)
    ensures forall n | n in retire :: n !in Referenced(next) && n != Manifest
  {
    if base.Some? {
      ReferencedNames(base.value);
    }
  }

  lemma {:induction false} RetireDroppable(s: Recovery.State, base: Option<Index>, next: Index, retire: seq<FileName>)
    requires Over(s, base, next) && Retirable(base, next, retire)
    ensures forall n | n in retire :: Droppable(Past(s), n)
  {
  }

  lemma {:induction false} LandsAfter(s: Recovery.State, base: Option<Index>, next: Index, d0: Disk, d2: Disk, d5: Disk, retire: seq<FileName>)
    requires Over(s, base, next) && Retirable(base, next, retire)
    requires Leads(s, d0.files, d2.files) && AllSettled(d2, Referenced(next)) && Settled(d2, Tmp(Manifest), Header(next))
    requires (forall n | n in retire :: Droppable(Past(s), n)) ==> Leads(Past(s), Recovery.Moved(d2.files, Tmp(Manifest), Manifest), d5.files)
    ensures Lands(s, d0.files, d5.files)
  {
    RetireDroppable(s, base, next, retire);
    forall n | n in Referenced(next)
      ensures n in d2.files && d2.files[n] == Referenced(next)[n]
    {
      assert Settled(d2, n, Referenced(next)[n]);
    }
    RenameLands(s, base, next, d2.files);
  }

  /** If nothing of `names` is gone, nothing was removed. */
  lemma {:induction false} RemovalsNothing(d: Disk, d': Disk, names: seq<FileName>)
    requires Removals(d, d', names) && forall n | n in names :: n in d'.files
    ensures d' == d
    decreases names
  {
    if names != [] {
      var front, n := names[..|names| - 1], names[|names| - 1];
      var m :| Removals(d, m, front) && (d' == m || (n in m.files && d' == Removed(m, n)));
      assert n in names && forall k | k in front :: k in names;
      RemovalsNothing(d, m, front);
    }
  }

  /** The old manifest may still come back, whatever else is removed. */
  lemma {:induction false} OldMayReturn(d: Disk, d4: Disk, d5: Disk, base: Index, names: seq<FileName>)
    requires Recoverable(d, {Some(base)}) && Tmp(Manifest) in d.files && d4 == Renamed(d, Tmp(Manifest), Manifest)
    requires Removals(d4, d5, names) && Manifest !in names
    ensures Some(Header(base)) in Outcomes(d5, Manifest)
  {
    var x := Entry(d.files, Manifest);
    assert x in Outcomes(d, Manifest) && SafeEntry(d, {Some(base)}, x);
    assert x in Outcomes(d4, Manifest);
    RemovalsManifest(d4, d5, names);
  }

  lemma {:induction false} RemovalsManifest(d: Disk, d': Disk, names: seq<FileName>)
    requires Removals(d, d', names) && Manifest !in names
    ensures Outcomes(d', Manifest) == Outcomes(d, Manifest)
    decreases names
  {
    if names != [] {
      var front, n := names[..|names| - 1], names[|names| - 1];
      var m :| Removals(d, m, front) && (d' == m || (n in m.files && d' == Removed(m, n)));
      assert n in names && forall k | k in front :: k in names;
      RemovalsManifest(d, m, front);
    }
  }

  /** Exactly when the committed state survives a power loss. */
  lemma {:induction false} EndState(d0: Disk, d2: Disk, d4: Disk, d5: Disk, base: Option<Index>, next: Index, retire: seq<FileName>, durable: bool, synced: bool)
    requires Rests(d0, base) && Ready(d0, d2, next, if durable then Some({base}) else None) && Settled(d2, Tmp(Manifest), Header(next))
    requires Landed(Renamed(d2, Tmp(Manifest), Manifest), next, if durable then Some({base}) else None)
    requires d4 == (if synced then DirSynced(Renamed(d2, Tmp(Manifest), Manifest)) else Renamed(d2, Tmp(Manifest), Manifest))
    requires Removals(d4, d5, retire) && Retirable(base, next, retire)
    ensures Commits(d5.files, Some(next)) && (synced ==> Recoverable(d5, {Some(next)}))
    ensures durable ==> (Recoverable(d5, {base, Some(next)}) <==> synced || Whole(d5.files, base))
    ensures durable && d5 == d4 ==> Recoverable(d5, {base, Some(next)})
    ensures durable && !synced && base.Some? ==> Some(Header(base.value)) in Outcomes(d5, Manifest)
  {
    assert {base} + {Some(next)} == {base, Some(next)};
    RetireNames(base, next, retire);
    Retired(Renamed(d2, Tmp(Manifest), Manifest), d4, d5, next, retire, if durable then Some({base}) else None, synced);
    if synced {
      RecoverableMore(d5, {Some(next)}, {base, Some(next)});
    } else if durable {
      if base.Some? {
        OldMayReturn(d2, d4, d5, base.value, retire);
      }
      if Whole(d5.files, base) {
        assert forall n | n in retire :: n in d5.files;
        RemovalsNothing(d4, d5, retire);
      } else {
        var n :| n in Referenced(base.value) && !(n in d5.files && d5.files[n] == Referenced(base.value)[n]);
        assert Entry(d5.files, n) in Outcomes(d5, n);
        assert !Pinned(d5, n, Referenced(base.value)[n]);
        assert !SafeEntry(d5, {base, Some(next)}, Some(Header(base.value)));
        assert Whole(d4.files, base) by { BaseStays(d0, d2, base, next); }
      }
    }
  }

  lemma {:induction false} BaseStays(d0: Disk, d2: Disk, base: Option<Index>, next: Index)
    requires Rests(d0, base) && Untouched(d0, d2, {Tmp(Manifest)}) && Tmp(Manifest) in d2.files
    ensures Whole(Renamed(d2, Tmp(Manifest), Manifest).files, base)
  {
    TmpClear({base});
    RestsStill(d0, d2, base, {Tmp(Manifest)});
    if base.Some? {
      ReferencedNames(base.value);
    }
  }

  lemma {:induction false} LogJoins(log: seq<Op>, rest: seq<Op>)
    ensures log + [Op.SyncDir] + WriteOps(Tmp(Manifest)) + [Op.Rename(Tmp(Manifest), Manifest)] + [Op.SyncDir] + rest
         == log + ([Op.SyncDir] + WriteOps(Tmp(Manifest)) + [Op.Rename(Tmp(Manifest), Manifest), Op.SyncDir] + rest)
  {
  }

  /** Between the first directory sync and the commit point. */
  ghost predicate Ready(d0: Disk, d: Disk, next: Index, choices: Choices) {
    && Untouched(d0, d, {Tmp(Manifest)}) && Durable(d, choices)
    && AllPinned(d, Referenced(next)) && AllSettled(d, Referenced(next)) && Manifest !in d.unsynced
  }

  /** Past the commit point. */
  ghost predicate Landed(d: Disk, next: Index, choices: Choices) {
    Settled(d, Manifest, Header(next)) && AllSettled(d, Referenced(next)) && Durable(d, OrElse(choices, next))
  }

  lemma {:induction false} ReadyAtSync(d: Disk, base: Option<Index>, next: Index, retire: seq<FileName>, durable: bool)
    requires Committing(d, base, next, retire, durable)
    ensures Ready(d, DirSynced(d), next, if durable then Some({base}) else None)
  {
    var choices: Choices := if durable then Some({base}) else None;
    ReferencedNames(next);
    SyncPins(d, Referenced(next));
    assert Untouched(d, DirSynced(d), {Tmp(Manifest)});
    if choices.Some? {
      TmpClear(choices.value);
      UntouchedRecovers(d, DirSynced(d), {Tmp(Manifest)}, choices.value);
    }
  }

  lemma {:induction false} ReadyStays(d0: Disk, d1: Disk, d2: Disk, next: Index, choices: Choices)
    requires Ready(d0, d1, next, choices) && Untouched(d1, d2, {Tmp(Manifest)})
    ensures Ready(d0, d2, next, choices)
  {
    ReferencedNames(next);
    UntouchedTrans(d0, d1, d2, {Tmp(Manifest)}, {Tmp(Manifest)});
    if choices.Some? {
      TmpClear(choices.value);
      UntouchedRecovers(d1, d2, {Tmp(Manifest)}, choices.value);
    }
    UntouchedPinned(d1, d2, {Tmp(Manifest)}, Referenced(next));
    UntouchedSettled(d1, d2, {Tmp(Manifest)}, Referenced(next));
  }

  lemma {:induction false} UntouchedSettled(d: Disk, d': Disk, names: set<FileName>, files: Directory)
    requires Untouched(d, d', names) && AllSettled(d, files) && forall n | n in files :: n !in names
    ensures AllSettled(d', files)
  {
    forall n | n in files
      ensures Settled(d', n, files[n])
    {
      assert Settled(d, n, files[n]) && Entry(d'.files, n) == Entry(d.files, n);
    }
  }

  lemma {:induction false} CommitPoint(d0: Disk, d: Disk, next: Index, choices: Choices)
    requires Ready(d0, d, next, choices) && Settled(d, Tmp(Manifest), Header(next))
    ensures Landed(Renamed(d, Tmp(Manifest), Manifest), next, choices)
  {
    if choices.Some? {
      TmpClear(choices.value);
      RenameRecovers(d, next, choices.value);
    }
    AfterRename(d, next);
  }

  /** Retirement, whether or not the second sync succeeded. */
  lemma {:induction false} Retired(d3: Disk, d4: Disk, d5: Disk, next: Index, retire: seq<FileName>, choices: Choices, synced: bool)
    requires Landed(d3, next, choices) && d4 == (if synced then DirSynced(d3) else d3) && Removals(d4, d5, retire)
    requires forall n | n in retire :: n !in Referenced(next) && n != Manifest
    ensures Commits(d5.files, Some(next))
    ensures synced ==> Recoverable(d5, {Some(next)})
  {
    RetiredCommits(d4, d5, next, retire);
    if synced {
      SyncRecovers(d3, next);
      RemovalsSafe(d4, d5, retire, {Some(next)});
    }
  }

  lemma {:induction false} RecoverableMore(d: Disk, choices: set<Option<Index>>, more: set<Option<Index>>)
    requires Recoverable(d, choices) && choices <= more
    ensures Recoverable(d, more)
  {
    forall x {:trigger SafeEntry(d, more, x)} | x in Outcomes(d, Manifest)
      ensures SafeEntry(d, more, x)
    {
      assert SafeEntry(d, choices, x);
    }
  }

  lemma {:induction false} TmpClear(choices: set<Option<Index>>)
    ensures Clear({Tmp(Manifest)}, choices)
  {
    forall n, ix | n in {Tmp(Manifest)} && Some(ix) in choices
      ensures n !in Referenced(ix)
    {
      ReferencedNames(ix);
    }
  }

  lemma {:induction false} AfterRename(d: Disk, next: Index)
    requires Settled(d, Tmp(Manifest), Header(next)) && Manifest !in d.unsynced && AllSettled(d, Referenced(next))
    ensures Settled(Renamed(d, Tmp(Manifest), Manifest), Manifest, Header(next))
    ensures AllSettled(Renamed(d, Tmp(Manifest), Manifest), Referenced(next))
  {
    ReferencedNames(next);
  }

  lemma {:induction false} RetiredCommits(d: Disk, d': Disk, next: Index, retire: seq<FileName>)
    requires Settled(d, Manifest, Header(next)) && AllSettled(d, Referenced(next)) && Removals(d, d', retire)
    requires forall n | n in retire :: n !in Referenced(next) && n != Manifest
    ensures Commits(d'.files, Some(next))
  {
    RemovalsUntouched(d, d', retire);
    assert Entry(d'.files, Manifest) == Entry(d.files, Manifest);
    UntouchedSettled(d, d', (set n | n in retire), Referenced(next));
    forall n | n in Referenced(next)
      ensures n in d'.files && d'.files[n] == Referenced(next)[n]
    {
      assert Settled(d', n, Referenced(next)[n]);
    }
  }

  /**
   If the second directory sync fails, retiring a file of the old index leaves
   a directory that some power loss turns into neither index: the old manifest
   may come back without the file.
   */
  lemma {:induction false} RetiringUnsyncedIsUnsafe(d: Disk, before: Index, next: Index, n: FileName)
    requires Recoverable(d, {Some(before)}) && AllPinned(d, Referenced(next)) && Settled(d, Tmp(Manifest), Header(next))
    requires Manifest !in d.unsynced && n in Referenced(before)
    ensures exists after :: PowerLoss(Removed(Renamed(d, Tmp(Manifest), Manifest), n), after)
                            && !CommitsOneOf(after, {Some(before), Some(next)})
  {
    var d' := Renamed(d, Tmp(Manifest), Manifest);
    TmpClear({Some(before)});
    RenameRecovers(d, next, {Some(before)});
    assert {Some(before)} + {Some(next)} == {Some(before), Some(next)};
    ReferencedNames(before);
    var x :| x in Outcomes(d, Manifest);
    assert SafeEntry(d, {Some(before)}, x) && x == Some(Header(before));
    assert Pinned(d, n, Referenced(before)[n]) && Entry(d.files, n) in Outcomes(d, n);
    RemovalSafeIff(d', {Some(before), Some(next)}, n);
  }

  // ----- Publishing -----

  /** `work` places files of `next` that `base` does not have; the two make up all of them. */
  ghost predicate Publishable(base: Option<Index>, next: Index, work: seq<Placement>, retire: seq<FileName>) {
    && ValidWork(work)
    && (forall k | 0 <= k < |work| :: work[k].name in Referenced(next) && work[k].data == Referenced(next)[work[k].name])
    && (base.Some? ==> forall k | 0 <= k < |work| :: work[k].name !in Referenced(base.value))
    && (forall n | n in Referenced(next) :: SuppliedBy(work, n, Referenced(next)[n]) || InBase(base, n, Referenced(next)[n]))
    && Retirable(base, next, retire)
  }

  ghost predicate SuppliedBy(work: seq<Placement>, n: FileName, data: Data) {
    exists k :: 0 <= k < |work| && work[k].name == n && work[k].data == data
  }

  ghost predicate InBase(base: Option<Index>, n: FileName, data: Data) {
    base.Some? && n in Referenced(base.value) && Referenced(base.value)[n] == data
  }

  /** Nothing the attempt created is left under a name it placed. */
  ghost predicate Tidied(d0: Disk, d: Disk, work: seq<Placement>) {
    forall k | 0 <= k < |work| && work[k].name in d.files :: Entry(d.files, work[k].name) == Entry(d0.files, work[k].name)
  }

  /**
   Build, update and merge all end this way.  `Err` leaves exactly the old
   index and `Ok` exactly the new one, at whatever operation a call failed or
   the process died; with no fault it is `Ok`.  A power loss brings back one of
   the two if and only if the directory sync after the rename succeeded or no
   file of the old index was removed.  Every operation is a step that the
   writer of a run with readers may take.
   */
  method Publish(fs: FaultFs, base: Option<Index>, next: Index, work: seq<Placement>, retire: seq<FileName>, ghost durable: bool, ghost s: Recovery.State)
    returns (ok: bool, ghost synced: bool, ghost died: bool)
    requires Rests(fs.disk, base) && Publishable(base, next, work, retire)
    requires forall k | 0 <= k < |work| :: StagedReady(fs.disk, work[k])
    requires durable ==> Recoverable(fs.disk, {base})
    modifies fs
    ensures Commits(fs.disk.files, if ok then Some(next) else base)
    ensures !ok && durable ==> Recoverable(fs.disk, {base})
    ensures ok && synced ==> Recoverable(fs.disk, {Some(next)})
    ensures ok && died && durable ==> Recoverable(fs.disk, {base, Some(next)})
    ensures ok && durable ==> (Recoverable(fs.disk, {base, Some(next)}) <==> synced || Whole(fs.disk.files, base))
    ensures !ok && !fs.crashed && (forall k :: !fs.innerFails(k)) ==> Tidied(old(fs.disk), fs.disk, work)
    ensures old(fs.Spared(AllSyncs(work) + 2)) && StagedThere(old(fs.disk), work) ==>
              && ok && !died && (synced <==> fs.plan.failSync != Some(old(fs.syncs) + AllSyncs(work) + 3))
              && forall n | n in retire :: n !in fs.disk.files
    ensures old(fs.Sure(AllOps(work) + 6)) && StagedThere(old(fs.disk), work) && fs.plan.crashAtOp == Some(old(fs.ops) + AllOps(work) + 7) ==> ok && died
    ensures ok && durable && !synced && base.Some? ==> Some(Header(base.value)) in Outcomes(fs.disk, Manifest)
    ensures died ==> !synced && fs.crashed
    ensures Over(s, base, next) ==> if ok then Lands(s, old(fs.disk.files), fs.disk.files) else Leads(s, old(fs.disk.files), fs.disk.files)
  {
    hide Leads, Lands, AllPlaceable, Recoverable, Whole, Removals, AllSettled, Untouched, Publishable, Clear, Outcomes, Rests, StagedThere, ValidWork, Tidied, AllMoves, AllOps, AllSyncs;
    WorkValid(base, next, work, retire);
    ghost var choices: Choices := if durable then Some({base}) else None;
    ghost var d0 := fs.disk;
    synced, died := false, false;
    var created;
    ok, created := PlaceAll(fs, work, s);
    ghost var d1 := fs.disk;
    assert work[..|work|] == work;
    WorkClear(base, next, work, retire);
    WorkPlaceable(s, base, next, work, retire);
    RestsStill(d0, d1, base, AllMoves(work));
    DurableStill(d0, d1, base, AllMoves(work), choices);
    if ok {
      WorkSupplies(d1, base, next, work, retire, durable);
      ok, synced, died := CommitManifest(fs, next, retire, base, durable, s);
      if Over(s, base, next) {
        PlacedThen(s, d0.files, d1.files, fs.disk.files, ok);
      }
    }
    if !ok {
      ghost var d2 := fs.disk;
      TmpClear({base});
      RestsStill(d1, d2, base, {Tmp(Manifest)});
      RemoveAll(fs, created, s);
      CreatedClear(d0, d1, base, next, work, retire, created);
      RemovalsUntouched(d2, fs.disk, created);
      RestsStill(d2, fs.disk, base, (set n | n in created));
      DurableStill(d2, fs.disk, base, (set n | n in created), choices);
      if Over(s, base, next) {
        CreatedDroppable(s, base, next, work, retire, created);
        LeadsThrough(s, d0.files, d2.files, fs.disk.files);
      }
      if forall n | n in created :: n !in fs.disk.files {
        TidiedBy(d0, d1, d2, fs.disk, work, created);
      }
    }
  }

  lemma {:induction false} WorkValid(base: Option<Index>, next: Index, work: seq<Placement>, retire: seq<FileName>)
    requires Publishable(base, next, work, retire)
    ensures ValidWork(work)
  {
  }

  lemma {:induction false} WorkPlaceable(s: Recovery.State, base: Option<Index>, next: Index, work: seq<Placement>, retire: seq<FileName>)
    requires Publishable(base, next, work, retire)
    ensures Over(s, base, next) ==> AllPlaceable(s, work)
  {
  }

  lemma {:induction false} CreatedDroppable(s: Recovery.State, base: Option<Index>, next: Index, work: seq<Placement>, retire: seq<FileName>, created: seq<FileName>)
    requires Over(s, base, next) && Publishable(base, next, work, retire)
    requires forall n | n in created :: n in AllMoves(work) && !n.Staged?
    ensures forall n | n in created :: Droppable(s, n)
  {
    WorkPlaceable(s, base, next, work, retire);
    forall n | n in created
      ensures Droppable(s, n)
    {
      MovesNames(work, n);
      if k :| 0 <= k < |work| && work[k].name == n {
        assert Placeable(s, work[k].name, work[k].data);
      }
    }
  }

  lemma {:induction false} PlacedThen(s: Recovery.State, a: Directory, b: Directory, c: Directory, ok: bool)
    requires s.writer.Writing? && Leads(s, a, b) && if ok then Lands(s, b, c) else Leads(s, b, c)
    ensures if ok then Lands(s, a, c) else Leads(s, a, c)
  {
    hide Leads, Recovery.WriterStep;
    if ok {
      var x, y :| Leads(s, b, x) && Recovery.WriterStep(s.(dir := x), Recovery.WriterCommits, Past(s).(dir := y)) && Leads(Past(s), y, c);
      LeadsThrough(s, a, b, x);
    } else {
      LeadsThrough(s, a, b, c);
    }
  }

  lemma {:induction false} MovesNames(work: seq<Placement>, n: FileName)
    requires ValidWork(work) && n in AllMoves(work)
    ensures n.Tmp? || n.Staged? || exists k :: 0 <= k < |work| && work[k].name == n
  {
    var m := |work| - 1;
    if n in AllMoves(work[..m]) {
      assert ValidWork(work[..m]);
      MovesNames(work[..m], n);
      if k :| 0 <= k < m && work[..m][k].name == n {
        assert work[k].name == n;
      }
    } else {
      assert work[m].name == n || n.Tmp? || n.Staged?;
    }
  }

  /** No placement moves the manifest or a file of the base. */
  lemma {:induction false} WorkClear(base: Option<Index>, next: Index, work: seq<Placement>, retire: seq<FileName>)
    requires Publishable(base, next, work, retire)
    ensures Clear(AllMoves(work), {base})
  {
    forall n | n in AllMoves(work)
      ensures n != Manifest && (base.Some? ==> n !in Referenced(base.value))
    {
      MovesNames(work, n);
      if base.Some? {
        ReferencedNames(base.value);
      }
    }
  }

  lemma {:induction false} RestsStill(d: Disk, d': Disk, base: Option<Index>, names: set<FileName>)
    requires Rests(d, base) && Untouched(d, d', names) && Clear(names, {base})
    ensures Rests(d', base)
  {
    assert Entry(d'.files, Manifest) == Entry(d.files, Manifest);
    if base.Some? {
      UntouchedSettled(d, d', names, Referenced(base.value));
      forall n | n in Referenced(base.value)
        ensures n in d'.files && d'.files[n] == Referenced(base.value)[n]
      {
        assert Settled(d', n, Referenced(base.value)[n]);
      }
    }
  }

  lemma {:induction false} DurableStill(d: Disk, d': Disk, base: Option<Index>, names: set<FileName>, choices: Choices)
    requires Untouched(d, d', names) && Clear(names, {base}) && Durable(d, choices) && (choices.Some? ==> choices.value == {base})
    ensures Durable(d', choices)
  {
    if choices.Some? {
      UntouchedRecovers(d, d', names, {base});
    }
  }

  lemma {:induction false} WorkSupplies(d: Disk, base: Option<Index>, next: Index, work: seq<Placement>, retire: seq<FileName>, durable: bool)
    requires Rests(d, base) && Publishable(base, next, work, retire) && (durable ==> Recoverable(d, {base}))
    requires forall k | 0 <= k < |work| :: Settled(d, work[k].name, work[k].data)
    ensures Committing(d, base, next, retire, durable)
  {
    forall n | n in Referenced(next)
      ensures Settled(d, n, Referenced(next)[n])
    {
      if k :| 0 <= k < |work| && work[k].name == n && work[k].data == Referenced(next)[n] {
        assert Settled(d, work[k].name, work[k].data);
      } else {
        assert !SuppliedBy(work, n, Referenced(next)[n]);
        assert Settled(d, n, Referenced(base.value)[n]);
      }
    }
    if base.Some? {
      ReferencedNames(base.value);
    }
  }

  lemma {:induction false} TidiedBy(d0: Disk, d1: Disk, d2: Disk, d3: Disk, work: seq<Placement>, created: seq<FileName>)
    requires ValidWork(work) && Accounted(d0, d1, work, created) && Untouched(d1, d2, {Tmp(Manifest)}) && Removals(d2, d3, created)
    requires forall n | n in created :: n !in d3.files
    ensures Tidied(d0, d3, work)
  {
    RemovalsUntouched(d2, d3, created);
    forall k | 0 <= k < |work| && work[k].name in d3.files
      ensures Entry(d3.files, work[k].name) == Entry(d0.files, work[k].name)
    {
      assert work[k].name !in created;
      assert Entry(d2.files, work[k].name) == Entry(d1.files, work[k].name);
    }
  }

  lemma {:induction false} CreatedClear(d0: Disk, d1: Disk, base: Option<Index>, next: Index, work: seq<Placement>, retire: seq<FileName>, created: seq<FileName>)
    requires Publishable(base, next, work, retire) && Accounted(d0, d1, work, created)
    ensures Clear((set n | n in created), {base})
  {
    WorkClear(base, next, work, retire);
  }
}
