/**
 The file system under injected faults (src/fs.rs) and the commit protocol that
 runs on it (src/store/writer.rs, src/store/update.rs, src/store/merge.rs).

 The plan and the inner file system's own failures are arbitrary, so every
 contract below speaks about every operation at which a call may fail or the
 process may die: after a crash every operation fails and changes nothing.
 */
module FaultFs {
  import opened Wrappers
  import opened Documents
  import opened Segments
  import opened Files
  import opened Disk

  datatype Op =
    | Create(n: FileName)
    | Write(n: FileName)
    | SyncFile(n: FileName)
    | Close(n: FileName)
    | Rename(a: FileName, b: FileName)
    | Remove(n: FileName)
    | SyncDir
    | Crash

  datatype FaultPlan = FaultPlan(failWrite: Option<nat>, failSync: Option<nat>, discardWrite: Option<nat>, crashAtOp: Option<nat>)

  /** A file to put in place: written through a temporary, or already staged. */
  datatype Placement = Placement(name: FileName, data: Data, staged: Option<nat>)

  class FaultFs {
    const plan: FaultPlan
    /** Operations, by number, that the inner file system itself fails. */
    const innerFails: nat -> bool
    var disk: Disk
    var ops: nat
    var writes: nat
    var syncs: nat
    var crashed: bool
    var poisoned: set<FileName>
    var log: seq<Op>

    constructor (plan: FaultPlan, innerFails: nat -> bool, disk: Disk)
      ensures this.disk == disk && this.plan == plan && this.innerFails == innerFails
      ensures ops == writes == syncs == 0 && !crashed && poisoned == {} && log == []
    {
      this.plan, this.innerFails, this.disk := plan, innerFails, disk;
      ops, writes, syncs, crashed, poisoned, log := 0, 0, 0, false, {}, [];
    }

    /** The next operation is begun: the process is alive and does not die at it. */
    ghost predicate Alive()
      reads this
    {
      !crashed && plan.crashAtOp != Some(ops + 1)
    }

    /** What beginning an operation does: it is counted and logged, or the process is dead. */
    twostate predicate Began(op: Op)
      reads this
    {
      && crashed == !old(Alive())
      && ops == old(ops) + (if old(crashed) then 0 else 1)
      && log == old(log) + (if old(Alive()) then [op] else if old(crashed) then [] else [Crash])
    }

    /** One whole operation: begun, and counted among the writes or the syncs. */
    twostate predicate Ran(op: Op)
      reads this
    {
      && Began(op)
      && writes == old(writes) + (if old(Alive()) && op.Write? then 1 else 0)
      && syncs == old(syncs) + (if old(Alive()) && (op.SyncFile? || op.SyncDir?) then 1 else 0)
    }

    /** Nothing fails but possibly a sync, and none of the next `n` syncs does. */
    ghost predicate Spared(n: nat)
      reads this
    {
      && !crashed && poisoned == {} && (forall k :: !innerFails(k))
      && plan.failWrite == None && plan.discardWrite == None && plan.crashAtOp == None
      && (plan.failSync.Some? ==> plan.failSync.value <= syncs || plan.failSync.value > syncs + n)
    }

    /** Nothing fails, and the process lives through the next `n` operations. */
    ghost predicate Sure(n: nat)
      reads this
    {
      && !crashed && poisoned == {} && (forall k :: !innerFails(k))
      && plan.failWrite == None && plan.failSync == None && plan.discardWrite == None
      && (plan.crashAtOp.Some? ==> plan.crashAtOp.value > ops + n)
    }

    /** Record an operation; apply crash injection: the process dies at exactly the planned one. */
    method Begin(op: Op) returns (ok: bool)
      modifies this`ops, this`crashed, this`log
      ensures ok == old(Alive()) && Began(op)
    {
      if crashed {
        return false;
      }
      ops := ops + 1;
      if plan.crashAtOp == Some(ops) {
        crashed := true;
        log := log + [Crash];
        return false;
      }
      log := log + [op];
      return true;
    }

    method Create(n: FileName) returns (ok: bool)
      modifies this
      ensures ok <==> old(Alive()) && !innerFails(old(ops) + 1)
      ensures disk == if ok then Created(old(disk), n) else old(disk)
      ensures Ran(Op.Create(n))
      ensures poisoned == old(poisoned)
    {
      ok := Begin(Op.Create(n));
      if !ok { return; }
      ok := !innerFails(ops);
      if ok {
        disk := Created(disk, n);
      }
    }

    /** A discarded write reports success and loses the bytes. */
    method Write(n: FileName, data: Data) returns (ok: bool)
      modifies this
      ensures ok <==> old(Alive()) && plan.failWrite != Some(old(writes) + 1)
                      && (plan.discardWrite == Some(old(writes) + 1) || !innerFails(old(ops) + 1))
      ensures !ok ==> disk == old(disk) || disk == Written(old(disk), n, Torn)
      ensures ok ==> disk == Written(old(disk), n, data) || (n in poisoned && disk == Written(old(disk), n, Torn))
      ensures Ran(Op.Write(n)) && (old(crashed) ==> disk == old(disk))
      ensures poisoned == old(poisoned) + if ok && plan.discardWrite == Some(old(writes) + 1) then {n} else {}
    {
      ok := Begin(Op.Write(n));
      if !ok { return; }
      writes := writes + 1;
      if plan.failWrite == Some(writes) {
        return false;
      } else if plan.discardWrite == Some(writes) {
        poisoned := poisoned + {n};
        disk := Written(disk, n, Torn);
      } else if innerFails(ops) {
        disk := Written(disk, n, Torn);
        return false;
      } else {
        disk := Written(disk, n, data);
      }
    }

    /** A file with a discarded write never syncs. */
    method SyncAll(n: FileName) returns (ok: bool)
      modifies this
      ensures ok <==> old(Alive()) && plan.failSync != Some(old(syncs) + 1) && n !in old(poisoned) && !innerFails(old(ops) + 1)
      ensures disk == if ok then Synced(old(disk), n) else old(disk)
      ensures Ran(SyncFile(n))
      ensures poisoned == old(poisoned)
    {
      ok := Begin(SyncFile(n));
      if !ok { return; }
      syncs := syncs + 1;
      if plan.failSync == Some(syncs) || n in poisoned || innerFails(ops) {
        return false;
      }
      disk := Synced(disk, n);
    }

    method Close(n: FileName)
      modifies this`ops, this`crashed, this`log
      ensures Ran(Op.Close(n))
    {
      var _ := Begin(Op.Close(n));
    }

    method Rename(a: FileName, b: FileName) returns (ok: bool)
      requires a != b
      modifies this
      ensures ok <==> old(Alive()) && a in old(disk).files && !innerFails(old(ops) + 1)
      ensures ok ==> disk == Renamed(old(disk), a, b)
      ensures !ok ==> disk == old(disk)
      ensures Ran(Op.Rename(a, b))
      ensures poisoned == old(poisoned)
    {
      ok := Begin(Op.Rename(a, b));
      if !ok { return; }
      ok := a in disk.files && !innerFails(ops);
      if ok {
        disk := Renamed(disk, a, b);
      }
    }

    method RemoveFile(n: FileName) returns (ok: bool)
      modifies this
      ensures ok <==> old(Alive()) && n in old(disk).files && !innerFails(old(ops) + 1)
      ensures ok ==> disk == Removed(old(disk), n)
      ensures !ok ==> disk == old(disk)
      ensures !crashed && !innerFails(ops) ==> n !in disk.files
      ensures Ran(Remove(n))
      ensures poisoned == old(poisoned)
    {
      ok := Begin(Remove(n));
      if !ok { return; }
      ok := n in disk.files && !innerFails(ops);
      if ok {
        disk := Removed(disk, n);
      }
    }

    method SyncDir() returns (ok: bool)
      modifies this
      ensures ok <==> old(Alive()) && plan.failSync != Some(old(syncs) + 1) && !innerFails(old(ops) + 1)
      ensures disk == if ok then DirSynced(old(disk)) else old(disk)
      ensures Ran(Op.SyncDir)
      ensures poisoned == old(poisoned)
    {
      ok := Begin(Op.SyncDir);
      if !ok { return; }
      syncs := syncs + 1;
      if plan.failSync == Some(syncs) || innerFails(ops) {
        return false;
      }
      disk := DirSynced(disk);
    }
  }
}
