/**
 How the directory moves under the operations of one commit: the bridge from
 the protocol's file system calls (`Commit`) to the writer's steps in a run
 with readers (`Recovery`).
 */
module WriterMoves {
  import opened Wrappers
  import opened Segments
  import opened Files
  import Recovery

  /** At most one step of the writer, changing nothing but the directory. */
  ghost predicate OneMove(s: Recovery.State, a: Directory, b: Directory) {
    a == b || exists e :: Recovery.WriterStep(s.(dir := a), e, s.(dir := b))
  }

  ghost predicate Trail(s: Recovery.State, dirs: seq<Directory>) {
    dirs != [] && forall i | 0 < i < |dirs| :: OneMove(s, dirs[i - 1], dirs[i])
  }

  /** Steps of the writer lead from one directory to the other. */
  ghost predicate Leads(s: Recovery.State, a: Directory, b: Directory) {
    exists dirs :: Trail(s, dirs) && dirs[0] == a && dirs[|dirs| - 1] == b
  }

  /** The state once the writer's index is committed. */
  function Past(s: Recovery.State): Recovery.State
    requires s.writer.Writing?
  {
    s.(history := s.history + [s.writer.next], writer := s.writer.(committed := true))
  }

  /** Steps of the writer with the manifest rename among them. */
  ghost predicate Lands(s: Recovery.State, a: Directory, b: Directory)
    requires s.writer.Writing?
  {
    exists c, d :: Leads(s, a, c) && Recovery.WriterStep(s.(dir := c), Recovery.WriterCommits, Past(s).(dir := d)) && Leads(Past(s), d, b)
  }

  /** The writer is placing the files of `next` over `base`. */
  ghost predicate Over(s: Recovery.State, base: Option<Index>, next: Index) {
    s.writer == Recovery.Writing(next, false) && Recovery.Current(s) == base
  }

  lemma {:induction false} LeadsStay(s: Recovery.State, a: Directory)
    ensures Leads(s, a, a)
  {
    assert Trail(s, [a]) && [a][0] == a && [a][|[a]| - 1] == a;
  }

  lemma {:induction false} LeadsOn(s: Recovery.State, a: Directory, b: Directory, c: Directory)
    requires Leads(s, a, b) && OneMove(s, b, c)
    ensures Leads(s, a, c)
  {
    hide OneMove;
    var dirs :| Trail(s, dirs) && dirs[0] == a && dirs[|dirs| - 1] == b;
    var more := dirs + [c];
    forall i | 0 < i < |more|
      ensures OneMove(s, more[i - 1], more[i])
    {
      if i < |dirs| {
        assert OneMove(s, dirs[i - 1], dirs[i]);
      }
    }
    assert Trail(s, more) && more[0] == a && more[|more| - 1] == c;
  }

  lemma {:induction false} LeadsThrough(s: Recovery.State, a: Directory, b: Directory, c: Directory)
    requires Leads(s, a, b) && Leads(s, b, c)
    ensures Leads(s, a, c)
  {
    var dirs :| Trail(s, dirs) && dirs[0] == b && dirs[|dirs| - 1] == c;
    LeadsAlong(s, a, dirs, |dirs| - 1);
  }

  lemma {:induction false} LeadsAlong(s: Recovery.State, a: Directory, dirs: seq<Directory>, k: nat)
    requires Trail(s, dirs) && k < |dirs| && Leads(s, a, dirs[0])
    ensures Leads(s, a, dirs[k])
  {
    hide OneMove, Leads;
    if k > 0 {
      LeadsAlong(s, a, dirs, k - 1);
      LeadsOn(s, a, dirs[k - 1], dirs[k]);
    }
  }

  // ----- Which operations are steps -----

  lemma {:induction false} ScratchMove(s: Recovery.State, dir: Directory, n: FileName, x: Option<Data>)
    requires s.writer.Writing? && n.Tmp?
    ensures OneMove(s, dir, Recovery.Put(dir, n, x))
  {
    assert Recovery.WriterStep(s.(dir := dir), Recovery.WriterScratches(n, x), s.(dir := Recovery.Put(dir, n, x)));
  }

  /** `n` may be placed with these contents. */
  ghost predicate Placeable(s: Recovery.State, n: FileName, data: Data) {
    Recovery.NewName(s, n) && !s.writer.committed && data == Referenced(s.writer.next)[n]
  }

  lemma {:induction false} PlaceMove(s: Recovery.State, dir: Directory, source: FileName, n: FileName)
    requires (source.Tmp? || source.Staged?) && source in dir && Placeable(s, n, dir[source])
    ensures OneMove(s, dir, Recovery.Moved(dir, source, n))
  {
    assert Recovery.WriterStep(s.(dir := dir), Recovery.WriterPlaces(source, n), s.(dir := Recovery.Moved(dir, source, n)));
  }

  /** `n` may be removed: a temporary, a file just placed, or one that is retired. */
  ghost predicate Droppable(s: Recovery.State, n: FileName) {
    && s.writer.Writing?
    && (n.Tmp?
        || (Recovery.NewName(s, n) && !s.writer.committed)
        || (s.writer.committed && Recovery.Base(s).Some? && n in Referenced(Recovery.Base(s).value) && n !in Referenced(s.writer.next)))
  }

  lemma {:induction false} DropMove(s: Recovery.State, dir: Directory, n: FileName)
    requires Droppable(s, n)
    ensures OneMove(s, dir, dir - {n})
  {
    var a, b := s.(dir := dir), s.(dir := dir - {n});
    if n.Tmp? {
      assert Recovery.WriterStep(a, Recovery.WriterScratches(n, None), b);
    } else if s.writer.committed {
      assert Recovery.WriterStep(a, Recovery.WriterRetires(n), b);
    } else {
      assert Recovery.WriterStep(a, Recovery.WriterDiscards(n), b);
    }
  }

  lemma {:induction false} RenameLands(s: Recovery.State, base: Option<Index>, next: Index, dir: Directory)
    requires Over(s, base, next) && Holds(dir, next) && Tmp(Manifest) in dir && dir[Tmp(Manifest)] == Header(next)
    ensures Recovery.WriterStep(s.(dir := dir), Recovery.WriterCommits, Past(s).(dir := Recovery.Moved(dir, Tmp(Manifest), Manifest)))
    ensures Recovery.Base(Past(s)) == base
  {
  }

  // ----- What a run allows, the protocol's operations keep within it -----

  lemma {:induction false} LeadsReach(s: Recovery.State, a: Directory, b: Directory)
    requires Recovery.Reachable(s.(dir := a)) && Leads(s, a, b)
    ensures Recovery.Reachable(s.(dir := b))
  {
    var dirs :| Trail(s, dirs) && dirs[0] == a && dirs[|dirs| - 1] == b;
    TrailReach(s, dirs, |dirs| - 1);
  }

  lemma {:induction false} TrailReach(s: Recovery.State, dirs: seq<Directory>, k: nat)
    requires Trail(s, dirs) && k < |dirs| && Recovery.Reachable(s.(dir := dirs[0]))
    ensures Recovery.Reachable(s.(dir := dirs[k]))
  {
    hide Recovery.Reachable, Recovery.WriterStep;
    if k > 0 {
      TrailReach(s, dirs, k - 1);
      assert OneMove(s, dirs[k - 1], dirs[k]);
      if dirs[k - 1] != dirs[k] {
        var e :| Recovery.WriterStep(s.(dir := dirs[k - 1]), e, s.(dir := dirs[k]));
        Recovery.ReachStep(s.(dir := dirs[k - 1]), e, s.(dir := dirs[k]));
      }
    }
  }

  /**
   A commit that starts in a reachable state of a run with readers ends in one,
   wherever it stopped: whatever is proved of every run holds of the protocol.
   */
  lemma {:induction false} LandsReach(s: Recovery.State, a: Directory, b: Directory)
    requires s.writer.Writing? && Recovery.Reachable(s.(dir := a)) && Lands(s, a, b)
    ensures Recovery.Reachable(Past(s).(dir := b))
  {
    hide Recovery.Reachable, Recovery.WriterStep, Leads;
    var c, d :| Leads(s, a, c) && Recovery.WriterStep(s.(dir := c), Recovery.WriterCommits, Past(s).(dir := d)) && Leads(Past(s), d, b);
    LeadsReach(s, a, c);
    Recovery.ReachStep(s.(dir := c), Recovery.WriterCommits, Past(s).(dir := d));
    LeadsReach(Past(s), d, b);
  }
}
