/**
 What a reconcile plan does to the live documents, and exactly when it makes
 them mirror the crawled tree (src/store/state.rs, applied by
 src/store/update.rs).
 */
module Convergence {
  import opened Wrappers
  import opened Documents
  import opened Reconcile

  // ----- Applying a plan -----

  function Deleted(changes: seq<Change>): set<DocId> {
    set k | 0 <= k < |changes| && changes[k].Delete? :: changes[k].id
  }

  function Added(changes: seq<Change>): seq<CrawledFile> {
    if changes == [] then []
    else
      var last := changes[|changes| - 1];
      Added(changes[..|changes| - 1]) + (if last.Reindex? then [last.file] else [])
  }

  /** The last patch of `id` wins. */
  function MetaAfter(changes: seq<Change>, id: DocId, meta: Meta): Meta {
    if changes == [] then meta
    else
      var last := changes[|changes| - 1];
      if last.Patch? && last.id == id then last.meta else MetaAfter(changes[..|changes| - 1], id, meta)
  }

  /** The live documents after the plan; new documents take ids from `base` up. */
  function Applied(live: map<DocId, Doc>, changes: seq<Change>, base: DocId): map<DocId, Doc> {
    (map id | id in live && id !in Deleted(changes) :: Doc(MetaAfter(changes, id, live[id].meta), live[id].record))
    + (map id: DocId | base <= id < base + |Added(changes)| :: AddedDoc(Added(changes), base, id))
  }

  function AddedDoc(files: seq<CrawledFile>, base: DocId, id: DocId): Doc
    requires base <= id < base + |files|
  {
    DocOf(files[id - base])
  }

  // ----- Hypotheses and the goal -----

  ghost predicate DistinctCrawl(crawl: seq<CrawledFile>) {
    forall j: nat, k: nat | j < k < |crawl| :: crawl[j].meta.path != crawl[k].meta.path
  }

  /** Where there is content to index, it could be read. */
  predicate Readable(f: CrawledFile) {
    f.kind.TextFile? ==> f.read.Bytes?
  }

  ghost predicate ReadsSucceed(crawl: seq<CrawledFile>) {
    forall k | 0 <= k < |crawl| :: Readable(crawl[k])
  }

  /** Same inode, mtime and size. */
  predicate SameIdentity(d: Doc, f: CrawledFile) {
    d.meta.(path := f.meta.path) == f.meta
  }

  /** Equal metadata, or an equal content hash, means equal content, where there is any to compare. */
  ghost predicate Trusted(live: map<DocId, Doc>, crawl: seq<CrawledFile>) {
    forall id, k | id in live && 0 <= k < |crawl| ::
      var d, f := live[id], crawl[k];
      && (Readable(f) && SameIdentity(d, f) && (d.meta.path == f.meta.path || f.meta.inode != 0)
          ==> d.record == RecordOf(f))
      && (SameHash(StateFor(id, d), f) ==> d.record == RecordOf(f))
  }

  function DocsOf(crawl: seq<CrawledFile>): set<Doc> {
    set k | 0 <= k < |crawl| :: DocOf(crawl[k])
  }

  /** Exactly one live document per crawled file, equal to it, and no other. */
  ghost predicate Mirrors(after: map<DocId, Doc>, crawl: seq<CrawledFile>) {
    after.Values == DocsOf(crawl) && DistinctPaths(after)
  }

  /**
   `d` is what the store has of `f`: its metadata and content, or where that
   could not be read, possibly what a file of the same identity held before.
   */
  ghost predicate Shows(live: map<DocId, Doc>, d: Doc, f: CrawledFile) {
    && d.meta == f.meta
    && (d.record == RecordOf(f) || (!Readable(f) && exists id :: id in live && SameIdentity(live[id], f) && live[id].record == d.record))
  }

  /** Known before from its content, changed since, and not readable any more. */
  predicate Dropped(prev: StateIndex, f: CrawledFile) {
    && !Readable(f) && f.meta.path in prev.byPath
    && prev.byPath[f.meta.path].status.WasRead() && !KeptInPlace(prev.byPath[f.meta.path], f)
  }

  /** Exactly one live document per crawled file that is not dropped, and no other. */
  ghost predicate Reflects(after: map<DocId, Doc>, prev: StateIndex, live: map<DocId, Doc>, crawl: seq<CrawledFile>) {
    && DistinctPaths(after)
    && (forall id | id in after :: Standing(prev, live, crawl, after[id]))
    && (forall k: nat | k < |crawl| && !Dropped(prev, crawl[k]) :: Shown(after, live, crawl[k]))
  }

  ghost predicate Standing(prev: StateIndex, live: map<DocId, Doc>, crawl: seq<CrawledFile>, d: Doc) {
    exists k: nat :: k < |crawl| && !Dropped(prev, crawl[k]) && Shows(live, d, crawl[k])
  }

  ghost predicate Shown(after: map<DocId, Doc>, live: map<DocId, Doc>, f: CrawledFile) {
    exists id :: id in after && Shows(live, after[id], f)
  }

  /** The first crawled file that claims the document recorded with its inode. */
  ghost predicate IsRename(prev: StateIndex, crawl: seq<CrawledFile>, k: nat)
    requires k < |crawl|
  {
    && Claims(prev, crawl[k])
    && (forall j | 0 <= j < k :: !(Claims(prev, crawl[j]) && crawl[j].meta.inode == crawl[k].meta.inode))
  }

  /** At an unknown path with a recorded inode, and not a changed file that cannot be compared. */
  predicate Claims(prev: StateIndex, f: CrawledFile) {
    && RenameCandidate(prev, f) && prev.byInode[f.meta.inode] in prev.byPath
    && (Readable(f) || !prev.byPath[prev.byInode[f.meta.inode]].status.WasRead() || SameStat(prev.byPath[prev.byInode[f.meta.inode]], f))
  }

  predicate RenameCandidate(prev: StateIndex, f: CrawledFile) {
    f.meta.path !in prev.byPath && f.meta.inode != 0 && f.meta.inode in prev.byInode
  }

  predicate KeptInPlace(prior: FileState, f: CrawledFile) {
    (prior.inode == f.meta.inode && SameStat(prior, f)) || SameHash(prior, f)
  }

  predicate KeptOnMove(prior: FileState, f: CrawledFile) {
    SameStat(prior, f) || SameHash(prior, f)
  }

  /**
   No rename takes its document from a path that is still crawled, except where
   both the old and the new path get a new document anyway.
   */
  ghost predicate NoContestedRename(prev: StateIndex, crawl: seq<CrawledFile>) {
    forall k, j | 0 <= k < |crawl| && 0 <= j < |crawl| && IsRename(prev, crawl, k)
                  && crawl[j].meta.path == prev.byInode[crawl[k].meta.inode] && crawl[j].meta.path in prev.byPath ::
      var prior := prev.byPath[crawl[j].meta.path];
      !KeptInPlace(prior, crawl[j]) && !KeptOnMove(prior, crawl[k])
  }

  // ----- Reading a plan -----

  lemma {:induction false} AddedConcat(a: seq<Change>, b: seq<Change>)
    ensures Added(a + b) == Added(a) + Added(b)
  {
    if b == [] {
      assert a + b == a;
    } else {
      assert (a + b)[..|a + b| - 1] == a + b[..|b| - 1];
      AddedConcat(a, b[..|b| - 1]);
    }
  }

  lemma {:induction false} MetaAfterConcat(a: seq<Change>, b: seq<Change>, id: DocId, meta: Meta)
    ensures MetaAfter(a + b, id, meta) == MetaAfter(b, id, MetaAfter(a, id, meta))
  {
    if b == [] {
      assert a + b == a;
    } else {
      assert (a + b)[..|a + b| - 1] == a + b[..|b| - 1];
      MetaAfterConcat(a, b[..|b| - 1], id, meta);
    }
  }

  lemma {:induction false} DeletionsOnlyDelete(prev: StateIndex, order: seq<Path>, id: DocId, meta: Meta)
    requires forall p | p in order :: p in prev.byPath
    ensures Added(DeletionsFor(prev, order)) == []
    ensures MetaAfter(DeletionsFor(prev, order), id, meta) == meta
    ensures id in Deleted(DeletionsFor(prev, order)) <==> exists p :: p in order && prev.byPath[p].docId == id
  {
    if order != [] {
      hide Added, MetaAfter, Deleted;
      var rest, last := order[..|order| - 1], order[|order| - 1];
      var d := Delete(prev.byPath[last].docId);
      assert order == rest + [last];
      DeletionsOnlyDelete(prev, rest, id, meta);
      OneDelete(d, id, meta);
      DeletedConcat(DeletionsFor(prev, rest), [d]);
      AddedConcat(DeletionsFor(prev, rest), [d]);
      MetaAfterConcat(DeletionsFor(prev, rest), [d], id, meta);
    }
  }

  lemma {:induction false} OneDelete(d: Change, id: DocId, meta: Meta)
    requires d.Delete?
    ensures Deleted([d]) == {d.id} && Added([d]) == [] && MetaAfter([d], id, meta) == meta
  {
    DeletedOne(d);
    assert [d][..0] == [];
  }

  lemma {:induction false} DeletedConcat(a: seq<Change>, b: seq<Change>)
    ensures Deleted(a + b) == Deleted(a) + Deleted(b)
  {
    forall id
      ensures id in Deleted(a + b) <==> id in Deleted(a) || id in Deleted(b)
    {
      if id in Deleted(a) {
        var k :| 0 <= k < |a| && a[k].Delete? && a[k].id == id;
        assert (a + b)[k] == a[k];
      }
      if id in Deleted(b) {
        var k :| 0 <= k < |b| && b[k].Delete? && b[k].id == id;
        assert (a + b)[|a| + k] == b[k];
      }
    }
  }

  lemma {:induction false} DeletedOne(c: Change)
    ensures Deleted([c]) == if c.Delete? then {c.id} else {}
  {
    assert [c][0] == c;
  }

  /** What file `k` contributes. */
  lemma {:induction false} StepChanges(v: Verdict, f: CrawledFile, id: DocId, meta: Meta)
    ensures id in Deleted(ChangesFor(v, f)) <==> v.Kills() && v.id == id
    ensures Added(ChangesFor(v, f)) == if v.Indexes() then [f] else []
    ensures MetaAfter(ChangesFor(v, f), id, meta) == if (v.Touched? || v.Moved?) && v.id == id then f.meta else meta
  {
    var cs := ChangesFor(v, f);
    if |cs| == 2 {
      assert cs == [cs[0]] + [cs[1]];
      DeletedConcat([cs[0]], [cs[1]]);
      DeletedOne(cs[0]);
      DeletedOne(cs[1]);
      AddedConcat([cs[0]], [cs[1]]);
      MetaAfterConcat([cs[0]], [cs[1]], id, meta);
    } else if |cs| == 1 {
      DeletedOne(cs[0]);
    }
  }

  ghost predicate Patches(v: Verdict, id: DocId) {
    (v.Touched? || v.Moved?) && v.id == id
  }

  /** The crawl part of a plan, read file by file. */
  lemma {:induction false} CrawlPart(verdicts: seq<Verdict>, crawl: seq<CrawledFile>, id: DocId, meta: Meta)
    requires |verdicts| <= |crawl|
    ensures id in Deleted(CrawlChanges(verdicts, crawl))
            <==> exists k :: 0 <= k < |verdicts| && verdicts[k].Kills() && verdicts[k].id == id
    ensures var m := MetaAfter(CrawlChanges(verdicts, crawl), id, meta);
            || (m == meta && forall k | 0 <= k < |verdicts| :: !Patches(verdicts[k], id))
            || exists k :: 0 <= k < |verdicts| && Patches(verdicts[k], id) && m == crawl[k].meta
  {
    CrawlKills(verdicts, crawl, id);
    CrawlPatches(verdicts, crawl, id, meta);
  }

  lemma {:induction false} CrawlKills(verdicts: seq<Verdict>, crawl: seq<CrawledFile>, id: DocId)
    requires |verdicts| <= |crawl|
    ensures id in Deleted(CrawlChanges(verdicts, crawl))
            <==> exists k :: 0 <= k < |verdicts| && verdicts[k].Kills() && verdicts[k].id == id
  {
    hide Deleted, ChangesFor;
    if verdicts == [] {
      NoneDeleted();
    } else {
      var n := |verdicts| - 1;
      var last := ChangesFor(verdicts[n], crawl[n]);
      CrawlKills(verdicts[..n], crawl, id);
      StepChanges(verdicts[n], crawl[n], id, crawl[n].meta);
      DeletedConcat(CrawlChanges(verdicts[..n], crawl), last);
      if k :| 0 <= k < n && verdicts[k].Kills() && verdicts[k].id == id {
        assert verdicts[..n][k] == verdicts[k];
      }
    }
  }

  lemma {:induction false} NoneDeleted()
    ensures Deleted([]) == {}
  {
  }

  lemma {:induction false} CrawlPatches(verdicts: seq<Verdict>, crawl: seq<CrawledFile>, id: DocId, meta: Meta)
    requires |verdicts| <= |crawl|
    ensures var m := MetaAfter(CrawlChanges(verdicts, crawl), id, meta);
            || (m == meta && forall k | 0 <= k < |verdicts| :: !Patches(verdicts[k], id))
            || exists k :: 0 <= k < |verdicts| && Patches(verdicts[k], id) && m == crawl[k].meta
  {
    hide ChangesFor;
    if verdicts != [] {
      var n := |verdicts| - 1;
      var before, last := CrawlChanges(verdicts[..n], crawl), ChangesFor(verdicts[n], crawl[n]);
      CrawlPatches(verdicts[..n], crawl, id, meta);
      StepChanges(verdicts[n], crawl[n], id, MetaAfter(before, id, meta));
      MetaAfterConcat(before, last, id, meta);
      if Patches(verdicts[n], id) {
        assert MetaAfter(before + last, id, meta) == crawl[n].meta;
      } else {
        assert MetaAfter(before + last, id, meta) == MetaAfter(before, id, meta);
      }
    }
  }

  function IndexedFiles(verdicts: seq<Verdict>, crawl: seq<CrawledFile>): set<CrawledFile>
    requires |verdicts| <= |crawl|
  {
    set k | 0 <= k < |verdicts| && verdicts[k].Indexes() :: crawl[k]
  }

  lemma {:induction false} IndexedStep(verdicts: seq<Verdict>, crawl: seq<CrawledFile>)
    requires 0 < |verdicts| <= |crawl|
    ensures var n := |verdicts| - 1;
      IndexedFiles(verdicts, crawl) == IndexedFiles(verdicts[..n], crawl) + (if verdicts[n].Indexes() then {crawl[n]} else {})
  {
    var n := |verdicts| - 1;
    forall k | 0 <= k < n && verdicts[k].Indexes()
      ensures crawl[k] in IndexedFiles(verdicts[..n], crawl)
    {
      assert verdicts[..n][k].Indexes();
    }
  }

  lemma {:induction false} AddedPart(verdicts: seq<Verdict>, crawl: seq<CrawledFile>)
    requires |verdicts| <= |crawl|
    ensures Added(CrawlChanges(verdicts, crawl)) == AddedFiles(verdicts, crawl)
  {
    if verdicts != [] {
      var n := |verdicts| - 1;
      AddedPart(verdicts[..n], crawl);
      StepChanges(verdicts[n], crawl[n], 0, crawl[n].meta);
      AddedConcat(CrawlChanges(verdicts[..n], crawl), ChangesFor(verdicts[n], crawl[n]));
    }
  }

  function AddedFiles(verdicts: seq<Verdict>, crawl: seq<CrawledFile>): seq<CrawledFile>
    requires |verdicts| <= |crawl|
  {
    if verdicts == [] then []
    else
      var n := |verdicts| - 1;
      AddedFiles(verdicts[..n], crawl) + (if verdicts[n].Indexes() then [crawl[n]] else [])
  }

  /** The files to index: those judged so, once each. */
  lemma {:induction false} AddedOnce(verdicts: seq<Verdict>, crawl: seq<CrawledFile>)
    requires |verdicts| <= |crawl| && DistinctCrawl(crawl)
    ensures forall f :: f in AddedFiles(verdicts, crawl) <==> f in IndexedFiles(verdicts, crawl)
    ensures DistinctCrawl(AddedFiles(verdicts, crawl))
  {
    if verdicts != [] {
      var n := |verdicts| - 1;
      AddedOnce(verdicts[..n], crawl);
      IndexedStep(verdicts, crawl);
      var before, now := AddedFiles(verdicts[..n], crawl), AddedFiles(verdicts, crawl);
      assert now == before + (if verdicts[n].Indexes() then [crawl[n]] else []);
      assert DistinctCrawl(before);
      forall i: nat, j: nat | i < j < |now|
        ensures now[i].meta.path != now[j].meta.path
      {
        if j < |before| {
          assert before[i].meta.path != before[j].meta.path;
        } else {
          assert before[i] in IndexedFiles(verdicts[..n], crawl);
          var k :| 0 <= k < n && verdicts[..n][k].Indexes() && crawl[k] == before[i];
          assert now[i] == crawl[k] && now[j] == crawl[n];
        }
      }
    }
  }

  lemma {:induction false} JudgedAt(prev: StateIndex, crawl: seq<CrawledFile>, verdicts: seq<Verdict>, k: nat)
    requires Judges(prev, crawl, verdicts) && k < |verdicts|
    ensures Judges(prev, crawl, verdicts[..k]) && verdicts[k] == Decide(prev, Sources(verdicts[..k]), crawl[k])
  {
    var n := |verdicts| - 1;
    if k < n {
      JudgedAt(prev, crawl, verdicts[..n], k);
      assert verdicts[..n][..k] == verdicts[..k];
    }
  }

  lemma {:induction false} SourcesAre(verdicts: seq<Verdict>, p: Path)
    ensures p in Sources(verdicts) <==> exists k :: 0 <= k < |verdicts| && verdicts[k].Consumes() && verdicts[k].from == p
  {
    if verdicts != [] {
      SourcesAre(verdicts[..|verdicts| - 1], p);
    }
  }

  /** Every claimed source is used up by the time its claimant is passed. */
  lemma {:induction false} ClaimConsumed(prev: StateIndex, live: map<DocId, Doc>, crawl: seq<CrawledFile>, verdicts: seq<Verdict>, k: nat)
    requires Describes(prev, live) && Judges(prev, crawl, verdicts)
    requires k < |verdicts| && Claims(prev, crawl[k])
    ensures prev.byInode[crawl[k].meta.inode] in Sources(verdicts)
  {
    JudgedAt(prev, crawl, verdicts, k);
    var from := prev.byInode[crawl[k].meta.inode];
    if from in Sources(verdicts[..k]) {
      SourcesAre(verdicts[..k], from);
    }
    SourcesAre(verdicts, from);
  }

  lemma {:induction false} ConsumesIffUnused(prev: StateIndex, live: map<DocId, Doc>, crawl: seq<CrawledFile>, verdicts: seq<Verdict>, k: nat)
    requires Describes(prev, live) && Judges(prev, crawl, verdicts) && k < |verdicts|
    ensures verdicts[k].Consumes()
            <==> Claims(prev, crawl[k]) && prev.byInode[crawl[k].meta.inode] !in Sources(verdicts[..k])
    ensures verdicts[k].Consumes() ==> verdicts[k].from == prev.byInode[crawl[k].meta.inode]
  {
    JudgedAt(prev, crawl, verdicts, k);
  }

  lemma {:induction false} SourceOf(prev: StateIndex, live: map<DocId, Doc>, crawl: seq<CrawledFile>, verdicts: seq<Verdict>, k: nat, from: Path)
    returns (j: nat)
    requires Describes(prev, live) && Judges(prev, crawl, verdicts) && k < |verdicts| && from in Sources(verdicts[..k])
    ensures j < k && Claims(prev, crawl[j]) && prev.byInode[crawl[j].meta.inode] == from
    ensures from in prev.byPath && crawl[j].meta.inode == prev.byPath[from].inode
  {
    SourcesAre(verdicts[..k], from);
    j :| 0 <= j < k && verdicts[j].Consumes() && verdicts[j].from == from;
    ConsumesIffUnused(prev, live, crawl, verdicts, j);
  }

  /** ... and it is used up by exactly the first claimant with that inode. */
  lemma {:induction false} ConsumesIffRename(prev: StateIndex, live: map<DocId, Doc>, crawl: seq<CrawledFile>, verdicts: seq<Verdict>, k: nat)
    requires Describes(prev, live) && Judges(prev, crawl, verdicts) && k < |verdicts|
    ensures verdicts[k].Consumes() <==> IsRename(prev, crawl, k)
    ensures verdicts[k].Consumes() ==> verdicts[k].from == prev.byInode[crawl[k].meta.inode]
  {
    ConsumesIffUnused(prev, live, crawl, verdicts, k);
    if Claims(prev, crawl[k]) {
      var from := prev.byInode[crawl[k].meta.inode];
      if from in Sources(verdicts[..k]) {
        var j := SourceOf(prev, live, crawl, verdicts, k, from);
        assert Claims(prev, crawl[j]) && crawl[j].meta.inode == crawl[k].meta.inode;
      } else {
        forall j | 0 <= j < k
          ensures !(Claims(prev, crawl[j]) && crawl[j].meta.inode == crawl[k].meta.inode)
        {
          if Claims(prev, crawl[j]) && crawl[j].meta.inode == crawl[k].meta.inode {
            JudgedAt(prev, crawl, verdicts, k);
            ClaimConsumed(prev, live, crawl, verdicts[..k], j);
          }
        }
      }
    }
  }

  // ----- The theorem -----

  /** Where the documents after a plan come from. */
  lemma {:induction false} AppliedAt(live: map<DocId, Doc>, changes: seq<Change>, base: DocId, id: DocId)
    requires forall i | i in live :: i < base
    ensures id < base ==> (id in Applied(live, changes, base) <==> id in live && id !in Deleted(changes))
    ensures id < base && id in Applied(live, changes, base) ==>
              Applied(live, changes, base)[id] == Doc(MetaAfter(changes, id, live[id].meta), live[id].record)
    ensures id >= base ==> (id in Applied(live, changes, base) <==> id < base + |Added(changes)|)
    ensures id >= base && id in Applied(live, changes, base) ==> Applied(live, changes, base)[id] == DocOf(Added(changes)[id - base])
  {
  }

  /** One reconcile: everything known about its inputs, and the plan it made. */
  ghost predicate Run(prev: StateIndex, live: map<DocId, Doc>, crawl: seq<CrawledFile>, changes: seq<Change>, base: DocId) {
    && Describes(prev, live) && DistinctPaths(live) && (forall id | id in live :: id < base)
    && DistinctCrawl(crawl) && Trusted(live, crawl)
    && IsPlan(prev, crawl, changes)
  }

  /** A document of the last commit is deleted when its file was judged so, or its path was left over. */
  lemma {:induction false} DeletedWhen(prev: StateIndex, live: map<DocId, Doc>, crawl: seq<CrawledFile>, changes: seq<Change>, base: DocId,
                    verdicts: seq<Verdict>, order: seq<Path>, id: DocId)
    requires Run(prev, live, crawl, changes, base) && PlanFrom(prev, crawl, changes, verdicts, order) && id in live
    ensures id in Deleted(changes)
            <==> || (exists k :: 0 <= k < |verdicts| && verdicts[k].Kills() && verdicts[k].id == id)
                 || live[id].meta.path in Leftover(prev, crawl, verdicts)
  {
    var crawled := CrawlChanges(verdicts, crawl);
    CrawlPart(verdicts, crawl, id, live[id].meta);
    DeletedConcat(crawled, DeletionsFor(prev, order));
    DeletionsOnlyDelete(prev, order, id, live[id].meta);
    var p := live[id].meta.path;
    assert p in prev.byPath && prev.byPath[p].docId == id;
  }

  /** Its metadata afterwards is its own, or that of a file that patched it. */
  lemma {:induction false} MetaWhen(prev: StateIndex, live: map<DocId, Doc>, crawl: seq<CrawledFile>, changes: seq<Change>, base: DocId,
                 verdicts: seq<Verdict>, order: seq<Path>, id: DocId)
    requires Run(prev, live, crawl, changes, base) && PlanFrom(prev, crawl, changes, verdicts, order) && id in live
    ensures var m := MetaAfter(changes, id, live[id].meta);
            || (m == live[id].meta && forall k | 0 <= k < |verdicts| :: !Patches(verdicts[k], id))
            || exists k :: 0 <= k < |verdicts| && Patches(verdicts[k], id) && m == crawl[k].meta
  {
    var crawled := CrawlChanges(verdicts, crawl);
    CrawlPart(verdicts, crawl, id, live[id].meta);
    MetaAfterConcat(crawled, DeletionsFor(prev, order), id, live[id].meta);
    DeletionsOnlyDelete(prev, order, id, MetaAfter(crawled, id, live[id].meta));
  }

  /** The new documents are the indexed files. */
  lemma {:induction false} NewDocs(prev: StateIndex, live: map<DocId, Doc>, crawl: seq<CrawledFile>, changes: seq<Change>, base: DocId,
                verdicts: seq<Verdict>, order: seq<Path>)
    requires Run(prev, live, crawl, changes, base) && PlanFrom(prev, crawl, changes, verdicts, order)
    ensures Added(changes) == AddedFiles(verdicts, crawl)
  {
    var crawled := CrawlChanges(verdicts, crawl);
    AddedPart(verdicts, crawl);
    AddedConcat(crawled, DeletionsFor(prev, order));
    DeletionsOnlyDelete(prev, order, 0, Meta("", 0, 0, 0));
    assert crawled == CrawlChanges(verdicts, crawl);
  }

  lemma {:induction false} GoneIffDropped(prev: StateIndex, crawl: seq<CrawledFile>, verdicts: seq<Verdict>, k: nat)
    requires Judges(prev, crawl, verdicts) && k < |verdicts|
    ensures verdicts[k].Gone? <==> Dropped(prev, crawl[k])
  {
    JudgedAt(prev, crawl, verdicts, k);
  }

  /** A kept document has what the store has of the file, and when unchanged its metadata too. */
  lemma {:induction false} KeptRecord(prev: StateIndex, live: map<DocId, Doc>, crawl: seq<CrawledFile>, verdicts: seq<Verdict>, k: nat)
    requires Describes(prev, live) && Trusted(live, crawl) && Judges(prev, crawl, verdicts) && k < |verdicts|
    requires verdicts[k].Keeps()
    ensures verdicts[k].id in live && Shows(live, Doc(crawl[k].meta, live[verdicts[k].id].record), crawl[k])
    ensures verdicts[k].Unchanged? ==> live[verdicts[k].id].meta == crawl[k].meta
  {
    JudgedPath(prev, live, crawl, verdicts, k);
    var v, f := verdicts[k], crawl[k];
    var prior := prev.byPath[KnownAs(v, f)];
    assert prior == StateFor(v.id, live[v.id]);
    KeptWhy(prev, live, crawl, verdicts, k);
    hide Describes, Judges, Decide, RecordOf;
    if !Readable(f) {
      assert SameIdentity(live[v.id], f);
    }
  }

  /** Why a document was kept: equal metadata under a trusted identity, or an equal hash. */
  lemma {:induction false} KeptWhy(prev: StateIndex, live: map<DocId, Doc>, crawl: seq<CrawledFile>, verdicts: seq<Verdict>, k: nat)
    requires Describes(prev, live) && Judges(prev, crawl, verdicts) && k < |verdicts| && verdicts[k].Keeps()
    requires KnownAs(verdicts[k], crawl[k]) in prev.byPath
    ensures var prior := prev.byPath[KnownAs(verdicts[k], crawl[k])];
      || SameHash(prior, crawl[k])
      || (SameStat(prior, crawl[k]) && prior.inode == crawl[k].meta.inode && (verdicts[k].Moved? ==> prior.inode != 0))
    ensures verdicts[k].Unchanged? ==> var prior := prev.byPath[crawl[k].meta.path];
              SameStat(prior, crawl[k]) && prior.inode == crawl[k].meta.inode
  {
    JudgedAt(prev, crawl, verdicts, k);
  }

  /**
   Whoever holds a crawled path afterwards is the document its file kept, or
   the one it was given, and shows the file.
   */
  lemma {:induction false} Holder(prev: StateIndex, live: map<DocId, Doc>, crawl: seq<CrawledFile>, changes: seq<Change>, base: DocId,
               verdicts: seq<Verdict>, order: seq<Path>, k: nat, id: DocId)
    requires Run(prev, live, crawl, changes, base) && PlanFrom(prev, crawl, changes, verdicts, order)
    requires k < |crawl| && id in Applied(live, changes, base)
    requires Applied(live, changes, base)[id].meta.path == crawl[k].meta.path
    ensures Shows(live, Applied(live, changes, base)[id], crawl[k]) && !Dropped(prev, crawl[k])
    ensures id < base ==> verdicts[k].Keeps() && verdicts[k].id == id
    ensures id >= base ==> verdicts[k].Indexes() && Added(changes)[id - base] == crawl[k]
  {
    AppliedAt(live, changes, base, id);
    GoneIffDropped(prev, crawl, verdicts, k);
    hide Applied, Deleted, MetaAfter, Added, IsPlan, DocOf, Dropped;
    DocIs(crawl[k]);
    if id >= base {
      NewHolder(prev, live, crawl, changes, base, verdicts, order, k, id);
    } else {
      DeletedWhen(prev, live, crawl, changes, base, verdicts, order, id);
      MetaWhen(prev, live, crawl, changes, base, verdicts, order, id);
      var m := MetaAfter(changes, id, live[id].meta);
      if i :| 0 <= i < |verdicts| && Patches(verdicts[i], id) && m == crawl[i].meta {
        assert i == k;
      } else {
        UnpatchedUnchanged(prev, live, crawl, verdicts, k, id);
      }
      hide Describes, Judges, Trusted, Leftover;
      KeptRecord(prev, live, crawl, verdicts, k);
    }
  }

  lemma {:induction false} UnpatchedUnchanged(prev: StateIndex, live: map<DocId, Doc>, crawl: seq<CrawledFile>, verdicts: seq<Verdict>, k: nat, id: DocId)
    requires Describes(prev, live) && DistinctPaths(live) && Judges(prev, crawl, verdicts) && k < |verdicts|
    requires id in live && live[id].meta.path == crawl[k].meta.path
    requires !(verdicts[k].Kills() && verdicts[k].id == id) && !Patches(verdicts[k], id)
    ensures verdicts[k].Unchanged? && verdicts[k].id == id
  {
    JudgedAt(prev, crawl, verdicts, k);
    hide Judges;
    assert prev.byPath[crawl[k].meta.path].docId == id;
  }

  lemma {:induction false} DocIs(f: CrawledFile)
    ensures DocOf(f) == Doc(f.meta, RecordOf(f))
  {
  }

  lemma {:induction false} NewHolder(prev: StateIndex, live: map<DocId, Doc>, crawl: seq<CrawledFile>, changes: seq<Change>, base: DocId,
                  verdicts: seq<Verdict>, order: seq<Path>, k: nat, id: DocId)
    requires Run(prev, live, crawl, changes, base) && PlanFrom(prev, crawl, changes, verdicts, order)
    requires k < |crawl| && id in Applied(live, changes, base) && id >= base
    requires Applied(live, changes, base)[id].meta.path == crawl[k].meta.path
    ensures verdicts[k].Indexes() && Added(changes)[id - base] == crawl[k]
  {
    NewDocs(prev, live, crawl, changes, base, verdicts, order);
    AddedOnce(verdicts, crawl);
    var f := Added(changes)[id - base];
    assert f in AddedFiles(verdicts, crawl);
    var j :| 0 <= j < |verdicts| && verdicts[j].Indexes() && crawl[j] == f;
    assert j == k;
  }

  /** Every document left alive lies at a crawled path. */
  lemma {:induction false} Inhabits(prev: StateIndex, live: map<DocId, Doc>, crawl: seq<CrawledFile>, changes: seq<Change>, base: DocId,
                 verdicts: seq<Verdict>, order: seq<Path>, id: DocId) returns (k: nat)
    requires Run(prev, live, crawl, changes, base) && PlanFrom(prev, crawl, changes, verdicts, order)
    requires id in Applied(live, changes, base)
    ensures k < |crawl| && Applied(live, changes, base)[id].meta.path == crawl[k].meta.path
  {
    if id >= base {
      NewDocs(prev, live, crawl, changes, base, verdicts, order);
      AddedOnce(verdicts, crawl);
      var f := Added(changes)[id - base];
      assert f in AddedFiles(verdicts, crawl);
      k :| 0 <= k < |verdicts| && verdicts[k].Indexes() && crawl[k] == f;
    } else {
      DeletedWhen(prev, live, crawl, changes, base, verdicts, order, id);
      MetaWhen(prev, live, crawl, changes, base, verdicts, order, id);
      var m := MetaAfter(changes, id, live[id].meta);
      if i :| 0 <= i < |verdicts| && Patches(verdicts[i], id) && m == crawl[i].meta {
        k := i;
      } else {
        k := UnmovedCrawled(prev, live, crawl, verdicts, id);
      }
    }
  }

  lemma {:induction false} UnmovedCrawled(prev: StateIndex, live: map<DocId, Doc>, crawl: seq<CrawledFile>, verdicts: seq<Verdict>, id: DocId)
    returns (k: nat)
    requires Describes(prev, live) && DistinctPaths(live) && Judges(prev, crawl, verdicts) && id in live
    requires live[id].meta.path !in Leftover(prev, crawl, verdicts)
    requires forall i | 0 <= i < |verdicts| && verdicts[i].Consumes() :: verdicts[i].id != id
    ensures k < |crawl| && live[id].meta.path == crawl[k].meta.path
  {
    var p := live[id].meta.path;
    if p !in PathsOf(crawl) {
      SourcesAre(verdicts, p);
      var i :| 0 <= i < |verdicts| && verdicts[i].Consumes() && verdicts[i].from == p;
      JudgedPath(prev, live, crawl, verdicts, i);
      assert false;
    }
    k :| 0 <= k < |crawl| && crawl[k].meta.path == p;
  }

  /** The path under which the judged document was known. */
  function KnownAs(v: Verdict, f: CrawledFile): Path {
    if v.Consumes() then v.from else f.meta.path
  }

  lemma {:induction false} JudgedPath(prev: StateIndex, live: map<DocId, Doc>, crawl: seq<CrawledFile>, verdicts: seq<Verdict>, k: nat)
    requires Describes(prev, live) && Judges(prev, crawl, verdicts) && k < |verdicts| && !verdicts[k].Fresh?
    ensures KnownAs(verdicts[k], crawl[k]) in prev.byPath
    ensures verdicts[k].id == prev.byPath[KnownAs(verdicts[k], crawl[k])].docId
    ensures verdicts[k].id in live && live[verdicts[k].id].meta.path == KnownAs(verdicts[k], crawl[k])
    ensures verdicts[k].Consumes() ==> verdicts[k].from !in Sources(verdicts[..k])
  {
    JudgedAt(prev, crawl, verdicts, k);
  }

  /**
   Whatever the inodes, a reconcile leaves no document at a path that was not
   crawled or whose file was dropped, no two documents at one path, and every
   document showing its file.
   */
  lemma {:induction false} HeldFromCrawl(prev: StateIndex, live: map<DocId, Doc>, crawl: seq<CrawledFile>, changes: seq<Change>, base: DocId,
                 verdicts: seq<Verdict>, order: seq<Path>, id: DocId)
    requires Run(prev, live, crawl, changes, base) && PlanFrom(prev, crawl, changes, verdicts, order)
    requires id in Applied(live, changes, base)
    ensures Standing(prev, live, crawl, Applied(live, changes, base)[id])
  {
    assert |verdicts| == |crawl| by { PlanLength(prev, crawl, changes, verdicts, order); }
    hide Run, PlanFrom, Applied, Deleted, MetaAfter, DocOf;
    var k := Inhabits(prev, live, crawl, changes, base, verdicts, order, id);
    Holder(prev, live, crawl, changes, base, verdicts, order, k, id);
  }

  lemma {:induction false} OnePerPath(prev: StateIndex, live: map<DocId, Doc>, crawl: seq<CrawledFile>, changes: seq<Change>, base: DocId,
                 verdicts: seq<Verdict>, order: seq<Path>, a: DocId, b: DocId)
    requires Run(prev, live, crawl, changes, base) && PlanFrom(prev, crawl, changes, verdicts, order)
    requires a in Applied(live, changes, base) && b in Applied(live, changes, base)
    requires Applied(live, changes, base)[a].meta.path == Applied(live, changes, base)[b].meta.path
    ensures a == b
  {
    assert |verdicts| == |crawl| by { PlanLength(prev, crawl, changes, verdicts, order); }
    hide Run, PlanFrom, Applied, Deleted, MetaAfter, DocOf;
    var k := Inhabits(prev, live, crawl, changes, base, verdicts, order, a);
    Holder(prev, live, crawl, changes, base, verdicts, order, k, a);
    Holder(prev, live, crawl, changes, base, verdicts, order, k, b);
    if a >= base && b >= base {
      SameNew(prev, live, crawl, changes, base, verdicts, order, a, b);
    }
  }

  lemma {:induction false} NothingForeign(prev: StateIndex, live: map<DocId, Doc>, crawl: seq<CrawledFile>, changes: seq<Change>, base: DocId)
    requires Run(prev, live, crawl, changes, base)
    ensures var after := Applied(live, changes, base);
      DistinctPaths(after) && forall id | id in after :: Standing(prev, live, crawl, after[id])
  {
    var verdicts: seq<Verdict>, order: seq<Path> :| PlanFrom(prev, crawl, changes, verdicts, order);
    var after := Applied(live, changes, base);
    hide Run, PlanFrom, Applied, Standing;
    forall id | id in after
      ensures Standing(prev, live, crawl, after[id])
    {
      HeldFromCrawl(prev, live, crawl, changes, base, verdicts, order, id);
    }
    forall a, b | a in after && b in after && after[a].meta.path == after[b].meta.path
      ensures a == b
    {
      OnePerPath(prev, live, crawl, changes, base, verdicts, order, a, b);
    }
  }

  lemma {:induction false} PlanLength(prev: StateIndex, crawl: seq<CrawledFile>, changes: seq<Change>, verdicts: seq<Verdict>, order: seq<Path>)
    requires PlanFrom(prev, crawl, changes, verdicts, order)
    ensures |verdicts| == |crawl|
  {
  }

  /** A crawled file is indexed once. */
  lemma {:induction false} SameNew(prev: StateIndex, live: map<DocId, Doc>, crawl: seq<CrawledFile>, changes: seq<Change>, base: DocId,
                 verdicts: seq<Verdict>, order: seq<Path>, a: DocId, b: DocId)
    requires Run(prev, live, crawl, changes, base) && PlanFrom(prev, crawl, changes, verdicts, order)
    requires base <= a < base + |Added(changes)| && base <= b < base + |Added(changes)|
    requires Added(changes)[a - base].meta.path == Added(changes)[b - base].meta.path
    ensures a == b
  {
    NewDocs(prev, live, crawl, changes, base, verdicts, order);
    AddedOnce(verdicts, crawl);
  }

  /** Without a contested rename, a kept document survives at its file's path. */
  lemma {:induction false} KeptSurvives(prev: StateIndex, live: map<DocId, Doc>, crawl: seq<CrawledFile>, changes: seq<Change>, base: DocId,
                     verdicts: seq<Verdict>, order: seq<Path>, k: nat)
    requires Run(prev, live, crawl, changes, base) && PlanFrom(prev, crawl, changes, verdicts, order)
    requires NoContestedRename(prev, crawl) && k < |crawl| && verdicts[k].Keeps()
    ensures verdicts[k].id in Applied(live, changes, base)
    ensures Applied(live, changes, base)[verdicts[k].id].meta.path == crawl[k].meta.path
  {
    AppliedAt(live, changes, base, verdicts[k].id);
    KeptUndeleted(prev, live, crawl, changes, base, verdicts, order, k);
    KeptPath(prev, live, crawl, changes, base, verdicts, order, k);
    KeptRecord(prev, live, crawl, verdicts, k);
  }

  lemma {:induction false} KeptUndeleted(prev: StateIndex, live: map<DocId, Doc>, crawl: seq<CrawledFile>, changes: seq<Change>, base: DocId,
                     verdicts: seq<Verdict>, order: seq<Path>, k: nat)
    requires Run(prev, live, crawl, changes, base) && PlanFrom(prev, crawl, changes, verdicts, order)
    requires NoContestedRename(prev, crawl) && k < |crawl| && verdicts[k].Keeps()
    ensures verdicts[k].id in live && verdicts[k].id !in Deleted(changes)
  {
    hide Applied, Deleted, MetaAfter, IsPlan, NoContestedRename;
    var id := verdicts[k].id;
    JudgedPath(prev, live, crawl, verdicts, k);
    DeletedWhen(prev, live, crawl, changes, base, verdicts, order, id);
    if i :| 0 <= i < |verdicts| && verdicts[i].Kills() && verdicts[i].id == id {
      OneJudge(prev, live, crawl, verdicts, k, i);
    }
    NotLeftover(prev, live, crawl, verdicts, k);
  }

  lemma {:induction false} NotLeftover(prev: StateIndex, live: map<DocId, Doc>, crawl: seq<CrawledFile>, verdicts: seq<Verdict>, k: nat)
    requires Describes(prev, live) && Judges(prev, crawl, verdicts) && k < |verdicts| == |crawl| && verdicts[k].Keeps()
    ensures verdicts[k].id in live && live[verdicts[k].id].meta.path !in Leftover(prev, crawl, verdicts)
  {
    JudgedPath(prev, live, crawl, verdicts, k);
    SourcesAre(verdicts, KnownAs(verdicts[k], crawl[k]));
  }

  lemma {:induction false} KeptPath(prev: StateIndex, live: map<DocId, Doc>, crawl: seq<CrawledFile>, changes: seq<Change>, base: DocId,
                     verdicts: seq<Verdict>, order: seq<Path>, k: nat)
    requires Run(prev, live, crawl, changes, base) && PlanFrom(prev, crawl, changes, verdicts, order)
    requires NoContestedRename(prev, crawl) && k < |crawl| && verdicts[k].Keeps()
    ensures verdicts[k].id in live
    ensures MetaAfter(changes, verdicts[k].id, live[verdicts[k].id].meta).path == crawl[k].meta.path
  {
    hide Applied, Deleted, MetaAfter, IsPlan, NoContestedRename;
    var id := verdicts[k].id;
    JudgedPath(prev, live, crawl, verdicts, k);
    MetaWhen(prev, live, crawl, changes, base, verdicts, order, id);
    var m := MetaAfter(changes, id, live[id].meta);
    if i :| 0 <= i < |verdicts| && Patches(verdicts[i], id) && m == crawl[i].meta {
      OneJudge(prev, live, crawl, verdicts, k, i);
    }
  }

  /** Two verdicts on one document, one of which keeps it, are the same file's. */
  lemma {:induction false} OneJudge(prev: StateIndex, live: map<DocId, Doc>, crawl: seq<CrawledFile>, verdicts: seq<Verdict>, k: nat, i: nat)
    requires Describes(prev, live) && DistinctCrawl(crawl) && Judges(prev, crawl, verdicts)
    requires |verdicts| == |crawl| && NoContestedRename(prev, crawl) && k < |crawl| && i < |crawl|
    requires verdicts[k].Keeps() && !verdicts[i].Fresh? && verdicts[i].id == verdicts[k].id
    ensures i == k
  {
    JudgedPath(prev, live, crawl, verdicts, k);
    JudgedPath(prev, live, crawl, verdicts, i);
    if verdicts[k].Consumes() && verdicts[i].Consumes() {
      ConsumedOnce(prev, live, crawl, verdicts, i, k);
    } else if verdicts[k].Consumes() {
      ConsumesIffRename(prev, live, crawl, verdicts, k);
      MovedIffKept(prev, live, crawl, verdicts, k);
      assert false;
    } else if verdicts[i].Consumes() {
      ConsumesIffRename(prev, live, crawl, verdicts, i);
      InPlaceIffKept(prev, live, crawl, verdicts, k);
      assert false;
    }
  }

  lemma {:induction false} ConsumedOnce(prev: StateIndex, live: map<DocId, Doc>, crawl: seq<CrawledFile>, verdicts: seq<Verdict>, i: nat, k: nat)
    requires Describes(prev, live) && Judges(prev, crawl, verdicts) && i < |verdicts| && k < |verdicts|
    requires verdicts[i].Consumes() && verdicts[k].Consumes() && verdicts[i].from == verdicts[k].from
    ensures i == k
  {
    var first, second := if i < k then i else k, if i < k then k else i;
    if first < second {
      assert verdicts[..second][first] == verdicts[first];
      SourcesAre(verdicts[..second], verdicts[first].from);
      JudgedPath(prev, live, crawl, verdicts, second);
    }
  }

  lemma {:induction false} MovedIffKept(prev: StateIndex, live: map<DocId, Doc>, crawl: seq<CrawledFile>, verdicts: seq<Verdict>, k: nat)
    requires Describes(prev, live) && Judges(prev, crawl, verdicts) && k < |verdicts|
    requires verdicts[k].Consumes()
    ensures verdicts[k].from in prev.byPath
    ensures verdicts[k].Moved? <==> KeptOnMove(prev.byPath[verdicts[k].from], crawl[k])
  {
    JudgedAt(prev, crawl, verdicts, k);
  }

  lemma {:induction false} InPlaceIffKept(prev: StateIndex, live: map<DocId, Doc>, crawl: seq<CrawledFile>, verdicts: seq<Verdict>, k: nat)
    requires Describes(prev, live) && Judges(prev, crawl, verdicts) && k < |verdicts|
    requires crawl[k].meta.path in prev.byPath
    ensures verdicts[k].Unchanged? || verdicts[k].Touched? || verdicts[k].Edited? || verdicts[k].Gone?
    ensures !verdicts[k].Kills() <==> KeptInPlace(prev.byPath[crawl[k].meta.path], crawl[k])
    ensures verdicts[k].id == prev.byPath[crawl[k].meta.path].docId
  {
    JudgedAt(prev, crawl, verdicts, k);
  }

  /**
   Reconcile converges exactly when no rename is contested: afterwards the live
   documents are the crawled files, but for those dropped as unreadable, if and
   only if no rename took its document from a path that is still there.
   */
  lemma {:induction false} ConvergesIff(prev: StateIndex, live: map<DocId, Doc>, crawl: seq<CrawledFile>, changes: seq<Change>, base: DocId)
    requires Run(prev, live, crawl, changes, base)
    ensures Reflects(Applied(live, changes, base), prev, live, crawl) <==> NoContestedRename(prev, crawl)
  {
    NothingForeign(prev, live, crawl, changes, base);
    hide Run, Applied, Dropped, Shown, Standing;
    if NoContestedRename(prev, crawl) {
      Converges(prev, live, crawl, changes, base);
    }
    if Reflects(Applied(live, changes, base), prev, live, crawl) {
      OnlyIf(prev, live, crawl, changes, base);
    }
  }

  /** Where every file can be read, that is: one document equal to each file, and no other. */
  lemma {:induction false} ReflectsMirrors(after: map<DocId, Doc>, prev: StateIndex, live: map<DocId, Doc>, crawl: seq<CrawledFile>)
    requires ReadsSucceed(crawl)
    ensures Reflects(after, prev, live, crawl) <==> Mirrors(after, crawl)
  {
    hide Reflects, Mirrors, ReadsSucceed;
    NoneUnreadable(prev, crawl);
    if Mirrors(after, crawl) {
      MirrorsReflects(after, prev, live, crawl);
    }
    if Reflects(after, prev, live, crawl) {
      ReflectionMirrors(after, prev, live, crawl);
    }
  }

  lemma {:induction false} ShowsReadable(live: map<DocId, Doc>, d: Doc, f: CrawledFile)
    requires Readable(f)
    ensures Shows(live, d, f) <==> d == DocOf(f)
  {
  }

  lemma {:induction false} NoneUnreadable(prev: StateIndex, crawl: seq<CrawledFile>)
    requires ReadsSucceed(crawl)
    ensures forall k: nat | k < |crawl| :: Readable(crawl[k]) && !Dropped(prev, crawl[k])
  {
  }

  lemma {:induction false} MirrorsReflects(after: map<DocId, Doc>, prev: StateIndex, live: map<DocId, Doc>, crawl: seq<CrawledFile>)
    requires (forall k: nat | k < |crawl| :: Readable(crawl[k])) && Mirrors(after, crawl)
    ensures Reflects(after, prev, live, crawl)
  {
    hide DocOf, Shows, Readable, DistinctPaths;
    forall id | id in after
      ensures Standing(prev, live, crawl, after[id])
    {
      var k := FileShown(after, crawl, id);
      ShowsReadable(live, after[id], crawl[k]);
      ReadableStays(prev, crawl[k]);
    }
    forall k: nat | k < |crawl|
      ensures Shown(after, live, crawl[k])
    {
      var id := DocShown(after, crawl, k);
      ShowsReadable(live, after[id], crawl[k]);
    }
  }

  lemma {:induction false} ReadableStays(prev: StateIndex, f: CrawledFile)
    requires Readable(f)
    ensures !Dropped(prev, f)
  {
  }

  lemma {:induction false} FileShown(after: map<DocId, Doc>, crawl: seq<CrawledFile>, id: DocId) returns (k: nat)
    requires Mirrors(after, crawl) && id in after
    ensures k < |crawl| && after[id] == DocOf(crawl[k])
  {
    hide DocOf, DistinctPaths;
    assert after[id] in after.Values;
    k :| k < |crawl| && DocOf(crawl[k]) == after[id];
  }

  lemma {:induction false} DocShown(after: map<DocId, Doc>, crawl: seq<CrawledFile>, k: nat) returns (id: DocId)
    requires Mirrors(after, crawl) && k < |crawl|
    ensures id in after && after[id] == DocOf(crawl[k])
  {
    hide DocOf, DistinctPaths;
    assert DocOf(crawl[k]) in after.Values;
    id :| id in after && after[id] == DocOf(crawl[k]);
  }

  lemma {:induction false} ReflectionMirrors(after: map<DocId, Doc>, prev: StateIndex, live: map<DocId, Doc>, crawl: seq<CrawledFile>)
    requires (forall k: nat | k < |crawl| :: Readable(crawl[k]) && !Dropped(prev, crawl[k])) && Reflects(after, prev, live, crawl)
    ensures Mirrors(after, crawl)
  {
    hide DocOf, Shows, Readable, Dropped, Reflects, DistinctPaths;
    assert DistinctPaths(after) by { ReflectsDistinct(after, prev, live, crawl); }
    forall k: nat | k < |crawl|
      ensures DocOf(crawl[k]) in after.Values
    {
      var id := ReflectedAt(after, prev, live, crawl, k);
      ShowsReadable(live, after[id], crawl[k]);
    }
    forall id | id in after
      ensures after[id] in DocsOf(crawl)
    {
      var k := StandsAt(after, prev, live, crawl, id);
      ShowsReadable(live, after[id], crawl[k]);
    }
  }

  lemma {:induction false} ReflectsDistinct(after: map<DocId, Doc>, prev: StateIndex, live: map<DocId, Doc>, crawl: seq<CrawledFile>)
    requires Reflects(after, prev, live, crawl)
    ensures DistinctPaths(after)
  {
  }

  lemma {:induction false} StandsAt(after: map<DocId, Doc>, prev: StateIndex, live: map<DocId, Doc>, crawl: seq<CrawledFile>, id: DocId) returns (k: nat)
    requires Reflects(after, prev, live, crawl) && id in after
    ensures k < |crawl| && !Dropped(prev, crawl[k]) && Shows(live, after[id], crawl[k]) && after[id].meta == crawl[k].meta
  {
    hide Dropped;
    assert Standing(prev, live, crawl, after[id]);
    k :| k < |crawl| && !Dropped(prev, crawl[k]) && Shows(live, after[id], crawl[k]);
  }

  lemma {:induction false} Converges(prev: StateIndex, live: map<DocId, Doc>, crawl: seq<CrawledFile>, changes: seq<Change>, base: DocId)
    requires Run(prev, live, crawl, changes, base) && NoContestedRename(prev, crawl)
    ensures forall k: nat | k < |crawl| && !Dropped(prev, crawl[k]) :: Shown(Applied(live, changes, base), live, crawl[k])
  {
    var verdicts: seq<Verdict>, order: seq<Path> :| PlanFrom(prev, crawl, changes, verdicts, order);
    var after := Applied(live, changes, base);
    hide Run, PlanFrom, Applied, Dropped, Shows, NoContestedRename;
    forall k: nat | k < |crawl| && !Dropped(prev, crawl[k])
      ensures Shown(after, live, crawl[k])
    {
      var id := HasHolder(prev, live, crawl, changes, base, verdicts, order, k);
      Holder(prev, live, crawl, changes, base, verdicts, order, k, id);
    }
  }

  lemma {:induction false} HasHolder(prev: StateIndex, live: map<DocId, Doc>, crawl: seq<CrawledFile>, changes: seq<Change>, base: DocId,
                 verdicts: seq<Verdict>, order: seq<Path>, k: nat) returns (id: DocId)
    requires Run(prev, live, crawl, changes, base) && PlanFrom(prev, crawl, changes, verdicts, order)
    requires NoContestedRename(prev, crawl) && k < |crawl| && !Dropped(prev, crawl[k])
    ensures id in Applied(live, changes, base) && Applied(live, changes, base)[id].meta.path == crawl[k].meta.path
  {
    GoneIffDropped(prev, crawl, verdicts, k);
    hide Applied, Dropped, NoContestedRename, Decide, IsPlan, Judges;
    if verdicts[k].Keeps() {
      KeptSurvives(prev, live, crawl, changes, base, verdicts, order, k);
      id := verdicts[k].id;
    } else {
      id := NewHas(prev, live, crawl, changes, base, verdicts, order, k);
    }
  }

  lemma {:induction false} NewHas(prev: StateIndex, live: map<DocId, Doc>, crawl: seq<CrawledFile>, changes: seq<Change>, base: DocId,
                 verdicts: seq<Verdict>, order: seq<Path>, k: nat) returns (id: DocId)
    requires Run(prev, live, crawl, changes, base) && PlanFrom(prev, crawl, changes, verdicts, order)
    requires k < |crawl| && verdicts[k].Indexes()
    ensures id in Applied(live, changes, base) && Applied(live, changes, base)[id].meta.path == crawl[k].meta.path
  {
    hide Judges, Describes, Trusted, IsPlan, Applied, Deleted, MetaAfter, Added;
    NewDocs(prev, live, crawl, changes, base, verdicts, order);
    AddedOnce(verdicts, crawl);
    assert crawl[k] in IndexedFiles(verdicts, crawl);
    var i :| 0 <= i < |Added(changes)| && Added(changes)[i] == crawl[k];
    id := base + i;
    AppliedAt(live, changes, base, id);
  }

  lemma {:induction false} OnlyIf(prev: StateIndex, live: map<DocId, Doc>, crawl: seq<CrawledFile>, changes: seq<Change>, base: DocId)
    requires Run(prev, live, crawl, changes, base) && Reflects(Applied(live, changes, base), prev, live, crawl)
    ensures NoContestedRename(prev, crawl)
  {
    var verdicts: seq<Verdict>, order: seq<Path> :| PlanFrom(prev, crawl, changes, verdicts, order);
    hide Applied, Reflects, IsPlan, Judges, Trusted, DistinctPaths;
    forall k, j | 0 <= k < |crawl| && 0 <= j < |crawl| && IsRename(prev, crawl, k)
                  && crawl[j].meta.path == prev.byInode[crawl[k].meta.inode] && crawl[j].meta.path in prev.byPath
      ensures !KeptInPlace(prev.byPath[crawl[j].meta.path], crawl[j]) && !KeptOnMove(prev.byPath[crawl[j].meta.path], crawl[k])
    {
      ConsumesIffRename(prev, live, crawl, verdicts, k);
      ContestLoses(prev, live, crawl, changes, base, verdicts, order, k, j);
      MovedIffKept(prev, live, crawl, verdicts, k);
      InPlaceIffKept(prev, live, crawl, verdicts, j);
    }
  }

  /** Where both ends of a rename are crawled and the tree is reflected, neither end kept the document. */
  lemma {:induction false} ContestLoses(prev: StateIndex, live: map<DocId, Doc>, crawl: seq<CrawledFile>, changes: seq<Change>, base: DocId,
                    verdicts: seq<Verdict>, order: seq<Path>, k: nat, j: nat)
    requires Run(prev, live, crawl, changes, base) && Reflects(Applied(live, changes, base), prev, live, crawl)
    requires PlanFrom(prev, crawl, changes, verdicts, order) && k < |crawl| && j < |crawl|
    requires verdicts[k].Consumes() && crawl[j].meta.path == verdicts[k].from
    ensures verdicts[k].MovedAndEdited? && verdicts[j].Kills()
  {
    hide Applied, Deleted, MetaAfter, IsPlan, Reflects, Trusted, DistinctPaths;
    JudgedPath(prev, live, crawl, verdicts, k);
    InPlaceIffKept(prev, live, crawl, verdicts, j);
    if verdicts[k].Moved? && verdicts[j].Kills() {
      var _ := ReflectedHolder(prev, live, crawl, changes, base, verdicts, order, k);
      KilledIsDeleted(prev, live, crawl, changes, base, verdicts, order, j);
    } else if verdicts[k].MovedAndEdited? && !verdicts[j].Kills() {
      var _ := ReflectedHolder(prev, live, crawl, changes, base, verdicts, order, j);
      KilledIsDeleted(prev, live, crawl, changes, base, verdicts, order, k);
    } else if verdicts[k].Moved? {
      KeptByOne(prev, live, crawl, changes, base, verdicts, order, j, k);
    }
  }

  lemma {:induction false} KilledIsDeleted(prev: StateIndex, live: map<DocId, Doc>, crawl: seq<CrawledFile>, changes: seq<Change>, base: DocId,
                       verdicts: seq<Verdict>, order: seq<Path>, k: nat)
    requires Run(prev, live, crawl, changes, base) && PlanFrom(prev, crawl, changes, verdicts, order)
    requires k < |crawl| && verdicts[k].Kills()
    ensures verdicts[k].id in Deleted(changes)
  {
    JudgedPath(prev, live, crawl, verdicts, k);
    DeletedWhen(prev, live, crawl, changes, base, verdicts, order, verdicts[k].id);
  }

  lemma {:induction false} KeptByOne(prev: StateIndex, live: map<DocId, Doc>, crawl: seq<CrawledFile>, changes: seq<Change>, base: DocId,
                 verdicts: seq<Verdict>, order: seq<Path>, j: nat, k: nat)
    requires Run(prev, live, crawl, changes, base) && Reflects(Applied(live, changes, base), prev, live, crawl)
    requires PlanFrom(prev, crawl, changes, verdicts, order) && j < |crawl| && k < |crawl|
    requires verdicts[j].Keeps() && verdicts[k].Keeps() && verdicts[j].id == verdicts[k].id
    ensures j == k
  {
    hide Applied, Deleted, IsPlan, Reflects, Trusted, Describes, DistinctPaths, Judges;
    var a := ReflectedHolder(prev, live, crawl, changes, base, verdicts, order, j);
    var b := ReflectedHolder(prev, live, crawl, changes, base, verdicts, order, k);
    assert a == b;
  }

  lemma {:induction false} ReflectedHolder(prev: StateIndex, live: map<DocId, Doc>, crawl: seq<CrawledFile>, changes: seq<Change>, base: DocId,
                    verdicts: seq<Verdict>, order: seq<Path>, k: nat) returns (id: DocId)
    requires Run(prev, live, crawl, changes, base) && Reflects(Applied(live, changes, base), prev, live, crawl)
    requires PlanFrom(prev, crawl, changes, verdicts, order) && k < |crawl| && verdicts[k].Keeps()
    ensures id in Applied(live, changes, base) && Applied(live, changes, base)[id].meta.path == crawl[k].meta.path
    ensures verdicts[k].id == id && id !in Deleted(changes)
  {
    hide Applied, Dropped, Reflects, Shows, MetaAfter, Added, Deleted, Decide;
    GoneIffDropped(prev, crawl, verdicts, k);
    var after := Applied(live, changes, base);
    hide Run, PlanFrom, Judges;
    id := ReflectedAt(after, prev, live, crawl, k);
    Holder(prev, live, crawl, changes, base, verdicts, order, k, id);
    KeptUndead(live, changes, base, id);
  }

  lemma {:induction false} KeptUndead(live: map<DocId, Doc>, changes: seq<Change>, base: DocId, id: DocId)
    requires id in Applied(live, changes, base) && id < base
    ensures id !in Deleted(changes)
  {
    hide Deleted;
  }

  lemma {:induction false} ReflectedAt(after: map<DocId, Doc>, prev: StateIndex, live: map<DocId, Doc>, crawl: seq<CrawledFile>, k: nat) returns (id: DocId)
    requires Reflects(after, prev, live, crawl) && k < |crawl| && !Dropped(prev, crawl[k])
    ensures id in after && Shows(live, after[id], crawl[k]) && after[id].meta == crawl[k].meta
  {
    hide Dropped;
    assert Shown(after, live, crawl[k]);
    id :| id in after && Shows(live, after[id], crawl[k]);
  }

  // ----- Which documents keep their ids -----

  /** A document was indexed from `bytes`, a text file as it was read then. */
  ghost predicate IndexedFrom(d: Doc, was: CrawledFile) {
    was.kind.TextFile? && was.read.Bytes? && d.record == RecordOf(was)
  }

  /** The document that file `k` was judged to be keeps its id, with the file's metadata, exactly if the verdict keeps it. */
  lemma {:induction false} KeptExactly(prev: StateIndex, live: map<DocId, Doc>, crawl: seq<CrawledFile>, changes: seq<Change>, base: DocId,
                 verdicts: seq<Verdict>, order: seq<Path>, k: nat)
    requires Run(prev, live, crawl, changes, base) && PlanFrom(prev, crawl, changes, verdicts, order)
    requires NoContestedRename(prev, crawl) && k < |crawl| && (verdicts[k].Keeps() || verdicts[k].Kills())
    ensures var id := verdicts[k].id; id in live && id < base
    ensures var id, after := verdicts[k].id, Applied(live, changes, base);
      (id in after <==> verdicts[k].Keeps()) && (id in after ==> after[id] == Doc(crawl[k].meta, live[id].record))
  {
    var id := verdicts[k].id;
    JudgedPath(prev, live, crawl, verdicts, k);
    AppliedAt(live, changes, base, id);
    hide Applied, MetaAfter, Deleted, NoContestedRename, Shows;
    if verdicts[k].Keeps() {
      KeptSurvives(prev, live, crawl, changes, base, verdicts, order, k);
      Holder(prev, live, crawl, changes, base, verdicts, order, k, id);
      ShowsMeta(live, Applied(live, changes, base)[id], crawl[k]);
    } else {
      KilledIsDeleted(prev, live, crawl, changes, base, verdicts, order, k);
    }
  }

  lemma {:induction false} ShowsMeta(live: map<DocId, Doc>, d: Doc, f: CrawledFile)
    requires Shows(live, d, f)
    ensures d.meta == f.meta
  {
  }

  /**
   A file touched in place keeps its document id exactly if its bytes hash as
   those it was indexed from.
   */
  lemma {:induction false} TouchKeepsIff(prev: StateIndex, live: map<DocId, Doc>, crawl: seq<CrawledFile>, changes: seq<Change>, base: DocId,
                k: nat, id: DocId, was: CrawledFile)
    requires Run(prev, live, crawl, changes, base) && NoContestedRename(prev, crawl) && k < |crawl|
    requires id in live && live[id].meta.path == crawl[k].meta.path && IndexedFrom(live[id], was) && !SameIdentity(live[id], crawl[k])
    requires crawl[k].kind.TextFile? && crawl[k].read.Bytes?
    ensures var after := Applied(live, changes, base);
      && (id in after <==> crawl[k].read.hash == was.read.hash)
      && (id in after ==> after[id] == Doc(crawl[k].meta, live[id].record))
  {
    var verdicts: seq<Verdict>, order: seq<Path> :| PlanFrom(prev, crawl, changes, verdicts, order);
    hide Applied, NoContestedRename, IsPlan, DistinctCrawl, Trusted;
    JudgedAt(prev, crawl, verdicts, k);
    assert prev.byPath[crawl[k].meta.path] == StateFor(id, live[id]);
    KeptExactly(prev, live, crawl, changes, base, verdicts, order, k);
  }

  /** A renamed one exactly if its mtime and size are unchanged, or its bytes hash so. */
  lemma {:induction false} MoveKeepsIff(prev: StateIndex, live: map<DocId, Doc>, crawl: seq<CrawledFile>, changes: seq<Change>, base: DocId,
                k: nat, id: DocId, was: CrawledFile)
    requires Run(prev, live, crawl, changes, base) && NoContestedRename(prev, crawl) && k < |crawl| && IsRename(prev, crawl, k)
    requires id in live && live[id].meta.path == prev.byInode[crawl[k].meta.inode] && IndexedFrom(live[id], was)
    requires crawl[k].kind.TextFile? && crawl[k].read.Bytes?
    ensures var after := Applied(live, changes, base);
      && (id in after <==> (live[id].meta.mtime == crawl[k].meta.mtime && live[id].meta.size == crawl[k].meta.size) || crawl[k].read.hash == was.read.hash)
      && (id in after ==> after[id] == Doc(crawl[k].meta, live[id].record))
  {
    var verdicts: seq<Verdict>, order: seq<Path> :| PlanFrom(prev, crawl, changes, verdicts, order);
    hide Applied, NoContestedRename, IsPlan, DistinctCrawl, Trusted;
    ConsumesIffRename(prev, live, crawl, verdicts, k);
    MovedIffKept(prev, live, crawl, verdicts, k);
    JudgedPath(prev, live, crawl, verdicts, k);
    assert prev.byPath[verdicts[k].from] == StateFor(id, live[id]);
    KeptExactly(prev, live, crawl, changes, base, verdicts, order, k);
  }

  // ----- Fixpoint -----

  lemma {:induction false} NothingToDo(verdicts: seq<Verdict>, crawl: seq<CrawledFile>)
    requires |verdicts| <= |crawl|
    ensures CrawlChanges(verdicts, crawl) == [] <==> forall k | 0 <= k < |verdicts| :: verdicts[k].Unchanged?
  {
    if verdicts != [] {
      NothingToDo(verdicts[..|verdicts| - 1], crawl);
      assert forall k | 0 <= k < |verdicts| - 1 :: verdicts[..|verdicts| - 1][k] == verdicts[k];
    }
  }

  /** A plan is empty exactly when the live documents already are the crawled files, none of them dropped. */
  lemma {:induction false} EmptyPlanIff(prev: StateIndex, live: map<DocId, Doc>, crawl: seq<CrawledFile>, changes: seq<Change>, base: DocId)
    requires Run(prev, live, crawl, changes, base)
    ensures changes == [] <==> Reflects(live, prev, live, crawl)
  {
    hide Applied, Describes, Trusted, IsPlan, Standing, Shown, Dropped, DistinctPaths, DistinctCrawl;
    if Reflects(live, prev, live, crawl) {
      NoneDropped(prev, live, crawl);
      ReflectedPlansNothing(prev, live, live, crawl, prev, changes);
    }
    if changes == [] {
      AppliedNone(live, base);
      NothingForeign(prev, live, crawl, changes, base);
      EmptyPlanCovers(prev, live, crawl);
    }
  }

  lemma {:induction false} AppliedNone(live: map<DocId, Doc>, base: DocId)
    ensures Applied(live, [], base) == live
  {
    assert forall id | id in live :: MetaAfter([], id, live[id].meta) == live[id].meta;
  }

  lemma {:induction false} EmptyPlanCovers(prev: StateIndex, live: map<DocId, Doc>, crawl: seq<CrawledFile>)
    requires Describes(prev, live) && Trusted(live, crawl) && IsPlan(prev, crawl, [])
    ensures forall k: nat | k < |crawl| :: Shown(live, live, crawl[k])
  {
    var verdicts: seq<Verdict>, order: seq<Path> :| PlanFrom(prev, crawl, [], verdicts, order);
    NothingToDo(verdicts, crawl);
    hide Describes, Trusted, IsPlan, Judges, Shows;
    forall k: nat | k < |crawl|
      ensures Shown(live, live, crawl[k])
    {
      KeptRecord(prev, live, crawl, verdicts, k);
      var id := verdicts[k].id;
      assert live[id] == Doc(crawl[k].meta, live[id].record);
    }
  }

  /** Nothing is to be done about documents that already are the crawled files. */
  lemma {:induction false} ReflectedPlansNothing(prev: StateIndex, before: map<DocId, Doc>, after: map<DocId, Doc>, crawl: seq<CrawledFile>,
                        next: StateIndex, changes: seq<Change>)
    requires Reflects(after, prev, before, crawl) && Describes(next, after) && IsPlan(next, crawl, changes)
    requires forall k: nat | k < |crawl| :: !Dropped(prev, crawl[k])
    ensures changes == []
  {
    var verdicts: seq<Verdict>, order: seq<Path> :| PlanFrom(next, crawl, changes, verdicts, order);
    hide Dropped, Reflects, Describes, IsPlan, Judges, Enumerates;
    forall k | 0 <= k < |verdicts|
      ensures verdicts[k].Unchanged?
    {
      var id := ReflectedAt(after, prev, before, crawl, k);
      LiveUnchanged(next, after, crawl, verdicts, k, id);
    }
    NothingToDo(verdicts, crawl);
    ReflectedCovers(prev, before, after, crawl, next);
    EnumeratesNone(order, Leftover(next, crawl, verdicts));
  }

  lemma {:induction false} LiveUnchanged(prev: StateIndex, live: map<DocId, Doc>, crawl: seq<CrawledFile>, verdicts: seq<Verdict>, k: nat, id: DocId)
    requires Describes(prev, live) && DistinctPaths(live) && Judges(prev, crawl, verdicts) && k < |verdicts|
    requires id in live && live[id].meta == crawl[k].meta
    ensures verdicts[k].Unchanged?
  {
    JudgedAt(prev, crawl, verdicts, k);
    assert prev.byPath[crawl[k].meta.path].docId == id;
  }

  lemma {:induction false} EnumeratesNone(order: seq<Path>, s: set<Path>)
    requires Enumerates(order, s)
    ensures order != [] ==> s != {}
  {
    if order != [] {
      assert order[0] in s;
    }
  }

  lemma {:induction false} ReflectedCovers(prev: StateIndex, before: map<DocId, Doc>, after: map<DocId, Doc>, crawl: seq<CrawledFile>, next: StateIndex)
    requires Reflects(after, prev, before, crawl) && Describes(next, after)
    ensures next.byPath.Keys <= PathsOf(crawl)
  {
    hide Dropped, Reflects, Shows;
    forall p | p in next.byPath
      ensures p in PathsOf(crawl)
    {
      var k := StandsAt(after, prev, before, crawl, next.byPath[p].docId);
    }
  }

  /** Where the live documents are the crawled files, each known file's document shows it. */
  lemma {:induction false} NoneDropped(prev: StateIndex, live: map<DocId, Doc>, crawl: seq<CrawledFile>)
    requires Describes(prev, live) && DistinctCrawl(crawl) && Reflects(live, prev, live, crawl)
    ensures forall k: nat | k < |crawl| :: !Dropped(prev, crawl[k])
  {
    forall k: nat | k < |crawl|
      ensures !Dropped(prev, crawl[k])
    {
      if crawl[k].meta.path in prev.byPath {
        NoDocDropped(live, prev, live, crawl, k, prev.byPath[crawl[k].meta.path].docId);
      }
    }
  }

  /** No document lives at a dropped file's path. */
  lemma {:induction false} NoDocDropped(after: map<DocId, Doc>, prev: StateIndex, live: map<DocId, Doc>, crawl: seq<CrawledFile>, k: nat, id: DocId)
    requires DistinctCrawl(crawl) && Reflects(after, prev, live, crawl) && k < |crawl| && id in after && after[id].meta.path == crawl[k].meta.path
    ensures !Dropped(prev, crawl[k])
  {
    hide Dropped, Reflects, Shows;
    var j := StandsAt(after, prev, live, crawl, id);
    assert j == k;
  }

  /**
   After an update whose crawl had no contested rename, reconciling the reopened
   index against the same crawl plans nothing, if and only if no file was dropped.
   */
  lemma {:induction false} SecondPlanEmptyIff(prev: StateIndex, live: map<DocId, Doc>, crawl: seq<CrawledFile>, changes: seq<Change>, base: DocId,
                        next: StateIndex, again: seq<Change>)
    requires Run(prev, live, crawl, changes, base) && NoContestedRename(prev, crawl)
    requires Describes(next, Applied(live, changes, base)) && IsPlan(next, crawl, again)
    ensures again == [] <==> forall k: nat | k < |crawl| :: !Dropped(prev, crawl[k])
  {
    ConvergesIff(prev, live, crawl, changes, base);
    var after := Applied(live, changes, base);
    hide Applied, Describes, Trusted, Reflects, Dropped, IsPlan, NoContestedRename;
    if forall k: nat | k < |crawl| :: !Dropped(prev, crawl[k]) {
      ReflectedPlansNothing(prev, live, after, crawl, next, again);
    }
    if again == [] {
      forall k: nat | k < |crawl|
        ensures !Dropped(prev, crawl[k])
      {
        var id := PlannedNothing(next, after, crawl, k);
        NoDocDropped(after, prev, live, crawl, k, id);
      }
    }
  }

  /** Where nothing is planned, every crawled file has its document. */
  lemma {:induction false} PlannedNothing(prev: StateIndex, live: map<DocId, Doc>, crawl: seq<CrawledFile>, k: nat) returns (id: DocId)
    requires Describes(prev, live) && IsPlan(prev, crawl, []) && k < |crawl|
    ensures id in live && live[id].meta.path == crawl[k].meta.path
  {
    var verdicts: seq<Verdict>, order: seq<Path> :| PlanFrom(prev, crawl, [], verdicts, order);
    NothingToDo(verdicts, crawl);
    hide Judges, Describes;
    assert verdicts[k].Unchanged?;
    JudgedPath(prev, live, crawl, verdicts, k);
    id := verdicts[k].id;
  }

  // ----- The failure -----

  /** A file `a` holding `hash`, as read by the crawler. */
  function PlainFile(path: Path, inode: nat, mtime: int, hash: nat): CrawledFile {
    CrawledFile(Meta(path, inode, mtime, 1), TextFile, Bytes(hash, Some([])))
  }

  /** The only plan for: `a` moved to `b`, and a new `a` written. */
  lemma {:induction false} RenameThenRecreatePlan(changes: seq<Change>)
    requires var was := DocOf(PlainFile("a", 1, 10, 7));
      IsPlan(StateIndex(map["a" := StateFor(0, was)], map[1 := "a"]),
             [PlainFile("a", 2, 20, 8), PlainFile("b", 1, 10, 7)], changes)
    ensures changes == [Delete(0), Reindex(PlainFile("a", 2, 20, 8)), Patch(0, Meta("b", 1, 10, 1))]
  {
    var a, newA, b := PlainFile("a", 1, 10, 7), PlainFile("a", 2, 20, 8), PlainFile("b", 1, 10, 7);
    var prev := StateIndex(map["a" := StateFor(0, DocOf(a))], map[1 := "a"]);
    var verdicts: seq<Verdict>, order: seq<Path> :| PlanFrom(prev, [newA, b], changes, verdicts, order);
    JudgedAt(prev, [newA, b], verdicts, 0);
    JudgedAt(prev, [newA, b], verdicts, 1);
    assert verdicts[..1] == [Edited(0)];
    assert Sources(verdicts[..1]) == {};
    assert verdicts[1] == Moved(0, "a");
    assert [newA, b][0].meta.path in PathsOf([newA, b]);
    EnumeratesNone(order, Leftover(prev, [newA, b], verdicts));
    assert verdicts[..1][..0] == [];
    assert CrawlChanges(verdicts[..1], [newA, b]) == [Delete(0), Reindex(newA)];
  }

  /**
   That plan loses `b`: the rename's patch and the edit's tombstone fall on one
   document, and the tombstone wins.
   */
  lemma {:induction false} RenameThenRecreateLoses(changes: seq<Change>)
    requires var was := DocOf(PlainFile("a", 1, 10, 7));
      IsPlan(StateIndex(map["a" := StateFor(0, was)], map[1 := "a"]),
             [PlainFile("a", 2, 20, 8), PlainFile("b", 1, 10, 7)], changes)
    ensures Applied(map[0 := DocOf(PlainFile("a", 1, 10, 7))], changes, 1) == map[1 := DocOf(PlainFile("a", 2, 20, 8))]
  {
    RenameThenRecreatePlan(changes);
    DeleteReindexPatch(PlainFile("a", 2, 20, 8), Meta("b", 1, 10, 1));
    hide Deleted, Added, DocOf, MetaAfter, Applied, IsPlan, StateFor;
    var live := map[0 := DocOf(PlainFile("a", 1, 10, 7))];
    forall id
      ensures id in Applied(live, changes, 1) <==> id == 1
    {
      AppliedAt(live, changes, 1, id);
    }
    AppliedAt(live, changes, 1, 1);
  }

  lemma {:induction false} DeleteReindexPatch(f: CrawledFile, meta: Meta)
    ensures Deleted([Delete(0), Reindex(f), Patch(0, meta)]) == {0} && Added([Delete(0), Reindex(f), Patch(0, meta)]) == [f]
  {
    hide Deleted, Added;
    var d, r, p := Delete(0), Reindex(f), Patch(0, meta);
    assert [d, r, p] == [d] + ([r] + [p]);
    DeletedConcat([d], [r] + [p]);
    DeletedConcat([r], [p]);
    AddedConcat([d], [r] + [p]);
    AddedConcat([r], [p]);
    OneChange(d);
    OneChange(r);
    OneChange(p);
  }

  lemma {:induction false} OneChange(c: Change)
    ensures Deleted([c]) == (if c.Delete? then {c.id} else {}) && Added([c]) == if c.Reindex? then [c.file] else []
  {
    DeletedOne(c);
    assert [c][..0] == [];
  }
}
