/**
 Reconciliation (src/store/state.rs): comparing the live documents of the last
 commit with a fresh crawl, and the plan that results.
 */
module Reconcile {
  import opened Wrappers
  import opened Documents

  datatype FileState = FileState(docId: DocId, inode: nat, mtime: int, size: nat, hash: nat, status: Status)

  datatype StateIndex = StateIndex(byPath: map<Path, FileState>, byInode: map<nat, Path>)

  datatype Change =
    | Delete(id: DocId)
    | Patch(id: DocId, meta: Meta)
    | Reindex(file: CrawledFile)

  /** What is decided about one crawled file. */
  datatype Verdict =
    | Unchanged(id: DocId)               // same path, inode, mtime and size
    | Touched(id: DocId)                 // same path and content, new metadata
    | Edited(id: DocId)                  // same path, content may differ
    | Gone(id: DocId)                    // same path, no longer readable
    | Moved(id: DocId, from: Path)       // renamed, content kept
    | MovedAndEdited(id: DocId, from: Path)
    | Fresh
  {
    predicate Keeps() { Unchanged? || Touched? || Moved? }
    predicate Kills() { Edited? || Gone? || MovedAndEdited? }
    predicate Indexes() { Edited? || MovedAndEdited? || Fresh? }
    predicate Consumes() { Moved? || MovedAndEdited? }
  }

  // ----- Building the state -----

  function StateFor(id: DocId, d: Doc): FileState {
    FileState(id, d.meta.inode, d.meta.mtime, d.meta.size, d.record.hash, d.record.status)
  }

  ghost predicate DistinctPaths(live: map<DocId, Doc>) {
    forall a, b | a in live && b in live && live[a].meta.path == live[b].meta.path :: a == b
  }

  /** `prev` describes exactly the documents of `live`. */
  ghost predicate Describes(prev: StateIndex, live: map<DocId, Doc>) {
    && (forall id | id in live :: live[id].meta.path in prev.byPath)
    && (forall p | p in prev.byPath ::
          var s := prev.byPath[p];
          s.docId in live && live[s.docId].meta.path == p && s == StateFor(s.docId, live[s.docId]))
    && (forall i | i in prev.byInode ::
          i != 0 && prev.byInode[i] in prev.byPath && prev.byPath[prev.byInode[i]].inode == i)
    && (forall p | p in prev.byPath && prev.byPath[p].inode != 0 :: prev.byPath[p].inode in prev.byInode)
  }

  /** The live documents in iteration order, as `Docs::iter` yields them. */
  ghost predicate Lists(docs: seq<(DocId, Doc)>, live: map<DocId, Doc>) {
    && (forall k | 0 <= k < |docs| :: docs[k].0 in live && live[docs[k].0] == docs[k].1)
    && (forall id | id in live :: exists k :: 0 <= k < |docs| && docs[k].0 == id)
  }

  /** `id` is the last document at `p` in iteration order. */
  ghost predicate LastAt(live: map<DocId, Doc>, p: Path, id: DocId) {
    id in live && live[id].meta.path == p && forall o | o in live && live[o].meta.path == p :: o <= id
  }

  ghost predicate LastWith(live: map<DocId, Doc>, inode: nat, id: DocId) {
    id in live && live[id].meta.inode == inode && forall o | o in live && live[o].meta.inode == inode :: o <= id
  }

  /** `prev` is what the documents of `live` are recorded as: a later one replaces an earlier one at its path or inode. */
  ghost predicate Records(prev: StateIndex, live: map<DocId, Doc>) {
    && (forall id | id in live :: live[id].meta.path in prev.byPath)
    && (forall p | p in prev.byPath ::
          var s := prev.byPath[p]; LastAt(live, p, s.docId) && s == StateFor(s.docId, live[s.docId]))
    && (forall id | id in live && live[id].meta.inode != 0 :: live[id].meta.inode in prev.byInode)
    && (forall i | i in prev.byInode :: i != 0 && exists id {:trigger LastWith(live, i, id)} :: LastWith(live, i, id) && prev.byInode[i] == live[id].meta.path)
  }

  /** Where no path is live twice, that describes exactly the live documents. */
  lemma {:induction false} RecordsDescribe(prev: StateIndex, live: map<DocId, Doc>)
    requires Records(prev, live) && DistinctPaths(live)
    ensures Describes(prev, live)
  {
    forall i | i in prev.byInode
      ensures i != 0 && prev.byInode[i] in prev.byPath && prev.byPath[prev.byInode[i]].inode == i
    {
      var id :| LastWith(live, i, id) && prev.byInode[i] == live[id].meta.path;
      assert prev.byPath[live[id].meta.path].docId == id;
    }
  }

  /** Documents come in ascending id order. */
  ghost predicate InOrder(docs: seq<(DocId, Doc)>) {
    forall j, k | 0 <= j < k < |docs| :: docs[j].0 < docs[k].0
  }

  /** The path map after the first `k` documents; `at` tells which document set each entry. */
  ghost predicate PathsScanned(docs: seq<(DocId, Doc)>, k: nat, byPath: map<Path, FileState>, at: map<Path, nat>) {
    && k <= |docs| && byPath.Keys == at.Keys
    && (forall j | 0 <= j < k :: docs[j].1.meta.path in byPath)
    && (forall p | p in byPath ::
          && at[p] < k && docs[at[p]].1.meta.path == p && byPath[p] == StateFor(docs[at[p]].0, docs[at[p]].1)
          && forall j | at[p] < j < k :: docs[j].1.meta.path != p)
  }

  /** Likewise the inode map. */
  ghost predicate InodesScanned(docs: seq<(DocId, Doc)>, k: nat, byInode: map<nat, Path>, at: map<nat, nat>) {
    && k <= |docs| && byInode.Keys == at.Keys
    && (forall j | 0 <= j < k && docs[j].1.meta.inode != 0 :: docs[j].1.meta.inode in byInode)
    && (forall i | i in byInode ::
          && i != 0 && at[i] < k && docs[at[i]].1.meta.inode == i && byInode[i] == docs[at[i]].1.meta.path
          && forall j | at[i] < j < k :: docs[j].1.meta.inode != i)
  }

  method FromDocs(docs: seq<(DocId, Doc)>, ghost live: map<DocId, Doc>) returns (state: StateIndex)
    requires Lists(docs, live) && InOrder(docs)
    ensures Records(state, live)
    ensures DistinctPaths(live) ==> Describes(state, live)
  {
    var byPath: map<Path, FileState> := map[];
    var byInode: map<nat, Path> := map[];
    ghost var pathAt: map<Path, nat> := map[];
    ghost var inodeAt: map<nat, nat> := map[];
    hide PathsScanned, InodesScanned, Records, Describes, Lists, InOrder;
    NoneScanned(docs);
    for k := 0 to |docs|
      invariant PathsScanned(docs, k, byPath, pathAt) && InodesScanned(docs, k, byInode, inodeAt)
    {
      var (id, d) := docs[k];
      PathScanned(docs, k, byPath, pathAt);
      InodeScanned(docs, k, byInode, inodeAt);
      if d.meta.inode != 0 {
        byInode := byInode[d.meta.inode := d.meta.path];
        inodeAt := inodeAt[d.meta.inode := k];
      }
      byPath := byPath[d.meta.path := StateFor(id, d)];
      pathAt := pathAt[d.meta.path := k];
    }
    state := StateIndex(byPath, byInode);
    AllScanned(docs, live, state, pathAt, inodeAt);
    if DistinctPaths(live) {
      RecordsDescribe(state, live);
    }
  }

  lemma {:induction false} NoneScanned(docs: seq<(DocId, Doc)>)
    ensures PathsScanned(docs, 0, map[], map[]) && InodesScanned(docs, 0, map[], map[])
  {
  }

  lemma {:induction false} PathScanned(docs: seq<(DocId, Doc)>, k: nat, byPath: map<Path, FileState>, at: map<Path, nat>)
    requires k < |docs| && PathsScanned(docs, k, byPath, at)
    ensures var (id, d) := docs[k]; PathsScanned(docs, k + 1, byPath[d.meta.path := StateFor(id, d)], at[d.meta.path := k])
  {
  }

  lemma {:induction false} InodeScanned(docs: seq<(DocId, Doc)>, k: nat, byInode: map<nat, Path>, at: map<nat, nat>)
    requires k < |docs| && InodesScanned(docs, k, byInode, at)
    ensures var m := docs[k].1.meta;
      InodesScanned(docs, k + 1, if m.inode != 0 then byInode[m.inode := m.path] else byInode, if m.inode != 0 then at[m.inode := k] else at)
  {
  }

  lemma {:induction false} AllScanned(docs: seq<(DocId, Doc)>, live: map<DocId, Doc>, prev: StateIndex, pathAt: map<Path, nat>, inodeAt: map<nat, nat>)
    requires Lists(docs, live) && InOrder(docs)
    requires PathsScanned(docs, |docs|, prev.byPath, pathAt) && InodesScanned(docs, |docs|, prev.byInode, inodeAt)
    ensures Records(prev, live)
  {
    hide PathsScanned, InodesScanned, Lists, InOrder;
    PathsAll(docs, live, prev.byPath, pathAt);
    InodesAll(docs, live, prev.byInode, inodeAt);
  }

  lemma {:induction false} PathsAll(docs: seq<(DocId, Doc)>, live: map<DocId, Doc>, byPath: map<Path, FileState>, at: map<Path, nat>)
    requires Lists(docs, live) && InOrder(docs) && PathsScanned(docs, |docs|, byPath, at)
    ensures forall id | id in live :: live[id].meta.path in byPath
    ensures forall p | p in byPath :: LastAt(live, p, byPath[p].docId) && byPath[p] == StateFor(byPath[p].docId, live[byPath[p].docId])
  {
    forall id | id in live
      ensures live[id].meta.path in byPath
    {
      var j :| 0 <= j < |docs| && docs[j].0 == id;
    }
    hide PathsScanned, Lists, InOrder, LastAt, StateFor;
    forall p | p in byPath
      ensures LastAt(live, p, byPath[p].docId) && byPath[p] == StateFor(byPath[p].docId, live[byPath[p].docId])
    {
      PathLast(docs, live, byPath, at, p);
    }
  }

  lemma {:induction false} PathLast(docs: seq<(DocId, Doc)>, live: map<DocId, Doc>, byPath: map<Path, FileState>, at: map<Path, nat>, p: Path)
    requires Lists(docs, live) && InOrder(docs) && PathsScanned(docs, |docs|, byPath, at) && p in byPath
    ensures LastAt(live, p, byPath[p].docId) && byPath[p] == StateFor(byPath[p].docId, live[byPath[p].docId])
  {
    hide PathsScanned, Lists, InOrder, StateFor;
    ScannedAt(docs, byPath, at, p);
    var k := at[p];
    ListedAt(docs, live, k);
    forall o | o in live && live[o].meta.path == p
      ensures o <= docs[k].0
    {
      var j := WhereListed(docs, live, o);
      ListedInOrder(docs, j, k);
    }
  }

  lemma {:induction false} ScannedAt(docs: seq<(DocId, Doc)>, byPath: map<Path, FileState>, at: map<Path, nat>, p: Path)
    requires PathsScanned(docs, |docs|, byPath, at) && p in byPath
    ensures p in at && at[p] < |docs| && docs[at[p]].1.meta.path == p && byPath[p] == StateFor(docs[at[p]].0, docs[at[p]].1)
    ensures byPath[p].docId == docs[at[p]].0 && forall j | at[p] < j < |docs| :: docs[j].1.meta.path != p
  {
  }

  lemma {:induction false} ListedAt(docs: seq<(DocId, Doc)>, live: map<DocId, Doc>, k: nat)
    requires Lists(docs, live) && k < |docs|
    ensures docs[k].0 in live && live[docs[k].0] == docs[k].1
  {
  }

  lemma {:induction false} WhereListed(docs: seq<(DocId, Doc)>, live: map<DocId, Doc>, id: DocId) returns (j: nat)
    requires Lists(docs, live) && id in live
    ensures j < |docs| && docs[j] == (id, live[id])
  {
    j :| j < |docs| && docs[j].0 == id;
  }

  lemma {:induction false} ListedInOrder(docs: seq<(DocId, Doc)>, j: nat, k: nat)
    requires InOrder(docs) && j < |docs| && k < |docs|
    ensures j <= k ==> docs[j].0 <= docs[k].0
  {
  }

  lemma {:induction false} InodesAll(docs: seq<(DocId, Doc)>, live: map<DocId, Doc>, byInode: map<nat, Path>, at: map<nat, nat>)
    requires Lists(docs, live) && InOrder(docs) && InodesScanned(docs, |docs|, byInode, at)
    ensures forall id | id in live && live[id].meta.inode != 0 :: live[id].meta.inode in byInode
    ensures forall i | i in byInode ::
              i != 0 && exists id {:trigger LastWith(live, i, id)} :: LastWith(live, i, id) && byInode[i] == live[id].meta.path
  {
    forall id | id in live && live[id].meta.inode != 0
      ensures live[id].meta.inode in byInode
    {
      var j :| 0 <= j < |docs| && docs[j].0 == id;
    }
    forall i | i in byInode
      ensures i != 0 && exists id {:trigger LastWith(live, i, id)} :: LastWith(live, i, id) && byInode[i] == live[id].meta.path
    {
      var id := docs[at[i]].0;
      forall o | o in live && live[o].meta.inode == i
        ensures o <= id
      {
        var j :| 0 <= j < |docs| && docs[j].0 == o;
        assert j <= at[i];
      }
      assert LastWith(live, i, id);
    }
  }

  // ----- Deciding -----

  predicate SameStat(s: FileState, f: CrawledFile) {
    s.mtime == f.meta.mtime && s.size == f.meta.size
  }

  /** Read and hashed, with the hash the baseline recorded. */
  predicate SameHash(s: FileState, f: CrawledFile) {
    f.kind.TextFile? && s.status.WasRead() && f.read.Bytes? && f.read.hash == s.hash
  }

  function Decide(prev: StateIndex, consumed: set<Path>, f: CrawledFile): Verdict {
    if f.meta.path in prev.byPath then
      var prior := prev.byPath[f.meta.path];
      if prior.inode == f.meta.inode && SameStat(prior, f) then Unchanged(prior.docId)
      else if f.kind.TextFile? && prior.status.WasRead() then
        if f.read.Unreadable? then Gone(prior.docId)
        else if f.read.hash == prior.hash then Touched(prior.docId) else Edited(prior.docId)
      else Edited(prior.docId)
    else if f.meta.inode != 0 && f.meta.inode in prev.byInode
            && prev.byInode[f.meta.inode] !in consumed && prev.byInode[f.meta.inode] in prev.byPath then
      var from := prev.byInode[f.meta.inode];
      var prior := prev.byPath[from];
      if SameStat(prior, f) then Moved(prior.docId, from)
      else if f.kind.TextFile? && prior.status.WasRead() then
        if f.read.Unreadable? then Fresh
        else if f.read.hash == prior.hash then Moved(prior.docId, from) else MovedAndEdited(prior.docId, from)
      else MovedAndEdited(prior.docId, from)
    else Fresh
  }

  function ChangesFor(v: Verdict, f: CrawledFile): seq<Change> {
    match v
    case Unchanged(_) => []
    case Touched(id) => [Patch(id, f.meta)]
    case Edited(id) => [Delete(id), Reindex(f)]
    case Gone(id) => [Delete(id)]
    case Moved(id, _) => [Patch(id, f.meta)]
    case MovedAndEdited(id, _) => [Delete(id), Reindex(f)]
    case Fresh => [Reindex(f)]
  }

  /** Rename sources used up by the files judged so far. */
  function Sources(verdicts: seq<Verdict>): set<Path> {
    if verdicts == [] then {}
    else
      var last := verdicts[|verdicts| - 1];
      Sources(verdicts[..|verdicts| - 1]) + (if last.Consumes() then {last.from} else {})
  }

  /** `verdicts` judges the crawl in order, each file knowing the sources used before it. */
  ghost predicate Judges(prev: StateIndex, crawl: seq<CrawledFile>, verdicts: seq<Verdict>) {
    && |verdicts| <= |crawl|
    && (verdicts != [] ==>
          var k := |verdicts| - 1;
          Judges(prev, crawl, verdicts[..k]) && verdicts[k] == Decide(prev, Sources(verdicts[..k]), crawl[k]))
  }

  function CrawlChanges(verdicts: seq<Verdict>, crawl: seq<CrawledFile>): seq<Change>
    requires |verdicts| <= |crawl|
  {
    if verdicts == [] then []
    else
      var k := |verdicts| - 1;
      CrawlChanges(verdicts[..k], crawl) + ChangesFor(verdicts[k], crawl[k])
  }

  function PathsOf(crawl: seq<CrawledFile>): set<Path> {
    set k | 0 <= k < |crawl| :: crawl[k].meta.path
  }

  /** Known paths that were neither crawled nor used as a rename source. */
  function Leftover(prev: StateIndex, crawl: seq<CrawledFile>, verdicts: seq<Verdict>): set<Path> {
    prev.byPath.Keys - PathsOf(crawl) - Sources(verdicts)
  }

  /** `order` visits every element of `s` once. */
  ghost predicate Enumerates(order: seq<Path>, s: set<Path>) {
    && (forall p :: p in order <==> p in s)
    && (forall i, j | 0 <= i < j < |order| :: order[i] != order[j])
  }

  function DeletionsFor(prev: StateIndex, order: seq<Path>): seq<Change>
    requires forall p | p in order :: p in prev.byPath
  {
    if order == [] then []
    else DeletionsFor(prev, order[..|order| - 1]) + [Delete(prev.byPath[order[|order| - 1]].docId)]
  }

  /**
   `changes` is a plan for this crawl: the per-file changes in crawl order,
   then one deletion for each leftover path, in any order.
   */
  ghost predicate IsPlan(prev: StateIndex, crawl: seq<CrawledFile>, changes: seq<Change>) {
    exists verdicts: seq<Verdict>, order: seq<Path> :: PlanFrom(prev, crawl, changes, verdicts, order)
  }

  ghost predicate PlanFrom(prev: StateIndex, crawl: seq<CrawledFile>, changes: seq<Change>,
                           verdicts: seq<Verdict>, order: seq<Path>)
  {
    && |verdicts| == |crawl| && Judges(prev, crawl, verdicts)
    && Enumerates(order, Leftover(prev, crawl, verdicts))
    && changes == CrawlChanges(verdicts, crawl) + DeletionsFor(prev, order)
  }

  method Plan(prev: StateIndex, crawl: seq<CrawledFile>) returns (changes: seq<Change>)
    ensures IsPlan(prev, crawl, changes)
  {
    hide Judges, Sources, CrawlChanges, PathsOf;
    NothingJudged(prev, crawl);
    changes := [];
    var seen: set<Path> := {};
    var consumed: set<Path> := {};
    ghost var verdicts: seq<Verdict> := [];
    for k := 0 to |crawl|
      invariant seen == PathsOf(crawl[..k])
      invariant |verdicts| == k && Judges(prev, crawl, verdicts)
      invariant consumed == Sources(verdicts)
      invariant changes == CrawlChanges(verdicts, crawl)
    {
      var f := crawl[k];
      ghost var v := Decide(prev, consumed, f);
      JudgesMore(prev, crawl, verdicts, v);
      verdicts := verdicts + [v];
      var path := f.meta.path;
      PathsMore(crawl, k);
      seen := seen + {path};
      if path in prev.byPath {
        var prior := prev.byPath[path];
        if prior.inode == f.meta.inode && prior.mtime == f.meta.mtime && prior.size == f.meta.size {
          continue;
        }
        if f.kind.TextFile? && prior.status.WasRead() {
          match f.read {
            case Bytes(hash, _) =>
              if hash == prior.hash {
                changes := changes + [Patch(prior.docId, f.meta)];
              } else {
                changes := changes + [Delete(prior.docId), Reindex(f)];
              }
            case Unreadable =>
              changes := changes + [Delete(prior.docId)];
          }
        } else {
          changes := changes + [Delete(prior.docId), Reindex(f)];
        }
        continue;
      }
      if f.meta.inode != 0 && f.meta.inode in prev.byInode {
        var oldPath := prev.byInode[f.meta.inode];
        if oldPath !in consumed && oldPath in prev.byPath {
          var prior := prev.byPath[oldPath];
          if prior.mtime == f.meta.mtime && prior.size == f.meta.size {
            changes := changes + [Patch(prior.docId, f.meta)];
            consumed := consumed + {oldPath};
            continue;
          }
          if f.kind.TextFile? && prior.status.WasRead() {
            if f.read.Bytes? {
              consumed := consumed + {oldPath};
              if f.read.hash == prior.hash {
                changes := changes + [Patch(prior.docId, f.meta)];
              } else {
                changes := changes + [Delete(prior.docId), Reindex(f)];
              }
              continue;
            }
          } else {
            changes := changes + [Delete(prior.docId), Reindex(f)];
            consumed := consumed + {oldPath};
            continue;
          }
        }
      }
      changes := changes + [Reindex(f)];
    }
    assert crawl[..|crawl|] == crawl;
    ghost var order;
    changes, order := DeleteLeftovers(prev, changes, seen, consumed);
    assert PlanFrom(prev, crawl, changes, verdicts, order);
  }

  lemma {:induction false} NothingJudged(prev: StateIndex, crawl: seq<CrawledFile>)
    ensures Judges(prev, crawl, []) && Sources([]) == {} && CrawlChanges([], crawl) == [] && PathsOf(crawl[..0]) == {}
  {
  }

  lemma {:induction false} JudgesMore(prev: StateIndex, crawl: seq<CrawledFile>, verdicts: seq<Verdict>, v: Verdict)
    requires Judges(prev, crawl, verdicts) && |verdicts| < |crawl| && v == Decide(prev, Sources(verdicts), crawl[|verdicts|])
    ensures Judges(prev, crawl, verdicts + [v])
    ensures Sources(verdicts + [v]) == Sources(verdicts) + (if v.Consumes() then {v.from} else {})
    ensures CrawlChanges(verdicts + [v], crawl) == CrawlChanges(verdicts, crawl) + ChangesFor(v, crawl[|verdicts|])
  {
    assert (verdicts + [v])[..|verdicts|] == verdicts;
  }

  lemma {:induction false} PathsMore(crawl: seq<CrawledFile>, k: nat)
    requires k < |crawl|
    ensures PathsOf(crawl[..k + 1]) == PathsOf(crawl[..k]) + {crawl[k].meta.path}
  {
    assert forall i | 0 <= i <= k :: crawl[..k + 1][i] == crawl[i];
    assert forall i | 0 <= i < k :: crawl[..k][i] == crawl[..k + 1][i];
    assert crawl[..k + 1][k].meta.path == crawl[k].meta.path;
  }

  /** The closing pass over the known paths, in whatever order the map yields them. */
  method DeleteLeftovers(prev: StateIndex, found: seq<Change>, seen: set<Path>, consumed: set<Path>)
    returns (changes: seq<Change>, ghost order: seq<Path>)
    ensures Enumerates(order, prev.byPath.Keys - seen - consumed)
    ensures changes == found + DeletionsFor(prev, order)
  {
    changes := found;
    order := [];
    var pending := prev.byPath.Keys;
    ghost var leftover := prev.byPath.Keys - seen - consumed;
    while pending != {}
      invariant pending <= prev.byPath.Keys
      invariant Enumerates(order, leftover - pending)
      invariant changes == found + DeletionsFor(prev, order)
      decreases pending
    {
      var path :| path in pending;
      if path !in seen && path !in consumed {
        changes := changes + [Delete(prev.byPath[path].docId)];
        assert (order + [path])[..|order|] == order;
        order := order + [path];
      }
      pending := pending - {path};
    }
    assert leftover - {} == leftover;
  }
}
