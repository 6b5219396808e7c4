# A verified model of ripindex

ripindex keeps a full-text index of a directory tree as immutable segments under
one manifest, and answers boolean and phrase queries over it. This project models
the storage engine and the query code that must agree with it, and proves what
they promise: what every commit keeps, what every run of concurrent merges,
updates and opens can observe, and what the bytes on disk mean.

`dafny verify dfyconfig.toml` checks everything.

## How the model is laid out

| part | modules |
|---|---|
| documents, tokens, posting lists | `Documents`, `Tokenizer`, `TokenPieces`, `TokenMeaning`, `Postings` |
| builds | `Build` |
| the committed index and its live documents | `Segments` |
| reconcile and update | `Reconcile`, `Convergence`, `Update` |
| merges | `PlanMerges`, `PlanMeaning`, `PlanBands`, `MergePrepare`, `MergeCommit`, `MergeMeaning`, `MergeRuns`, `MergeProgress`, `MergeFiles`, `RunExamples` |
| files, power loss, the commit protocol | `Files`, `Disk`, `FaultFs`, `Commit`, `Publishing`, `Sweeping` |
| histories, what the program may commit, readers racing a writer | `History`, `Writers`, `Recovery`, `WriterMoves`, `ProgramRuns`, `Reuse` |
| byte formats | `Bytes`, `Fields`, `Envelope`, `DiskPostings`, `TermDict`, `TermLookup`, `TermRead`, `TermReadings`, `TermScan`, `TermVerify`, `TermFile`, `SegmentFile`, `ManifestFile`, `CommittedManifests`, `FormatTables` |
| queries | `Lexer`, `Lexemes`, `Parser`, `Grammar`, `Derivations`, `Query`, `Hits`, `Exec`, `ExecTree`, `Ranking`, `Evaluate`, `Invariance` |

Values (documents, manifests, plans, query trees) are datatypes. What the source
changes in place is a class with those fields (`TermStore`, `SegmentAcc`,
`MemPostingCursor`, `DiskCursor`, `BlockScan`, `TermIter`, `Tokens`, `Parser`,
`FaultFs`) or a method with the source's loops, proved against a function whose
meaning is then proved in lemmas. A checksum or content hash stands for the
contents it covers.

## What does not hold, and exactly when it does

The code keeps its behaviour here; each failure has a concrete input, run or disk,
and an exact condition.

- **Reconcile can lose a file.** A rename source is looked up by inode without
  checking that the old path is gone (src/store/state.rs:183-192). After `mv a b`
  and a new `a`, the rename's patch and the edit's tombstone fall on one document
  and `b` is lost (`RenameThenRecreateLoses`); a new hard link does the same. The
  index reflects the tree if and only if no rename is contested (`ConvergesIff`): none
  took its document from a path that is still there, unless both the old and the new
  path get a new document anyway (`NoContestedRename`).
- **A second update is not always idle.** A file that was indexed, has changed and can
  no longer be read loses its document (src/store/state.rs:165-168), where a new file
  that cannot be read gets one, as skipped. So the next update, over the same tree,
  records the dropped file again. Where no rename is contested, a second plan is empty
  if and only if no file was dropped (`SecondPlanEmptyIff`).
- **A merge forgets overlay patches that land after its snapshot.** Only deletions
  are carried forward (src/store/merge.rs:367-382). In a four-state run of planned
  steps a file's new metadata is live before a merge commits and nowhere after it
  (`RunExamples.LostPatchInRun`). If the patch was a rename and another file has come
  up at the old path, that path is then live twice (`RunExamples.PathTwiceInRun`), and
  no update ever reaches the earlier of the two while the later stands there
  (`ShadowedStays`). A merged document keeps its current path and
  metadata if and only if no differing patch landed since (`MetadataKeptIff`,
  `MetadataInEveryRun`). Liveness and content are always kept.
- **Overlay generation numbers are reused.** The generation goes back to zero when
  the overlay empties (src/store/update.rs:158-179), so a reader holding an old
  manifest can find a later overlay, committed or not, under the name it knows and
  report corruption. Three commits suffice: index a file, touch it, put another file in
  its place (`ThreeCommitsMislead`). Over a given history of commits made by builds,
  planned merges and updates from plans, a reader of the `k`th can report a sound index
  as corrupt if and only if it has an overlay, a later commit's generation is just below
  its own, and there an update can write other patches: some live document has an inode,
  or was read and is the last at its path, or the overlay left standing is neither empty
  nor the `k`th's (`CorruptIff`, `Rewritable`). Segment ids and deletion generations are
  never reused (`NeverReused`).
- **Removing files under an unsynced manifest is unsafe under power loss.** A failing
  second sync is logged and retirement still runs (src/store/writer.rs:346-356).
  With that one fault, a commit that retires anything, such as rebuilding an emptied
  tree (`EmptyRebuildRetires`), leaves a disk that some power loss turns into neither
  index (`FailedSyncLosesBoth`). After any commit, a power loss brings back one of the
  two indexes if and only if that sync succeeded or no file of the old one was removed
  (`Publish`, with `RecoverableIff`). A process that dies at that sync leaves both safe,
  but the next open sweeps without syncing (src/store/reader.rs:111-125), and with it a
  power loss may leave neither (`DeathThenSweepLosesBoth`). A sweep is safe if and only
  if no manifest that a power loss may bring back names a file it removed; one that
  meets no failure, if and only if every index that may come back has only files of the
  index read (`Sweeping.Sweep`, `SweepSafeIff`), as it does once the manifest's entry is
  durable. Without a power loss a crash is always safe.
- **Entries are sorted unstably by base.** A merge of a segment with nothing live
  leaves an empty segment, and the next document appended shares its base; the sort at
  src/store/merge.rs:330 may then put them the wrong way round. A six-state run of
  planned steps ends in such a merge, and no manifest of the swapped entries passes the
  decoder's checks (`RunExamples.TieInRun`, `ManifestFile.Decode`). Any sort keeps the
  order if and only if ties are between empty segments (`AnySortOrderedIff`).
  `CommitMerges` reads the sort as stable.
- **Varints have several spellings.** The reader accepts encodings the writer never
  makes, such as `[128, 0]` for zero (`SpareZero`): a spelling is the written one if and
  only if it does not end in a zero group (`MinimalIff`), where its documentation
  promises to reject overlong ones (src/format/varint.rs:21-22). Its "longer than ten
  bytes" branch cannot be reached.
- **An unreachable arm.** After a query has parsed, the only token that can be left
  over is `)` (`OrAt`), so the other arm of the final match (src/query/parser.rs:234-240)
  is never taken.
- **Documentation.** `commit_merges` says it discards every staged file when a source
  is gone (src/store/merge.rs:276-279); on that path it only removes what it had moved
  into place (src/store/merge.rs:313-318, 335-340). A `max_merge` below two still makes
  groups of two (src/store/merge.rs:109).

## Hypotheses

Stated where they are used: crawled paths are distinct, equal metadata or an equal hash
means equal content, and no path is live twice to begin with (`Convergence.Run`; reads
may fail; inodes may repeat; updates keep paths distinct and merges need not,
see above; `FromDocs`, `UpdateFromCrawl` and everything about overlays hold without it);
ids, counts and offsets fit their 32- and 64-bit fields (`Fits`,
`FitsFile`, `FitsPosting`); which byte strings are UTF-8 is any predicate; UAX #29 words
and Unicode tables are given (`Script`); BM25's two formulas are any real-valued functions
(`Scoring`). The runs of `RunExamples` use the default merge policy
(src/store/merge.rs:71-75) and segments within its size.

## Model

| member | source | states |
|---|---|---|
| `Convergence.ConvergesIff` | src/store/state.rs:140-235 | Whatever could be read: after the plan there is exactly one live document per crawled file, with its path, inode, mtime, size and content, but for files dropped as unreadable, and no other, if and only if no rename was contested |
| `Convergence.ReflectsMirrors` | src/store/state.rs:140-235 | Where every file can be read, that is one document equal to each file and no other |
| `Convergence.TouchKeepsIff` | src/store/state.rs:155-181 | A text file touched in place keeps its document id exactly if its bytes hash as those it was indexed from |
| `Convergence.MoveKeepsIff` | src/store/state.rs:183-217 | A renamed one exactly if its mtime and size are unchanged, or its bytes hash so |
| `Convergence.NothingForeign` | src/store/state.rs:140-235 | In every case, whatever is live afterwards shows some crawled file that was not dropped, and no path is live twice |
| `Convergence.RenameThenRecreateLoses` | src/store/state.rs:183-192 | `mv a b` then a new `a`: the only plan leaves no document for `b` |
| `Convergence.EmptyPlanIff` | src/store/state.rs:98-121 | A plan is empty exactly when the live documents already are the crawled files, none of them dropped |
| `Convergence.SecondPlanEmptyIff` | src/store/state.rs:151-181 | After an uncontested update, reconciling the reopened index against the same crawl plans nothing, if and only if no file was dropped |
| `Convergence.ConsumesIffRename` | src/store/state.rs:183-217 | A rename source is used up by exactly the first crawled file that claims its inode: one at an unknown path, and not a changed text file that cannot be compared |
| `Reconcile.FromDocs` | src/store/state.rs:45-66 | The state maps hold, for every live path and inode, the last live document there, and nothing else; with paths distinct they describe exactly the live documents |
| `Reconcile.Plan` | src/store/state.rs:140-235 | The loop makes a plan that judges every crawled file in turn and then deletes every path left over, in any order |
| `Update.Tombstone` | src/store/update.rs:112-146 | Each segment's tombstones grow by exactly the deleted ids it owns, with a new generation only if some are new |
| `Update.GroupBySegment` | src/store/update.rs:112-119 | Deleted ids end up as locals under the one segment that owns each; ids in gaps are ignored |
| `Update.UpdateIndex` | src/store/update.rs:98-187 | The committed index is the previous one with tombstones, appended segments and merged overlay |
| `Update.UpdateApplies` | src/store/update.rs:98-187 | The reader's live documents after the commit are the plan applied to those before, and nothing else |
| `Update.UpdateWellFormed` | src/store/update.rs:98-187 | An update keeps ranges ascending and disjoint, ids distinct and below the next id, and issues document ids only upward |
| `Update.UpdateFromCrawl` | src/store/update.rs:34-210 | One update from crawl to commit, whatever is live: an empty plan commits nothing, any other commits one generation with the plan applied |
| `Update.UpdateMirrorsIff` | src/store/update.rs:34-210 | The committed index reflects the crawl exactly when no rename was contested; where every file could be read, that is to mirror it |
| `Update.Docs` | src/store/reader.rs:376-416 | Iteration yields each live document once, ids strictly ascending, overlay applied |
| `Segments.LocateIff` | src/store/reader.rs:306-313 | Over ascending disjoint ranges, locating finds a place if and only if it owns the id |
| `Segments.LiveIsPlaces` | src/store/reader.rs:356-367 | The ids live through the reader are exactly the untombstoned locals of the segments that own them |
| `Postings.TermStore.Push` | src/index/memory.rs:28-44 | A position joins its document's entry, opens a new one, or is dropped as a repeat; other terms are untouched |
| `Postings.TermStore.IndexDocument` | src/index/builder.rs:204-221 | Every term's list grows by exactly the document's positions of it |
| `Postings.TermStore.MergeShard` | src/index/memory.rs:144-158 | Folding in a later shard appends its list to every term's list |
| `Postings.IndexedDocValid` | src/index/builder.rs:204-221 | Whatever the tokenizer emits in order, an indexed document's positions strictly increase |
| `Postings.SeekLands` | src/index/memory.rs:84-107 | Where a seek must land: the first posting at or after the target, never before the start |
| `Postings.MemPostingCursor.Seek` | src/index/memory.rs:84-107 | Galloping then bisecting lands exactly there |
| `Postings.PartitionPoint` | src/index/memory.rs:84-107 | Bisection splits the interval into documents below the target and documents at or past it |
| `Tokenizer.SplitCamel` | src/tokenizer.rs:205-227 | The loop cuts a segment in pieces, before exactly the capitals after a lower-case letter or digit, or after a capital and before a lower-case letter |
| `Tokenizer.CamelCuts` | src/tokenizer.rs:205-227 | So do the parts of any segment, whatever the script's classes |
| `TokenPieces.CutsAre` | src/tokenizer.rs:150-169 | What cuts words: ASCII punctuation but `_`, and beyond ASCII exactly the punctuation UAX #29 keeps inside words |
| `TokenPieces.AtomsPlaced` | src/tokenizer.rs:72-98 | A word's atoms are, from left to right, all its longest runs without such characters that hold a letter or digit |
| `TokenPieces.PartsArePieces` | src/tokenizer.rs:171-227 | An identifier's parts are the stretches between neighbouring cuts and underscores, unless there is only one and it is the whole |
| `TokenPieces.AtomTokensAre` | src/tokenizer.rs:104-123 | An atom's tokens are the atom and each part that differs from it once folded, all at its position |
| `TokenPieces.PieceFindsDocument` | src/tokenizer.rs:12-22 | Each stretch between two neighbouring cuts of an identifier finds the document that holds it |
| `Tokenizer.PartsCover` | src/tokenizer.rs:171-180 | Splitting an identifier loses nothing but underscores and makes no empty part |
| `Tokenizer.Tokens.NextAtom` | src/tokenizer.rs:72-98 | Yields the words' atoms one after another, skipping runs with no letter or digit |
| `Tokenizer.Tokens.Next` | src/tokenizer.rs:104-123 | Yields each atom, then its new parts at the same position |
| `Tokenizer.Tokenize` | src/tokenizer.rs:126-134 | Draining the iterator gives the atoms' tokens in order |
| `TokenMeaning.TokensOrdered` | src/tokenizer.rs:104-123 | Positions never go back, which is all the encoder needs |
| `TokenMeaning.LengthIsAtoms` | src/index/builder.rs:204-221 | A document's length is its number of atoms, however they split |
| `TokenMeaning.QuerySide` | src/tokenizer.rs:130-134 | Query-side tokens are the same atoms at the same positions, unsplit |
| `TokenMeaning.StretchFindsDocument` | src/tokenizer.rs:17-27 | Any consecutive atoms of a document, typed as a bare word or in quotation marks, parse to a query that matches it |
| `TokenMeaning.PartFindsDocument` | src/tokenizer.rs:17-27 | Any identifier part finds the document as a single term, at the identifier's position |
| `TokenMeaning.EncoderAcceptsTokenized` | src/store/writer.rs:260-290 | The encoder refuses no list that the tokenizer and builder produced |
| `Build.IndexShard` | src/index/builder.rs:140-178 | A shard's term map is exactly that of its files, with one outcome per file |
| `Build.SegmentAcc.Absorb` | src/store/writer.rs:157-177 | Absorbing a shard extends the accumulated documents and their lists by the shard's |
| `Build.SegmentAcc.Flush` | src/store/writer.rs:260-320 | The flushed segment holds the accumulated documents, lists on local ids |
| `Build.BuildSegments` | src/store/writer.rs:174-229 | Segments tile the crawl: consecutive, non-empty, ids in sequence, each holding its files; each ends at the first shard end at which it has its fill of documents or bytes, the last one at the end of the crawl |
| `Build.CutIrrelevant` | src/store/writer.rs:187-229 | However a build is cut, all segments' postings of a term together are those of one sequential pass |
| `Build.EncoderAccepts` | src/store/writer.rs:236-245 | Every list a build produces satisfies the encoder's invariants |
| `PlanMerges.Log2Is` | src/store/merge.rs:99-102 | The tier of a size is the one power of two at or below it |
| `PlanMerges.PlanAll` | src/store/merge.rs:80-116 | The planner's loops compute rewrites, then tiers in ascending order, each cut into runs; what a tier is, `PlanBands` says |
| `PlanMeaning.PlannedOnce` | src/store/merge.rs:80-116 | No segment is planned twice |
| `PlanMeaning.PlanGroups` | src/store/merge.rs:80-116 | Every group is within the length cap, every member within the size cap, exactly the over-deleted stand alone, and what is pooled together is of one tier |
| `PlanMeaning.PlannedIff` | src/store/merge.rs:80-116 | Exactly which segments are planned: the over-deleted, and those pooled in a large enough tier but for its odd one out |
| `PlanMeaning.PlanEmptyIff` | src/store/merge.rs:80-116 | A plan is empty exactly when nothing is over-deleted and no tier is full |
| `PlanBands.PlannedExactly` | src/store/merge.rs:80-116 | Exactly which segments are planned, by their sizes and tombstones alone: those with too many, and those with enough others whose live bytes lie between the same powers of two, but for the odd one out |
| `PlanBands.PlanMeans` | src/store/merge.rs:80-116 | A planned group is one segment with too many tombstones, or segments whose live bytes (size times the share not deleted, at least one mebibyte) lie between one power of two and the next |
| `PlanBands.PooledWithinTwofold` | src/store/merge.rs:95-103 | Two segments with nothing deleted, of a mebibyte or more, merged together differ in size by less than a factor of two |
| `PlanBands.TombstonesLower` | src/store/merge.rs:99-102 | More tombstones never raise a segment's tier |
| `MergePrepare.PrepareMerge` | src/store/merge.rs:164-275 | The prepared merge numbers exactly the snapshot's survivors in order and holds their rewritten postings |
| `MergePrepare.NewIdInjective` | src/store/merge.rs:182-199 | Survivors get new ids one-to-one |
| `MergePrepare.RewritePostings` | src/store/merge.rs:201-224 | From the sources' drained dictionaries, the merged term map is the term map of the merged documents |
| `MergeFiles.Drain` | src/format/idx.rs:475-498 | Draining the iterator over a written file, decoding each list, gives exactly the dictionary written; an error exactly when a term is not UTF-8 |
| `MergeFiles.DrainFile` | src/store/merge.rs:202-219 | Over a segment's file, that is the term map of its documents without their over-long terms |
| `MergeFiles.MergeSegmentFiles` | src/store/merge.rs:164-275 | From the files of the sources to a file of the merged segment: drain, renumber, rewrite, sort, write |
| `MergeCommit.FinishOne` | src/store/merge.rs:348-414 | The merged segment carries exactly the tombstones found for its survivors |
| `MergeCommit.CommitMerges` | src/store/merge.rs:280-346 | Fails exactly when a source is gone; otherwise sources are replaced by consecutive new segments above every id |
| `MergeMeaning.CarryExact` | src/store/merge.rs:365-382 | A survivor is tombstoned in the merged segment if and only if it is tombstoned in its source now |
| `MergeMeaning.MergeWellFormed` | src/store/merge.rs:312-333 | A merge commit keeps the index well formed, its entries already sorted by base |
| `MergeMeaning.MergePreserves` | src/store/merge.rs:164-414 | The documents live after a merge commit are those live just before, content and postings included, under new ids one-to-one |
| `MergeMeaning.MetadataKeptIff` | src/store/merge.rs:367-382 | A merged document keeps its current metadata if and only if no differing patch landed since the snapshot |
| `MergeRuns.MergesPreserveInEveryRun` | src/daemon/actor.rs:169-318 | In every run of updates, rebuilds and one merge in flight, each merge commit preserves what was live just before it, and one whose sources are gone changes nothing |
| `MergeRuns.RebuildDefeatsMerge` | src/store/merge.rs:313-318 | After a full rebuild no merge in flight can commit over it |
| `MergeRuns.MetadataInEveryRun` | src/store/merge.rs:367-382 | In every run, metadata survives a merge exactly when unpatched since its snapshot |
| `MergeRuns.DeadStaysDead` | src/store/merge.rs:312-333 | In every run of updates and merges, an id once dead is never live again, so a patch left behind never applies to a later document |
| `MergeRuns.RunKeepsInv` | src/daemon/actor.rs:169-190 | Every state of every run is well formed, with the merge in flight still current |
| `MergeProgress.PlanIsBatch` | src/store/merge.rs:421-443 | Whatever is planned can be committed: its groups exist and are disjoint |
| `MergeProgress.PassShrinks` | src/store/merge.rs:421-443 | Each pass strictly decreases segments plus tombstones |
| `MergeProgress.PassesBounded` | src/store/merge.rs:421-443 | No more passes can follow one another than there were segments and tombstones |
| `MergeProgress.RestReached` | src/store/merge.rs:421-443 | Called that many times in a row, merging ends at an index for which nothing is planned |
| `MergeProgress.MergeIndex` | src/store/merge.rs:421-443 | The unchanged index when nothing is planned, otherwise one committed pass |
| `Files.ReferencedIff` | src/store/mod.rs:93-112 | A manifest vouches for a file exactly as the segment owning it, or the overlay, says |
| `Files.VouchedIff` | src/store/mod.rs:93-112 | Spelled out: a segment's postings document by document, its doc table, its tombstones under the current generation, and the overlay under its |
| `Files.OpenOnce` | src/store/reader.rs:78-167 | An open succeeds exactly when every named file is there and whole, and says which is not |
| `Files.SweepKeeps` | src/store/reader.rs:111-125 | After a sweep a file is gone exactly if it is a segment, doc-table, deletions, overlay or temporary file that the manifest read does not name: nothing staged, not the lock, not the manifest, and no temporary is left |
| `Files.Sweep` | src/store/reader.rs:111-125 | The loop over the directory's names leaves exactly that, and the open that follows the index it read |
| `Disk.RecoverableReopens` | src/store/writer.rs:341-358 | A recoverable disk reopens, after any power loss, as one of its choices |
| `Disk.RecoverableIff` | src/store/writer.rs:341-358 | And only such a disk does |
| `Disk.RemovalSafeIff` | src/store/writer.rs:346-356 | Removing a file is safe under power loss exactly when no manifest a loss may leave names it |
| `Disk.WriteLoss` | src/fs.rs:23-45 | What a power loss may leave of a file just written: the bytes, a torn file, or what was there; once it is synced, no torn file |
| `Disk.RenameLoss` | src/fs.rs:23-45 | And after a rename: under the new name the file, torn only if it was not synced, or what was there; under the old one nothing, or what was there |
| `Disk.RemoveLoss` | src/fs.rs:23-45 | After a removal: nothing, or what was there |
| `Disk.SyncDirLoss` | src/fs.rs:44-45 | After a directory sync: the directory's own entries stay, and only a file that is not synced itself may be torn |
| `Disk.LossIff` | src/fs.rs:44-45 | Entries come back independently of each other |
| `FaultFs.FaultFs.Begin` | src/fs.rs:240-254 | An operation runs and is counted and logged unless the process is dead or dies at it, which it does at exactly the planned operation |
| `FaultFs.FaultFs.Write` | src/fs.rs:264-285 | Exactly when a write succeeds; it lands whole, is torn, or poisons the file so that it can never be synced |
| `FaultFs.FaultFs.SyncDir` | src/fs.rs:373-384 | Exactly when a directory sync succeeds; it makes the entries durable or leaves them as they were |
| `Commit.WriteWhole` | src/store/writer.rs:325-331 | On success the bytes are whole and on stable storage; on failure only that name moved; without a fault it succeeds |
| `Commit.CommitManifest` | src/store/writer.rs:341-358 | Operation by operation: before the rename nothing but the temporary moved; after it the new index is committed, and a power loss keeps one of the two exactly when the second sync succeeded or nothing of the old index was removed |
| `Commit.CommitSequence` | tests/fault_injection.rs:189-210 | What it logs, operation by operation: the directory synced, the manifest's temporary created, written, synced and closed, renamed, the directory synced again, and each retired file removed in order |
| `Commit.Publish` | src/store/writer.rs:82-105 | A build, update or merge leaves exactly the old index or exactly the new one, at whatever operation a call failed or the process died, the new one if nothing fails; exactly when that survives a power loss; and every operation is a step a writer may take in a run with readers |
| `Commit.RetiringUnsyncedIsUnsafe` | src/store/writer.rs:346-356 | Retiring after the second sync failed, a power loss may leave the old manifest without its file |
| `Publishing.ExtensionPublishes` | src/store/writer.rs:341-358 | Placing the files a new index does not share with the old one, and retiring any it drops, is what the protocol needs |
| `Publishing.EveryStepPublishes` | src/daemon/actor.rs:169-318 | For whatever a build, update or merge commits there is such a list of files |
| `Publishing.FailedSyncLosesBoth` | src/store/writer.rs:346-356 | With only the second sync failing, a commit that retires anything ends on a disk that some power loss turns into neither index |
| `Publishing.EmptyRebuildRetires` | src/store/writer.rs:82-105 | Rebuilding over one indexed file when the tree has become empty is such a commit |
| `Sweeping.Sweep` | src/store/reader.rs:111-125 | Removes only segment, doc-table, deletions, overlay and temporary files that the index read does not name, and all of them if nothing fails; keeps every possible recovery exactly when nothing gone is named by a manifest that may come back |
| `Sweeping.RemovalsSafeIff` | src/store/writer.rs:346-356 | Whatever is removed in whatever order, that is exactly when it is safe |
| `Sweeping.SweepSafeIff` | src/store/reader.rs:111-125 | A complete sweep is safe exactly when every index that may come back has only files of the index read |
| `Sweeping.UnsyncedSweepIff` | src/store/reader.rs:111-125 | After a commit whose rename was not synced: exactly when the old index has no file that the new one lacks |
| `Sweeping.DeathThenSweepLosesBoth` | src/store/reader.rs:78-126 | A commit that retires anything, dead at its second sync; the next open sweeps; some power loss then leaves neither index |
| `WriterMoves.LeadsReach` | src/store/writer.rs:341-358 | Operations that stop short of the rename keep a run of the writer and its readers going |
| `WriterMoves.LandsReach` | src/store/writer.rs:341-358 | So do those that pass it: what is proved of every run holds wherever a commit stopped |
| `History.CommonAgree` | src/store/mod.rs:103-112 | A name two successive manifests both use has the same contents under both, overlays included |
| `History.UpdateExtends` | src/store/update.rs:98-187 | What an update commits reuses no name with other contents |
| `History.MergeExtends` | src/store/merge.rs:312-333 | Nor does a merge |
| `History.NeverReused` | src/store/reader.rs:78-167 | A segment, doc-table or deletions file named by two committed manifests, however far apart, has the same contents |
| `History.OverlayNotReused` | src/store/update.rs:158-182 | Overlay generations are reused only after the overlay has been dropped |
| `Recovery.OldOrNewInEveryRun` | src/store/writer.rs:341-358 | In every interleaving of a writer, crashes and readers, the directory always opens as the last committed index, and only the manifest rename changes which that is |
| `Recovery.SweepsSafeInEveryRun` | src/store/reader.rs:78-126 | In every run, a sweep removes only names of those five kinds, nothing the current manifest names, nothing staged, and nothing while a writer holds the lock |
| `Recovery.SweepableIff` | src/store/mod.rs:113-115 | A sweeping reader may remove a name it listed exactly if it is of those kinds and the index it read does not name it |
| `Recovery.LockStaysInEveryRun` | src/store/reader.rs:111-125 | In every run, no step removes or replaces the lock file |
| `Recovery.OpensCommittedInEveryRun` | src/store/reader.rs:169-209 | In every run, a successful open returns one committed index, current at some moment since it began |
| `Recovery.FailuresInEveryRun` | src/store/reader.rs:169-209 | In every run, an open that finds no index began before the first commit, one that gives up saw twenty commits land, and one that reports corruption read an overlay whose generation came round again |
| `Recovery.GivesUpInEveryRun` | src/store/reader.rs:169-190 | In every run, an open starts over whenever a file is missing, and gives up exactly at the twentieth |
| `Recovery.MissingMeansNewer` | src/store/reader.rs:55-66 | A file found missing was retired by a later commit |
| `Recovery.MismatchMeansReuse` | src/store/reader.rs:133-142 | A file found with other contents is an overlay that a later writer wrote again under the same generation, with other patches |
| `Writers.WritesExtends` | src/store/update.rs:98-187 | Whatever an update from a plan, a planned merge or a rebuild commits, it reuses no name of the index it replaces with other contents |
| `Writers.WrittenChain` | src/store/mod.rs:103-112 | So every history of the program is one over which segment-owned names are never reused |
| `Writers.WrittenSound` | src/store/update.rs:148-182 | In every history of the program, a live document in the overlay was read, or its patch has an inode |
| `Writers.NothingPatched` | src/store/state.rs:151-217 | Where no live document has an inode, or was read and is last at its path, an update leaves the overlay as it is |
| `Writers.PatchingUpdate` | src/store/state.rs:151-217 | Where one does, some crawl's plan writes an overlay other than any given one, under the next generation |
| `Writers.ShadowedStays` | src/store/state.rs:45-66 | A live document with a later one at its path stays as it is through every update |
| `ProgramRuns.ProgramRunKeeps` | src/store/reader.rs:133-142 | In every run of the program and its readers, an overlay file is its index's own or one that a later writer wrote under that generation |
| `ProgramRuns.WrittenBack` | src/store/update.rs:158-182 | If some writer writes an overlay generation again with other patches, some later index had the generation below and could be patched, or carried another overlay |
| `Reuse.ReusedOverlayMisleads` | src/store/reader.rs:133-142 | For any history of the program in which that is so, there is a run with that history whose reader reports corruption of a sound index |
| `Reuse.CorruptIff` | src/store/reader.rs:133-142 | Over a history of the program, a reader of the `k`th index can report it as corrupt exactly when it has an overlay and a later index has the generation just below, with a document to patch or another overlay left standing |
| `Reuse.ThreeCommitsMislead` | src/store/update.rs:158-182 | Index a file, touch it, replace it: a reader of the second commit may report corruption while the third is current and sound |
| `Reuse.UpdatesReuseOverlays` | src/store/update.rs:158-182 | Two updates suffice to bring a generation back with other contents |
| `Bytes.PutU64` | src/format/varint.rs:5-15 | Appends the LEB128 groups of the value, low group first |
| `Bytes.ReadU64` | src/format/varint.rs:23-41 | The shift loop computes the value of the groups, or the first error |
| `Bytes.ReadsBack` | src/format/varint.rs:5-46 | What was put is read back, wherever it stands; 32-bit reads refuse exactly the values that do not fit |
| `Bytes.ReadVarintIff` | src/format/varint.rs:23-41 | Exactly which byte strings a read accepts, and what each means |
| `Bytes.MinimalIff` | src/format/varint.rs:23-41 | An accepted spelling is the written one exactly when it does not end in a zero group |
| `Bytes.SpareZero` | src/format/varint.rs:23-41 | Zero is read from two bytes where it is written on one |
| `Envelope.SealParses` | src/format/envelope.rs:61-104 | A sealed body parses, with its extent and checksum found |
| `Envelope.AcceptsIff` | src/format/envelope.rs:115-121 | Exactly the sealed bodies are accepted |
| `FormatTables.SealedAsTabled` | docs/FORMAT.md:39-54 | A sealed file is the documented envelope, field by field: magic, version, flags, body, length, checksum, footer magic |
| `FormatTables.ManifestAsTabled` | docs/FORMAT.md:56-94 | A manifest's body is the documented header and 80-byte entries, every field little-endian at its offset |
| `FormatTables.SoundIff` | src/format/manifest.rs:131-172 | The manifests the decoder accepts are exactly those with ascending id ranges that do not overlap, neighbours with different ids, and no entry that contradicts itself |
| `FormatTables.IdxAsTabled` | docs/FORMAT.md:96-121 | A term file is the documented regions in order, with the documented table of contents |
| `FormatTables.OpensIff` | src/format/idx.rs:231-250 | A term file opens exactly if its envelope parses and its last 64 bytes are a table of contents whose regions tile the body |
| `FormatTables.ListAsTabled` | docs/FORMAT.md:123-138 | A posting list is its count, then for each document its step, number of positions, their length, and their steps, each a minimal varint |
| `FormatTables.DictAsTabled` | docs/FORMAT.md:140-159 | The dictionary is front-coded entries against the longest shared prefix, anew every 64 terms |
| `FormatTables.SparseAsTabled` | docs/FORMAT.md:161-180 | The sparse index is a table of offsets, and at each the block's first term, where the block starts, and where its postings do |
| `DiskPostings.EncodePostings` | src/format/idx.rs:66-109 | Refuses exactly the lists the format cannot hold, and appends the encoding of every other |
| `DiskPostings.DiskCursor.LoadNext` | src/format/idx.rs:595-609 | Moves one entry on over an encoded list; over any bytes, documents only grow and the cursor stays inside |
| `DiskPostings.DiskCursor.Seek` | src/format/idx.rs:673-682 | From any state lands on the first posting at or after the target, never backwards, where the in-memory seek lands too |
| `DiskPostings.DiskCursor.Positions` | src/format/idx.rs:683-693 | The current entry's positions, which strictly increase whatever the bytes |
| `DiskPostings.Collect` | src/format/idx.rs:582-693 | Walking a cursor gives the list the bytes spell, and gives an encoded list back |
| `DiskPostings.DecodesBack` | src/format/idx.rs:66-109 | An encoded list decodes to itself |
| `DiskPostings.DecodedValid` | src/format/idx.rs:611-671 | Whatever bytes decode, they decode to a valid list of the announced length |
| `DiskPostings.VerifyList` | src/format/idx.rs:512-539 | Accepts exactly the bytes that decode, to the last one, to a list of the dictionary's count |
| `TermDict.Write` | src/format/idx.rs:117-192 | Fails exactly if a kept list is invalid; otherwise writes postings, front-coded blocks, sparse index and their summary |
| `TermDict.LessIff` | src/format/idx.rs:306-339 | The order of terms compares the first byte in which two differ, and puts a prefix first |
| `TermLookup.FileOpens` | src/format/idx.rs:231-250 | What was written opens, every region where the table of contents says |
| `TermLookup.SparseAt` | src/format/idx.rs:273-294 | Block `b` starts at term `64 b`, its sparse entry at its offset |
| `TermRead.BlockScan.NextEntry` | src/format/idx.rs:435-459 | Yields a block's entries one by one over any bytes, then its end or its error |
| `TermReadings.RowIff` | src/format/idx.rs:273-294 | Over any bytes, exactly which sparse rows are read: an offset in the table, and there, within the region, a term and two offsets |
| `TermReadings.EntryIff` | src/format/idx.rs:435-459 | Exactly which entries are read, each against the term before it |
| `TermReadings.BlockIff` | src/format/idx.rs:349-366 | Exactly which blocks are read to their end: as many entries as the block has, one after another within the dictionary, their postings side by side |
| `TermRead.BlockSlice` | src/format/idx.rs:349-366 | In a readable file block `b` holds terms `64 b` on, and its row names the first |
| `TermScan.FirstBlockAbove` | src/format/idx.rs:306-325 | In any readable file, bisection finds the first block whose first term is above the target |
| `TermScan.Lookup` | src/format/idx.rs:306-339 | In any readable file, finds exactly the entry of the target and its list, or nothing |
| `TermScan.TermIter.TryNext` | src/format/idx.rs:475-498 | In any readable file, yields every term in order with its list, block after block, and fails at one that is not UTF-8 |
| `TermVerify.VerifyIdx` | src/format/idx.rs:374-414 | Accepts exactly the files whose checksum, sparse rows, block ends, term order, UTF-8, lists and postings region all agree |
| `TermVerify.VerifiedMeans` | src/format/idx.rs:374-414 | An accepted file holds the announced number of terms, strictly ascending; its lists tile the postings region and each decodes to a valid list of the dictionary's count |
| `TermVerify.NextThenLookup` | src/format/idx.rs:296-498 | In an accepted file, looking a listed term up finds the very list that iteration yields with it |
| `TermFile.LaidReadable` | src/format/idx.rs:117-192 | A written file is readable: exactly the terms written, each with its encoded list |
| `TermFile.LaidVerified` | src/format/idx.rs:374-414 | A written file of valid lists is accepted exactly when its terms are UTF-8 |
| `TermFile.WriteThenLookup` | src/format/idx.rs:117-339 | For any sorted unique terms and number of blocks: the file verifies exactly when its terms are UTF-8, and a lookup finds exactly the list of a term of at most 512 bytes, and nothing for any other |
| `SegmentFile.SortTerms` | src/store/writer.rs:271-272 | Term maps are written in byte order, each term once |
| `SegmentFile.FlushFile` | src/store/writer.rs:270-285 | Writing a segment's term map gives a file that holds exactly the lists queries take the segment to have |
| `SegmentFile.LookupFile` | src/store/segment.rs:207-209 | Any such file gives for a term the bytes of exactly its list with its count, or nothing if it occurs nowhere |
| `SegmentFile.ServeTerm` | src/store/segment.rs:207-209 | Written, looked up and walked, a term's list is the postings of the segment's documents, or nothing if there are none |
| `Fields.UnpacksBack` | src/format/manifest.rs:42-77 | Fields that fit their widths are read back |
| `Fields.PacksBack` | src/format/manifest.rs:42-77 | Whatever the bytes, their fields pack back to them |
| `ManifestFile.Encode` | src/format/manifest.rs:105-119 | Writes the 48-byte header and an 80-byte entry per segment, sealed |
| `ManifestFile.Decode` | src/format/manifest.rs:122-176 | Accepts exactly the files written for sound manifests, each as the manifest it was written for, and refuses the file of any other |
| `ManifestFile.BodyInjective` | src/format/manifest.rs:105-119 | Two manifests never have the same body |
| `ManifestFile.HeaderDetermined` | src/format/manifest.rs:105-140 | A body gives its header back, field by field |
| `ManifestFile.EntryDetermined` | src/format/manifest.rs:42-77 | A body gives every entry back, field by field |
| `CommittedManifests.WellFormedIsSound` | src/format/manifest.rs:131-172 | The manifest of a well-formed index passes every check of the decoder |
| `CommittedManifests.ManifestNames` | src/store/update.rs:158-186 | The manifest written for an index names exactly the files its readers open, with the id ranges of its segments and the checksums, lengths and counts of their files |
| `CommittedManifests.BuildRebuilds` | src/store/writer.rs:70-95 | A full build commits a well-formed index that continues the segment ids |
| `CommittedManifests.SoundInEveryRun` | src/format/manifest.rs:131-172 | In every run of builds, updates and merges every committed manifest passes the checks |
| `CommittedManifests.AnySortOrderedIff` | src/store/merge.rs:330 | Any sort by base keeps ranges ascending exactly when ties are between empty segments |
| `CommittedManifests.SoundIsOrdered` | src/format/manifest.rs:131-172 | What passes the decoder's checks has its ranges ascending |
| `RunExamples.TieInRun` | src/store/merge.rs:312-333 | Merging a dead segment away, as planned, and replacing the only file reaches a tie; the entries of the next planned merge, sorted the other way, are no sound manifest |
| `RunExamples.LostPatchInRun` | src/store/merge.rs:367-382 | A file is touched or renamed while the planned merge of its segment is in flight: the new metadata is live before the commit, nowhere after |
| `RunExamples.PathTwiceInRun` | src/store/merge.rs:367-382 | It is renamed and another file comes up at the old path: after the commit that path is live twice |
| `Lexer.Lex` | src/query/parser.rs:66-120 | The scanning loop yields the tokens of the text with their offsets, or where a phrase is unterminated |
| `Lexer.LexText` | src/query/parser.rs:66-120 | Any readable token list, written out, is read back |
| `Lexemes.LexedIff` | src/query/parser.rs:66-120 | A text reads as tokens exactly if it is laid out in them: each token's own text at its offset, words ending at white space, parentheses or quotes, and between them only white space and lone hyphens |
| `Lexemes.UnreadIff` | src/query/parser.rs:83-93 | It is refused exactly at a quotation mark that nothing terminates |
| `Lexemes.SpacesAre` | src/query/parser.rs:71-73 | White space is Unicode's |
| `Lexemes.TextParses` | src/query/parser.rs:219-253 | A text typed bare as one word, or in quotation marks, means the term or phrase of its atoms |
| `Lexemes.QueryTextIff` | src/query/parser.rs:227-243 | A text parses to a tree exactly if it is laid out in tokens that are a query of that tree |
| `Parser.OrAt` | src/query/parser.rs:146-156 | After a disjunction only the end or `)` can follow; parsing always moves on |
| `Parser.AndFrom` | src/query/parser.rs:158-197 | After a conjunction only the end, `OR` or `)` can follow |
| `Parser.Parser.ParseOr` | src/query/parser.rs:146-156 | The descent over the advancing index computes the grammar's result and stops where it does |
| `Parser.Parser.ParseAnd` | src/query/parser.rs:158-197 | Likewise, with every error case |
| `Parser.Parser.ParseAtom` | src/query/parser.rs:209-224 | Likewise: a word, a quotation, or a parenthesised query |
| `Parser.Parse` | src/query/parser.rs:227-243 | Lexing, parsing and the leftover check together; what it accepts and refuses, `Derivations` and `Lexemes` say |
| `Derivations.ParsedIff` | src/query/parser.rs:146-253 | A token list parses to a tree exactly if the grammar derives it as a query of that tree: conjunctions with a positive operand joined by `OR`, an `AND` only between operands, a word or quotation standing for the term or phrase of its atoms |
| `Derivations.RefusedIff` | src/query/parser.rs:146-243 | It is refused with an error exactly where it breaks off: which token is unexpected, which parenthesis unbalanced, only negation, or nothing at all |
| `Grammar.ParsesWellFormed` | src/query/parser.rs:146-253 | Every parsed tree is well formed: conjunctions have a positive clause, disjunctions two children, phrases two terms |
| `Grammar.RenderParses` | src/query/parser.rs:146-253 | A tree written out is one operand, whatever surrounds it, its terms and phrases bare or quoted |
| `Grammar.JointParses` | src/query/parser.rs:161-169 | An explicit `AND` changes nothing |
| `Grammar.TextRoundTrip` | src/query/parser.rs:66-253 | Every well-formed tree has query texts, with or without `AND`, terms and phrases bare wherever their spelling is a word or quoted, negated ones included, that parse to exactly it |
| `Query.ListInIs` | src/store/segment.rs:207-213 | A term's list holds exactly the documents it occurs in, with their positions |
| `Hits.Intersect` | src/query/exec.rs:191-216 | The hits in every list, scores added, whatever order the lists are taken in |
| `Hits.IntersectTwo` | src/query/exec.rs:198-210 | In-place retention with a searched frontier keeps exactly the common hits |
| `Hits.MergeSum` | src/query/exec.rs:222-252 | The hits in either list, scores added where in both |
| `Hits.Union` | src/query/exec.rs:218-220 | The hits in any list, scores added |
| `Hits.Difference` | src/query/exec.rs:254-264 | The base hits that are not excluded |
| `Exec.EvalTerm` | src/query/exec.rs:107-123 | Walking the bytes of the term's list: exactly the searchable documents of the term, with their scores, in order |
| `Exec.PhraseMatches` | src/query/exec.rs:175-189 | The number of positions `p` with term `i` at `p + i` for every `i`; sums past 32 bits are no position |
| `Exec.Align` | src/query/exec.rs:144-161 | The leapfrog terminates and stops at the next common document, skipping none |
| `Exec.EvalPhrase` | src/query/exec.rs:127-170 | Over disk cursors: exactly the searchable documents where the phrase stands, scored by how often |
| `ExecTree.EvalNode` | src/query/exec.rs:79-105 | Evaluation by cases gives exactly the tree's declarative answer |
| `Evaluate.QueryTerms` | src/query/exec.rs:36-50 | Collects each term of the tree once, negated ones included |
| `Evaluate.SumFreqs` | src/query/exec.rs:64-67 | Document frequency is summed over segments, tombstones included |
| `Evaluate.RecomputeStats` | src/store/reader.rs:213-245 | `N` and `avgdl` are those of the segments' doc tables, tombstones taken off `N` only |
| `Ranking.FreqCounts` | src/query/exec.rs:64-67 | A term's frequency counts the segment documents it occurs in, tombstoned ones included |
| `Ranking.StatsAreTables` | src/store/reader.rs:213-245 | `N` adds up each segment's indexed rows less its tombstones; `avgdl` times the indexed rows is their total length |
| `Ranking.ScoreRanked` | src/query/exec.rs:107-170 | A term scores `idf` of `N` and its frequency, by its positions, length and `avgdl`; a phrase the sum of its terms' `idf`s, by its starts; a conjunction or disjunction the sum over the operands that match |
| `Ranking.SelectedIff` | src/query/exec.rs:79-105 | A tree selects by a term anywhere, a phrase in a row, every positive operand and no negated one, any child |
| `Evaluate.Evaluate` | src/query/exec.rs:54-77 | From the bytes of the segments' files: strictly ascending, without duplicates, exactly the live indexed documents that the tree selects, each scored by BM25 over counts taken from the doc tables |
| `Invariance.MergeKeepsMatches` | src/store/merge.rs:182-223 | Every query matches the same documents before and after a merge, up to renumbering |
| `Invariance.FreshLive` | src/store/writer.rs:187-229 | A fresh build's documents are live under their place in the crawl |
| `Invariance.FreshFreq` | src/query/exec.rs:64-67 | Frequencies summed over a build's segments are those of one sequential pass |
| `Invariance.FreshStats` | src/store/reader.rs:213-245 | So are `N` and `avgdl`, however the build was cut |
| `Invariance.CutsAgree` | src/store/writer.rs:187-229 | Two builds of the same files, cut differently, have the same statistics and give every query the same documents and scores: those of the crawl, in one pass |

## Left out

- Tokenizer.Tokens.Next: spans of atoms in the text are not kept; only snippets use them.
- Lexer.Lex: offsets count characters where the source counts bytes.
- PlanMerges.PlanAll: fractions and tiers are computed exactly, where the source uses floating point.
- Evaluate.Evaluate: scores and `avgdl` are exact reals, not `f32`.
- Evaluate.RecomputeStats: `avgdl` is an exact quotient, where the source rounds.
- Files.OpenOnce: a manifest of another format version is not told apart from an unreadable one.
- ManifestFile.Decode: error messages are not told apart, only that a check failed.
- MergeCommit.CommitMerges: the sort is read as stable (see `CommittedManifests.AnySortOrderedIff`).
- TermRead.SparseEntry: sums of a 64-bit offset and a region's start do not wrap.
- Segments.LocateIff: the reader's binary search over segments is its linear specification.
- Commit.Publish: the bytes of staged merge files are written before the protocol starts; power loss with directory operations becoming durable in order is not modelled.
- Byte layouts of the doc table, the deletions bitmap and the overlay; their contents appear as values in `Files`.
- `delete_docs` from a handle that may be out of date; `Writers.Writes` covers builds, planned merges and updates.
- A posting list that stops decoding in the middle of a query or a merge: cursors are proved over any bytes, queries and merges over files that were written whole.
- `LiveIndex` and its drop-time removal of files, the governor, the watcher, the daemon's transport, the command line, snippets and reports.
- Parallel shard indexing: shards are folded in document order, as the source's reduce step does.
- The crawler, gitignore rules and file reads: a crawl result and what each read gave are inputs.
- What the statistics mean after deletions, which the source calls approximate.
- File names as strings: they are values, so distinct names are distinct.
- The reader's sleep between attempts and the writer's wait for the lock.
