# Verified model of the arXiv retrieval corpus

A Dafny model of the parts of the retrieval server and its ingest pipelines that keep state across
calls, crashes and runs, and of the text algorithms whose output the corpus is built from. Every
module keeps the branches, constants and edge cases of the code it models; methods are proved
against specifications, and the specifications against independent descriptions of what they are
for.

| module | models |
|---|---|
| `ExactCache` | Tier 1: an in-process mirror over a durable row store, gets and puts interleaving at their await points |
| `CacheLimits` | how far the claims about Tier 1 reach: runs that meet its bound, one that serves an old row, and what dying puts do |
| `SemanticCache` | Tier 2: a ring buffer with a positional vector index that is rebuilt on puts only |
| `KeyEncoding` | the length-prefixed bytes behind the cache keys |
| `GraphIngest` | the two-pass citation ingest with its checkpoint, killed at any write |
| `Store` | row assembly, upsert, corpus-version marker and the gate that reads it back |
| `EmbedProtocol` | chunk manifest, embeddings archive and sidecar, interleaved with ingests and deployments |
| `EmbedColumns` | when every row of that protocol is in the column of its kind |
| `TornPairs` | what torn pairs of archive and sidecar, and careless steps, lead to |
| `ReEmbed` | copying unchanged rows and embedding the rest, stopped and resumed |
| `Cutover` | the two-rename swap of staging and active, and its inverse |
| `HarvestWindows` | the daily harvest windows and the state they are derived from |
| `SiblingCursor` | pairing theorems with proofs among siblings |
| `ProofWindows` | overlapping windows over long proofs |
| `BlockPacking` | greedy packing of prose blocks |
| `HeadingStack`, `MarkdownGroup` | sectioning of markdown and grouping of its blocks |
| `TextSplit`, `OpenMath` | the two splits `MarkdownGroup` begins with, and its test for a text that ends inside math |
| `ArrayBalance` | repair of unbalanced array environments |
| `TexScan` | the comment stripper, the two brace scanners and the normaliser between them |
| `PyText`, `OrderedDict`, `Prelude` | the library behaviour these share |

`dafny verify dfyconfig.toml` checks the whole project.

## What the proofs turned up

Properties that hold under a condition the code does not check, with the condition proved exact or a
run that breaks them:

- The theorem/proof loop looks the paired proof up by content. It ends if and only if no paired proof
  equals an earlier sibling of its theorem (`SiblingCursor.LoopEndsIff`); an orphan proof repeated
  after the next theorem makes it return for ever (`SiblingCursor.RepeatedProofLoops`).
- One unreachable fetch can lose a citation for good: the citing paper is marked done although the
  cited one is not resolved, and no later run looks at it again (`GraphIngest.MissedCitationStays`).
  A complete run restores the full graph exactly when no paper marked done lacks an edge
  (`GraphIngest.FullIffDonePapersLinked`).
- A get that overlaps a put can write the older row back over the newer one, after which the mirror
  serves it, and a put that dies once its row is stored leaves the older one in the mirror: every answer
  is the latest put's if and only if operations never overlap and no put dies so
  (`CacheLimits.ServesLatestIff`). Without such deaths, and with at most m + 1 operations in flight, the
  mirror holds at most both capacities and 2 m entries, and that is the least bound there is; with them
  there is none, since nothing trims the mirror (`CacheLimits.LeastBound`). So both capacities together
  are a bound if and only if operations never overlap and no put dies so
  (`CacheLimits.CapacitiesHoldIff`).
- The documentation of the cache scope says a missing level or embedder is distinct from any string.
  It shares its key with the string "None", and with nothing else (`KeyEncoding.SameKeyIff`).
- A row can carry a vector of another space than it names when an embedder version is rolled back
  over a torn archive (`TornPairs.ReusedVersionCorrupts`), or when the chunk manifest is gone at
  the embed step (`TornPairs.BlindEmbedCorrupts`). In any run the rows stored are genuine if and only
  if the record held names the space its vectors lie in (`EmbedProtocol.StoreGenuineIff`), which for an
  undisturbed ingest means that it embedded afresh or the archive was in the current space
  (`EmbedProtocol.IngestGenuineIff`). A torn pair in the same version, which two living embed runs can
  leave as well as a death (`TornPairs.TornWithoutDeath`), is refused, and goes on being refused
  (`TornPairs.TornPairStaysRefused`).
- The up-to-date check compares ids, not kinds, so a text that becomes a proof keeps its statement
  column (`TornPairs.KindChangeKeepsColumn`). A stored vector is in the column of its chunk's kind if
  and only if the ingest embedded afresh or the archive held the id on that side
  (`EmbedProtocol.ColumnFollowsKindIff`).
- A chunker that fails with an OSError or ValueError hands the re-embed an empty list. The paper counts as
  one without chunks, its old ids as dropped, and the run as complete
  (`ReEmbed.SilentlyIncomplete`): a complete run covers only the papers it heard
  (`ReEmbed.ReEmbedder.Run`).
- An incremental re-embed equals the full rebuild if and only if every copied content kept its space and
  its side of the proof divide, every new one was embedded afresh or lay in its paper's archive on the
  side of its kind, and each was staged before the last run or heard in it (`ReEmbed.StoppedAndRerun`);
  the code checks none of this.
- A swallowed marker write is noticed only if the batch added a row
  (`Store.SwallowGoesUnnoticedIff`), so the marker can go on naming another space than the table's
  (`Store.StaleSpaceReturns`). The gate's arithmetic arm can never be taken
  (`Store.Dataset.WriteChunks`).
- A set whose page fetch raises a RuntimeError is given up, and the run completes and moves the date all
  the same, so what it gave up is never harvested (`HarvestWindows.GivenUpIsLost`). A run that crosses
  midnight leaves a gap, and a run that aborts or is dry after a page leaves its whole window out. Over
  schedules of completed, aborted and dry runs a day of a set is harvested if and only if the first later
  run to move the date completes and walks the set to its end, no run was under way across the day, and
  the date had been moved before or the day is that run's eve (`HarvestWindows.CoveredIff`). The code
  says a dry run leaves the state file alone, but each page it fetches has already moved the date
  (`HarvestWindows.RevisitedIff`).
- A resumption token is honoured only on the day it was handed out, on which a run with default dates is
  refused for its inverted window: such a run never uses one (`HarvestWindows.StateFile.RunDelta`).
- A Tier-2 lookup looks at eight rows, so it can miss an acceptable entry; it does so only if eight rows of
  other embeddings are at least as near (`SemanticCache.LookupIsScan`).
- A killed citation ingest leaves at most one batch of merged papers out of its checkpoint, one batch being
  reached when it dies at the very save (`GraphIngest.CitationGraph.Ingest`).
- The documentation of the proof windows says 448 tokens; the constant, and the model, have 1856.
- The chapter rule about depths one and two always picks the outermost heading
  (`HeadingStack.ChapterIsOutermost`).

## Model

| member | source | states |
|---|---|---|
| ExactCache.Mirror.Probe | server/cache.py:776-790 | the answer is the live row of the key, if any; after it the mirror finds exactly that row under the key, and what it had under every other key; a key found is from then on the last used |
| ExactCache.Mirror.Fill | server/cache.py:814-817 | the row is found under its key, which is now the last used, every other key keeps its row, and a new key makes the mirror grow by one whatever its size |
| ExactCache.Mirror.Put | server/cache.py:883-888 | the mirror is within its capacity, has the new row if there is any room, and has lost other keys only to the capacity: each of them was last used before every key that stays |
| ExactCache.Mirror.GetAlone | server/cache.py:771-817 | a get that nothing overlaps answers with the live row of the mirror or else of the store, which the mirror then has under its own expiry; expired rows are gone from both, other keys keep theirs |
| ExactCache.StepSound | server/cache.py:771-888 | every step of every operation, the death of one at any await, a put that dies before anything is evicted, and a restart keep each stored, mirrored and held row that of a real put of its key, with that put's expiry |
| ExactCache.ServedIsGenuine | server/cache.py:771-817 | under every interleaving a served payload was put under the key asked for and had not expired when the get began |
| ExactCache.ExpiryIsThePuts | server/cache.py:804-817 | wherever a row is, its expiry is its put's time plus an hour: reading never extends it |
| ExactCache.MirrorIsBounded | server/cache.py:771-888 | with at most m + 1 operations in flight, gets and waiting puts dying at will but no put between its row and the mirror, the mirror holds at most its capacity plus the store's plus 2 m entries |
| CacheLimits.BoundIsReached | server/cache.py:792-817 | for any capacities and any m, a run without deaths and with at most m + 1 operations in flight whose mirror has exactly that many entries; it uses that the query of server/cache_sqlite.py leaves open which of the rows that expire together is evicted |
| CacheLimits.LeastBound | server/cache.py:771-888 | a number bounds the mirror in all runs with at most m + 1 operations in flight if and only if no put dies between its row and the mirror and the number is at least that large, tightness being against the contract of the eviction query rather than its index order |
| CacheLimits.DeathsFill | server/cache_sqlite.py:394-414 | puts that die once their row is stored, each followed by a get, make the mirror as large as one likes with one operation at a time |
| CacheLimits.CapacitiesHoldIff | server/cache.py:771-888 | the mirror stays within both capacities together in all such runs if and only if m is 0 and no put dies so |
| ExactCache.SequentialServesLatest | server/cache.py:771-888 | without overlap, and no put dying between its row and the mirror, every served payload is that of the latest put of the key |
| CacheLimits.StaleReadAfterOverlap | server/cache.py:792-817 | with two operations in flight, a reachable state whose next answer is an older put than the latest of its key |
| CacheLimits.StaleReadAfterDeath | server/cache_sqlite.py:394-414 | the same with one operation at a time, after a put has died once its row was stored |
| CacheLimits.ServesLatestIff | server/cache.py:771-888 | every answer is the latest put's, in all runs with at most m + 1 operations in flight, if and only if m is 0 and no put dies between its row and the mirror |
| SemanticCache.Tier2.Put | server/cache.py:1012-1070 | the embedding's slot moves to the end with the new entry, the oldest slots give way beyond 1000, the index lists exactly the buffer, and the invariant tying buffer, index and history holds |
| SemanticCache.Tier2.RebuildIndex | server/cache.py:1072-1085 | row i of the index is the embedding of slot i and its key is that slot's digest |
| SemanticCache.Tier2.Invalidate | server/cache.py:447-455 | buffer, keys and rows are all emptied, and the number dropped reported |
| SemanticCache.Tier2.Lookup | server/cache.py:911-1010 | the answer is the first acceptable candidate of the best rows in rank order; matching expired candidates before it are dropped from the buffer and the index is left alone; a hit is from the latest put of its embedding; and the lookup is a linear scan of the live buffer but for slots crowded out by eight rows at least as near, of which there are none with at most eight rows indexed |
| SemanticCache.LiveDrop | server/cache.py:992-996 | lazy expiry keeps the live keys a subsequence of the indexed keys: dropping a slot drops its key from that subsequence and no other |
| SemanticCache.HitIsLatestPut | server/cache.py:985-1010 | a hit's payload is that of the latest put of an embedding since the last invalidation, with the requested scope, at least the requested k, its fifteen minutes not over and its score over the threshold |
| SemanticCache.LookupIsScan | server/cache.py:946-1010 | for any number of rows: a hit is on an accepted slot of the greatest score among all accepted ones, with fewer than eight rows strictly nearer; a miss means that every accepted slot has eight rows of other embeddings at least as near |
| SemanticCache.SmallIndexIsScan | server/cache.py:946-1010 | with at most eight rows indexed, a lookup hits exactly when a linear scan of the live buffer finds an acceptable entry |
| KeyEncoding.CanonicalKey | server/cache_sqlite.py:187-208 | the loop produces the length-prefixed parts in order: query, filters or "{}", k, corpus version, level or "None", embedder or "None" |
| KeyEncoding.EncodedReads | server/cache_sqlite.py:204-207 | the first eight bytes read as a big-endian number are the length of the first part, which follows them, and after it the other parts do |
| KeyEncoding.DigitsReadBack | server/cache_sqlite.py:199-200 | the digits of a number are decimal, without a leading zero, and the number is read back from them |
| KeyEncoding.EncodedInjective | server/cache_sqlite.py:204-207 | the encoding determines the parts, whatever bytes they hold |
| KeyEncoding.SameKeyIff | server/cache_sqlite.py:155-208 | two requests share a key if and only if query, filters, k, corpus version, level and embedder agree, up to no filters against the bytes "{}" and a missing level or embedder against "None" |
| KeyEncoding.ScopeSeparates | server/cache.py:136-193 | a Tier-2 scope is shared only by requests with the same filters, corpus version, level and embedder, up to the same two identifications |
| GraphIngest.BuildReverseMap | ingest/graph_ingest.py:617-626 | each entry leads to a resolved paper with that work id, and every work id has one |
| GraphIngest.ReverseFindsCited | ingest/graph_ingest.py:641-646 | with distinct works, looking up a reference finds exactly the cited paper |
| GraphIngest.CitationGraph.MergePaper | ingest/graph_ingest.py:434-479 | the node is created or overwritten, or the process dies before |
| GraphIngest.CitationGraph.MergeCite | ingest/graph_ingest.py:482-509 | the edge is added only if both nodes exist |
| GraphIngest.CitationGraph.SaveCheckpoint | ingest/graph_ingest.py:404-426 | the whole checkpoint is replaced, or nothing |
| GraphIngest.CitationGraph.Resolve | ingest/graph_ingest.py:573-611 | after pass 1 exactly the reachable seeds and those resolved before are resolved, failures are updated to match, and killed anywhere it has done no more than a run may, with at most one batch of merged papers missing from the checkpoint |
| GraphIngest.CitationGraph.CitePaper | ingest/graph_ingest.py:643-653 | exactly the edges from the paper to the papers its references lead to are added |
| GraphIngest.CitationGraph.Cite | ingest/graph_ingest.py:637-660 | after pass 2 every resolved paper is done and those newly done have all their edges |
| GraphIngest.CitationGraph.Ingest | ingest/graph_ingest.py:517-675 | a run killed before any durable write keeps the disk consistent and relates it to the disk before: it has made exactly as many writes as it was allowed, the disk is their replay, and the checkpoint misses at most one batch of the papers it merged and of those whose citations it wrote; it saves at most once a batch in each pass and once at the end; a complete one resolves, marks and links everything it reached and records exactly the failures left; with enough durable writes left it completes |
| GraphIngest.CompleteRunEdges | ingest/graph_ingest.py:637-666 | the edges after a complete run: those before, and the citations among reached papers of every paper not done before |
| GraphIngest.FullIffDonePapersLinked | ingest/graph_ingest.py:641-654 | a complete run that reaches every seed builds the full graph if and only if no paper already marked done lacks an edge |
| GraphIngest.HarmlessHistoryIsFull | ingest/graph_ingest.py:591-666 | whatever was killed or unreachable before, if no run marked a paper done while a seed was missing, a complete run that reaches every seed leaves the full graph |
| GraphIngest.CrashesConverge | ingest/graph_ingest.py:560-666 | with every fetch answered and distinct works, runs killed anywhere followed by a complete one leave the same graph and checkpoint as a single uninterrupted run |
| GraphIngest.CompleteRunExists | ingest/graph_ingest.py:573-666 | from every consistent disk, whatever is unreachable, there is a complete run and its outcome is given |
| GraphIngest.MissedCitationStays | ingest/graph_ingest.py:591-654 | after one unreachable fetch in a completed run, a complete run with every fetch answered still lacks the edge |
| GraphIngest.MissedCitationHappens | ingest/graph_ingest.py:591-654 | two such runs |
| Store.BuildTable | ingest/store.py:440-604 | the rows of all chunks, each with the vectors its id has in the record, or none at all if a chunk is not embedded or of unknown kind |
| Store.LookupPairs | ingest/store.py:461-471 | with distinct ids the lookup gives each id the vector beside it |
| Store.RowGenuineIff | ingest/store.py:558-591 | a row built from a record whose vectors lie in one space is genuine exactly when the record names that space, and sits in the column the record routed it to |
| Store.UpsertIsRightBiased | ingest/store.py:904-913 | the keys are those of both sides; a row is the last one written for its id, or the old one |
| Store.UpsertConcat | ingest/store.py:904-913 | two upserts are one upsert of both batches |
| Store.Dataset.WriteChunks | ingest/store.py:837-1170 | nothing is written without all rows; a marker that is written names this version, chunker and space, counts the rows, and its paper count is the length of a list without repetition of the papers that have a row; a normal return means exactly that the marker on file counts the rows; which gate arm fires is exact and the count-mismatch-without-swallow arm is dead |
| Store.PapersAreCounted | ingest/store.py:1008-1022 | the number of distinct paper ids is the length of a list without repetition that holds a paper exactly if some row is of it |
| Store.BatchesAgree | ingest/store.py:971-1031 | any split of rows into writes, with any failures on the way, gives the table of one write, and if the last marker write succeeds its marker too |
| Store.SplitCallsAgree | ingest/store.py:837-1031 | chunks split between calls give the table of one upsert of all chunks of the calls not refused; where one call would take them all, the split ends in that call's state if the last marker write succeeds |
| Store.RowsOfConcat | ingest/store.py:483-591 | splitting chunks splits their rows, and the whole is accepted exactly when both parts are |
| Store.NormalReturn | ingest/store.py:994-1163 | over any history with swallowed failures, a normal return means the marker counts the table's rows and, as a list without repetition, its papers; its version is the returned one exactly when this marker write succeeded or, nothing having been committed, it already was, and its space and chunker version are this call's exactly when it was written or already named them |
| Store.SwallowGoesUnnoticedIff | ingest/store.py:1048-1124 | a swallowed marker write passes the gate exactly when the batch only rewrote existing rows |
| Store.StaleSpaceReturns | ingest/store.py:1124-1163 | a normal return after which the marker names another embedding space than the rewritten table |
| EmbedProtocol.EncodeInBatches | ingest/embedder.py:1031-1041 | batching gives every id its vector in order, whatever the batch size |
| EmbedProtocol.BuildArchive | ingest/embedder.py:1055-1090 | ids and vectors split together by kind |
| EmbedProtocol.ArchiveIsRight | ingest/embedder.py:1055-1090 | every id stands beside its own vector, no id twice, each side holding exactly the ids of the chunks of its kind, so the record made of it is well-formed |
| EmbedProtocol.IsUpToDate | ingest/embedder.py:658-740 | the skip holds exactly when both files exist, the sidecar names the current chunker and embedder, no entry is malformed and every manifest id is among the entries |
| EmbedProtocol.PaperFiles.EmbedPaper | ingest/embedder.py:941-1108 | a run that ends well over a manifest that is not empty leaves an archive and a sidecar that names the current chunker and embedder and covers the manifest with no malformed entry, and leaves the files alone exactly if they were so before; an archive it writes holds the manifest's ids by kind in the current space; it is replaced before the sidecar and nothing else changes, so dying between the two leaves it beside the old sidecar |
| EmbedProtocol.PaperFiles.IngestPaper | ingest/bulk_ingest.py:323-352 | an undisturbed ingest leaves the files and the table of its chunk, embed and store steps, and stores exactly when the chunks are storable |
| EmbedProtocol.UndisturbedIsIngested | ingest/bulk_ingest.py:323-352 | its seven steps, one after the other among other idle processes, are that ingest |
| EmbedProtocol.StepIsSound | ingest/embedder.py:974-1108 | every step of any number of processes, the two file replaces of an embed run and the two file reads and the write of an ingest each being one, keeps a sidecar that names the current version beside an archive in that space, and every row genuine |
| EmbedProtocol.EveryRowIsGenuine | ingest/store.py:248-306 | over any interleaving of re-chunking, embed runs, ingests, deaths and deployments in which no embedder version comes back and no ingest finds its chunk manifest gone or empty at its embed step, every row carries its own id's vector, in exactly one column, in the space its stamp names |
| EmbedProtocol.EverythingHasSpace | ingest/store.py:268-306 | in any run at all the archive, and every record an ingest holds, lies in one space |
| EmbedProtocol.StoreGenuineIff | ingest/store.py:461-591 | whatever came before, the rows a store step writes are genuine if and only if the record it holds names the space its vectors lie in |
| EmbedProtocol.IngestGenuineIff | ingest/bulk_ingest.py:340-352 | the rows of an undisturbed ingest are genuine if and only if it embedded afresh or the archive was in the current space |
| EmbedColumns.EveryRowInItsColumn | ingest/embedder.py:1055-1068 | over any interleaving in which no chunker gives a content another kind, every row has its vector in the column of its kind and nothing in the other |
| EmbedProtocol.EmbeddedRecord | ingest/embedder.py:974-1108 | the record an embed run leaves names the current version, has a chunk exactly if the run wrote or the archive held it, and has it on the side of its kind exactly if the run wrote or the archive did |
| EmbedProtocol.EmbeddingSettles | ingest/embedder.py:974-1108 | embedding again, or after a death between the two writes, ends with the same record |
| EmbedProtocol.IngestOutcome | ingest/bulk_ingest.py:323-352 | an undisturbed ingest stores every chunk genuinely under its id when storable and otherwise leaves the table alone |
| EmbedProtocol.ColumnFollowsKindIff | ingest/embedder.py:727-740 | the vector of a stored chunk is in the column of its kind if and only if the ingest embedded afresh or the archive held the id on that side |
| TornPairs.TornPairStaysRefused | ingest/store.py:473-481 | a sidecar that covers the chunks beside an archive that does not: the ingest writes nothing and leaves the pair as it is |
| TornPairs.TornPairArises | ingest/embedder.py:1082-1108 | re-chunking, dying between the two files and chunking back leads there |
| TornPairs.TornWithoutDeath | ingest/embedder.py:1082-1108 | so do two living embed runs of the same version when the one that wrote its archive first writes its sidecar last |
| TornPairs.ReusedVersionCorrupts | ingest/embedder.py:720-723 | rolling an embedder version back over a torn archive stores a vector under the wrong space |
| TornPairs.BlindEmbedCorrupts | ingest/embedder.py:952-966 | so does an ingest whose chunk manifest is gone at its embed step |
| TornPairs.KindChangeKeepsColumn | ingest/embedder.py:727-740 | a text that became a proof is skipped and keeps its statement column |
| ReEmbed.ComputeDiff | ingest/re_embed.py:262-274 | copy and drop partition the old ids, copy and re-embed the new |
| ReEmbed.BuildCopyRecord | ingest/re_embed.py:380-448 | a record exactly when every old row has the old version and a vector in the column of its old kind; it then gives each chunk the copied row |
| ReEmbed.CopyIsFreshIff | ingest/re_embed.py:397-448 | the copy of a genuine row the copy path accepts is what embedding afresh would give if and only if the versions are equal and the content stayed on its side of the proof divide |
| ReEmbed.SubsetRows | ingest/re_embed.py:567-592 | the part of a record gives every kept chunk the row the whole gives it |
| ReEmbed.ArchiveRowsAreFresh | ingest/re_embed.py:533-562 | the rows of a paper's own archive, of which the full rebuild consists, have the vector of the target space in the column of the kind |
| ReEmbed.EmbedFollows | ingest/re_embed.py:533-546 | an embed step that is over, or half over, leaves the record a later one loads as it was |
| ReEmbed.WrittenIsFreshIff | ingest/re_embed.py:485-562 | a row a run writes is the rebuild's if and only if its content was copied or embedded well: same space and side, or embedded afresh, or archived on the side of its kind |
| ReEmbed.ReEmbedder.ProcessPaper | ingest/re_embed.py:485-564 | the paper is done if and only if nothing is left to copy, or every such row can be copied and is of a known kind and that write commits, and nothing is left to embed, or the embed run ends, its record names the target and holds every such chunk of a known kind and that write commits; when it is killed is exact too; only pending rows of this paper are written, copied or from the record the embed step loads, and they are there exactly if their write reached the table, reported or not; when done every chunk has a row, and the one this run should write unless it was there already; copied and re-embedded are the counts of their sets and with skipped sum to the chunks; files change only if the embed step has something to do |
| ReEmbed.ReEmbedder.Run | ingest/re_embed.py:627-844 | refused exactly when staging names another version; complete if and only if not refused and every paper is silent or can be processed so; killed exactly when some paper is; failed are exactly the papers it does not get through; staging only gains rows of chunks of papers heard, a resumed run touches nothing staged, a dry run nothing at all; and a complete run has brought over every chunk of the papers heard, with the counts of its sets |
| ReEmbed.CountsAreWhole | ingest/re_embed.py:732-788 | the counts of a complete run over distinct papers: of the ids the papers heard now have, the active ones not staged before were copied, the others not staged before re-embedded, those staged before skipped, and the old ids not among them dropped |
| ReEmbed.UnimpededRun | ingest/re_embed.py:627-844 | where every chunker, write and embed run goes well, a run into an empty staging table completes if and only if every chunk is of a known kind and its old row can be copied or its paper is embedded in the target space, and then it has built the full rebuild if and only if every content was copied or embedded well |
| ReEmbed.SilentlyIncomplete | ingest/chunker.py:1090-1104 | where every chunker returns nothing the run is complete without failures, its target is zero, it drops every old id of its papers, and leaves empty staging empty |
| ReEmbed.StagedIff | ingest/re_embed.py:467-564 | after a complete run a chunk is staged if and only if it was before or its paper was heard |
| ReEmbed.ResumedIsRebuildIff | ingest/re_embed.py:485-562 | after a complete resumed run staging is the full rebuild if and only if the rows it started with are the rebuild's and of every other content the run heard and copied or embedded it well |
| ReEmbed.StoppedAndRerun | ingest/re_embed.py:627-844 | from empty staging, after runs stopped and failing anywhere, loudly or silently, and a last one that completes, staging is the full rebuild if and only if every content was copied or embedded well, and was staged before the last run or heard in it |
| ReEmbed.FilesMayChange | ingest/re_embed.py:627-844 | whatever other processes do to the files between the runs, if every run copies or embeds well what it hears, staging after a complete run is the full rebuild if and only if every content was staged before that run or heard in it |
| ReEmbed.RebuiltRows | ingest/re_embed.py:533-562 | the full rebuild has exactly the fresh row of every wanted chunk |
| Cutover.FileSystem.Rename | ops/cutover.py:541-569 | a directory moves only to a free place; a failed rename changes nothing |
| Cutover.FileSystem.PerformDirectorySwap | ops/cutover.py:506-569 | when it refuses, succeeds, restores, fails or is killed, exactly; when it leaves the active path missing; and the directories in each case |
| Cutover.FileSystem.PerformRollback | ops/cutover.py:572-602 | the same for the inverse |
| Cutover.StepConserves | ops/cutover.py:506-602 | no operation, failure or crash loses or overwrites a dataset, and each stays in one place |
| Cutover.NothingIsLost | ops/cutover.py:506-602 | the same over any sequence of swaps, rollbacks, crashes and new staging builds |
| Cutover.ServedStaysRecoverable | ops/cutover.py:506-602 | a dataset once active is always at the active, the rollback or a failed-cutover path |
| Cutover.SwapThenRollback | ops/cutover.py:536-602 | a successful swap and its rollback put the active dataset back and set the promoted one aside |
| Cutover.MissingActiveStays | ops/cutover.py:541-569 | after a crash between the renames both operations refuse, and whatever they do the directories stay |
| HarvestWindows.StateFile.HarvestSet | ingest/oai_delta.py:509-599 | the state file after a walk: the day of its last page, with the token and the set if that page named a next one; the walk begins with the token given or the set and window |
| HarvestWindows.StateFile.RunDelta | ingest/oai_delta.py:680-829 | the window from the date on file unless that is later than today, and its refusal when inverted, as always on the day of the last harvest by default; the first request of each walk, the token on file going to the first walk over its own set on the day it was handed out and nowhere else; the persisted state after completed, stopped and dry runs, and the sets a completed run has walked to their end, a set given up not keeping it from completing |
| HarvestWindows.HarvestedIff | ingest/oai_delta.py:741-774 | a run crashes exactly if one of its walks does, and has harvested exactly the sets of the walks it began that reached a last page |
| HarvestWindows.FileIsLastWrite | ingest/oai_delta.py:590-594 | the file is left as the last walk that was begun and wrote a page left it |
| HarvestWindows.RunSchedule | ingest/oai_delta.py:680-829 | run one after the other on a schedule of completed, aborted and dry runs, the code uses the window the schedule gives each of them, refuses none and leaves the date the schedule says |
| HarvestWindows.WindowBounds | ingest/oai_delta.py:725-738 | each default window begins on the date last left in the state file and ends the day before its run |
| HarvestWindows.WindowsDisjoint | ingest/oai_delta.py:241-274 | no day of the window of a run that moved the date is in a later window |
| HarvestWindows.CoveredIff | ingest/oai_delta.py:590-594 | over completed, aborted and dry runs a day of a set is harvested, lying in the window of a completed run that walked the set to its end, if and only if the first run that starts after it and moves the date is such a run, no run was under way across it, and the date had been moved before or the day is the eve of that run |
| HarvestWindows.GivenUpIsLost | ingest/oai_delta.py:556-577 | no day of the window of a completed run is ever harvested of a set it gave up |
| HarvestWindows.CoveredIffNoOverrun | ingest/oai_delta.py:821-831 | where all runs complete, a day of a set between the first and last is harvested if and only if no run had started and not yet finished on it and the first run after it did not give the set up |
| HarvestWindows.WindowsTile | ingest/oai_delta.py:725-738 | windows of runs that finish on their own day are adjacent, and cover every day of a set that none of them gives up |
| HarvestWindows.RevisitedIff | ingest/oai_delta.py:590-594 | the next window begins where a run's own did if and only if that run wrote no page and did not complete, and the date had been moved before it |
| SiblingCursor.StepIs | ingest/chunker.py:698-856 | what a step emits and where it goes on, written out for each role: after a paired proof at the first child equal to it, otherwise at the next child |
| SiblingCursor.Round | ingest/chunker.py:698-856 | one round of the loop is one step of the cursor, with its emissions |
| SiblingCursor.ExtractFromContainer | ingest/chunker.py:672-856 | the loop is the iterated step, until the end of the children |
| SiblingCursor.PairedProofIff | ingest/chunker.py:780-797 | a theorem is paired with exactly the next proof after it, if no theorem and no section stands between the two; other siblings do not block |
| SiblingCursor.LoopEndsIff | ingest/chunker.py:846-856 | the loop ends if and only if no paired proof equals a child before its theorem, and then within one round a child |
| SiblingCursor.TwinPinsCursor | ingest/chunker.py:852-852 | with such a twin the cursor never passes the theorem |
| SiblingCursor.CursorAdvances | ingest/chunker.py:698-856 | without one every round advances the cursor |
| SiblingCursor.RepeatedProofLoops | ingest/chunker.py:852-852 | three siblings on which the loop never ends |
| SiblingCursor.DocumentOrder | ingest/chunker.py:672-856 | without twins the emissions are exactly one statement a theorem and one group a proof, owned by the theorem before it if only prose and containers stand between, in document order, only subtrees between such a theorem and its proof being skipped |
| ProofWindows.WindowProofText | ingest/chunker.py:603-642 | one window up to 1856 tokens, otherwise the number of windows, and for each the characters of the text it holds: those from its first token's start to its last token's end |
| ProofWindows.WindowShapes | ingest/chunker.py:628-642 | all but the last window are full, neighbours share exactly 64 tokens, the last ends with the last token |
| ProofWindows.WindowsReassemble | ingest/chunker.py:628-642 | dropping each later window's first 64 tokens and concatenating gives the tokens back |
| ProofWindows.CharactersCovered | ingest/chunker.py:628-642 | with monotone offsets the character slices leave no gap |
| BlockPacking.PackBlocks | ingest/chunker.py:1023-1059 | the flushed buffers concatenate to the blocks in order, fit the budget or are single, and none has room for the next block |
| BlockPacking.GreedyIsFewest | ingest/chunker.py:1051-1059 | no order-preserving split into such buffers has fewer pieces |
| BlockPacking.SaturatedIsUnique | ingest/chunker.py:1051-1059 | only one split leaves no buffer room for the next block |
| HeadingStack.ParseSections | ingest/textbook_markdown_chunker.py:128-156 | the regions are the runs of body lines that are not blank, each with the titles of the headings in force there, outermost first |
| PyText.StripIs | ingest/textbook_markdown_chunker.py:137-137 | the stripped text is what stands between the whitespace at either end |
| PyText.JoinCons | ingest/textbook_markdown_chunker.py:137-137 | joining puts one separator between neighbours |
| HeadingStack.PopTo | ingest/textbook_markdown_chunker.py:148-151 | popping what is at least as deep leaves exactly the entries that are less deep |
| HeadingStack.PathStep | ingest/textbook_markdown_chunker.py:144-156 | the headings in force, defined by every later heading being deeper, change by a heading exactly as the stack does |
| HeadingStack.PathDeepens | ingest/textbook_markdown_chunker.py:148-151 | depths strictly increase along the stack |
| HeadingStack.ChapterIsOutermost | ingest/textbook_markdown_chunker.py:120-125 | the chapter is the outermost heading whatever its depth |
| HeadingStack.EveryLineLandsOnce | ingest/textbook_markdown_chunker.py:128-156 | the regions hold the text of all body lines, once and in order, up to whitespace |
| OpenMath.UnescapeDropsEscaped | ingest/textbook_markdown_chunker.py:112-112 | what is left are the characters that are no escaped dollar and no backslash that escapes one |
| OpenMath.MathOpenIff | ingest/textbook_markdown_chunker.py:101-117 | math is open exactly if the maximal runs of adjacent dollars in what is left hold an odd number of pairs, or an odd number of singles, a run of d having d / 2 pairs and d % 2 singles |
| TextSplit.SplitCuts | ingest/textbook_markdown_chunker.py:72-73 | the pieces are what the leftmost matches leave: two newlines with only spaces and tabs between, or all the whitespace after a sentence end |
| TextSplit.TrimmedAreStripped | ingest/textbook_markdown_chunker.py:163-163 | the pieces that are not blank, each without the whitespace at either end, in order |
| MarkdownGroup.MergeOpenMath | ingest/textbook_markdown_chunker.py:159-179 | the pieces are merged, in order, while math is open and the cap allows |
| MarkdownGroup.OddOnlyAtCapOrEnd | ingest/textbook_markdown_chunker.py:159-179 | a merged block is pieces that were odd, in the sense of `OpenMath.MathOpenIff`, after every shorter prefix; it has an even number of dollar pairs and of single dollars unless it reached the cap of 50 merges or the end of the pieces |
| MarkdownGroup.ParagraphBlocks | ingest/textbook_markdown_chunker.py:159-179 | the blocks are such merges of the stripped pieces between blank lines and hold the whole text up to whitespace |
| MarkdownGroup.SplitOversized | ingest/textbook_markdown_chunker.py:182-215 | the pieces are runs of mended sentences and hold the whole block up to whitespace |
| MarkdownGroup.PackSentences | ingest/textbook_markdown_chunker.py:203-215 | the pieces are runs of the sentences in order, each within the maximum or one sentence, and none with room for the next sentence |
| MarkdownGroup.GroupBlocks | ingest/textbook_markdown_chunker.py:218-248 | the chunks are, in order, runs of blocks within the maximum in which only the first may start a statement or proof, and the pieces of oversized blocks; no run ends before it must |
| MarkdownGroup.OnlySentencesExceed | ingest/textbook_markdown_chunker.py:218-248 | a chunk over 1500 tokens is one merged sentence of an oversized block |
| MarkdownGroup.SectionChunks | ingest/textbook_markdown_chunker.py:159-248 | the chunks of a section hold its text in order up to whitespace |
| ArrayBalance.SanitizeMathBalance | ingest/textbook_renderer.py:115-172 | the result is, in order, the characters that belong to no token without a partner, and the content itself when the tokens balance |
| ArrayBalance.StackPass | ingest/textbook_renderer.py:152-165 | the stack pass finds exactly the orphaned closers and the openers never answered |
| ArrayBalance.UnpairedSplit | ingest/textbook_renderer.py:152-165 | those two are disjoint and together are the tokens without a partner |
| ArrayBalance.CutSpans | ingest/textbook_renderer.py:166-172 | cutting the spans leaves exactly the characters outside them, in order |
| ArrayBalance.KeptIsBalanced | ingest/textbook_renderer.py:152-172 | the kept tokens are balanced |
| ArrayBalance.RepairIsOptimal | ingest/textbook_renderer.py:152-172 | no balanced subsequence of the tokens is longer |
| ArrayBalance.NothingDroppedIffBalanced | ingest/textbook_renderer.py:152-172 | nothing is dropped if and only if the input was balanced |
| TexScan.StripTexComments | ingest/preamble.py:134-167 | the look-back stripper computes what the one-pass automaton computes: the characters that no unescaped percent sign stands before or at on their line, in order |
| TexScan.LookBackIsParity | ingest/preamble.py:146-156 | outside comments, looking back over backslashes tells the parity the automaton carries |
| TexScan.CommentMeansUnescapedPercent | ingest/preamble.py:134-167 | the automaton is in a comment exactly after an unescaped percent sign of the same line |
| TexScan.StrippedKeepsNewlines | ingest/preamble.py:134-167 | every newline survives |
| TexScan.StripIsIdempotent | ingest/preamble.py:134-167 | stripping again changes nothing |
| TexScan.ScanBalancedBody | ingest/preamble.py:175-199 | the first place that closes the brace, and none exactly when no prefix does |
| TexScan.FirstCloseEndsBody | ingest/preamble.py:175-199 | what stands before it is balanced, ends without a dangling backslash, and no prefix of it goes below the opening level |
| TexScan.BalanceBraces | ingest/index_definitions.py:116-140 | the same place with the body, and the start when there is none |
| TexScan.CollapseGap | ingest/preamble.py:207-208 | all the whitespace between two texts becomes one space |
| TexScan.CollapseSolid | ingest/preamble.py:207-208 | a text without whitespace stays as it is |
| TexScan.CollapseKeepsLevel | ingest/preamble.py:207-208 | collapsing whitespace keeps brace level and escapes |
| TexScan.NormaliseParts | ingest/preamble.py:207-208 | normalising a captured macro touches its head and the inside of its body only |
| TexScan.ReaderRecoversBody | ingest/index_definitions.py:143-216 | reading a stored macro ends at the end of its line with the whitespace-collapsed body the writer scanned |

## Left out

- HTTP fetching, sleeping, page parsing, logging, metrics, command lines and subprocess drivers.
- SQLite, LanceDB, Kùzu, FAISS and tokenizer internals: they appear as a capped map with expiry, a map with upsert, nodes and edges, any descending top-n answer, and a counting or offset parameter.
- Duplicate ids inside one upsert batch: the model takes the last row, the original leaves the choice to the database.
- SHA-256 and NFC normalisation: digests are injective and canonical forms are given.
- Floating point: scores and times are reals.
- Regular expressions: heading lines, environment matches and statement starters come as matched input or predicates; the macro heads come as positions.
- SiblingCursor.ExtractFromContainer: a nested container is one emission, the recursion into it being the same loop; chunk numbering, windowing and truncation of what is emitted are not part of it.
- BlockPacking.PackBlocks: the truncation of a single block over the budget and the chunk records are not part of it; the budget is summed from the block counts, as in the code.
- Rows that expire together: the store's query leaves the order in which they are evicted open, and so does the model.
- The order in which start-up loads rows into the mirror: any order is allowed. Stored payloads that do not parse, and payloads that cannot be serialised, are not modelled.
- The Tier-3 cache, single-flight locks, and the order in which a search consults the tiers.
- EmbedProtocol.EveryRowIsGenuine: a vector is a function of embedder version and content id, so a preamble that changed between chunking and embedding is not seen; a deployment ends the processes of the old version; the two readings of the chunk manifest by one embed run are one.
- EmbedProtocol.PaperFiles.EmbedPaper: corrupt manifests and chunk files, which only stop an embed run, are represented by a repeated id.
- Store.BuildTable: of the field checks, only the kind is modelled; the others refuse the batch in the same way.
- ReEmbed.ReEmbedder.ProcessPaper: the order in which pending chunks are written, which the original takes from a set; ids are distinct, so it does not show.
- ReEmbed.StoppedAndRerun: exact where only these runs touch the papers' files between themselves; with other processes in between, `FilesMayChange` assumes that every run copies and embeds well. A chunker that succeeds makes the same of each paper in every run.
- ReEmbed.ReEmbedder.Run: state file, sentinels and failure log are not modelled; a paper whose chunk ids do not parse is not re-embedded by the original and has no old ids here.
- GraphIngest.CitationGraph.Ingest: an unreadable checkpoint file, which restarts from nothing; the papers of a reloaded checkpoint come back in any order.
- Cutover.FileSystem.Rename: permissions and partly copied directories; renames stay on one device.
- HarvestWindows.StateFile.RunDelta: what becomes of a harvested record in the pipeline it is fed to, and the pages a token continues with.
