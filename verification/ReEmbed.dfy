/** Re-embedding a corpus incrementally: rows whose content is unchanged are copied from the active
    table, the rest are embedded (`compute_diff`, `_build_copy_embed_record`,
    `_subset_embed_record`, `_process_paper` and `run_re_embed` in `ingest/re_embed.py`).

    A run may be killed before any write, and any write may fail before or after its commit. The
    embedder is that of `EmbedProtocol`: it may skip a paper, and what is loaded is what its files
    then hold. */
module ReEmbed {
  import opened Prelude
  import opened Store
  import EmbedProtocol

  // ------------------------------------------------------------------
  // The diff
  // ------------------------------------------------------------------

  /** (copy, reEmbed, drop): copy and drop partition the old ids, copy and reEmbed the new. */
  function ComputeDiff(old_: set<Id>, new_: set<Id>): (d: (set<Id>, set<Id>, set<Id>))
    ensures d.0 + d.2 == old_ && d.0 !! d.2 && |d.0| + |d.2| == |old_|
    ensures d.0 + d.1 == new_ && d.0 !! d.1 && |d.0| + |d.1| == |new_|
    ensures d.1 !! d.2
  {
    assert old_ * new_ + (old_ - new_) == old_ && old_ * new_ + (new_ - old_) == new_;
    (old_ * new_, new_ - old_, old_ - new_)
  }

  function IdSet(chunks: seq<Chunk>): set<Id> {
    Elements(EmbedProtocol.Ids(chunks))
  }

  function Elements(ids: seq<Id>): set<Id> {
    set id | id in ids
  }

  lemma {:induction false} ElementsSize(ids: seq<Id>)
    requires Distinct(ids)
    ensures |Elements(ids)| == |ids|
  {
    if ids != [] {
      var n := |ids| - 1;
      ElementsSize(ids[..n]);
      assert ids == ids[..n] + [ids[n]];
      assert Elements(ids) == Elements(ids[..n]) + {ids[n]};
    }
  }

  // ------------------------------------------------------------------
  // Rows
  // ------------------------------------------------------------------

  /** The row a full rebuild writes. */
  function FreshRow(c: Chunk, target: Version): Row {
    var v := Some(Vector(target, c.id));
    if c.kind == "proof" then Row(c, None, v, target) else Row(c, v, None, target)
  }

  /** The row the copy path writes: the column of the old row's kind, the target's stamp. */
  function CopyRow(old_: Row, c: Chunk, target: Version): Row {
    if old_.chunk.kind == "proof" then Row(c, None, old_.proof, target) else Row(c, old_.stmt, None, target)
  }

  /** An old row the copy path accepts. */
  predicate Copyable(row: Row, version: Version) {
    row.embedderVersion == version && if row.chunk.kind == "proof" then row.proof.Some? else row.stmt.Some?
  }

  /** Copying a genuine row gives what embedding afresh would, exactly when the two versions are the
      same and the content stays on its side of the proof divide. */
  lemma CopyIsFreshIff(old_: Row, c: Chunk, version: Version, target: Version)
    requires Genuine(c.id, old_) && Copyable(old_, version)
    ensures CopyRow(old_, c, target) == FreshRow(c, target) <==>
            version == target && (old_.chunk.kind == "proof" <==> c.kind == "proof")
  {
  }

  /** Rows built from a paper's own archive are the rebuild's rows. */
  lemma ArchiveRowsAreFresh(chunks: seq<Chunk>, c: Chunk, target: Version)
    requires Distinct(EmbedProtocol.Ids(chunks)) && c in chunks
    ensures var r := EmbedProtocol.Named(EmbedProtocol.Archive(chunks, target), target);
            WellFormed(r) && Embedded(c, r) && RowOf(c, r) == FreshRow(c, target)
  {
    var r := EmbedProtocol.Named(EmbedProtocol.Archive(chunks, target), target);
    EmbedProtocol.ArchiveIsRight(chunks, target);
    RowGenuineIff(c, r, target);
  }

  // ------------------------------------------------------------------
  // Records of part of a paper
  // ------------------------------------------------------------------

  function MaskIds(ids: seq<Id>, keep: set<Id>): seq<Id> {
    if ids == [] then [] else MaskIds(ids[..|ids| - 1], keep) + if Last(ids) in keep then [Last(ids)] else []
  }

  function MaskVecs(ids: seq<Id>, vecs: seq<Vector>, keep: set<Id>): (masked: seq<Vector>)
    requires |ids| == |vecs|
    ensures |masked| == |MaskIds(ids, keep)|
  {
    if ids == [] then []
    else MaskVecs(ids[..|ids| - 1], vecs[..|ids| - 1], keep) + if Last(ids) in keep then [Last(vecs)] else []
  }

  /** `_subset_embed_record`. */
  function Subset(r: Record, keep: set<Id>): Record
    requires WellFormed(r)
  {
    Record(MaskIds(r.stmtIds, keep), MaskVecs(r.stmtIds, r.stmtVecs, keep),
      MaskIds(r.proofIds, keep), MaskVecs(r.proofIds, r.proofVecs, keep), r.version)
  }

  lemma {:induction false} MaskKeeps(ids: seq<Id>, vecs: seq<Vector>, keep: set<Id>)
    requires |ids| == |vecs|
    ensures forall id :: id in MaskIds(ids, keep) <==> id in ids && id in keep
    ensures Distinct(ids) ==> Distinct(MaskIds(ids, keep))
    ensures var masked := Lookup(MaskIds(ids, keep), MaskVecs(ids, vecs, keep));
            forall id :: id in keep ==> Find(masked, id) == Find(Lookup(ids, vecs), id)
  {
    if ids != [] {
      var n := |ids| - 1;
      assert ids == ids[..n] + [ids[n]];
      MaskKeeps(ids[..n], vecs[..n], keep);
      var mi, mv := MaskIds(ids[..n], keep), MaskVecs(ids[..n], vecs[..n], keep);
      if ids[n] in keep {
        assert (mi + [ids[n]])[..|mi|] == mi && (mv + [vecs[n]])[..|mi|] == mv;
        assert Lookup(mi + [ids[n]], mv + [vecs[n]]) == Lookup(mi, mv)[ids[n] := vecs[n]];
      } else {
        assert MaskIds(ids, keep) == mi && MaskVecs(ids, vecs, keep) == mv;
      }
    }
  }

  /** The subset gives every kept chunk the row of the whole. */
  lemma SubsetRows(r: Record, keep: set<Id>)
    requires WellFormed(r)
    ensures WellFormed(Subset(r, keep))
    ensures forall c: Chunk :: c.id in keep ==> RowOf(c, Subset(r, keep)) == RowOf(c, r)
    ensures forall c: Chunk :: c.id in keep ==> (Embedded(c, Subset(r, keep)) <==> Embedded(c, r))
  {
    MaskKeeps(r.stmtIds, r.stmtVecs, keep);
    MaskKeeps(r.proofIds, r.proofVecs, keep);
  }

  // ------------------------------------------------------------------
  // The copy path
  // ------------------------------------------------------------------

  /** `_build_copy_embed_record`: one row that cannot be copied refuses the whole record. */
  method BuildCopyRecord(ids: seq<Id>, active: Table, oldVersion: Version, target: Version)
    returns (built: Option<Record>)
    requires Distinct(ids) && forall id :: id in ids ==> id in active
    ensures built.Some? <==> forall id :: id in ids ==> Copyable(active[id], oldVersion)
    ensures built.Some? ==> WellFormed(built.value)
    ensures built.Some? ==> forall c: Chunk :: c.id in ids ==>
              Embedded(c, built.value) && RowOf(c, built.value) == CopyRow(active[c.id], c, target)
  {
    var stmtIds, proofIds: seq<Id> := [], [];
    var stmtVecs, proofVecs: seq<Vector> := [], [];
    for i := 0 to |ids|
      invariant Copied(ids[..i], active, oldVersion, Record(stmtIds, stmtVecs, proofIds, proofVecs, target))
    {
      var row := active[ids[i]];
      assert ids[..i + 1] == ids[..i] + [ids[i]];
      if row.embedderVersion != oldVersion {
        return None;
      }
      ghost var r := Record(stmtIds, stmtVecs, proofIds, proofVecs, target);
      CopiedOne(ids, i, active, oldVersion, r);
      if row.chunk.kind == "proof" {
        if row.proof.None? {
          return None;
        }
        proofIds, proofVecs := proofIds + [ids[i]], proofVecs + [row.proof.value];
      } else {
        if row.stmt.None? {
          return None;
        }
        stmtIds, stmtVecs := stmtIds + [ids[i]], stmtVecs + [row.stmt.value];
      }
    }
    assert ids[..|ids|] == ids;
    var r := Record(stmtIds, stmtVecs, proofIds, proofVecs, target);
    CopiedRows(ids, active, oldVersion, r);
    return Some(r);
  }

  /** Each vector of r is the one its id's old row has in the column of the old kind. */
  ghost predicate Copied(ids: seq<Id>, active: Table, version: Version, r: Record) {
    && WellFormed(r)
    && (forall id :: id in ids <==> id in r.stmtIds || id in r.proofIds)
    && (forall id :: id in ids ==> id in active && Copyable(active[id], version))
    && (forall i :: 0 <= i < |r.stmtIds| ==>
          && r.stmtIds[i] in active && active[r.stmtIds[i]].chunk.kind != "proof"
          && active[r.stmtIds[i]].stmt == Some(r.stmtVecs[i]))
    && (forall i :: 0 <= i < |r.proofIds| ==>
          && r.proofIds[i] in active && active[r.proofIds[i]].chunk.kind == "proof"
          && active[r.proofIds[i]].proof == Some(r.proofVecs[i]))
  }

  lemma CopiedOne(ids: seq<Id>, i: nat, active: Table, version: Version, r: Record)
    requires Distinct(ids) && i < |ids| && Copied(ids[..i], active, version, r) && ids[i] in active
    requires active[ids[i]].embedderVersion == version
    ensures active[ids[i]].chunk.kind == "proof" && active[ids[i]].proof.Some? ==>
      Copied(ids[..i + 1], active, version,
        r.(proofIds := r.proofIds + [ids[i]], proofVecs := r.proofVecs + [active[ids[i]].proof.value]))
    ensures active[ids[i]].chunk.kind != "proof" && active[ids[i]].stmt.Some? ==>
      Copied(ids[..i + 1], active, version,
        r.(stmtIds := r.stmtIds + [ids[i]], stmtVecs := r.stmtVecs + [active[ids[i]].stmt.value]))
  {
    assert ids[..i + 1] == ids[..i] + [ids[i]];
    assert ids[i] !in ids[..i];
  }

  lemma CopiedRows(ids: seq<Id>, active: Table, version: Version, r: Record)
    requires Copied(ids, active, version, r)
    ensures forall c: Chunk :: c.id in ids ==>
              Embedded(c, r) && RowOf(c, r) == CopyRow(active[c.id], c, r.version)
  {
    LookupPairs(r.stmtIds, r.stmtVecs);
    LookupPairs(r.proofIds, r.proofVecs);
  }

  // ------------------------------------------------------------------
  // One paper
  // ------------------------------------------------------------------

  type Disk = string -> EmbedProtocol.Files

  /** What a run reads: the active table and its version, the target, what the chunker now makes of
      each paper, and what each paper's files held before the first run. */
  datatype Source = Source(active: Table, oldVersion: Version, target: Version,
                           chunks: string -> seq<Chunk>, paperOf: Id -> Option<string>, files: Disk)

  /** Chunk ids are distinct within a paper and name it. */
  ghost predicate Sensible(src: Source, paper: string) {
    && Distinct(EmbedProtocol.Ids(src.chunks(paper)))
    && forall c :: c in src.chunks(paper) ==> src.paperOf(c.id) == Some(paper)
  }

  function OldIds(src: Source, paper: string): set<Id> {
    set id | id in src.active && src.paperOf(id) == Some(paper)
  }

  /** What the embed step of a paper loads when these are its files. */
  function RecordOf(src: Source, f: EmbedProtocol.Files, paper: string): EmbedProtocol.Loaded {
    EmbedProtocol.LoadRecord(EmbedProtocol.FullyEmbedded(f.(manifest := Some(src.chunks(paper)))))
  }

  function PaperOf(src: Source, c: Chunk): string {
    var paper := src.paperOf(c.id);
    if paper.Some? then paper.value else ""
  }

  /** The row is one a run writes for the chunk: copied if its id is active, else that of the record the
      embed step loads. */
  ghost predicate Writes(src: Source, c: Chunk, row: Row) {
    if c.id in src.active then
      Copyable(src.active[c.id], src.oldVersion) && row == CopyRow(src.active[c.id], c, src.target)
    else
      var l := RecordOf(src, src.files(PaperOf(src, c)), PaperOf(src, c));
      l.Loaded? && l.r.version == src.target && Embedded(c, l.r) && row == RowOf(c, l.r)
  }

  function Pick(chunks: seq<Chunk>, ids: set<Id>): seq<Chunk> {
    if chunks == [] then []
    else Pick(chunks[..|chunks| - 1], ids) + if Last(chunks).id in ids then [Last(chunks)] else []
  }

  lemma {:induction false} PickHolds(chunks: seq<Chunk>, ids: set<Id>)
    ensures forall c :: c in Pick(chunks, ids) <==> c in chunks && c.id in ids
  {
    if chunks != [] {
      var n := |chunks| - 1;
      PickHolds(chunks[..n], ids);
      assert chunks == chunks[..n] + [chunks[n]];
    }
  }

  lemma {:induction false} PickDistinct(chunks: seq<Chunk>, ids: set<Id>)
    requires Distinct(EmbedProtocol.Ids(chunks))
    ensures Distinct(EmbedProtocol.Ids(Pick(chunks, ids)))
  {
    if chunks != [] {
      var n := |chunks| - 1;
      var most, all := Pick(chunks[..n], ids), EmbedProtocol.Ids(chunks);
      PickHolds(chunks[..n], ids);
      assert EmbedProtocol.Ids(chunks[..n]) == all[..n];
      PickDistinct(chunks[..n], ids);
      forall c | c in most ensures c.id != chunks[n].id {
        var i :| 0 <= i < n && chunks[..n][i] == c;
        assert all[i] != all[n];
      }
      if chunks[n].id in ids {
        assert Pick(chunks, ids) == most + [chunks[n]];
        assert EmbedProtocol.Ids(most + [chunks[n]]) == EmbedProtocol.Ids(most) + [chunks[n].id];
        forall i | 0 <= i < |most| ensures EmbedProtocol.Ids(most)[i] != chunks[n].id {
          assert most[i] in most;
        }
      } else {
        assert Pick(chunks, ids) == most;
      }
    }
  }

  /** Nothing is lost, and what is new or changed is a row the run should write for this paper. */
  ghost predicate Advances(src: Source, paper: string, before: Table, after: Table) {
    && before.Keys <= after.Keys
    && forall id :: id in after ==>
         || (id in before && after[id] == before[id])
         || (exists c :: c in src.chunks(paper) && c.id == id && Writes(src, c, after[id]))
  }

  lemma WriteAdvances(src: Source, paper: string, before: Table, chunks: seq<Chunk>, r: Record)
    requires WellFormed(r) && forall c :: c in chunks ==> c in src.chunks(paper) && Writes(src, c, RowOf(c, r))
    requires Distinct(EmbedProtocol.Ids(chunks))
    ensures Advances(src, paper, before, Upsert(before, RowsOf(chunks, r)))
    ensures forall c :: c in chunks ==>
              c.id in Upsert(before, RowsOf(chunks, r)) && Writes(src, c, Upsert(before, RowsOf(chunks, r))[c.id])
  {
    RowsAdvance(src, paper, before, RowsOf(chunks, r));
    hide Writes;
    forall c | c in chunks
      ensures c.id in Upsert(before, RowsOf(chunks, r)) && Writes(src, c, Upsert(before, RowsOf(chunks, r))[c.id])
    {
      EmbedProtocol.StoredUnderId(before, chunks, r, c);
    }
  }

  lemma {:induction false} RowsAdvance(src: Source, paper: string, before: Table, rows: seq<Row>)
    requires forall r :: r in rows ==> r.chunk in src.chunks(paper) && Writes(src, r.chunk, r)
    ensures Advances(src, paper, before, Upsert(before, rows))
  {
    if rows != [] {
      RowsAdvance(src, paper, before, rows[..|rows| - 1]);
    }
  }

  lemma AdvancesTwice(src: Source, paper: string, a: Table, b: Table, c: Table)
    requires Advances(src, paper, a, b) && Advances(src, paper, b, c)
    ensures Advances(src, paper, a, c)
  {
    hide Writes;
  }

  /** Rows outside these ids stay as they are. */
  ghost predicate Untouched(before: Table, after: Table, ids: set<Id>) {
    forall id :: id in before && id !in ids ==> id in after && after[id] == before[id]
  }

  lemma UpsertTouches(table: Table, chunks: seq<Chunk>, r: Record)
    requires WellFormed(r)
    ensures Untouched(table, Upsert(table, RowsOf(chunks, r)), IdSet(chunks))
  {
    var rows := RowsOf(chunks, r);
    forall id | id in table && id !in IdSet(chunks)
      ensures id in Upsert(table, rows) && Upsert(table, rows)[id] == table[id]
    {
      UpsertIsRightBiased(table, rows, id);
      forall row | row in rows ensures row.chunk.id != id {
        var i :| 0 <= i < |rows| && rows[i] == row;
        InIdSet(chunks, chunks[i]);
      }
    }
  }

  lemma PickedIds(chunks: seq<Chunk>, ids: set<Id>)
    ensures IdSet(Pick(chunks, ids)) <= ids
  {
    PickHolds(chunks, ids);
    var picked := Pick(chunks, ids);
    forall id | id in IdSet(picked) ensures id in ids {
      var i :| 0 <= i < |picked| && EmbedProtocol.Ids(picked)[i] == id;
      assert picked[i] in picked;
    }
  }

  /** How a write ends. */
  datatype WriteFate = Commits | FailsAfterCommit | FailsBefore | KilledBefore

  /** The rows reach the table, whatever is reported. */
  predicate Lands(fate: WriteFate) { fate.Commits? || fate.FailsAfterCommit? }

  /** How a chunker run ends: with its chunks and their manifest, with an error that reaches the run, or
      with an OSError or ValueError that `chunk_paper` turns into an empty list; either of these before
      or after its clean-up. */
  datatype ChunkFate = Chunks | Raises(cleaned: bool) | ReturnsNothing(cleaned: bool)

  /** How an embed run ends; half tells that it ends between its two writes. */
  datatype EmbedFate = Embeds | EmbedFails(half: bool) | EmbedKilled(half: bool)

  /** What the world does to one paper. */
  datatype PaperFate = PaperFate(chunk: ChunkFate, copy: WriteFate, embed: EmbedFate, write: WriteFate)

  /** What a run still has to copy, or to embed, these ids being staged already. */
  predicate ToCopy(src: Source, paper: string, already: set<Id>, c: Chunk) {
    c in src.chunks(paper) && c.id in src.active && c.id !in already
  }

  predicate ToEmbed(src: Source, paper: string, already: set<Id>, c: Chunk) {
    c in src.chunks(paper) && c.id !in src.active && c.id !in already
  }

  /** Their ids. */
  function CopyIds(src: Source, paper: string, already: set<Id>): set<Id> {
    OldIds(src, paper) * IdSet(src.chunks(paper)) - already
  }

  function EmbedIds(src: Source, paper: string, already: set<Id>): set<Id> {
    IdSet(src.chunks(paper)) - OldIds(src, paper) - already
  }

  ghost predicate SomeToCopy(src: Source, paper: string, already: set<Id>) {
    exists c :: ToCopy(src, paper, already, c)
  }

  ghost predicate SomeToEmbed(src: Source, paper: string, already: set<Id>) {
    exists c :: ToEmbed(src, paper, already, c)
  }

  /** The embed step loads a record that names the target. */
  predicate LoadsTarget(src: Source, paper: string) {
    var l := RecordOf(src, src.files(paper), paper);
    l.Loaded? && l.r.version == src.target
  }

  /** It holds the chunk. */
  predicate EmbedsChunk(src: Source, paper: string, c: Chunk) {
    var l := RecordOf(src, src.files(paper), paper);
    l.Loaded? && Embedded(c, l.r)
  }

  ghost predicate AllCopyable(src: Source, paper: string, already: set<Id>) {
    forall c :: ToCopy(src, paper, already, c) ==> Copyable(src.active[c.id], src.oldVersion)
  }

  /** Nothing is left to copy, or every such row can be copied, is of a known kind, and its write commits. */
  ghost predicate CopyGoes(src: Source, paper: string, already: set<Id>, fate: WriteFate) {
    && AllCopyable(src, paper, already)
    && forall c :: ToCopy(src, paper, already, c) ==> c.kind in KINDS && fate.Commits?
  }

  /** Nothing is left to embed, or the embed run ends, its record names the target and holds every such
      chunk, each is of a known kind, and the write commits. */
  ghost predicate EmbedGoes(src: Source, paper: string, already: set<Id>, fate: PaperFate) {
    forall c :: ToEmbed(src, paper, already, c) ==>
      && fate.embed.Embeds? && LoadsTarget(src, paper)
      && EmbedsChunk(src, paper, c) && c.kind in KINDS && fate.write.Commits?
  }

  /** The embed step is reached and has something to do. */
  ghost predicate EmbedStarts(src: Source, paper: string, already: set<Id>, fate: PaperFate) {
    CopyGoes(src, paper, already, fate.copy) && SomeToEmbed(src, paper, already)
  }

  /** What was to copy, or to embed, has the row this run should write. */
  ghost predicate CopiesIn(src: Source, paper: string, already: set<Id>, t: Table) {
    forall c :: ToCopy(src, paper, already, c) ==> c.id in t && Writes(src, c, t[c.id])
  }

  ghost predicate EmbedsIn(src: Source, paper: string, already: set<Id>, t: Table) {
    forall c :: ToEmbed(src, paper, already, c) ==> c.id in t && Writes(src, c, t[c.id])
  }

  lemma NothingToBring(src: Source, paper: string, already: set<Id>, t: Table)
    ensures !SomeToCopy(src, paper, already) ==> CopiesIn(src, paper, already, t)
    ensures !SomeToEmbed(src, paper, already) ==> EmbedsIn(src, paper, already, t)
  {
    hide ToCopy, ToEmbed, Writes;
  }

  /** The copied rows, or the embedded ones, reach the table, even if the write then fails. */
  ghost predicate CopyLands(src: Source, paper: string, already: set<Id>, fate: WriteFate) {
    AllCopyable(src, paper, already) && forall c :: ToCopy(src, paper, already, c) ==> c.kind in KINDS && Lands(fate)
  }

  ghost predicate EmbedLands(src: Source, paper: string, already: set<Id>, fate: PaperFate) {
    && EmbedStarts(src, paper, already, fate) && fate.embed.Embeds? && LoadsTarget(src, paper) && Lands(fate.write)
    && forall c :: ToEmbed(src, paper, already, c) ==> EmbedsChunk(src, paper, c) && c.kind in KINDS
  }

  /** Once begun, the embed step ends in a kill. */
  predicate EmbedDies(src: Source, paper: string, fate: PaperFate) {
    || fate.embed.EmbedKilled?
    || (fate.embed.Embeds? && LoadsTarget(src, paper) && fate.write.KilledBefore?)
  }

  /** The process is killed at one of the writes it reaches. */
  ghost predicate Dies(src: Source, paper: string, already: set<Id>, fate: PaperFate) {
    || (SomeToCopy(src, paper, already) && AllCopyable(src, paper, already) && fate.copy.KilledBefore?)
    || (EmbedStarts(src, paper, already, fate) && EmbedDies(src, paper, fate))
  }

  lemma Outcomes(src: Source, paper: string, already: set<Id>, fate: PaperFate)
    ensures SomeToCopy(src, paper, already) ==>
      && (Dies(src, paper, already, fate) <==>
          || (AllCopyable(src, paper, already) && fate.copy.KilledBefore?)
          || (EmbedStarts(src, paper, already, fate) && EmbedDies(src, paper, fate)))
      && (fate.copy.KilledBefore? ==> !CopyGoes(src, paper, already, fate.copy))
    ensures !SomeToCopy(src, paper, already) ==>
      && CopyGoes(src, paper, already, fate.copy)
      && (Dies(src, paper, already, fate) <==>
          EmbedStarts(src, paper, already, fate) && EmbedDies(src, paper, fate))
    ensures SomeToEmbed(src, paper, already) ==>
      && (EmbedStarts(src, paper, already, fate) <==> CopyGoes(src, paper, already, fate.copy))
      && (EmbedDies(src, paper, fate) ==> !EmbedGoes(src, paper, already, fate))
    ensures !SomeToEmbed(src, paper, already) ==>
      EmbedGoes(src, paper, already, fate) && !EmbedStarts(src, paper, already, fate)
    ensures EmbedLands(src, paper, already, fate) ==> EmbedStarts(src, paper, already, fate)
    ensures CopyGoes(src, paper, already, fate.copy) ==> CopyLands(src, paper, already, fate.copy)
  {
    hide ToCopy, ToEmbed, LoadsTarget, EmbedsChunk, Copyable;
  }

  /** The files of every paper lead to the records its first files would have led to. */
  ghost predicate FilesFollow(src: Source, files: Disk) {
    forall paper :: RecordOf(src, files(paper), paper) == RecordOf(src, src.files(paper), paper)
  }

  /** The papers of the first n whose chunks the run gets to see. */
  function Heard(papers: seq<string>, fates: nat -> PaperFate, n: nat): seq<string>
    requires n <= |papers|
  {
    if n == 0 then []
    else Heard(papers, fates, n - 1) + if fates(n - 1).chunk.Chunks? then [papers[n - 1]] else []
  }

  lemma {:induction false} HeardHolds(papers: seq<string>, fates: nat -> PaperFate, n: nat)
    requires n <= |papers|
    ensures forall p :: p in Heard(papers, fates, n) <==>
              exists i: nat :: i < n && papers[i] == p && fates(i).chunk.Chunks?
  {
    if n > 0 { HeardHolds(papers, fates, n - 1); }
  }

  function Put(files: Disk, paper: string, f: EmbedProtocol.Files): Disk {
    (x: string) => if x == paper then f else files(x)
  }

  lemma PutFollows(src: Source, files: Disk, paper: string, f: EmbedProtocol.Files)
    requires FilesFollow(src, files) && RecordOf(src, f, paper) == RecordOf(src, files(paper), paper)
    ensures FilesFollow(src, Put(files, paper, f))
  {
    hide RecordOf;
    forall x ensures RecordOf(src, Put(files, paper, f)(x), x) == RecordOf(src, src.files(x), x) {
      assert Put(files, paper, f)(x) == if x == paper then f else files(x);
    }
  }

  /** Whether the embed step is over, half over or never begun, the record stays what it was. */
  lemma EmbedFollows(src: Source, f: EmbedProtocol.Files, paper: string)
    requires f.manifest == Some(src.chunks(paper))
    ensures RecordOf(src, EmbedProtocol.HalfEmbedded(f), paper) == RecordOf(src, f, paper)
    ensures RecordOf(src, EmbedProtocol.FullyEmbedded(f), paper) == RecordOf(src, f, paper)
  {
    EmbedProtocol.EmbeddingSettles(f);
    hide EmbedProtocol.Archive, EmbedProtocol.UpToDate, EmbedProtocol.SidecarOf, EmbedProtocol.LoadRecord;
    var half, full := EmbedProtocol.HalfEmbedded(f), EmbedProtocol.FullyEmbedded(f);
    assert half.(manifest := Some(src.chunks(paper))) == half && full.(manifest := Some(src.chunks(paper))) == full;
  }

  datatype End = Done | Failed | Dead

  /** A paper's files after an embed run of this fate. */
  function AfterEmbed(f: EmbedProtocol.Files, fate: EmbedFate): EmbedProtocol.Files {
    match fate
    case Embeds => EmbedProtocol.FullyEmbedded(f)
    case EmbedFails(half) => if half then EmbedProtocol.HalfEmbedded(f) else f
    case EmbedKilled(half) => if half then EmbedProtocol.HalfEmbedded(f) else f
  }

  /** Every chunk of the paper has a row, one this run should write unless it was there already. */
  ghost predicate Brought(src: Source, paper: string, already: set<Id>, t: Table) {
    forall c :: c in src.chunks(paper) ==> c.id in t && (c.id !in already ==> Writes(src, c, t[c.id]))
  }

  // ------------------------------------------------------------------
  // A run over papers
  // ------------------------------------------------------------------

  datatype Summary = Summary(copied: nat, reEmbedded: nat, skipped: nat, target: nat, dropped: nat, failed: seq<string>)

  datatype RunEnd = Refused | Complete | CompleteWithFailures | Killed

  /** A run's input: already are the ids a resumed run leaves alone. */
  datatype Plan = Plan(src: Source, papers: seq<string>, fates: nat -> PaperFate, already: set<Id>, dryRun: bool)

  /** Of the papers together: the chunks now, those to copy and to embed, the old ids, and the old ids
      still there. */
  datatype Tally = Tally(new_: nat, copied: nat, reEmbedded: nat, old_: nat, kept: nat)

  function Tallied(src: Source, already: set<Id>, papers: seq<string>): Tally {
    if papers == [] then Tally(0, 0, 0, 0, 0)
    else Plus(Tallied(src, already, papers[..|papers| - 1]), PaperTally(src, already, Last(papers)))
  }

  function PaperTally(src: Source, already: set<Id>, paper: string): Tally {
    TallyOf(IdSet(src.chunks(paper)), OldIds(src, paper), already)
  }

  function TallyOf(now: set<Id>, was: set<Id>, already: set<Id>): Tally {
    Tally(|now|, |was * now - already|, |now - was - already|, |was|, |was * now|)
  }

  function Plus(a: Tally, b: Tally): Tally {
    Tally(a.new_ + b.new_, a.copied + b.copied, a.reEmbedded + b.reEmbedded, a.old_ + b.old_, a.kept + b.kept)
  }

  ghost predicate Wanted(src: Source, papers: seq<string>, c: Chunk) {
    exists p :: p in papers && c in src.chunks(p)
  }

  /** Advances, for all of the papers. */
  ghost predicate AdvancesOver(src: Source, papers: seq<string>, before: Table, after: Table) {
    && before.Keys <= after.Keys
    && forall id :: id in after ==>
         || (id in before && after[id] == before[id])
         || (exists c :: Wanted(src, papers, c) && c.id == id && Writes(src, c, after[id]))
  }

  /** Every chunk of the papers has a row. */
  ghost predicate Covers(src: Source, papers: seq<string>, t: Table) {
    forall p, c :: p in papers && c in src.chunks(p) ==> c.id in t
  }

  /** All papers are brought over. */
  ghost predicate AllBrought(src: Source, papers: seq<string>, already: set<Id>, t: Table) {
    forall p :: p in papers ==> Brought(src, p, already, t)
  }

  ghost predicate Running(src: Source, papers: seq<string>, before: Table, now: Table, resume: bool) {
    AdvancesOver(src, papers, before, now) && (resume ==> Untouched(before, now, {}))
  }

  /** The run gets through its k-th paper: there is nothing to see, or the paper can be processed. */
  ghost predicate Goes(plan: Plan, k: nat)
    requires k < |plan.papers|
  {
    var paper, fate := plan.papers[k], plan.fates(k);
    || fate.chunk.ReturnsNothing?
    || (fate.chunk.Chunks? && plan.dryRun)
    || (fate.chunk.Chunks? && CopyGoes(plan.src, paper, plan.already, fate.copy)
        && EmbedGoes(plan.src, paper, plan.already, fate))
  }

  /** The process is killed at its k-th paper, if it gets there. */
  ghost predicate DiesAt(plan: Plan, k: nat)
    requires k < |plan.papers|
  {
    !plan.dryRun && plan.fates(k).chunk.Chunks? && Dies(plan.src, plan.papers[k], plan.already, plan.fates(k))
  }

  /** After i papers none of which failed, the ones heard being given. */
  ghost predicate Counted(plan: Plan, i: nat, heard: seq<string>, now: Table, s: Summary)
    requires i <= |plan.papers|
  {
    var t := Tallied(plan.src, plan.already, heard);
    && s.target == t.new_
    && s.dropped + t.kept == Tallied(plan.src, plan.already, plan.papers[..i]).old_
    && (!plan.dryRun ==>
          && AllBrought(plan.src, heard, plan.already, now)
          && s.copied == t.copied && s.reEmbedded == t.reEmbedded
          && s.copied + s.reEmbedded + s.skipped == s.target)
  }

  /** Of the first i papers, those the run does not get through are the failed ones. */
  ghost predicate Recorded(plan: Plan, i: nat, failed: seq<string>)
    requires i <= |plan.papers|
  {
    forall p :: p in failed <==> exists k: nat :: k < i && plan.papers[k] == p && !Goes(plan, k)
  }

  /** What holds of a run after i papers. */
  ghost predicate RunState(plan: Plan, i: nat, before: Table, now: Table, s: Summary, resume: bool)
    requires i <= |plan.papers|
  {
    && Running(plan.src, Heard(plan.papers, plan.fates, |plan.papers|), before, now, resume)
    && Recorded(plan, i, s.failed)
    && (forall k: nat :: k < i ==> !DiesAt(plan, k))
    && (s.failed == [] ==> Counted(plan, i, Heard(plan.papers, plan.fates, i), now, s))
  }

  class ReEmbedder {
    const src: Source
    var staging: Table
    var files: Disk

    ghost predicate Valid()
      reads this
    {
      FilesFollow(src, files)
    }

    constructor (src: Source)
      ensures this.src == src && staging == map[] && files == src.files
      ensures Valid()
    {
      this.src, staging, files := src, map[], src.files;
    }

    /** `chunk_paper`: its manifest is on disk, or it failed one way or the other. */
    method ChunkPaper(paper: string, fate: ChunkFate) returns (ok: bool)
      requires Valid()
      modifies `files
      ensures Valid() && (ok <==> fate.Chunks?)
      ensures ok ==> files(paper).manifest == Some(src.chunks(paper))
      ensures !ok ==> files(paper).manifest == if fate.cleaned then None else old(files)(paper).manifest
      ensures files(paper) == old(files)(paper).(manifest := files(paper).manifest)
      ensures forall x :: x != paper ==> files(x) == old(files)(x)
    {
      var manifest := match fate
        case Chunks => Some(src.chunks(paper))
        case Raises(cleaned) => if cleaned then None else files(paper).manifest
        case ReturnsNothing(cleaned) => if cleaned then None else files(paper).manifest;
      PutFollows(src, files, paper, files(paper).(manifest := manifest));
      files := Put(files, paper, files(paper).(manifest := manifest));
      ok := fate.Chunks?;
    }

    /** `write_chunks` on the staging table. */
    method WriteRows(chunks: seq<Chunk>, r: Record, fate: WriteFate) returns (end: End)
      requires WellFormed(r)
      modifies `staging
      ensures staging == if Buildable(chunks, r) && Lands(fate) then Upsert(old(staging), RowsOf(chunks, r))
                         else old(staging)
      ensures end.Done? <==> fate.Commits? && Buildable(chunks, r)
      ensures end.Dead? <==> fate.KilledBefore?
      ensures Untouched(old(staging), staging, IdSet(chunks))
    {
      if fate.KilledBefore? {
        return Dead;
      }
      var rows := BuildTable(chunks, r);
      if rows.None? || fate.FailsBefore? {
        return Failed;
      }
      UpsertTouches(staging, chunks, r);
      staging := Upsert(staging, rows.value);
      end := if fate.FailsAfterCommit? then Failed else Done;
    }

    /** `_process_paper`. */
    method ProcessPaper(paper: string, already: set<Id>, fate: PaperFate)
      returns (end: End, copied: nat, reEmbedded: nat, skipped: nat)
      requires Valid() && Sensible(src, paper) && already <= staging.Keys
      requires files(paper).manifest == Some(src.chunks(paper))
      modifies this
      ensures Valid()
      ensures end.Done? <==> CopyGoes(src, paper, already, fate.copy) && EmbedGoes(src, paper, already, fate)
      ensures end.Dead? <==> Dies(src, paper, already, fate)
      ensures Advances(src, paper, old(staging), staging)
      ensures end.Done? ==> Brought(src, paper, already, staging)
      ensures Untouched(old(staging), staging, IdSet(src.chunks(paper)) - already)
      ensures CopyLands(src, paper, already, fate.copy) ==> CopiesIn(src, paper, already, staging)
      ensures !CopyLands(src, paper, already, fate.copy) ==> staging == old(staging)
      ensures EmbedLands(src, paper, already, fate) ==> EmbedsIn(src, paper, already, staging)
      ensures !EmbedLands(src, paper, already, fate) ==>
        Untouched(old(staging), staging, CopyIds(src, paper, already))
      ensures files(paper) == if EmbedStarts(src, paper, already, fate)
                              then AfterEmbed(old(files)(paper), fate.embed) else old(files)(paper)
      ensures forall x :: x != paper ==> files(x) == old(files)(x)
      ensures var t := PaperTally(src, already, paper);
              copied == t.copied && reEmbedded == t.reEmbedded && copied + reEmbedded + skipped == t.new_
    {
      hide OldIds, IdSet, Untouched, Sensible, FilesFollow, ComputeDiff, PaperTally, AfterEmbed, Brought, CopyGoes;
      hide EmbedGoes, Dies, EmbedStarts, CopiesIn, EmbedsIn, CopyIds, EmbedIds, CopyLands, EmbedLands, Advances;
      var (copyIds, reEmbedIds, _) := ComputeDiff(OldIds(src, paper), IdSet(src.chunks(paper)));
      DiffIs(src, paper, already);
      var copyPending, reEmbedPending := copyIds - already, reEmbedIds - already;
      copied, reEmbedded := |copyPending|, |reEmbedPending|;
      skipped := |copyIds| + |reEmbedIds| - (|copyPending| + |reEmbedPending|);
      end := BringOver(paper, already, copyPending, reEmbedPending, fate);
    }

    /** Its two paths: the copies, then what is to be embedded. */
    method BringOver(paper: string, already: set<Id>, copyPending: set<Id>, reEmbedPending: set<Id>, fate: PaperFate)
      returns (end: End)
      requires Valid() && Sensible(src, paper) && already <= staging.Keys
      requires files(paper).manifest == Some(src.chunks(paper))
      requires copyPending == CopyIds(src, paper, already) && reEmbedPending == EmbedIds(src, paper, already)
      modifies this
      ensures Valid()
      ensures end.Done? <==> CopyGoes(src, paper, already, fate.copy) && EmbedGoes(src, paper, already, fate)
      ensures end.Dead? <==> Dies(src, paper, already, fate)
      ensures Advances(src, paper, old(staging), staging)
      ensures end.Done? ==> Brought(src, paper, already, staging)
      ensures Untouched(old(staging), staging, IdSet(src.chunks(paper)) - already)
      ensures CopyLands(src, paper, already, fate.copy) ==> CopiesIn(src, paper, already, staging)
      ensures !CopyLands(src, paper, already, fate.copy) ==> staging == old(staging)
      ensures EmbedLands(src, paper, already, fate) ==> EmbedsIn(src, paper, already, staging)
      ensures !EmbedLands(src, paper, already, fate) ==>
        Untouched(old(staging), staging, CopyIds(src, paper, already))
      ensures files(paper) == if EmbedStarts(src, paper, already, fate)
                              then AfterEmbed(old(files)(paper), fate.embed) else old(files)(paper)
      ensures forall x :: x != paper ==> files(x) == old(files)(x)
    {
      hide OldIds, IdSet, Advances, Untouched, Sensible, FilesFollow, Writes, RecordOf, AfterEmbed, ToCopy, ToEmbed;
      hide Brought, AllCopyable, LoadsTarget, CopyGoes, EmbedGoes, Dies, EmbedDies, EmbedStarts, CopiesIn, EmbedsIn;
      hide SomeToCopy, SomeToEmbed, CopyIds, EmbedIds, CopyLands, EmbedLands;
      SomePending(src, paper, already);
      Outcomes(src, paper, already, fate);
      end := Done;
      Unchanged(src, paper, staging, copyPending);
      if copyPending != {} {
        end := CopyPart(paper, already, copyPending, fate.copy);
      }
      ghost var between := staging;
      NothingToBring(src, paper, already, between);
      Unchanged(src, paper, staging, reEmbedPending);
      if end.Done? && reEmbedPending != {} {
        end := EmbedPart(paper, already, reEmbedPending, fate);
      }
      PartsTogether(src, paper, already, old(staging), between, staging);
    }

    /** `run_re_embed`. A run is refused when staging names another space; otherwise papers are isolated
        from each other's failures, and `complete` means none failed. A paper whose chunker returned
        nothing is one without chunks: all its old ids are dropped and it does not count as failed. */
    method Run(papers: seq<string>, resume: bool, dryRun: bool, fates: nat -> PaperFate)
      returns (end: RunEnd, s: Summary)
      requires Valid() && AllSensible(src, papers)
      modifies this
      ensures Valid()
      ensures end.Refused? <==> exists id :: id in old(staging) && old(staging)[id].embedderVersion != src.target
      ensures end.Refused? || dryRun ==> staging == old(staging)
      ensures AdvancesOver(src, Heard(papers, fates, |papers|), old(staging), staging)
      ensures resume ==> Untouched(old(staging), staging, {})
      ensures var plan := Plan(src, papers, fates, if resume then old(staging).Keys else {}, dryRun);
              && (end.Complete? <==> !end.Refused? && forall k: nat :: k < |papers| ==> Goes(plan, k))
              && (end.Killed? <==> !end.Refused? && exists k: nat :: k < |papers| && DiesAt(plan, k))
              && (end.Complete? || end.CompleteWithFailures? ==> Recorded(plan, |papers|, s.failed))
              && (end.Complete? ==> Counted(plan, |papers|, Heard(papers, fates, |papers|), staging, s))
    {
      hide Goes, DiesAt, Recorded, Counted, Heard, AdvancesOver, Untouched, RunState, Running, FilesFollow, Sensible;
      s := Summary(0, 0, 0, 0, 0, []);
      ghost var before := staging;
      NothingYet(src, Heard(papers, fates, |papers|), before, resume);
      if exists id :: id in staging && staging[id].embedderVersion != src.target {
        return RunEnd.Refused, s;
      }
      var already := if resume then staging.Keys else {};
      ghost var plan := Plan(src, papers, fates, already, dryRun);
      assert plan == Plan(src, papers, fates, if resume then old(staging).Keys else {}, dryRun);
      RunStarts(plan, before, resume);
      for i := 0 to |papers|
        invariant Valid() && already <= staging.Keys && (dryRun ==> staging == before)
        invariant RunState(plan, i, before, staging, s, resume)
      {
        assert papers[i] in papers;
        var dead: bool;
        dead, s := OnePaper(plan, i, papers[i], fates(i), already, s, resume, dryRun, before);
        RunningHolds(src, Heard(papers, fates, |papers|), before, staging, resume);
        if dead {
          DyingGoesNowhere(plan, i);
          return Killed, s;
        }
      }
      RunEnds(plan, before, staging, s, resume);
      RunningHolds(src, Heard(papers, fates, |papers|), before, staging, resume);
      end := if s.failed == [] then Complete else CompleteWithFailures;
    }

    /** The loop's body: one paper chunked, planned and, unless the run is dry, processed. */
    method OnePaper(ghost plan: Plan, ghost i: nat, paper: string, fate: PaperFate, already: set<Id>, was: Summary,
                    ghost resume: bool, dryRun: bool, ghost before: Table)
      returns (dead: bool, s: Summary)
      requires Valid() && i < |plan.papers| && Sensible(src, paper) && already <= staging.Keys
      requires plan.src == src && plan.papers[i] == paper && plan.fates(i) == fate && plan.already == already
      requires plan.dryRun == dryRun && AllSensible(src, plan.papers)
      requires resume ==> already == before.Keys
      requires RunState(plan, i, before, staging, was, resume)
      modifies this
      ensures Valid() && old(staging).Keys <= staging.Keys && (dryRun ==> staging == old(staging))
      ensures dead <==> DiesAt(plan, i)
      ensures Running(src, Heard(plan.papers, plan.fates, |plan.papers|), before, staging, resume)
      ensures !dead ==> RunState(plan, i + 1, before, staging, s, resume)
    {
      hide RunState, Sensible, FilesFollow, Advances, Untouched, IdSet, OldIds, Running, Dies, CopyGoes, EmbedGoes;
      hide Brought, EmbedStarts, AllSensible, AfterEmbed, Recorded, Counted, Heard, PaperTally, DropCount;
      ghost var table := staging;
      Drops(src, already, paper);
      StateRuns(plan, i, before, staging, was, resume);
      var chunked := ChunkPaper(paper, fate.chunk);
      dead, s := false, was;
      if fate.chunk.Raises? {
        s := s.(failed := s.failed + [paper]);
        StateFails(plan, i, before, table, staging, was, s, resume);
      } else if !chunked {
        s := s.(dropped := s.dropped + DropCount(src, paper, {}));
        StateNothing(plan, i, before, staging, was, s, resume);
      } else if dryRun {
        s := s.(target := s.target + |src.chunks(paper)|,
                dropped := s.dropped + DropCount(src, paper, IdSet(src.chunks(paper))));
        StateDry(plan, i, before, staging, was, s, resume);
      } else {
        s := s.(target := s.target + |src.chunks(paper)|,
                dropped := s.dropped + DropCount(src, paper, IdSet(src.chunks(paper))));
        var ended, copied, reEmbedded, skipped := ProcessPaper(paper, already, fate);
        HeardHolds(plan.papers, plan.fates, |plan.papers|);
        ghost var heard := Heard(plan.papers, plan.fates, |plan.papers|);
        RunProcessed(src, heard, paper, before, table, staging, resume, already);
        AdvancesGrows(src, paper, table, staging);
        if ended.Dead? {
          dead := true;
        } else if ended.Failed? {
          s := s.(failed := s.failed + [paper]);
          StateFails(plan, i, before, table, staging, was, s, resume);
        } else {
          s := s.(copied := s.copied + copied, reEmbedded := s.reEmbedded + reEmbedded,
                  skipped := s.skipped + skipped);
          StateDone(plan, i, before, table, staging, was, s, resume);
        }
      }
    }

    method CopyPart(paper: string, ghost already: set<Id>, pending: set<Id>, fate: WriteFate) returns (end: End)
      requires Sensible(src, paper)
      requires pending == CopyIds(src, paper, already) && pending != {}
      modifies `staging
      ensures end.Done? <==> CopyGoes(src, paper, already, fate)
      ensures end.Dead? <==> AllCopyable(src, paper, already) && fate.KilledBefore?
      ensures Advances(src, paper, old(staging), staging)
      ensures if CopyLands(src, paper, already, fate) then CopiesIn(src, paper, already, staging)
              else staging == old(staging)
      ensures Untouched(old(staging), staging, pending)
    {
      hide OldIds, IdSet, Pick, Upsert, Untouched, RowsOf, RowOf, EmbedProtocol.Ids, Sensible, Writes, Copyable;
      hide CopyRow, Embedded, Distinct, Advances, AllCopyable;
      Unchanged(src, paper, staging, pending);
      var chunks := Pick(src.chunks(paper), pending);
      CopiesPicked(src, paper, already);
      var ids := EmbedProtocol.Ids(chunks);
      var built := BuildCopyRecord(ids, src.active, src.oldVersion, src.target);
      if built.None? {
        return Failed;
      }
      CopiesWrite(src, paper, already, chunks, built.value);
      WriteAdvances(src, paper, staging, chunks, built.value);
      end := WriteRows(chunks, built.value, fate);
    }

    method EmbedPart(paper: string, ghost already: set<Id>, pending: set<Id>, fate: PaperFate) returns (end: End)
      requires Valid() && Sensible(src, paper)
      requires pending == EmbedIds(src, paper, already) && pending != {}
      requires files(paper).manifest == Some(src.chunks(paper))
      modifies this
      ensures Valid()
      ensures end.Done? <==> EmbedGoes(src, paper, already, fate)
      ensures end.Dead? <==> EmbedDies(src, paper, fate)
      ensures Advances(src, paper, old(staging), staging)
      ensures EmbedStarts(src, paper, already, fate) ==>
        if EmbedLands(src, paper, already, fate) then EmbedsIn(src, paper, already, staging)
        else staging == old(staging)
      ensures end.Done? ==> EmbedsIn(src, paper, already, staging)
      ensures Untouched(old(staging), staging, pending)
      ensures files(paper) == AfterEmbed(old(files)(paper), fate.embed)
      ensures forall x :: x != paper ==> files(x) == old(files)(x)
    {
      hide FilesFollow, RecordOf, OldIds, IdSet, Pick, Upsert, Untouched, RowsOf, Sensible, Advances;
      var f := files(paper);
      EmbedFollows(src, f, paper);
      Unchanged(src, paper, staging, pending);
      PendingChunks(src, paper, already);
      if !fate.embed.Embeds? {
        if fate.embed.half {
          PutFollows(src, files, paper, EmbedProtocol.HalfEmbedded(f));
          files := Put(files, paper, EmbedProtocol.HalfEmbedded(f));
        }
        return if fate.embed.EmbedKilled? then Dead else Failed;
      }
      PutFollows(src, files, paper, EmbedProtocol.FullyEmbedded(f));
      var l := EmbedProtocol.LoadRecord(EmbedProtocol.FullyEmbedded(f));
      LoadsRecord(src, files, paper);
      files := Put(files, paper, EmbedProtocol.FullyEmbedded(f));
      if !l.Loaded? || l.r.version != src.target {
        return Failed;
      }
      end := WritePart(paper, already, pending, l.r, fate.write);
    }

    /** The last lines of the embed path: the part of the record that is pending is written. */
    method WritePart(paper: string, ghost already: set<Id>, pending: set<Id>, r: Record, fate: WriteFate)
      returns (end: End)
      requires Sensible(src, paper) && WellFormed(r) && r.version == src.target
      requires RecordOf(src, src.files(paper), paper) == EmbedProtocol.Loaded(r)
      requires pending == EmbedIds(src, paper, already) && pending != {}
      modifies `staging
      ensures end.Done? <==> fate.Commits? && forall c :: ToEmbed(src, paper, already, c) ==>
                               Embedded(c, r) && c.kind in KINDS
      ensures end.Dead? <==> fate.KilledBefore?
      ensures Advances(src, paper, old(staging), staging)
      ensures if Lands(fate) && forall c :: ToEmbed(src, paper, already, c) ==> Embedded(c, r) && c.kind in KINDS
              then EmbedsIn(src, paper, already, staging) else staging == old(staging)
      ensures Untouched(old(staging), staging, pending)
    {
      hide OldIds, IdSet, Pick, Upsert, Untouched, RowsOf, Sensible, RecordOf, Writes, RowOf, Subset, Embedded;
      hide Advances;
      var part := Subset(r, pending);
      var chunks := Pick(src.chunks(paper), pending);
      PartOf(src, paper, already, r);
      Unchanged(src, paper, staging, pending);
      if Buildable(chunks, part) {
        WriteAdvances(src, paper, staging, chunks, part);
      }
      end := WriteRows(chunks, part, fate);
    }
  }

  /** What the copy path picks. */
  lemma CopiesPicked(src: Source, paper: string, already: set<Id>)
    requires Sensible(src, paper)
    ensures var pending := CopyIds(src, paper, already);
            var chunks := Pick(src.chunks(paper), pending);
            var ids := EmbedProtocol.Ids(chunks);
            && Distinct(ids) && IdSet(chunks) == pending && (pending != {} <==> SomeToCopy(src, paper, already))
            && (forall c :: c in chunks <==> ToCopy(src, paper, already, c))
            && (forall c :: c in chunks ==> c.id in ids) && (forall id :: id in ids ==> id in src.active)
            && ((forall id :: id in ids ==> Copyable(src.active[id], src.oldVersion)) <==>
                AllCopyable(src, paper, already))
  {
    var pending := CopyIds(src, paper, already);
    PendingChunks(src, paper, already);
    PickedIs(src.chunks(paper), pending);
    EmbedProtocol.IdsHold(Pick(src.chunks(paper), pending));
    hide Copyable, IdSet, Pick, EmbedProtocol.Ids, Sensible;
  }

  lemma CopiesWrite(src: Source, paper: string, already: set<Id>, chunks: seq<Chunk>, r: Record)
    requires WellFormed(r) && AllCopyable(src, paper, already)
    requires forall c :: c in chunks <==> ToCopy(src, paper, already, c)
    requires forall c :: c in chunks ==> Embedded(c, r) && RowOf(c, r) == CopyRow(src.active[c.id], c, src.target)
    ensures forall c :: c in chunks ==> Writes(src, c, RowOf(c, r))
    ensures Buildable(chunks, r) <==> forall c :: ToCopy(src, paper, already, c) ==> c.kind in KINDS
  {
    hide RowOf, CopyRow, Copyable, Embedded, RecordOf;
  }

  /** What an embed step picks, and the part of the loaded record it writes. */
  lemma PartOf(src: Source, paper: string, already: set<Id>, r: Record)
    requires Sensible(src, paper) && WellFormed(r)
    ensures var pending := EmbedIds(src, paper, already);
            var chunks, part := Pick(src.chunks(paper), pending), Subset(r, pending);
            && WellFormed(part) && part.version == r.version
            && Distinct(EmbedProtocol.Ids(chunks)) && IdSet(chunks) == pending
            && (forall c :: c in chunks <==> ToEmbed(src, paper, already, c))
            && (forall c :: c in chunks ==> (Embedded(c, part) <==> Embedded(c, r)) && RowOf(c, part) == RowOf(c, r))
            && (RecordOf(src, src.files(paper), paper) == EmbedProtocol.Loaded(r) && r.version == src.target ==>
                  forall c :: c in chunks && Embedded(c, r) ==> Writes(src, c, RowOf(c, part)))
  {
    var pending := EmbedIds(src, paper, already);
    SubsetRows(r, pending);
    PendingChunks(src, paper, already);
    PickedIs(src.chunks(paper), pending);
    hide RecordOf, RowOf, IdSet, OldIds, Pick;
  }

  /** What is picked by ids that distinct chunks have. */
  lemma PickedIs(chunks: seq<Chunk>, ids: set<Id>)
    requires Distinct(EmbedProtocol.Ids(chunks)) && ids <= IdSet(chunks)
    ensures var picked := Pick(chunks, ids);
            && Distinct(EmbedProtocol.Ids(picked)) && IdSet(picked) == ids
            && (forall c :: c in picked <==> c in chunks && c.id in ids)
            && (forall id :: id in EmbedProtocol.Ids(picked) <==> id in ids)
            && (forall c :: c in picked ==> c.id in EmbedProtocol.Ids(picked))
            && (forall id :: id in ids ==> exists c :: c in picked && c.id == id)
  {
    PickHolds(chunks, ids);
    PickDistinct(chunks, ids);
    PickedIds(chunks, ids);
    PickAll(chunks, ids);
    EmbedProtocol.IdsHold(Pick(chunks, ids));
  }

  /** What the diff gives, less what is staged already. */
  lemma DiffIs(src: Source, paper: string, already: set<Id>)
    requires Sensible(src, paper)
    ensures var d, t := ComputeDiff(OldIds(src, paper), IdSet(src.chunks(paper))), PaperTally(src, already, paper);
            && d.0 - already == CopyIds(src, paper, already)
            && d.1 - already == EmbedIds(src, paper, already)
            && d.0 - already <= IdSet(src.chunks(paper)) - already
            && d.1 - already <= IdSet(src.chunks(paper)) - already
            && |d.0 - already| == t.copied && |d.1 - already| == t.reEmbedded
            && |d.0| + |d.1| == t.new_ && t.copied + t.reEmbedded <= t.new_
  {
    hide IdSet, OldIds;
    PaperTallyIs(src, already, paper);
    var d := ComputeDiff(OldIds(src, paper), IdSet(src.chunks(paper)));
    IdSetSize(src, paper);
    SubsetSmaller(d.0 - already, d.0);
    SubsetSmaller(d.1 - already, d.1);
  }

  /** The sets of pending ids are those of the chunks left to copy and to embed. */
  lemma PendingChunks(src: Source, paper: string, already: set<Id>)
    requires Sensible(src, paper)
    ensures var copies := CopyIds(src, paper, already);
            && (forall c :: ToCopy(src, paper, already, c) <==> c in src.chunks(paper) && c.id in copies)
            && (copies != {} <==> SomeToCopy(src, paper, already))
    ensures var embeds := EmbedIds(src, paper, already);
            && (forall c :: ToEmbed(src, paper, already, c) <==> c in src.chunks(paper) && c.id in embeds)
            && (embeds != {} <==> SomeToEmbed(src, paper, already))
  {
    var chunks := src.chunks(paper);
    EmbedProtocol.IdsHold(chunks);
    var copies := OldIds(src, paper) * IdSet(chunks) - already;
    if id :| id in copies {
      var c :| c in chunks && c.id == id;
      assert ToCopy(src, paper, already, c);
    }
    var embeds := IdSet(chunks) - OldIds(src, paper) - already;
    if id :| id in embeds {
      var c :| c in chunks && c.id == id;
      assert ToEmbed(src, paper, already, c);
    }
  }

  lemma SomePending(src: Source, paper: string, already: set<Id>)
    requires Sensible(src, paper)
    ensures CopyIds(src, paper, already) != {} <==> SomeToCopy(src, paper, already)
    ensures EmbedIds(src, paper, already) != {} <==> SomeToEmbed(src, paper, already)
  {
    PendingChunks(src, paper, already);
  }

  /** What the two parts do to the table together. */
  lemma PartsTogether(src: Source, paper: string, already: set<Id>, was: Table, between: Table, now: Table)
    requires Sensible(src, paper) && already <= was.Keys
    requires Advances(src, paper, was, between) && Untouched(was, between, CopyIds(src, paper, already))
    requires Advances(src, paper, between, now) && Untouched(between, now, EmbedIds(src, paper, already))
    ensures Advances(src, paper, was, now) && Untouched(was, now, IdSet(src.chunks(paper)) - already)
    ensures CopiesIn(src, paper, already, between) ==> CopiesIn(src, paper, already, now)
    ensures CopiesIn(src, paper, already, between) && EmbedsIn(src, paper, already, now) ==>
      Brought(src, paper, already, now)
  {
    AdvancesTwice(src, paper, was, between, now);
    UntouchedTwice(was, between, now, CopyIds(src, paper, already), EmbedIds(src, paper, already),
      IdSet(src.chunks(paper)) - already);
    CopiesStay(src, paper, already, between, now);
    AdvancesGrows(src, paper, was, now);
    hide Advances, Untouched, IdSet, CopiesIn, EmbedsIn, Brought;
    if CopiesIn(src, paper, already, between) && EmbedsIn(src, paper, already, now) {
      BothBrought(src, paper, already, between, now);
    }
  }

  lemma CopiesStay(src: Source, paper: string, already: set<Id>, between: Table, now: Table)
    requires Sensible(src, paper) && Untouched(between, now, EmbedIds(src, paper, already))
    ensures CopiesIn(src, paper, already, between) ==> CopiesIn(src, paper, already, now)
  {
    hide Writes, CopyIds, IdSet, OldIds;
    CopyNotEmbed(src, paper, already);
    hide EmbedIds, ToCopy;
  }

  lemma CopyNotEmbed(src: Source, paper: string, already: set<Id>)
    requires Sensible(src, paper)
    ensures forall c :: ToCopy(src, paper, already, c) ==> c.id !in EmbedIds(src, paper, already)
  {
    PendingChunks(src, paper, already);
  }

  /** What was copied survives the embed step, so all chunks of the paper are brought over. */
  lemma BothBrought(src: Source, paper: string, already: set<Id>, between: Table, now: Table)
    requires Sensible(src, paper) && already <= now.Keys
    requires Untouched(between, now, EmbedIds(src, paper, already))
    requires CopiesIn(src, paper, already, between) && EmbedsIn(src, paper, already, now)
    ensures Brought(src, paper, already, now)
  {
    hide Writes, IdSet;
    PendingChunks(src, paper, already);
    forall c | c in src.chunks(paper) && c.id !in already ensures c.id in now && Writes(src, c, now[c.id]) {
      if c.id in src.active {
        assert ToCopy(src, paper, already, c);
      } else {
        assert ToEmbed(src, paper, already, c);
      }
    }
  }

  /** What the embed step loads now is what the first files lead to. */
  lemma LoadsRecord(src: Source, files: Disk, paper: string)
    requires FilesFollow(src, files) && files(paper).manifest == Some(src.chunks(paper))
    ensures EmbedProtocol.LoadRecord(EmbedProtocol.FullyEmbedded(files(paper)))
            == RecordOf(src, src.files(paper), paper)
  {
    assert files(paper).(manifest := Some(src.chunks(paper))) == files(paper);
  }

  lemma IdSetSize(src: Source, paper: string)
    requires Sensible(src, paper)
    ensures |IdSet(src.chunks(paper))| == |src.chunks(paper)|
  {
    ElementsSize(EmbedProtocol.Ids(src.chunks(paper)));
  }

  lemma Unchanged(src: Source, paper: string, staging: Table, ids: set<Id>)
    ensures Advances(src, paper, staging, staging) && Untouched(staging, staging, ids)
  {
  }

  lemma AdvancesGrows(src: Source, paper: string, a: Table, b: Table)
    requires Advances(src, paper, a, b)
    ensures a.Keys <= b.Keys
  {
  }

  lemma UntouchedTwice(a: Table, b: Table, c: Table, first: set<Id>, second: set<Id>, both: set<Id>)
    requires Untouched(a, b, first) && Untouched(b, c, second) && first <= both && second <= both
    ensures Untouched(a, c, both)
  {
  }

  lemma RunStarts(plan: Plan, before: Table, resume: bool)
    ensures RunState(plan, 0, before, before, Summary(0, 0, 0, 0, 0, []), resume)
  {
  }

  lemma NothingYet(src: Source, papers: seq<string>, before: Table, resume: bool)
    ensures Running(src, papers, before, before, resume) && AdvancesOver(src, papers, before, before)
    ensures Untouched(before, before, {})
  {
  }

  lemma RunningHolds(src: Source, papers: seq<string>, before: Table, now: Table, resume: bool)
    requires Running(src, papers, before, now, resume)
    ensures AdvancesOver(src, papers, before, now) && (resume ==> Untouched(before, now, {}))
  {
  }

  lemma DyingGoesNowhere(plan: Plan, k: nat)
    requires k < |plan.papers| && DiesAt(plan, k)
    ensures !Goes(plan, k)
  {
    Outcomes(plan.src, plan.papers[k], plan.already, plan.fates(k));
    hide CopyGoes, EmbedGoes, EmbedDies, Dies;
  }

  lemma StateRuns(plan: Plan, i: nat, before: Table, now: Table, s: Summary, resume: bool)
    requires i <= |plan.papers| && RunState(plan, i, before, now, s, resume)
    ensures Running(plan.src, Heard(plan.papers, plan.fates, |plan.papers|), before, now, resume)
  {
  }

  lemma RunEnds(plan: Plan, before: Table, now: Table, s: Summary, resume: bool)
    requires RunState(plan, |plan.papers|, before, now, s, resume)
    ensures s.failed == [] <==> forall k: nat :: k < |plan.papers| ==> Goes(plan, k)
    ensures forall k: nat :: k < |plan.papers| ==> !DiesAt(plan, k)
    ensures Running(plan.src, Heard(plan.papers, plan.fates, |plan.papers|), before, now, resume)
    ensures Recorded(plan, |plan.papers|, s.failed)
    ensures s.failed == [] ==> Counted(plan, |plan.papers|, Heard(plan.papers, plan.fates, |plan.papers|), now, s)
  {
    hide Goes, DiesAt, Running, Counted;
    FirstIsIn(s.failed);
    var empty := s.failed == [];
    if empty {
      forall k: nat | k < |plan.papers| ensures Goes(plan, k) {
        assert plan.papers[k] !in s.failed;
      }
    }
  }

  lemma RecordedNext(plan: Plan, i: nat, was: seq<string>, failed: seq<string>)
    requires i < |plan.papers| && Recorded(plan, i, was)
    requires failed == if Goes(plan, i) then was else was + [plan.papers[i]]
    ensures Recorded(plan, i + 1, failed)
  {
    hide Goes;
  }

  lemma StateFails(plan: Plan, i: nat, before: Table, table: Table, now: Table, was: Summary, s: Summary, resume: bool)
    requires i < |plan.papers| && RunState(plan, i, before, table, was, resume)
    requires Running(plan.src, Heard(plan.papers, plan.fates, |plan.papers|), before, now, resume)
    requires !Goes(plan, i) && !DiesAt(plan, i) && s.failed == was.failed + [plan.papers[i]]
    ensures RunState(plan, i + 1, before, now, s, resume)
  {
    hide Running, Counted, Recorded, Heard, Goes, DiesAt;
    RecordedNext(plan, i, was.failed, s.failed);
    assert s.failed != [];
  }

  lemma StateNothing(plan: Plan, i: nat, before: Table, now: Table, was: Summary, s: Summary, resume: bool)
    requires i < |plan.papers| && RunState(plan, i, before, now, was, resume)
    requires plan.fates(i).chunk.ReturnsNothing?
    requires SilentOf(plan, i, was, s)
    ensures RunState(plan, i + 1, before, now, s, resume)
  {
    hide Running, Counted, Recorded, PaperTally, CopyGoes, EmbedGoes, Dies;
    assert Goes(plan, i) && !DiesAt(plan, i);
    hide Goes, DiesAt;
    RecordedNext(plan, i, was.failed, s.failed);
    CountedNothing(plan, i, Heard(plan.papers, plan.fates, i), now, was, s);
  }

  lemma StateDry(plan: Plan, i: nat, before: Table, now: Table, was: Summary, s: Summary, resume: bool)
    requires i < |plan.papers| && RunState(plan, i, before, now, was, resume) && plan.dryRun
    requires plan.fates(i).chunk.Chunks? && PlannedOf(plan, i, was, s)
    ensures RunState(plan, i + 1, before, now, s, resume)
  {
    hide Running, Counted, Recorded, PaperTally, CopyGoes, EmbedGoes, Dies;
    assert Goes(plan, i) && !DiesAt(plan, i);
    hide Goes, DiesAt;
    RecordedNext(plan, i, was.failed, s.failed);
    CountedDry(plan, i, Heard(plan.papers, plan.fates, i), now, was, s);
  }

  /** The counts of a paper whose chunker returned nothing. */
  ghost predicate SilentOf(plan: Plan, i: nat, was: Summary, s: Summary)
    requires i < |plan.papers|
  {
    s == was.(dropped := was.dropped + PaperTally(plan.src, plan.already, plan.papers[i]).old_)
  }

  /** The counts of a paper that was planned. */
  ghost predicate PlannedOf(plan: Plan, i: nat, was: Summary, s: Summary)
    requires i < |plan.papers|
  {
    var t := PaperTally(plan.src, plan.already, plan.papers[i]);
    s.failed == was.failed && s.target == was.target + t.new_ && s.dropped + t.kept == was.dropped + t.old_
  }

  /** The counts of a paper that was processed. */
  ghost predicate ProcessedOf(plan: Plan, i: nat, was: Summary, s: Summary)
    requires i < |plan.papers|
  {
    var t := PaperTally(plan.src, plan.already, plan.papers[i]);
    && PlannedOf(plan, i, was, s)
    && s.copied == was.copied + t.copied && s.reEmbedded == was.reEmbedded + t.reEmbedded
    && s.copied + s.reEmbedded + s.skipped == was.copied + was.reEmbedded + was.skipped + t.new_
  }

  /** How many of the paper's old ids are dropped for these new ones. */
  function DropCount(src: Source, paper: string, new_: set<Id>): nat {
    |ComputeDiff(OldIds(src, paper), new_).2|
  }

  lemma Drops(src: Source, already: set<Id>, paper: string)
    requires Sensible(src, paper)
    ensures var t := PaperTally(src, already, paper);
            && DropCount(src, paper, {}) == t.old_ && |src.chunks(paper)| == t.new_
            && DropCount(src, paper, IdSet(src.chunks(paper))) + t.kept == t.old_
  {
    PaperTallyIs(src, already, paper);
    var was, now := OldIds(src, paper), IdSet(src.chunks(paper));
    assert was - {} == was;
    assert ComputeDiff(was, now).0 == was * now;
  }

  lemma PaperTallyIs(src: Source, already: set<Id>, paper: string)
    requires Sensible(src, paper)
    ensures var t, now, was := PaperTally(src, already, paper), IdSet(src.chunks(paper)), OldIds(src, paper);
            t == Tally(|src.chunks(paper)|, |was * now - already|, |now - was - already|, |was|, |was * now|)
  {
    IdSetSize(src, paper);
  }

  lemma StateDone(plan: Plan, i: nat, before: Table, table: Table, now: Table, was: Summary, s: Summary, resume: bool)
    requires i < |plan.papers| && RunState(plan, i, before, table, was, resume)
    requires Running(plan.src, Heard(plan.papers, plan.fates, |plan.papers|), before, now, resume)
    requires Goes(plan, i) && !DiesAt(plan, i) && plan.fates(i).chunk.Chunks? && ProcessedOf(plan, i, was, s)
    requires AllSensible(plan.src, plan.papers) && Advances(plan.src, plan.papers[i], table, now)
    requires Brought(plan.src, plan.papers[i], plan.already, now)
    ensures RunState(plan, i + 1, before, now, s, resume)
  {
    hide Running, Counted, Recorded, PaperTally, Goes, DiesAt, AllSensible, Advances, Brought;
    RecordedNext(plan, i, was.failed, s.failed);
    HeardAmong(plan.papers, plan.fates, i);
    CountedOne(plan, i, Heard(plan.papers, plan.fates, i), table, now, was, s);
  }

  lemma HeardAmong(papers: seq<string>, fates: nat -> PaperFate, n: nat)
    requires n <= |papers|
    ensures forall p :: p in Heard(papers, fates, n) ==> p in papers
  {
    HeardHolds(papers, fates, n);
  }

  lemma RunProcessed(src: Source, papers: seq<string>, paper: string, before: Table, was: Table, now: Table,
                     resume: bool, already: set<Id>)
    requires paper in papers && Running(src, papers, before, was, resume) && Advances(src, paper, was, now)
    requires Untouched(was, now, IdSet(src.chunks(paper)) - already)
    requires resume ==> already == before.Keys
    ensures Running(src, papers, before, now, resume)
  {
    AdvancesLifts(src, papers, paper, was, now);
    AdvancesOverTwice(src, papers, before, was, now);
    hide AdvancesOver, Advances, IdSet;
  }

  lemma AdvancesLifts(src: Source, papers: seq<string>, paper: string, a: Table, b: Table)
    requires paper in papers && Advances(src, paper, a, b)
    ensures AdvancesOver(src, papers, a, b)
  {
    hide Writes;
    forall c | c in src.chunks(paper) ensures Wanted(src, papers, c) {}
  }

  /** What advances over some papers advances over more. */
  lemma AdvancesOverMore(src: Source, some: seq<string>, papers: seq<string>, a: Table, b: Table)
    requires AdvancesOver(src, some, a, b) && forall p :: p in some ==> p in papers
    ensures AdvancesOver(src, papers, a, b)
  {
    hide Writes;
    forall c | Wanted(src, some, c) ensures Wanted(src, papers, c) {}
  }

  lemma AdvancesOverTwice(src: Source, papers: seq<string>, a: Table, b: Table, c: Table)
    requires AdvancesOver(src, papers, a, b) && AdvancesOver(src, papers, b, c)
    ensures AdvancesOver(src, papers, a, c)
  {
    hide Writes, Wanted;
  }

  lemma TalliedSnoc(src: Source, already: set<Id>, papers: seq<string>, p: string)
    ensures Tallied(src, already, papers + [p]) == Plus(Tallied(src, already, papers), PaperTally(src, already, p))
  {
    assert (papers + [p])[..|papers|] == papers;
  }

  lemma CountedNothing(plan: Plan, i: nat, heard: seq<string>, now: Table, was: Summary, s: Summary)
    requires i < |plan.papers| && (was.failed == [] ==> Counted(plan, i, heard, now, was))
    requires SilentOf(plan, i, was, s)
    ensures s.failed == [] ==> Counted(plan, i + 1, heard + [], now, s)
  {
    hide PaperTally, Tallied, AllBrought;
    TalliedSnoc(plan.src, plan.already, plan.papers[..i], plan.papers[i]);
    assert plan.papers[..i + 1] == plan.papers[..i] + [plan.papers[i]] && heard + [] == heard;
  }

  lemma CountedDry(plan: Plan, i: nat, heard: seq<string>, now: Table, was: Summary, s: Summary)
    requires i < |plan.papers| && plan.dryRun && (was.failed == [] ==> Counted(plan, i, heard, now, was))
    requires PlannedOf(plan, i, was, s)
    ensures s.failed == [] ==> Counted(plan, i + 1, heard + [plan.papers[i]], now, s)
  {
    hide Tallied, PaperTally;
    TalliedSnoc(plan.src, plan.already, plan.papers[..i], plan.papers[i]);
    TalliedSnoc(plan.src, plan.already, heard, plan.papers[i]);
    assert plan.papers[..i + 1] == plan.papers[..i] + [plan.papers[i]];
  }

  lemma CountedOne(plan: Plan, i: nat, heard: seq<string>, table: Table, now: Table, was: Summary, s: Summary)
    requires i < |plan.papers| && (was.failed == [] ==> Counted(plan, i, heard, table, was))
    requires ProcessedOf(plan, i, was, s)
    requires AllSensible(plan.src, plan.papers) && Among(heard, plan.papers)
    requires Advances(plan.src, plan.papers[i], table, now) && Brought(plan.src, plan.papers[i], plan.already, now)
    ensures s.failed == [] ==> Counted(plan, i + 1, heard + [plan.papers[i]], now, s)
  {
    hide Tallied, PaperTally, AllBrought, Brought, Advances, AllSensible;
    var paper := plan.papers[i];
    TalliedSnoc(plan.src, plan.already, plan.papers[..i], paper);
    TalliedSnoc(plan.src, plan.already, heard, paper);
    assert plan.papers[..i + 1] == plan.papers[..i] + [paper];
    if s.failed == [] && !plan.dryRun {
      BroughtOne(plan.src, plan.papers, heard, paper, plan.already, table, now);
    }
  }

  /** Another paper leaves what was brought over as it was, or brings the same chunk again. */
  lemma BroughtOne(src: Source, papers: seq<string>, heard: seq<string>, paper: string, already: set<Id>, table: Table,
                   now: Table)
    requires AllSensible(src, papers) && Among(heard, papers) && paper in papers
    requires AllBrought(src, heard, already, table)
    requires Advances(src, paper, table, now) && Brought(src, paper, already, now)
    ensures AllBrought(src, heard + [paper], already, now)
  {
    hide Writes, Sensible;
    forall p, c | p in heard && c in src.chunks(p)
      ensures c.id in now && (c.id !in already ==> Writes(src, c, now[c.id]))
    {
      assert Brought(src, p, already, table);
      if now[c.id] != table[c.id] {
        var d :| d in src.chunks(paper) && d.id == c.id && Writes(src, d, now[c.id]);
        assert Wanted(src, papers, c) && Wanted(src, papers, d);
        WantedIsUnique(src, papers, c, d);
      }
    }
  }

  lemma SubsetSmaller(a: set<Id>, b: set<Id>)
    requires a <= b
    ensures |a| <= |b|
  {
    assert |b - a| == |b| - |a|;
  }

  lemma InIdSet(chunks: seq<Chunk>, c: Chunk)
    requires c in chunks
    ensures c.id in IdSet(chunks) && c.id in EmbedProtocol.Ids(chunks)
  {
    var i :| 0 <= i < |chunks| && chunks[i] == c;
    assert EmbedProtocol.Ids(chunks)[i] == c.id;
  }

  lemma PickAll(chunks: seq<Chunk>, ids: set<Id>)
    requires ids <= IdSet(chunks)
    ensures forall id :: id in ids ==> exists c :: c in Pick(chunks, ids) && c.id == id
  {
    PickHolds(chunks, ids);
    forall id | id in ids ensures exists c :: c in Pick(chunks, ids) && c.id == id {
      var i :| 0 <= i < |chunks| && EmbedProtocol.Ids(chunks)[i] == id;
      assert chunks[i] in Pick(chunks, ids);
    }
  }

  // ------------------------------------------------------------------
  // Incremental against full
  // ------------------------------------------------------------------

  ghost predicate AllSensible(src: Source, papers: seq<string>) {
    forall p :: p in papers ==> Sensible(src, p)
  }

  /** The rows of a paper embedded from scratch: an archive of its chunks, loaded in the target space. */
  ghost function FromScratch(chunks: seq<Chunk>, target: Version): seq<Row>
    requires Distinct(EmbedProtocol.Ids(chunks))
  {
    EmbedProtocol.ArchiveIsRight(chunks, target);
    RowsOf(chunks, EmbedProtocol.Named(EmbedProtocol.Archive(chunks, target), target))
  }

  /** The full rebuild: every chunk of every paper embedded from scratch into an empty table. */
  ghost function Rebuilt(src: Source, papers: seq<string>): Table
    requires AllSensible(src, papers)
  {
    if papers == [] then map[]
    else
      assert Sensible(src, Last(papers));
      Upsert(Rebuilt(src, papers[..|papers| - 1]), FromScratch(src.chunks(Last(papers)), src.target))
  }

  lemma WantedIsUnique(src: Source, papers: seq<string>, c: Chunk, d: Chunk)
    requires AllSensible(src, papers) && Wanted(src, papers, c) && Wanted(src, papers, d) && c.id == d.id
    ensures c == d
  {
    var p :| p in papers && c in src.chunks(p);
    var q :| q in papers && d in src.chunks(q);
    assert Sensible(src, p) && Sensible(src, q);
    EmbedProtocol.SameIdSameChunk(src.chunks(p), c, d);
  }

  // ------------------------------------------------------------------
  // What the counts of a complete run are
  // ------------------------------------------------------------------

  /** The old ids of the papers. */
  function OldOf(src: Source, papers: seq<string>): set<Id> {
    set id | id in src.active && src.paperOf(id).Some? && src.paperOf(id).value in papers
  }

  function NewOf(src: Source, papers: seq<string>): set<Id> {
    if papers == [] then {} else NewOf(src, papers[..|papers| - 1]) + IdSet(src.chunks(Last(papers)))
  }

  lemma {:induction false} NewOfHolds(src: Source, papers: seq<string>)
    requires AllSensible(src, papers)
    ensures forall id :: id in NewOf(src, papers) <==> exists c :: Wanted(src, papers, c) && c.id == id
    ensures forall id :: id in NewOf(src, papers) ==> src.paperOf(id).Some? && src.paperOf(id).value in papers
  {
    if papers != [] {
      var most, p := papers[..|papers| - 1], Last(papers);
      assert papers == most + [p] && p in papers;
      NewOfHolds(src, most);
      EmbedProtocol.IdsHold(src.chunks(p));
      assert Sensible(src, p);
      hide Sensible, AllSensible;
      forall c ensures Wanted(src, papers, c) <==> Wanted(src, most, c) || c in src.chunks(p) {}
    }
  }

  /** Over distinct papers the tally counts the ids of all of them together. */
  lemma {:induction false} TalliedIsWhole(src: Source, already: set<Id>, papers: seq<string>)
    requires AllSensible(src, papers) && Distinct(papers)
    ensures Tallied(src, already, papers) == TallyOf(NewOf(src, papers), OldOf(src, papers), already)
  {
    if papers != [] {
      var most, p := papers[..|papers| - 1], Last(papers);
      assert papers == most + [p] && p in papers && p !in most;
      hide NewOf, OldOf, IdSet, OldIds, Tallied, Sensible, TallyOf, Plus;
      assert AllSensible(src, most) && Sensible(src, p);
      TalliedIsWhole(src, already, most);
      TalliedSnoc(src, already, most, p);
      OfDistinct(src, most, p);
      TalliesAdd(NewOf(src, most), IdSet(src.chunks(p)), OldOf(src, most), OldIds(src, p), already);
    }
  }

  /** Another paper has other ids. */
  lemma OfDistinct(src: Source, papers: seq<string>, p: string)
    requires AllSensible(src, papers) && Sensible(src, p) && p !in papers
    ensures NewOf(src, papers + [p]) == NewOf(src, papers) + IdSet(src.chunks(p))
    ensures OldOf(src, papers + [p]) == OldOf(src, papers) + OldIds(src, p)
    ensures NewOf(src, papers) + OldOf(src, papers) !! IdSet(src.chunks(p)) + OldIds(src, p)
  {
    assert (papers + [p])[..|papers|] == papers;
    NewOfHolds(src, papers);
    EmbedProtocol.IdsHold(src.chunks(p));
  }

  /** Tallies add up over disjoint parts. */
  lemma TalliesAdd(n: set<Id>, n1: set<Id>, o: set<Id>, o1: set<Id>, already: set<Id>)
    requires n + o !! n1 + o1
    ensures TallyOf(n + n1, o + o1, already) == Plus(TallyOf(n, o, already), TallyOf(n1, o1, already))
  {
    SizeAdds(n, n1, n + n1);
    SizeAdds(o, o1, o + o1);
    SizeAdds(o * n, o1 * n1, (o + o1) * (n + n1));
    SizeAdds(o * n - already, o1 * n1 - already, (o + o1) * (n + n1) - already);
    SizeAdds(n - o - already, n1 - o1 - already, (n + n1) - (o + o1) - already);
  }

  lemma SizeAdds(a: set<Id>, b: set<Id>, both: set<Id>)
    requires a !! b && (forall id :: id in both <==> id in a || id in b)
    ensures |both| == |a| + |b|
  {
    assert both == a + b;
  }

  lemma {:induction false} HeardDistinct(papers: seq<string>, fates: nat -> PaperFate, n: nat)
    requires n <= |papers| && Distinct(papers)
    ensures Distinct(Heard(papers, fates, n))
  {
    if n > 0 {
      HeardDistinct(papers, fates, n - 1);
      HeardHolds(papers, fates, n - 1);
      var most := Heard(papers, fates, n - 1);
      forall i | 0 <= i < |most| ensures most[i] != papers[n - 1] { assert most[i] in most; }
    }
  }

  /** The counts a complete run over distinct papers reports: of the ids the papers heard now have, those
      copied are the active ones, those re-embedded the others, those skipped the ones staged before; the
      old ids that are not among them are dropped. */
  lemma CountsAreWhole(plan: Plan, now: Table, s: Summary)
    requires AllSensible(plan.src, plan.papers) && Distinct(plan.papers)
    requires Counted(plan, |plan.papers|, Heard(plan.papers, plan.fates, |plan.papers|), now, s)
    ensures var ids := NewOf(plan.src, Heard(plan.papers, plan.fates, |plan.papers|));
            && s.target == |ids| && s.dropped == |OldOf(plan.src, plan.papers) - ids|
            && (!plan.dryRun ==>
                  && s.copied == |ids * plan.src.active.Keys - plan.already|
                  && s.reEmbedded == |ids - plan.src.active.Keys - plan.already|
                  && s.skipped == |ids * plan.already|)
  {
    hide TallyOf, NewOf, OldOf, Tallied, AllBrought, Heard, Sensible;
    var heard := Heard(plan.papers, plan.fates, |plan.papers|);
    HeardAmong(plan.papers, plan.fates, |plan.papers|);
    HeardDistinct(plan.papers, plan.fates, |plan.papers|);
    assert plan.papers[..|plan.papers|] == plan.papers;
    TalliedIsWhole(plan.src, plan.already, plan.papers);
    TalliedIsWhole(plan.src, plan.already, heard);
    OldAmongNew(plan.src, plan.papers, heard);
    WholeSizes(NewOf(plan.src, heard), OldOf(plan.src, heard), OldOf(plan.src, plan.papers), plan.src.active.Keys,
      plan.already);
  }

  lemma OldAmongNew(src: Source, papers: seq<string>, heard: seq<string>)
    requires AllSensible(src, heard) && Among(heard, papers)
    ensures var ids, was := NewOf(src, heard), OldOf(src, heard);
            forall id :: id in ids ==> (id in was <==> id in src.active) && (id in was <==> id in OldOf(src, papers))
  {
    NewOfHolds(src, heard);
  }

  lemma WholeSizes(ids: set<Id>, was: set<Id>, old_: set<Id>, active: set<Id>, already: set<Id>)
    requires forall id :: id in ids ==> (id in was <==> id in active) && (id in was <==> id in old_)
    ensures var t := TallyOf(ids, was, already);
            && t.new_ == |ids| && t.kept + |old_ - ids| == TallyOf(ids, old_, already).old_
            && t.copied == |ids * active - already| && t.reEmbedded == |ids - active - already|
            && t.copied + t.reEmbedded + |ids * already| == t.new_
    ensures forall other :: TallyOf(other, old_, already).old_ == TallyOf(ids, old_, already).old_
  {
    assert was * ids == old_ * ids;
    SizeAdds(old_ * ids, old_ - ids, old_);
    var copies, embeds := was * ids - already, ids - was - already;
    assert copies == ids * active - already && embeds == ids - active - already;
    SizeAdds(copies, embeds, copies + embeds);
    SizeAdds(copies + embeds, ids * already, ids);
  }

  lemma FreshRowsOnly(table: Table, chunks: seq<Chunk>, target: Version, id: Id)
    requires Distinct(EmbedProtocol.Ids(chunks))
    ensures var t := Upsert(table, FromScratch(chunks, target));
            && (forall c :: c in chunks && c.id == id ==> id in t && t[id] == FreshRow(c, target))
            && (id !in EmbedProtocol.Ids(chunks) ==> (id in t <==> id in table) && (id in t ==> t[id] == table[id]))
  {
    var rows, ids := FromScratch(chunks, target), EmbedProtocol.Ids(chunks);
    UpsertIsRightBiased(table, rows, id);
    hide Upsert, EmbedProtocol.Archive;
    assert forall i :: 0 <= i < |rows| ==> rows[i].chunk.id == ids[i];
    forall c | c in chunks && c.id == id
      ensures id in Upsert(table, rows) && Upsert(table, rows)[id] == FreshRow(c, target)
    {
      var i :| 0 <= i < |chunks| && chunks[i] == c;
      assert ids[i] == id && rows[i] in rows;
      ArchiveRowsAreFresh(chunks, c, target);
    }
  }

  /** The rebuild has exactly the fresh rows of the wanted chunks. */
  lemma {:induction false} RebuiltRows(src: Source, papers: seq<string>, id: Id)
    requires AllSensible(src, papers)
    ensures id in Rebuilt(src, papers) <==> exists c :: Wanted(src, papers, c) && c.id == id
    ensures forall c :: Wanted(src, papers, c) && c.id == id ==> Rebuilt(src, papers)[id] == FreshRow(c, src.target)
  {
    if papers != [] {
      var most, p := papers[..|papers| - 1], Last(papers);
      assert papers == most + [p] && p in papers;
      RebuiltRows(src, most, id);
      assert Sensible(src, p);
      FreshRowsOnly(Rebuilt(src, most), src.chunks(p), src.target, id);
      hide FreshRow, Upsert, Sensible;
      forall c ensures Wanted(src, papers, c) <==> Wanted(src, most, c) || c in src.chunks(p) {}
      if id in EmbedProtocol.Ids(src.chunks(p)) {
        var i :| 0 <= i < |src.chunks(p)| && EmbedProtocol.Ids(src.chunks(p))[i] == id;
        var d := src.chunks(p)[i];
        assert Wanted(src, papers, d);
        forall c | Wanted(src, papers, c) && c.id == id ensures c == d {
          WantedIsUnique(src, papers, c, d);
        }
      } else {
        forall c | c in src.chunks(p) ensures c.id != id { InIdSet(src.chunks(p), c); }
      }
    }
  }

  /** What `EmbedProtocol` keeps of the active rows and of the files it leaves. */
  ghost predicate ActiveGenuine(src: Source) {
    forall id :: id in src.active ==> Genuine(id, src.active[id])
  }

  ghost predicate FilesSound(src: Source, papers: seq<string>) {
    forall paper :: paper in papers ==> EmbedProtocol.SoundFiles(src.files(paper))
  }

  /** A copied content keeps its space and its side of the proof divide; a new one is embedded by a run
      that writes its archive, or its archive holds it on the side of its kind. */
  ghost predicate Well(src: Source, c: Chunk) {
    if c.id in src.active then
      src.oldVersion == src.target && (src.active[c.id].chunk.kind == "proof" <==> c.kind == "proof")
    else
      var f, chunks := src.files(PaperOf(src, c)), src.chunks(PaperOf(src, c));
      EmbedProtocol.UpToDate(f, EmbedProtocol.Ids(chunks)) ==> EmbedProtocol.HoldsOnSide(f, c)
  }

  /** Such a row is the rebuild's exactly then. */
  lemma WrittenIsFreshIff(src: Source, paper: string, c: Chunk, row: Row)
    requires ActiveGenuine(src) && EmbedProtocol.SoundFiles(src.files(paper)) && Sensible(src, paper)
    requires c in src.chunks(paper) && Writes(src, c, row)
    ensures row == FreshRow(c, src.target) <==> Well(src, c)
  {
    if c.id in src.active {
      CopyIsFreshIff(src.active[c.id], c, src.oldVersion, src.target);
    } else {
      var f := src.files(paper).(manifest := Some(src.chunks(paper)));
      var r := EmbedProtocol.LoadRecord(EmbedProtocol.FullyEmbedded(f)).r;
      LoadedNamesEmbedder(f, src.chunks(paper));
      EmbedProtocol.EmbeddedRecord(f, src.chunks(paper));
      hide EmbedProtocol.LoadRecord, EmbedProtocol.FullyEmbedded, EmbedProtocol.UpToDate, EmbedProtocol.SoundFiles;
      RowGenuineIff(c, r, src.target);
    }
  }

  lemma LoadedNamesEmbedder(f: EmbedProtocol.Files, chunks: seq<Chunk>)
    requires f.manifest == Some(chunks) && chunks != [] && Distinct(EmbedProtocol.Ids(chunks))
    requires EmbedProtocol.LoadRecord(EmbedProtocol.FullyEmbedded(f)).Loaded?
    ensures f.embedder != ""
  {
    hide EmbedProtocol.Archive, WellFormed, Distinct;
  }

  ghost predicate Among(some: seq<string>, papers: seq<string>) {
    forall p :: p in some ==> p in papers
  }

  /** A complete run leaves a chunk staged if and only if it was before, or the run heard of it. */
  lemma StagedIff(src: Source, papers: seq<string>, heard: seq<string>, before: Table, after: Table, c: Chunk)
    requires AllSensible(src, papers) && Among(heard, papers) && Wanted(src, papers, c)
    requires AdvancesOver(src, heard, before, after) && Covers(src, heard, after)
    ensures c.id in after <==> c.id in before || Wanted(src, heard, c)
  {
    hide Writes, Sensible;
    if c.id in after && c.id !in before {
      var d :| Wanted(src, heard, d) && d.id == c.id;
      WantedAmong(src, papers, heard, d);
      WantedIsUnique(src, papers, c, d);
    }
  }

  lemma WantedAmong(src: Source, papers: seq<string>, heard: seq<string>, c: Chunk)
    requires Among(heard, papers) && Wanted(src, heard, c)
    ensures Wanted(src, papers, c)
  {
  }

  /** After one resumed run that completes, staging is the full rebuild if and only if every row it
      started with is the rebuild's and of every other content the run heard, and copied or embedded it
      well. */
  lemma ResumedIsRebuildIff(src: Source, papers: seq<string>, heard: seq<string>, before: Table, after: Table)
    requires AllSensible(src, papers) && ActiveGenuine(src) && FilesSound(src, papers) && Among(heard, papers)
    requires AdvancesOver(src, heard, before, after) && Untouched(before, after, {}) && Covers(src, heard, after)
    ensures after == Rebuilt(src, papers) <==>
      && (forall id :: id in before ==> id in Rebuilt(src, papers) && before[id] == Rebuilt(src, papers)[id])
      && (forall c :: Wanted(src, papers, c) && c.id !in before ==> Wanted(src, heard, c) && Well(src, c))
  {
    var full := Rebuilt(src, papers);
    hide Writes, FreshRow, Rebuilt, Well, ActiveGenuine, Sensible, EmbedProtocol.SoundFiles;
    forall c | Wanted(src, papers, c) && c.id !in before
      ensures c.id in full && (c.id in after <==> Wanted(src, heard, c))
      ensures c.id in after ==> (after[c.id] == full[c.id] <==> Well(src, c))
    {
      RebuiltRows(src, papers, c.id);
      StagedIff(src, papers, heard, before, after, c);
      if c.id in after {
        RowAfter(src, papers, heard, before, after, c);
        var p :| p in papers && c in src.chunks(p);
        assert EmbedProtocol.SoundFiles(src.files(p)) && Sensible(src, p);
        WrittenIsFreshIff(src, p, c, after[c.id]);
      }
    }
    forall id | id in after && id !in before ensures id in full {
      var c :| Wanted(src, heard, c) && c.id == id;
      WantedAmong(src, papers, heard, c);
    }
    forall id | id in full ensures exists c :: Wanted(src, papers, c) && c.id == id {
      RebuiltRows(src, papers, id);
    }
    SameTableIff(before, after, full);
    hide Covers, AdvancesOver, Untouched, Wanted, AllSensible, Among;
    if forall c :: Wanted(src, papers, c) && c.id !in before ==> Wanted(src, heard, c) && Well(src, c) {
      forall id | id in full && id !in before ensures id in after && after[id] == full[id] {
        var c :| Wanted(src, papers, c) && c.id == id;
      }
    }
  }

  lemma SameTableIff(before: Table, after: Table, full: Table)
    requires Untouched(before, after, {})
    requires forall id :: id in after && id !in before ==> id in full
    ensures after == full <==>
      && (forall id :: id in before ==> id in full && before[id] == full[id])
      && (forall id :: id in full && id !in before ==> id in after && after[id] == full[id])
  {
    if (forall id :: id in before ==> id in full && before[id] == full[id])
       && (forall id :: id in full && id !in before ==> id in after && after[id] == full[id]) {
      assert forall id :: id in after <==> id in full;
    }
  }

  lemma RowAfter(src: Source, papers: seq<string>, heard: seq<string>, before: Table, after: Table, c: Chunk)
    requires AllSensible(src, papers) && Among(heard, papers) && Wanted(src, papers, c) && c.id !in before
    requires AdvancesOver(src, heard, before, after) && c.id in after
    ensures Writes(src, c, after[c.id])
  {
    hide Writes, Sensible;
    var d :| Wanted(src, heard, d) && d.id == c.id && Writes(src, d, after[c.id]);
    WantedAmong(src, papers, heard, d);
    WantedIsUnique(src, papers, c, d);
  }

  /** Runs stopped anywhere, failing anywhere, loudly or silently, resumed or not: from an empty staging
      table, after a last run that completes, the table is the full rebuild if and only if every content
      is copied or embedded well, and was staged before the last run or heard in it. */
  lemma StoppedAndRerun(src: Source, papers: seq<string>, heard: seq<string>, tables: seq<Table>, last: Table)
    requires AllSensible(src, papers) && ActiveGenuine(src) && FilesSound(src, papers) && Among(heard, papers)
    requires tables != [] && tables[0] == map[]
    requires forall i: nat :: i + 1 < |tables| ==> AdvancesOver(src, papers, tables[i], tables[i + 1])
    requires AdvancesOver(src, heard, Last(tables), last) && Covers(src, heard, last)
    ensures last == Rebuilt(src, papers) <==>
      forall c :: Wanted(src, papers, c) ==> Well(src, c) && (c.id in Last(tables) || Wanted(src, heard, c))
  {
    AllAdvance(src, papers, tables);
    AdvancesOverMore(src, heard, papers, Last(tables), last);
    AdvancesOverTwice(src, papers, map[], Last(tables), last);
    hide Writes, Well, Rebuilt, Sensible, ActiveGenuine, FilesSound;
    forall c | Wanted(src, papers, c)
      ensures c.id in Rebuilt(src, papers) && (c.id in last <==> c.id in Last(tables) || Wanted(src, heard, c))
    {
      RebuiltRows(src, papers, c.id);
      StagedIff(src, papers, heard, Last(tables), last, c);
    }
    if forall c :: Wanted(src, papers, c) ==> c.id in last {
      assert Covers(src, papers, last) by {
        forall p, c | p in papers && c in src.chunks(p) ensures c.id in last { assert Wanted(src, papers, c); }
      }
      assert Untouched(map[], last, {}) && Among(papers, papers);
      ResumedIsRebuildIff(src, papers, papers, map[], last);
    }
  }

  /** Everything the world does to the paper goes well. */
  predicate Unimpeded(fate: PaperFate) {
    fate == PaperFate(Chunks, Commits, Embeds, Commits)
  }

  /** Every wanted chunk is of a known kind, and its old row can be copied or its paper is embedded, in the
      target space, by a run that writes its archive or finds it there. */
  ghost predicate Healthy(src: Source, papers: seq<string>) {
    forall p, c :: p in papers && c in src.chunks(p) ==>
      && c.kind in KINDS
      && if c.id in src.active then Copyable(src.active[c.id], src.oldVersion)
         else
           && src.files(p).embedder == src.target != ""
           && (EmbedProtocol.UpToDate(src.files(p), EmbedProtocol.Ids(src.chunks(p))) ==>
                 EmbedProtocol.Holds(src.files(p), c.id))
  }

  /** What the embed step loads, read off the files it starts from. */
  lemma LoadsTargetIff(src: Source, paper: string, c: Chunk)
    requires Sensible(src, paper) && EmbedProtocol.Shaped(src.files(paper)) && c in src.chunks(paper)
    ensures LoadsTarget(src, paper) && EmbedsChunk(src, paper, c) <==>
            && src.files(paper).embedder == src.target != ""
            && (EmbedProtocol.UpToDate(src.files(paper), EmbedProtocol.Ids(src.chunks(paper))) ==>
                  EmbedProtocol.Holds(src.files(paper), c.id))
  {
    var f := src.files(paper).(manifest := Some(src.chunks(paper)));
    if f.embedder != "" {
      EmbedProtocol.EmbeddedRecord(f, src.chunks(paper));
      hide EmbedProtocol.LoadRecord, EmbedProtocol.FullyEmbedded;
    } else if LoadsTarget(src, paper) {
      LoadedNamesEmbedder(f, src.chunks(paper));
    }
  }

  lemma UnimpededGoesIff(src: Source, papers: seq<string>, fates: nat -> PaperFate)
    requires AllSensible(src, papers) && FilesSound(src, papers)
    requires forall k: nat :: k < |papers| ==> Unimpeded(fates(k))
    ensures (forall k: nat :: k < |papers| ==> Goes(Plan(src, papers, fates, {}, false), k)) <==> Healthy(src, papers)
  {
    hide LoadsTarget, EmbedsChunk, Copyable, EmbedProtocol.UpToDate, EmbedProtocol.Holds;
    var plan := Plan(src, papers, fates, {}, false);
    forall p, c | p in papers && c in src.chunks(p)
      ensures LoadsTarget(src, p) && EmbedsChunk(src, p, c) <==>
              && src.files(p).embedder == src.target != ""
              && (EmbedProtocol.UpToDate(src.files(p), EmbedProtocol.Ids(src.chunks(p))) ==>
                    EmbedProtocol.Holds(src.files(p), c.id))
    {
      LoadsTargetIff(src, p, c);
    }
    if forall k: nat :: k < |papers| ==> Goes(plan, k) {
      forall p, c | p in papers && c in src.chunks(p)
        ensures ToCopy(src, p, {}, c) || ToEmbed(src, p, {}, c)
        ensures exists k: nat :: k < |papers| && papers[k] == p && Goes(plan, k) && Unimpeded(fates(k))
      {
        var k: nat :| k < |papers| && papers[k] == p;
        assert Goes(plan, k);
      }
    }
  }

  /** Where the world lets everything through, a run into an empty staging table completes if and only if the
      corpus is healthy, and then has built the full rebuild if and only if it copies and embeds all of
      it well. */
  method UnimpededRun(r: ReEmbedder, papers: seq<string>, fates: nat -> PaperFate) returns (end: RunEnd, s: Summary)
    requires r.Valid() && AllSensible(r.src, papers) && ActiveGenuine(r.src) && FilesSound(r.src, papers)
    requires r.staging == map[] && forall k: nat :: k < |papers| ==> Unimpeded(fates(k))
    modifies r
    ensures end.Complete? <==> Healthy(r.src, papers)
    ensures end.Complete? ==>
      (r.staging == Rebuilt(r.src, papers) <==> forall c :: Wanted(r.src, papers, c) ==> Well(r.src, c))
  {
    hide AdvancesOver, Heard, Recorded, Counted, Wanted, Rebuilt, Healthy, Goes, DiesAt, Sensible, ActiveGenuine;
    hide FilesSound, Well, Writes;
    end, s := r.Run(papers, false, false, fates);
    UnimpededGoesIff(r.src, papers, fates);
    if end.Complete? {
      AllHeard(papers, fates, |papers|);
      assert papers[..|papers|] == papers;
      CompleteCovers(Plan(r.src, papers, fates, {}, false), papers, r.staging, s);
      assert Among(papers, papers) && Untouched(map[], r.staging, {});
      ResumedIsRebuildIff(r.src, papers, papers, map[], r.staging);
    }
  }

  lemma {:induction false} AllHeard(papers: seq<string>, fates: nat -> PaperFate, n: nat)
    requires n <= |papers| && forall k: nat :: k < n ==> Unimpeded(fates(k))
    ensures Heard(papers, fates, n) == papers[..n]
  {
    if n > 0 {
      AllHeard(papers, fates, n - 1);
      assert papers[..n] == papers[..n - 1] + [papers[n - 1]];
    }
  }

  lemma CompleteCovers(plan: Plan, heard: seq<string>, now: Table, s: Summary)
    requires Counted(plan, |plan.papers|, heard, now, s) && !plan.dryRun
    ensures Covers(plan.src, heard, now)
  {
    hide Writes;
    forall p, c | p in heard && c in plan.src.chunks(p) ensures c.id in now {
      assert Brought(plan.src, p, plan.already, now);
    }
  }

  /** A run in which every chunker returns nothing is complete, and leaves an empty staging table as it
      is although there is something to stage. */
  method SilentlyIncomplete(r: ReEmbedder, papers: seq<string>, fates: nat -> PaperFate)
    returns (end: RunEnd, s: Summary)
    requires r.Valid() && AllSensible(r.src, papers) && r.staging == map[] && Distinct(papers)
    requires forall k: nat :: k < |papers| ==> fates(k).chunk.ReturnsNothing?
    modifies r
    ensures end.Complete? && s.failed == [] && s.dropped == |OldOf(r.src, papers)| && s.target == 0
    ensures r.staging == map[]
    ensures (exists c :: Wanted(r.src, papers, c)) ==> r.staging != Rebuilt(r.src, papers)
  {
    hide AdvancesOver, Heard, Recorded, Counted, Wanted, Rebuilt, OldOf;
    ghost var src := r.src;
    NothingHeard(papers, fates);
    end, s := r.Run(papers, true, false, fates);
    NothingAdvances(src, r.staging);
    ghost var plan := Plan(src, papers, fates, {}, false);
    assert plan == Plan(src, papers, fates, old(r.staging).Keys, false);
    NothingRecorded(plan, s.failed);
    CountsAreWhole(plan, r.staging, s);
    if c :| Wanted(src, papers, c) {
      RebuiltRows(src, papers, c.id);
    }
  }

  lemma NothingHeard(papers: seq<string>, fates: nat -> PaperFate)
    requires forall k: nat :: k < |papers| ==> fates(k).chunk.ReturnsNothing?
    ensures Heard(papers, fates, |papers|) == []
  {
    HeardHolds(papers, fates, |papers|);
    FirstIsIn(Heard(papers, fates, |papers|));
  }

  lemma FirstIsIn<T>(s: seq<T>)
    ensures s == [] || s[0] in s
  {
  }

  lemma NothingAdvances(src: Source, after: Table)
    requires AdvancesOver(src, [], map[], after)
    ensures after == map[]
  {
    hide Writes;
    assert forall c :: !Wanted(src, [], c);
    assert forall id :: id !in after;
  }

  lemma NothingRecorded(plan: Plan, failed: seq<string>)
    requires Recorded(plan, |plan.papers|, failed)
    requires forall k: nat :: k < |plan.papers| ==> plan.fates(k).chunk.ReturnsNothing?
    ensures failed == []
  {
    FirstIsIn(failed);
  }

  lemma {:induction false} AllAdvance(src: Source, papers: seq<string>, tables: seq<Table>)
    requires tables != []
    requires forall i: nat :: i + 1 < |tables| ==> AdvancesOver(src, papers, tables[i], tables[i + 1])
    ensures AdvancesOver(src, papers, tables[0], Last(tables))
  {
    if |tables| == 1 {
      hide Writes, Wanted;
    } else {
      hide AdvancesOver;
      var n := |tables| - 1;
      AllAdvance(src, papers, tables[..n]);
      assert AdvancesOver(src, papers, tables[n - 1], tables[n]);
      AdvancesOverTwice(src, papers, tables[0], tables[n - 1], tables[n]);
    }
  }

  /** Only rows of the rebuild. */
  ghost predicate OnlyFresh(src: Source, papers: seq<string>, t: Table) {
    forall id :: id in t ==> exists c :: Wanted(src, papers, c) && c.id == id && t[id] == FreshRow(c, src.target)
  }

  /** The same corpus with other files. */
  function With(src: Source, files: Disk): Source {
    src.(files := files)
  }

  lemma StaysFresh(src: Source, papers: seq<string>, heard: seq<string>, files: Disk, before: Table, after: Table)
    requires AllSensible(src, papers) && ActiveGenuine(src) && FilesSound(With(src, files), papers)
    requires Among(heard, papers) && OnlyFresh(src, papers, before)
    requires AdvancesOver(With(src, files), heard, before, after)
    requires forall c :: Wanted(src, heard, c) ==> Well(With(src, files), c)
    ensures OnlyFresh(src, papers, after)
  {
    var now := With(src, files);
    hide FreshRow, Writes, Well;
    forall id | id in after && !(id in before && after[id] == before[id])
      ensures exists c :: Wanted(src, papers, c) && c.id == id && after[id] == FreshRow(c, src.target)
    {
      var c :| Wanted(now, heard, c) && c.id == id && Writes(now, c, after[id]);
      var p :| p in heard && c in src.chunks(p);
      assert Wanted(src, heard, c) && p in papers;
      assert Sensible(src, p) && EmbedProtocol.SoundFiles(now.files(p));
      hide Sensible, EmbedProtocol.SoundFiles;
      SensibleWith(src, p, files);
      WrittenIsFreshIff(now, p, c, after[id]);
      assert Wanted(src, papers, c);
    }
  }

  lemma SensibleWith(src: Source, paper: string, files: Disk)
    requires Sensible(src, paper)
    ensures Sensible(With(src, files), paper)
  {
  }

  /** A run over the papers it hears, with the files it finds, well for every content of theirs. */
  ghost predicate WellRun(src: Source, papers: seq<string>, heard: seq<string>, files: Disk, before: Table,
                          after: Table)
  {
    && Among(heard, papers) && FilesSound(With(src, files), papers)
    && AdvancesOver(With(src, files), heard, before, after)
    && forall c :: Wanted(src, heard, c) ==> Well(With(src, files), c)
  }

  lemma {:induction false} WellRunsStayFresh(src: Source, papers: seq<string>, heards: seq<seq<string>>,
                                             disks: seq<Disk>, tables: seq<Table>)
    requires AllSensible(src, papers) && ActiveGenuine(src)
    requires |heards| == |disks| && |tables| == |disks| + 1 && tables[0] == map[]
    requires forall i: nat :: i < |disks| ==> WellRun(src, papers, heards[i], disks[i], tables[i], tables[i + 1])
    ensures OnlyFresh(src, papers, Last(tables))
  {
    if disks != [] {
      var n := |disks| - 1;
      WellRunsStayFresh(src, papers, heards[..n], disks[..n], tables[..n + 1]);
      assert WellRun(src, papers, heards[n], disks[n], tables[n], tables[n + 1]);
      hide OnlyFresh, Well, FilesSound, AdvancesOver, ActiveGenuine, AllSensible, Wanted;
      StaysFresh(src, papers, heards[n], disks[n], tables[n], tables[n + 1]);
    }
  }

  /** Whatever other processes do to the files between the runs, if every run finds every content it hears
      to copy or embed well: once a run completes, the table is the full rebuild if and only if every
      content was staged before that run or heard in it. */
  lemma FilesMayChange(src: Source, papers: seq<string>, heards: seq<seq<string>>, disks: seq<Disk>, tables: seq<Table>)
    requires AllSensible(src, papers) && ActiveGenuine(src)
    requires |heards| == |disks| > 0 && |tables| == |disks| + 1 && tables[0] == map[]
    requires forall i: nat :: i < |disks| ==> WellRun(src, papers, heards[i], disks[i], tables[i], tables[i + 1])
    requires Covers(src, Last(heards), Last(tables))
    ensures Last(tables) == Rebuilt(src, papers) <==>
      forall c :: Wanted(src, papers, c) ==> c.id in tables[|tables| - 2] || Wanted(src, Last(heards), c)
  {
    WellRunsStayFresh(src, papers, heards, disks, tables);
    var n := |disks| - 1;
    assert WellRun(src, papers, heards[n], disks[n], tables[n], tables[n + 1]);
    hide Writes, Well, Rebuilt, OnlyFresh, ActiveGenuine, FilesSound;
    forall c | Wanted(src, papers, c)
      ensures c.id in Rebuilt(src, papers)
      ensures c.id in Last(tables) <==> c.id in tables[n] || Wanted(src, Last(heards), c)
    {
      RebuiltRows(src, papers, c.id);
      StagedWithIff(src, papers, heards[n], disks[n], tables[n], tables[n + 1], c);
    }
    if forall c :: Wanted(src, papers, c) ==> c.id in Last(tables) {
      forall p, c | p in papers && c in src.chunks(p) ensures c.id in Last(tables) { assert Wanted(src, papers, c); }
      FreshCoverIsRebuilt(src, papers, Last(tables));
    }
  }

  lemma StagedWithIff(src: Source, papers: seq<string>, heard: seq<string>, files: Disk, before: Table, after: Table,
                      c: Chunk)
    requires AllSensible(src, papers) && Among(heard, papers) && Wanted(src, papers, c)
    requires AdvancesOver(With(src, files), heard, before, after) && Covers(src, heard, after)
    ensures c.id in after <==> c.id in before || Wanted(src, heard, c)
  {
    hide Writes;
    forall p | p in papers ensures Sensible(With(src, files), p) {
      assert Sensible(src, p);
      SensibleWith(src, p, files);
    }
    hide Sensible;
    var now := With(src, files);
    assert forall some, d :: Wanted(now, some, d) <==> Wanted(src, some, d);
    StagedIff(now, papers, heard, before, after, c);
  }

  lemma FreshCoverIsRebuilt(src: Source, papers: seq<string>, t: Table)
    requires AllSensible(src, papers) && OnlyFresh(src, papers, t) && Covers(src, papers, t)
    ensures t == Rebuilt(src, papers)
  {
    var full := Rebuilt(src, papers);
    hide FreshRow, Rebuilt, Sensible;
    forall id ensures id in t <==> id in full {
      RebuiltRows(src, papers, id);
    }
    forall id | id in t ensures t[id] == full[id] {
      RebuiltRows(src, papers, id);
    }
  }
}
