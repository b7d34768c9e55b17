/** When every row has its vector in the column of its kind, over all runs of the steps of
    `EmbedProtocol`. */
module EmbedColumns {
  import opened EmbedProtocol
  import opened Prelude
  import opened Store

  /** Chunks are proofs exactly when their content is one. */
  ghost predicate Follow(chunks: seq<Chunk>, isProof: Id -> bool) {
    forall c :: c in chunks ==> (isProof(c.id) <==> c.kind == "proof")
  }

  ghost predicate InColumn(row: Row) {
    (row.proof.Some? <==> row.chunk.kind == "proof") && (row.stmt.Some? <==> row.chunk.kind != "proof")
  }

  ghost predicate FollowingNpz(n: Npz, isProof: Id -> bool) {
    (forall id :: id in n.stmtIds ==> !isProof(id)) && (forall id :: id in n.proofIds ==> isProof(id))
  }

  ghost predicate FollowingProcess(w: Process, isProof: Id -> bool) {
    match w
    case Chunked(chunks) => Follow(chunks, isProof)
    case Writing(own, captured, _) => (own.Some? ==> Follow(own.value, isProof)) && Follow(captured, isProof)
    case Ready(chunks) => Follow(chunks, isProof)
    case Naming(chunks, _) => Follow(chunks, isProof)
    case Holding(chunks, r) =>
      && Follow(chunks, isProof)
      && FollowingNpz(Npz(r.stmtIds, r.stmtVecs, r.proofIds, r.proofVecs), isProof)
  }

  ghost predicate Following(p: Paper, isProof: Id -> bool) {
    && (p.files.manifest.Some? ==> Follow(p.files.manifest.value, isProof))
    && (p.files.npz.Some? ==> FollowingNpz(p.files.npz.value, isProof))
    && (forall id :: id in p.running ==> FollowingProcess(p.running[id], isProof))
    && (forall id :: id in p.table ==> InColumn(p.table[id]))
  }

  /** No chunker gives a content another kind. */
  ghost predicate KeepsKinds(step: Step, isProof: Id -> bool) {
    match step
    case Rechunk(manifest) => manifest.Some? ==> Follow(manifest.value, isProof)
    case ChunkOwn(_, chunks) => Follow(chunks, isProof)
    case _ => true
  }

  lemma ArchiveFollows(chunks: seq<Chunk>, space: Version, isProof: Id -> bool)
    requires Follow(chunks, isProof)
    ensures FollowingNpz(Archive(chunks, space), isProof)
  {
    forall id | id in OfSide(chunks, false) ensures !isProof(id) {
      OfSideHolds(chunks, false, id);
    }
    forall id | id in OfSide(chunks, true) ensures isProof(id) {
      OfSideHolds(chunks, true, id);
    }
  }

  lemma {:induction false} RowsStayInColumn(table: Table, rows: seq<Row>)
    requires forall id :: id in table ==> InColumn(table[id])
    requires forall r :: r in rows ==> InColumn(r)
    ensures forall id :: id in Upsert(table, rows) ==> InColumn(Upsert(table, rows)[id])
  {
    if rows != [] {
      RowsStayInColumn(table, rows[..|rows| - 1]);
    }
  }

  lemma StoreKeepsColumns(p: Paper, chunks: seq<Chunk>, r: Record, isProof: Id -> bool)
    requires Following(p, isProof) && WellFormed(r) && FollowingProcess(Holding(chunks, r), isProof)
    ensures Following(StoredFrom(p, chunks, r), isProof)
  {
    if Buildable(chunks, r) {
      LookupPairs(r.stmtIds, r.stmtVecs);
      LookupPairs(r.proofIds, r.proofVecs);
      forall row | row in RowsOf(chunks, r) ensures InColumn(row) {
        var i :| 0 <= i < |chunks| && row == RowOf(chunks[i], r);
        assert chunks[i] in chunks;
      }
      RowsStayInColumn(p.table, RowsOf(chunks, r));
    }
  }

  lemma StepKeepsColumns(p: Paper, step: Step, isProof: Id -> bool)
    requires Following(p, isProof) && KeepsKinds(step, isProof)
    ensures Following(Do(p, step), isProof)
  {
    hide Follow, FollowingNpz, InColumn, StoredFrom, Archive, Embeds, WellFormed;
    match step
    case StoreOwn(id) => if IsHolding(p, id) && WellFormed(p.running[id].r) {
      StoreKeepsColumns(Ended(p, id), p.running[id].chunks, p.running[id].r, isProof);
    }
    case ReadArchive(id) => if IsNaming(p, id) && p.files.npz.Some? {
      var n := p.files.npz.value;
      assert n == Npz(n.stmtIds, n.stmtVecs, n.proofIds, n.proofVecs);
    }
    case WriteArchive(id) => if IsWriting(p, id, false) {
      ArchiveFollows(p.running[id].captured, p.files.embedder, isProof);
    }
    case StartEmbed(id) => EmbedsManifest(p.files);
    case EmbedOwn(id) => EmbedsManifest(p.files);
    case _ =>
  }

  lemma EmbedsManifest(f: Files)
    ensures Embeds(f) ==> f.manifest.Some?
  {
  }

  /** Over any interleaving in which every content keeps its kind, careful or not, every row has its
      vector in the column of its kind and nothing in the other. */
  lemma {:induction false} EveryRowInItsColumn(chunker: Version, embedder: Version, steps: seq<Step>,
                                               isProof: Id -> bool)
    requires forall step :: step in steps ==> KeepsKinds(step, isProof)
    ensures Following(Run(Start(chunker, embedder), steps), isProof)
  {
    if steps != [] {
      hide Following, KeepsKinds, Do;
      var most := steps[..|steps| - 1];
      EveryRowInItsColumn(chunker, embedder, most, isProof);
      assert Last(steps) in steps;
      StepKeepsColumns(Run(Start(chunker, embedder), most), Last(steps), isProof);
    }
  }
}
