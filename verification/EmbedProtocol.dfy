/** One paper's way from chunks to rows: the chunk manifest, the embeddings archive and its sidecar
    written one after the other, and the table (`_embed_paper_impl` and `_paper_is_up_to_date` in
    `ingest/embedder.py`, `load_embed_record` in `ingest/store.py`, `ingest_one_paper` in
    `ingest/bulk_ingest.py`).

    Any number of processes interleave the steps, the two file replaces of an embed run being steps
    of their own; a process may die between any two. A vector is a function of the embedder version
    and the content id. */
module EmbedProtocol {
  import opened Prelude
  import opened Store

  /** The archive is a record without its version; only the sidecar names one. */
  datatype Npz = Npz(stmtIds: seq<Id>, stmtVecs: seq<Vector>, proofIds: seq<Id>, proofVecs: seq<Vector>)

  /** An entry without a usable id is None. */
  datatype Sidecar = Sidecar(chunkerVersion: Version, embedderVersion: Version, entries: seq<Option<Id>>)

  /** One paper's files, and the versions of the chunker and the embedder in use. */
  datatype Files = Files(
    manifest: Option<seq<Chunk>>, npz: Option<Npz>, sidecar: Option<Sidecar>, chunker: Version, embedder: Version)

  /** A process between two of its steps: an ingest that has chunked the paper, an embed run past its
      check with the manifest it read and perhaps its archive written (own being the chunks of the
      ingest it belongs to, if any), an ingest past its embed step, one that has read the version off the
      sidecar, or one that holds the record it will store. */
  datatype Process =
    | Chunked(chunks: seq<Chunk>)
    | Writing(own: Option<seq<Chunk>>, captured: seq<Chunk>, half: bool)
    | Ready(chunks: seq<Chunk>)
    | Naming(chunks: seq<Chunk>, version: Version)
    | Holding(chunks: seq<Chunk>, r: Record)

  /** `released` are the embedder versions so far. */
  datatype Paper = Paper(files: Files, running: map<nat, Process>, table: Table, released: set<Version>)

  function Ids(chunks: seq<Chunk>): seq<Id> {
    seq(|chunks|, i requires 0 <= i < |chunks| => chunks[i].id)
  }

  // ------------------------------------------------------------------
  // Embedding
  // ------------------------------------------------------------------

  function OfSide(chunks: seq<Chunk>, proof: bool): seq<Id> {
    if chunks == [] then []
    else OfSide(chunks[..|chunks| - 1], proof) +
         if (Last(chunks).kind == "proof") == proof then [Last(chunks).id] else []
  }

  function Encode(ids: seq<Id>, space: Version): seq<Vector> {
    seq(|ids|, i requires 0 <= i < |ids| => Vector(space, ids[i]))
  }

  /** The archive of these chunks: each id on the side of its kind, beside its vector. */
  function Archive(chunks: seq<Chunk>, space: Version): Npz {
    var stmts, proofs := OfSide(chunks, false), OfSide(chunks, true);
    Npz(stmts, Encode(stmts, space), proofs, Encode(proofs, space))
  }

  function SidecarOf(chunks: seq<Chunk>, chunker: Version, embedder: Version): Sidecar {
    Sidecar(chunker, embedder, seq(|chunks|, i requires 0 <= i < |chunks| => Some(chunks[i].id)))
  }

  /** Encoding batch by batch gives the vector of every chunk in order, whatever the batch size. */
  method EncodeInBatches(ids: seq<Id>, space: Version, batchSize: nat) returns (vectors: seq<Vector>)
    requires batchSize > 0
    ensures vectors == Encode(ids, space)
  {
    vectors := [];
    var start: nat := 0;
    while start < |ids|
      invariant vectors == Encode(ids[..if start < |ids| then start else |ids|], space)
    {
      var end := if start + batchSize < |ids| then start + batchSize else |ids|;
      var batch := ids[start..end];
      vectors := vectors + Encode(batch, space);
      assert ids[..end] == ids[..start] + batch;
      start := start + batchSize;
    }
    assert ids[..|ids|] == ids;
  }

  /** Routing splits ids and vectors together. */
  method BuildArchive(chunks: seq<Chunk>, space: Version, batchSize: nat) returns (npz: Npz)
    requires batchSize > 0
    ensures npz == Archive(chunks, space)
  {
    var vectors := EncodeInBatches(Ids(chunks), space, batchSize);
    var stmtIds, proofIds: seq<Id> := [], [];
    var stmtVecs, proofVecs: seq<Vector> := [], [];
    for i := 0 to |chunks|
      invariant stmtIds == OfSide(chunks[..i], false) && proofIds == OfSide(chunks[..i], true)
      invariant stmtVecs == Encode(stmtIds, space) && proofVecs == Encode(proofIds, space)
    {
      assert chunks[..i + 1] == chunks[..i] + [chunks[i]];
      if chunks[i].kind == "proof" {
        proofIds, proofVecs := proofIds + [chunks[i].id], proofVecs + [vectors[i]];
      } else {
        stmtIds, stmtVecs := stmtIds + [chunks[i].id], stmtVecs + [vectors[i]];
      }
    }
    assert chunks[..|chunks|] == chunks;
    npz := Npz(stmtIds, stmtVecs, proofIds, proofVecs);
  }

  /** `_paper_is_up_to_date`. */
  predicate UpToDate(f: Files, ids: seq<Id>) {
    && f.sidecar.Some? && f.npz.Some?
    && f.sidecar.value.chunkerVersion == f.chunker && f.sidecar.value.embedderVersion == f.embedder
    && (forall e :: e in f.sidecar.value.entries ==> e.Some?)
    && (forall id :: id in ids ==> Some(id) in f.sidecar.value.entries)
  }

  method IsUpToDate(f: Files, ids: seq<Id>) returns (current: bool)
    ensures current <==>
      && f.sidecar.Some? && f.npz.Some?
      && f.sidecar.value.chunkerVersion == f.chunker && f.sidecar.value.embedderVersion == f.embedder
      && None !in f.sidecar.value.entries
      && forall id :: id in ids ==> Some(id) in f.sidecar.value.entries
  {
    if f.sidecar.None? || f.npz.None? {
      return false;
    }
    var sidecar := f.sidecar.value;
    if sidecar.chunkerVersion != f.chunker || sidecar.embedderVersion != f.embedder {
      return false;
    }
    var embedded: set<Id> := {};
    for i := 0 to |sidecar.entries|
      invariant forall j :: 0 <= j < i ==> sidecar.entries[j].Some?
      invariant forall id :: id in embedded <==> Some(id) in sidecar.entries[..i]
    {
      if sidecar.entries[i].None? {
        assert sidecar.entries[i] in sidecar.entries;
        return false;
      }
      embedded := embedded + {sidecar.entries[i].value};
    }
    assert sidecar.entries[..|sidecar.entries|] == sidecar.entries;
    return forall id :: id in ids ==> id in embedded;
  }

  /** The embed step has something to write. */
  predicate Embeds(f: Files) {
    && f.manifest.Some? && f.manifest.value != [] && Distinct(Ids(f.manifest.value))
    && !UpToDate(f, Ids(f.manifest.value))
  }

  /** After the archive has been replaced. */
  function HalfEmbedded(f: Files): Files {
    if Embeds(f) then f.(npz := Some(Archive(f.manifest.value, f.embedder))) else f
  }

  /** After the sidecar has been replaced too. */
  function FullyEmbedded(f: Files): Files {
    if Embeds(f) then HalfEmbedded(f).(sidecar := Some(SidecarOf(f.manifest.value, f.chunker, f.embedder))) else f
  }

  /** `embed_paper` reports success unless the manifest repeats an id. */
  predicate EmbedOk(f: Files) {
    f.manifest.Some? ==> Distinct(Ids(f.manifest.value))
  }

  // ------------------------------------------------------------------
  // Loading and writing
  // ------------------------------------------------------------------

  datatype Loaded = NoRecord | LoadRefused | Loaded(r: Record)

  function Named(n: Npz, version: Version): Record {
    Record(n.stmtIds, n.stmtVecs, n.proofIds, n.proofVecs, version)
  }

  /** `load_embed_record`. */
  function LoadRecord(f: Files): (l: Loaded)
    ensures l.Loaded? ==> WellFormed(l.r) && l.r.version != ""
    ensures l.NoRecord? <==> f.npz.None?
  {
    if f.npz.None? then NoRecord
    else if f.sidecar.None? || f.sidecar.value.embedderVersion == "" then LoadRefused
    else
      var r := Named(f.npz.value, f.sidecar.value.embedderVersion);
      if WellFormed(r) then Loaded(r) else LoadRefused
  }

  /** `write_chunks` with a record at hand: all rows or none. */
  ghost function StoredFrom(p: Paper, chunks: seq<Chunk>, r: Record): Paper
    requires WellFormed(r)
  {
    if Buildable(chunks, r) then p.(table := Upsert(p.table, RowsOf(chunks, r))) else p
  }

  /** The end of an ingest that nothing disturbs: load the record, build the rows, upsert. */
  ghost function Stored(p: Paper, chunks: seq<Chunk>): Paper {
    var l := LoadRecord(p.files);
    if l.Loaded? then StoredFrom(p, chunks, l.r) else p
  }

  // ------------------------------------------------------------------
  // Steps
  // ------------------------------------------------------------------

  /** `Rechunk` is a chunker that finished or, with None, died after its clean-up. An embed run is
      `StartEmbed`, `WriteArchive`, `WriteSidecar`; an ingest is `ChunkOwn`, `EmbedOwn`, the two
      writes unless the paper is up to date, `ReadSidecar`, `ReadArchive` and `StoreOwn`. `Die` may
      come anywhere. A deployment ends the processes of the old version. */
  datatype Step =
    | Rechunk(manifest: Option<seq<Chunk>>)
    | StartEmbed(id: nat)
    | ChunkOwn(id: nat, chunks: seq<Chunk>)
    | EmbedOwn(id: nat)
    | WriteArchive(id: nat)
    | WriteSidecar(id: nat)
    | ReadSidecar(id: nat)
    | ReadArchive(id: nat)
    | StoreOwn(id: nat)
    | Die(id: nat)
    | DeployEmbedder(version: Version)
    | DeployChunker(version: Version)
    | LoseNpz
    | LoseSidecar

  /** The process of this id is at this stage. */
  predicate IsChunked(p: Paper, id: nat) { id in p.running && p.running[id].Chunked? }

  predicate IsWriting(p: Paper, id: nat, half: bool) {
    id in p.running && p.running[id].Writing? && p.running[id].half == half
  }

  predicate IsReady(p: Paper, id: nat) { id in p.running && p.running[id].Ready? }

  predicate IsNaming(p: Paper, id: nat) { id in p.running && p.running[id].Naming? }

  predicate IsHolding(p: Paper, id: nat) { id in p.running && p.running[id].Holding? }

  function At(p: Paper, id: nat, process: Process): Paper {
    p.(running := p.running[id := process])
  }

  function Ended(p: Paper, id: nat): Paper {
    p.(running := p.running - {id})
  }

  /** A step whose process is not where the step begins changes nothing. */
  ghost function Do(p: Paper, step: Step): Paper {
    var f := p.files;
    match step
    case Rechunk(manifest) => p.(files := f.(manifest := manifest))
    case StartEmbed(id) =>
      if id !in p.running && Embeds(f) then At(p, id, Writing(None, f.manifest.value, false)) else p
    case ChunkOwn(id, chunks) =>
      if id in p.running then p
      else
        var q := p.(files := f.(manifest := Some(chunks)));
        if chunks == [] then q else At(q, id, Chunked(chunks))
    case EmbedOwn(id) =>
      if !IsChunked(p, id) then p
      else if !EmbedOk(f) then Ended(p, id)
      else
        var chunks := p.running[id].chunks;
        At(p, id, if Embeds(f) then Writing(Some(chunks), f.manifest.value, false) else Ready(chunks))
    case WriteArchive(id) =>
      if !IsWriting(p, id, false) then p
      else
        var w := p.running[id];
        At(p, id, w.(half := true)).(files := f.(npz := Some(Archive(w.captured, f.embedder))))
    case WriteSidecar(id) =>
      if !IsWriting(p, id, true) then p
      else
        var w := p.running[id];
        var q := p.(files := f.(sidecar := Some(SidecarOf(w.captured, f.chunker, f.embedder))));
        if w.own.Some? then At(q, id, Ready(w.own.value)) else Ended(q, id)
    case ReadSidecar(id) =>
      if !IsReady(p, id) then p
      else if f.npz.None? || f.sidecar.None? || f.sidecar.value.embedderVersion == "" then Ended(p, id)
      else At(p, id, Naming(p.running[id].chunks, f.sidecar.value.embedderVersion))
    case ReadArchive(id) =>
      if !IsNaming(p, id) then p
      else if f.npz.None? then Ended(p, id)
      else
        var r := Named(f.npz.value, p.running[id].version);
        if WellFormed(r) then At(p, id, Holding(p.running[id].chunks, r)) else Ended(p, id)
    case StoreOwn(id) =>
      if !IsHolding(p, id) || !WellFormed(p.running[id].r) then p
      else StoredFrom(Ended(p, id), p.running[id].chunks, p.running[id].r)
    case Die(id) => Ended(p, id)
    case DeployEmbedder(version) =>
      p.(files := f.(embedder := version), released := p.released + {version}, running := map[])
    case DeployChunker(version) => p.(files := f.(chunker := version), running := map[])
    case LoseNpz => p.(files := f.(npz := None))
    case LoseSidecar => p.(files := f.(sidecar := None))
  }

  ghost function Run(p: Paper, steps: seq<Step>): Paper {
    if steps == [] then p else Do(Run(p, steps[..|steps| - 1]), Last(steps))
  }

  /** No deployment brings a version back, and no ingest finds its chunk manifest gone or emptied
      when it comes to embed. */
  predicate Careful(p: Paper, step: Step) {
    && (step.DeployEmbedder? ==> step.version !in p.released)
    && (step.EmbedOwn? && IsChunked(p, step.id) ==> p.files.manifest.Some? && p.files.manifest.value != [])
  }

  ghost predicate CarefulRun(p: Paper, steps: seq<Step>) {
    forall n: nat :: n < |steps| ==> Careful(Run(p, steps[..n]), steps[n])
  }

  function Start(chunker: Version, embedder: Version): Paper {
    Paper(Files(None, None, None, chunker, embedder), map[], map[], {embedder})
  }

  // ------------------------------------------------------------------
  // Every row is genuine
  // ------------------------------------------------------------------

  predicate AlignedNpz(n: Npz, space: Version) {
    Aligned(n.stmtIds, n.stmtVecs, space) && Aligned(n.proofIds, n.proofVecs, space)
  }

  predicate NamesCurrent(f: Files) {
    f.sidecar.Some? && f.sidecar.value.embedderVersion == f.embedder
  }

  predicate Shaped(f: Files) {
    f.npz.Some? ==> WellFormed(Named(f.npz.value, ""))
  }

  /** A sidecar that names the current version stands beside an archive in that space. */
  ghost predicate SoundFiles(f: Files) {
    && Shaped(f)
    && (NamesCurrent(f) && f.npz.Some? ==> AlignedNpz(f.npz.value, f.embedder))
  }

  predicate HoldsCurrent(r: Record, embedder: Version) {
    WellFormed(r) && AlignedRecord(r, embedder) && r.version == embedder
  }

  /** No process will write a malformed archive; between an embedder's two writes the archive is in the
      current space, whoever wrote it; once an ingest is past its embed step no sidecar names another
      version, and what it then reads is in the current space and says so. */
  ghost predicate SoundRunning(p: Paper) {
    && (forall id :: id in p.running && p.running[id].Writing? ==>
          && Distinct(Ids(p.running[id].captured))
          && (p.running[id].half && p.files.npz.Some? ==> AlignedNpz(p.files.npz.value, p.files.embedder)))
    && (forall id :: id in p.running && p.running[id].Ready? ==> p.files.sidecar.None? || NamesCurrent(p.files))
    && (forall id :: id in p.running && p.running[id].Naming? ==>
          && p.running[id].version == p.files.embedder
          && (p.files.npz.Some? ==> AlignedNpz(p.files.npz.value, p.files.embedder)))
    && (forall id :: id in p.running && p.running[id].Holding? ==> HoldsCurrent(p.running[id].r, p.files.embedder))
  }

  ghost predicate Sound(p: Paper) {
    && p.files.embedder in p.released
    && (p.files.sidecar.Some? ==> p.files.sidecar.value.embedderVersion in p.released)
    && SoundFiles(p.files) && SoundRunning(p)
    && (forall id :: id in p.table ==> Genuine(id, p.table[id]))
  }

  lemma {:induction false} OfSideHolds(chunks: seq<Chunk>, proof: bool, id: Id)
    ensures id in OfSide(chunks, proof) <==> exists c :: c in chunks && c.id == id && (c.kind == "proof") == proof
  {
    if chunks != [] {
      var most := chunks[..|chunks| - 1];
      OfSideHolds(most, proof, id);
      assert chunks == most + [Last(chunks)];
    }
  }

  lemma {:induction false} OfSideDistinct(chunks: seq<Chunk>, proof: bool)
    requires Distinct(Ids(chunks))
    ensures Distinct(OfSide(chunks, proof))
  {
    if chunks != [] {
      var n := |chunks| - 1;
      var most := chunks[..n];
      assert Ids(most) == Ids(chunks)[..n];
      OfSideDistinct(most, proof);
      OfSideHolds(most, proof, chunks[n].id);
      forall c | c in most ensures c.id != chunks[n].id {
        var i :| 0 <= i < n && most[i] == c;
        assert Ids(chunks)[i] != Ids(chunks)[n];
      }
    }
  }

  lemma SameIdSameChunk(chunks: seq<Chunk>, c: Chunk, d: Chunk)
    requires Distinct(Ids(chunks)) && c in chunks && d in chunks && c.id == d.id
    ensures c == d
  {
    var i :| 0 <= i < |chunks| && chunks[i] == c;
    var j :| 0 <= j < |chunks| && chunks[j] == d;
    assert Ids(chunks)[i] == Ids(chunks)[j];
  }

  /** An archive pairs every id with its vector, holds exactly the ids it was made from, each on the
      side of its kind. */
  lemma ArchiveIsRight(chunks: seq<Chunk>, space: Version)
    requires Distinct(Ids(chunks))
    ensures AlignedNpz(Archive(chunks, space), space)
    ensures forall version :: WellFormed(Named(Archive(chunks, space), version))
    ensures forall c :: c in chunks ==>
      if c.kind == "proof" then c.id in Archive(chunks, space).proofIds else c.id in Archive(chunks, space).stmtIds
    ensures forall id :: id in Archive(chunks, space).proofIds <==>
      exists c :: c in chunks && c.id == id && c.kind == "proof"
    ensures forall id :: id in Archive(chunks, space).stmtIds <==>
      exists c :: c in chunks && c.id == id && c.kind != "proof"
  {
    OfSideDistinct(chunks, false);
    OfSideDistinct(chunks, true);
    var stmts := OfSide(chunks, false);
    forall id | id in stmts ensures id !in OfSide(chunks, true) {
      OfSideHolds(chunks, false, id);
      OfSideHolds(chunks, true, id);
      var c :| c in chunks && c.id == id && c.kind != "proof";
      if id in OfSide(chunks, true) {
        var d :| d in chunks && d.id == id && d.kind == "proof";
        SameIdSameChunk(chunks, c, d);
      }
    }
    forall c | c in chunks ensures c.id in OfSide(chunks, c.kind == "proof") {
      OfSideHolds(chunks, c.kind == "proof", c.id);
    }
    forall id
      ensures id in OfSide(chunks, true) <==> exists c :: c in chunks && c.id == id && c.kind == "proof"
      ensures id in OfSide(chunks, false) <==> exists c :: c in chunks && c.id == id && c.kind != "proof"
    {
      OfSideHolds(chunks, true, id);
      OfSideHolds(chunks, false, id);
    }
  }

  lemma IdsHold(chunks: seq<Chunk>)
    ensures Distinct(Ids(chunks)) <==> forall i, j :: 0 <= i < j < |chunks| ==> chunks[i].id != chunks[j].id
    ensures forall id :: id in Ids(chunks) <==> exists c :: c in chunks && c.id == id
  {
    assert forall i :: 0 <= i < |chunks| ==> Ids(chunks)[i] == chunks[i].id;
    if !Distinct(Ids(chunks)) {
      var i, j :| 0 <= i < j < |Ids(chunks)| && Ids(chunks)[i] == Ids(chunks)[j];
      assert chunks[i].id == chunks[j].id;
    }
    forall id ensures id in Ids(chunks) <==> exists c :: c in chunks && c.id == id {
      if id in Ids(chunks) {
        var i :| 0 <= i < |chunks| && Ids(chunks)[i] == id;
        assert chunks[i] in chunks;
      }
      if c :| c in chunks && c.id == id {
        var i :| 0 <= i < |chunks| && chunks[i] == c;
        assert Ids(chunks)[i] == id;
      }
    }
  }

  /** A sidecar just written has an entry for every chunk, and none malformed. */
  lemma SidecarHolds(chunks: seq<Chunk>, chunker: Version, embedder: Version)
    ensures var sidecar := SidecarOf(chunks, chunker, embedder);
            && sidecar.chunkerVersion == chunker && sidecar.embedderVersion == embedder
            && None !in sidecar.entries && forall c :: c in chunks ==> Some(c.id) in sidecar.entries
  {
    forall c | c in chunks ensures Some(c.id) in SidecarOf(chunks, chunker, embedder).entries {
      var i :| 0 <= i < |chunks| && chunks[i] == c;
      assert SidecarOf(chunks, chunker, embedder).entries[i] == Some(c.id);
    }
  }

  lemma {:induction false} RowsStayGenuine(table: Table, rows: seq<Row>)
    requires forall id :: id in table ==> Genuine(id, table[id])
    requires forall r :: r in rows ==> Genuine(r.chunk.id, r)
    ensures forall id :: id in Upsert(table, rows) ==> Genuine(id, Upsert(table, rows)[id])
  {
    if rows != [] {
      RowsStayGenuine(table, rows[..|rows| - 1]);
    }
  }

  lemma StoreKeepsGenuine(p: Paper, chunks: seq<Chunk>, r: Record)
    requires HoldsCurrent(r, p.files.embedder) && forall id :: id in p.table ==> Genuine(id, p.table[id])
    ensures forall id :: id in StoredFrom(p, chunks, r).table ==> Genuine(id, StoredFrom(p, chunks, r).table[id])
    ensures StoredFrom(p, chunks, r) == p.(table := StoredFrom(p, chunks, r).table)
  {
    if Buildable(chunks, r) {
      forall row | row in RowsOf(chunks, r) ensures Genuine(row.chunk.id, row) {
        var i :| 0 <= i < |chunks| && row == RowOf(chunks[i], r);
        assert chunks[i] in chunks;
        RowGenuineIff(chunks[i], r, p.files.embedder);
      }
      RowsStayGenuine(p.table, RowsOf(chunks, r));
    }
  }

  lemma StepIsSound(p: Paper, step: Step)
    requires Sound(p) && Careful(p, step)
    ensures Sound(Do(p, step))
  {
    hide Do, Sound;
    match step
    case StoreOwn(id) => StoreIsSound(p, id);
    case ReadArchive(id) => ReadIsSound(p, id);
    case WriteArchive(id) => WriteIsSound(p, id);
    case WriteSidecar(id) => NameIsSound(p, id);
    case EmbedOwn(id) => EmbedIsSound(p, id);
    case DeployEmbedder(version) => DeployIsSound(p, version);
    case _ => OtherIsSound(p, step);
  }

  lemma DeployIsSound(p: Paper, version: Version)
    requires Sound(p) && version !in p.released
    ensures Sound(Do(p, DeployEmbedder(version)))
  {
    hide Genuine, AlignedNpz, Distinct, WellFormed, HoldsCurrent;
  }

  lemma OtherIsSound(p: Paper, step: Step)
    requires Sound(p) && !step.StoreOwn? && !step.ReadArchive? && !step.WriteArchive? && !step.WriteSidecar?
    requires !step.EmbedOwn? && !step.DeployEmbedder?
    ensures Sound(Do(p, step))
  {
    hide Genuine, StoredFrom, Archive, AlignedNpz, UpToDate, Distinct, WellFormed, HoldsCurrent;
  }

  lemma WriteIsSound(p: Paper, id: nat)
    requires Sound(p)
    ensures Sound(Do(p, WriteArchive(id)))
  {
    hide Genuine, Archive, AlignedNpz, Distinct, WellFormed, HoldsCurrent;
    if IsWriting(p, id, false) {
      ArchiveIsRight(p.running[id].captured, p.files.embedder);
    }
  }

  lemma NameIsSound(p: Paper, id: nat)
    requires Sound(p)
    ensures Sound(Do(p, WriteSidecar(id)))
  {
    hide Genuine, Archive, AlignedNpz, Distinct, WellFormed, HoldsCurrent;
  }

  lemma EmbedIsSound(p: Paper, id: nat)
    requires Sound(p) && Careful(p, EmbedOwn(id))
    ensures Sound(Do(p, EmbedOwn(id)))
  {
    hide Genuine, Archive, AlignedNpz, Distinct, WellFormed, HoldsCurrent;
  }

  lemma StoreIsSound(p: Paper, id: nat)
    requires Sound(p)
    ensures Sound(Do(p, StoreOwn(id)))
  {
    if IsHolding(p, id) {
      StoreKeepsGenuine(Ended(p, id), p.running[id].chunks, p.running[id].r);
    }
    hide Genuine, StoredFrom, AlignedNpz, Distinct, WellFormed, HoldsCurrent;
  }

  lemma ReadIsSound(p: Paper, id: nat)
    requires Sound(p)
    ensures Sound(Do(p, ReadArchive(id)))
  {
    hide Genuine, Distinct, WellFormed, Aligned;
  }

  /** Over any interleaving, if every step is careful, every row written carries its own
      id's vector, in exactly one column, in the space its stamp names. */
  lemma {:induction false} EveryRowIsGenuine(chunker: Version, embedder: Version, steps: seq<Step>, id: Id)
    requires CarefulRun(Start(chunker, embedder), steps)
    requires id in Run(Start(chunker, embedder), steps).table
    ensures Genuine(id, Run(Start(chunker, embedder), steps).table[id])
  {
    RunIsSound(Start(chunker, embedder), steps);
  }

  lemma {:induction false} RunIsSound(p: Paper, steps: seq<Step>)
    requires Sound(p) && CarefulRun(p, steps)
    ensures Sound(Run(p, steps))
  {
    if steps != [] {
      hide Sound, Do;
      var most := steps[..|steps| - 1];
      forall n: nat | n < |most| ensures Careful(Run(p, most[..n]), most[n]) {
        assert most[..n] == steps[..n];
      }
      RunIsSound(p, most);
      StepIsSound(Run(p, most), Last(steps));
    }
  }


  // ------------------------------------------------------------------
  // One ingest
  // ------------------------------------------------------------------

  /** What an ingest leaves that no other process disturbs: chunks made, embedded, stored. */
  ghost function Ingested(p: Paper, chunks: seq<Chunk>): Paper {
    var q := p.(files := p.files.(manifest := Some(chunks)));
    if chunks == [] || !Distinct(Ids(chunks)) then q
    else Stored(q.(files := FullyEmbedded(q.files)), chunks)
  }

  /** It is the steps of an ingest one after the other. */
  lemma UndisturbedIsIngested(p: Paper, id: nat, chunks: seq<Chunk>)
    requires id !in p.running
    ensures var embedded := Do(Do(Do(Do(p, ChunkOwn(id, chunks)), EmbedOwn(id)), WriteArchive(id)), WriteSidecar(id));
            StepsToStore(embedded, id) == Ingested(p, chunks)
  {
    hide Stored, StepsToStore, Archive, UpToDate, SidecarOf, Distinct;
    var p1 := Do(p, ChunkOwn(id, chunks));
    var p2 := Do(p1, EmbedOwn(id));
    var p4 := Do(Do(p2, WriteArchive(id)), WriteSidecar(id));
    if chunks != [] && EmbedOk(p1.files) {
      assert p4 == At(p.(files := FullyEmbedded(p1.files)), id, Ready(chunks));
      assert Ended(p4, id) == p.(files := FullyEmbedded(p1.files));
      ReadyStores(p4, id);
    } else {
      assert p2 == p.(files := p1.files);
      assert p4 == p2;
      IdleStores(p4, id);
    }
  }

  /** The last steps of an ingest, one after the other. */
  ghost function StepsToStore(p: Paper, id: nat): Paper {
    Do(Do(Do(p, ReadSidecar(id)), ReadArchive(id)), StoreOwn(id))
  }

  lemma ReadyStores(p: Paper, id: nat)
    requires IsReady(p, id)
    ensures StepsToStore(p, id) == Stored(Ended(p, id), p.running[id].chunks)
  {
    hide StoredFrom, WellFormed;
    var chunks, f := p.running[id].chunks, p.files;
    var p1 := Do(p, ReadSidecar(id));
    if LoadRecord(f).Loaded? {
      assert p1 == At(p, id, Naming(chunks, f.sidecar.value.embedderVersion));
      var p2 := Do(p1, ReadArchive(id));
      assert p2 == At(p, id, Holding(chunks, LoadRecord(f).r));
      assert Ended(p2, id) == Ended(p, id);
    } else {
      assert Do(p1, ReadArchive(id)) == Ended(p, id);
    }
  }

  lemma IdleStores(p: Paper, id: nat)
    requires id !in p.running
    ensures StepsToStore(p, id) == p
  {
  }

  /** The archive in place holds the id. */
  predicate Holds(f: Files, id: Id) {
    f.npz.Some? && (id in f.npz.value.stmtIds || id in f.npz.value.proofIds)
  }

  /** It holds it on the side of the chunk's kind. */
  predicate HoldsOnSide(f: Files, c: Chunk) {
    f.npz.Some? && (c.id in f.npz.value.proofIds <==> c.kind == "proof")
  }

  /** The record an embed run leaves: it names the current version, it has a chunk exactly if the run
      wrote or the archive held it, and on the side of the chunk's kind exactly if the run wrote or
      the archive did. */
  lemma EmbeddedRecord(f: Files, chunks: seq<Chunk>)
    requires Shaped(f) && f.manifest == Some(chunks)
    requires f.embedder != "" && chunks != [] && Distinct(Ids(chunks))
    ensures var l := LoadRecord(FullyEmbedded(f));
            && l.Loaded? && l.r.version == f.embedder
            && (UpToDate(f, Ids(chunks)) ==> l.r == Named(f.npz.value, f.embedder))
            && (!UpToDate(f, Ids(chunks)) || SoundFiles(f) ==> AlignedRecord(l.r, f.embedder))
            && (forall c :: c in chunks ==>
                  && (Embedded(c, l.r) <==> (UpToDate(f, Ids(chunks)) ==> Holds(f, c.id)))
                  && ((c.id in l.r.proofIds <==> c.kind == "proof") <==>
                      (UpToDate(f, Ids(chunks)) ==> HoldsOnSide(f, c))))
  {
    ArchiveIsRight(chunks, f.embedder);
    hide Archive, Distinct, Aligned;
  }

  /** When an undisturbed ingest stores its chunks. */
  ghost predicate Storable(f: Files, chunks: seq<Chunk>) {
    && chunks != [] && Distinct(Ids(chunks)) && (forall c :: c in chunks ==> c.kind in KINDS)
    && (UpToDate(f, Ids(chunks)) ==> forall c :: c in chunks ==> Holds(f, c.id))
  }

  /** An undisturbed ingest stores every chunk under its id, genuinely embedded, if it is storable;
      otherwise it leaves the table alone. */
  lemma IngestOutcome(p: Paper, chunks: seq<Chunk>)
    requires SoundFiles(p.files) && p.files.embedder != ""
    ensures Storable(p.files, chunks) ==> forall c :: c in chunks ==>
              c.id in Ingested(p, chunks).table && Ingested(p, chunks).table[c.id].chunk == c
              && Genuine(c.id, Ingested(p, chunks).table[c.id])
              && Ingested(p, chunks).table[c.id].embedderVersion == p.files.embedder
    ensures !Storable(p.files, chunks) ==> Ingested(p, chunks).table == p.table
  {
    if chunks != [] && Distinct(Ids(chunks)) {
      IngestedRows(p, chunks);
      if Storable(p.files, chunks) {
        var r := IngestRecord(p, chunks);
        hide SoundFiles, UpToDate, Holds, LoadRecord, Ingested, Storable;
        forall c | c in chunks ensures Genuine(c.id, RowOf(c, r)) {
          RowGenuineIff(c, r, p.files.embedder);
        }
      }
    }
  }

  /** Its vector is in the column of the chunk's kind if and only if the embed run wrote the archive
      afresh or the archive already held the id on that side. */
  lemma ColumnFollowsKindIff(p: Paper, chunks: seq<Chunk>, c: Chunk)
    requires SoundFiles(p.files) && p.files.embedder != "" && Storable(p.files, chunks) && c in chunks
    ensures c.id in Ingested(p, chunks).table
    ensures (Ingested(p, chunks).table[c.id].proof.Some? <==> c.kind == "proof") <==>
            (UpToDate(p.files, Ids(chunks)) ==> HoldsOnSide(p.files, c))
  {
    IngestedRows(p, chunks);
    var r := IngestRecord(p, chunks);
    hide SoundFiles, UpToDate, LoadRecord, Ingested, Storable;
    RowGenuineIff(c, r, p.files.embedder);
  }

  /** Whatever led to the files, the archive lying in some space: the row is genuine if and only if the
      embed run wrote the archive afresh or that space is the current one. */
  lemma IngestGenuineIff(p: Paper, chunks: seq<Chunk>, c: Chunk, space: Version)
    requires Shaped(p.files) && (p.files.npz.Some? ==> AlignedNpz(p.files.npz.value, space))
    requires p.files.embedder != "" && Storable(p.files, chunks) && c in chunks
    ensures c.id in Ingested(p, chunks).table
    ensures Genuine(c.id, Ingested(p, chunks).table[c.id]) <==>
            (UpToDate(p.files, Ids(chunks)) ==> space == p.files.embedder)
  {
    IngestedRows(p, chunks);
    var r := IngestRecord(p, chunks);
    var current := UpToDate(p.files, Ids(chunks));
    assert current ==> p.files.npz.Some?;
    hide Shaped, UpToDate, LoadRecord, Ingested, Storable;
    RowGenuineIff(c, r, if current then space else p.files.embedder);
  }

  ghost function IngestRecord(p: Paper, chunks: seq<Chunk>): (r: Record)
    requires Shaped(p.files) && p.files.embedder != "" && chunks != [] && Distinct(Ids(chunks))
    ensures WellFormed(r) && r.version == p.files.embedder
    ensures UpToDate(p.files, Ids(chunks)) ==> r == Named(p.files.npz.value, p.files.embedder)
    ensures !UpToDate(p.files, Ids(chunks)) || SoundFiles(p.files) ==> AlignedRecord(r, p.files.embedder)
    ensures forall c :: c in chunks ==>
              && (Embedded(c, r) <==> (UpToDate(p.files, Ids(chunks)) ==> Holds(p.files, c.id)))
              && ((c.id in r.proofIds <==> c.kind == "proof") <==>
                  (UpToDate(p.files, Ids(chunks)) ==> HoldsOnSide(p.files, c)))
  {
    var f := p.files.(manifest := Some(chunks));
    EmbeddedRecord(f, chunks);
    LoadRecord(FullyEmbedded(f)).r
  }

  lemma IngestedRows(p: Paper, chunks: seq<Chunk>)
    requires Shaped(p.files) && p.files.embedder != "" && chunks != [] && Distinct(Ids(chunks))
    ensures var r := IngestRecord(p, chunks);
            && (Storable(p.files, chunks) <==> Buildable(chunks, r))
            && (Buildable(chunks, r) ==>
                  forall c :: c in chunks ==>
                    c.id in Ingested(p, chunks).table && Ingested(p, chunks).table[c.id] == RowOf(c, r))
            && (!Buildable(chunks, r) ==> Ingested(p, chunks).table == p.table)
  {
    var f := p.files.(manifest := Some(chunks));
    EmbeddedRecord(f, chunks);
    var r := IngestRecord(p, chunks);
    hide Shaped, SoundFiles, UpToDate, Holds, HoldsOnSide, LoadRecord, FullyEmbedded, Distinct;
    if Buildable(chunks, r) {
      forall c | c in chunks
        ensures c.id in Upsert(p.table, RowsOf(chunks, r)) && Upsert(p.table, RowsOf(chunks, r))[c.id] == RowOf(c, r)
      {
        StoredUnderId(p.table, chunks, r, c);
      }
    }
  }

  lemma StoredUnderId(table: Table, chunks: seq<Chunk>, r: Record, c: Chunk)
    requires WellFormed(r) && c in chunks && Distinct(Ids(chunks))
    ensures c.id in Upsert(table, RowsOf(chunks, r)) && Upsert(table, RowsOf(chunks, r))[c.id] == RowOf(c, r)
  {
    var rows := RowsOf(chunks, r);
    UpsertIsRightBiased(table, rows, c.id);
    var i :| 0 <= i < |chunks| && chunks[i] == c;
    assert rows[i].chunk.id == c.id && rows[i] in rows;
    forall j | i < j < |rows| ensures rows[j].chunk.id != c.id {
      assert Ids(chunks)[i] != Ids(chunks)[j];
    }
  }

  /** Embedding again, or after a death between the two writes, ends with the same record. */
  lemma EmbeddingSettles(f: Files)
    ensures LoadRecord(FullyEmbedded(HalfEmbedded(f))) == LoadRecord(FullyEmbedded(f))
    ensures FullyEmbedded(FullyEmbedded(f)) == FullyEmbedded(f)
  {
    if Embeds(f) {
      var half, full := HalfEmbedded(f), FullyEmbedded(f);
      hide Archive, Distinct, WellFormed;
      var chunks := f.manifest.value;
      forall id | id in Ids(chunks) ensures Some(id) in full.sidecar.value.entries {
        var i :| 0 <= i < |chunks| && Ids(chunks)[i] == id;
        assert full.sidecar.value.entries[i] == Some(id);
      }
      assert UpToDate(full, Ids(chunks));
    }
  }

  // ------------------------------------------------------------------
  // When a stored row is genuine, whatever came before
  // ------------------------------------------------------------------

  ghost predicate InSomeSpace(r: Record) {
    exists space :: AlignedRecord(r, space)
  }

  /** The archive and every record an ingest holds lie each in some space. */
  ghost predicate Spaced(p: Paper) {
    && (p.files.npz.Some? ==> InSomeSpace(Named(p.files.npz.value, "")))
    && (forall id :: id in p.running && p.running[id].Holding? ==> InSomeSpace(p.running[id].r))
  }

  lemma StepKeepsSpaces(p: Paper, step: Step)
    requires Spaced(p)
    ensures Spaced(Do(p, step))
  {
    hide Archive, InSomeSpace, UpToDate, SidecarOf, StoredFrom, WellFormed, Distinct;
    match step
    case WriteArchive(id) => if IsWriting(p, id, false) {
      ArchiveInSpace(p.running[id].captured, p.files.embedder);
    }
    case ReadArchive(id) => if IsNaming(p, id) && p.files.npz.Some? {
      NameKeepsSpace(p.files.npz.value, p.running[id].version);
    }
    case StoreOwn(id) => if IsHolding(p, id) && WellFormed(p.running[id].r) {
      StoresTableOnly(Ended(p, id), p.running[id].chunks, p.running[id].r);
    }
    case _ =>
  }

  lemma ArchiveInSpace(chunks: seq<Chunk>, space: Version)
    ensures InSomeSpace(Named(Archive(chunks, space), ""))
  {
    assert AlignedRecord(Named(Archive(chunks, space), ""), space);
  }

  lemma NameKeepsSpace(n: Npz, version: Version)
    requires InSomeSpace(Named(n, ""))
    ensures InSomeSpace(Named(n, version))
  {
    var space :| AlignedRecord(Named(n, ""), space);
    assert AlignedRecord(Named(n, version), space);
  }

  lemma StoresTableOnly(p: Paper, chunks: seq<Chunk>, r: Record)
    requires WellFormed(r)
    ensures StoredFrom(p, chunks, r) == p.(table := StoredFrom(p, chunks, r).table)
  {
  }

  /** In any run at all, the archive and every record an ingest holds lie each in one space. */
  lemma {:induction false} EverythingHasSpace(chunker: Version, embedder: Version, steps: seq<Step>)
    ensures Spaced(Run(Start(chunker, embedder), steps))
  {
    if steps != [] {
      hide Spaced, Do;
      var most := steps[..|steps| - 1];
      EverythingHasSpace(chunker, embedder, most);
      StepKeepsSpaces(Run(Start(chunker, embedder), most), Last(steps));
    }
  }

  /** The rows a store step writes are genuine if and only if the record it holds names the space its
      vectors lie in. */
  lemma StoreGenuineIff(p: Paper, id: nat, c: Chunk, space: Version)
    requires IsHolding(p, id) && WellFormed(p.running[id].r) && AlignedRecord(p.running[id].r, space)
    requires Buildable(p.running[id].chunks, p.running[id].r)
    requires Distinct(Ids(p.running[id].chunks)) && c in p.running[id].chunks
    ensures c.id in Do(p, StoreOwn(id)).table
    ensures Genuine(c.id, Do(p, StoreOwn(id)).table[c.id]) <==> p.running[id].r.version == space
  {
    StoredUnderId(p.table, p.running[id].chunks, p.running[id].r, c);
    RowGenuineIff(c, p.running[id].r, space);
  }

  // ------------------------------------------------------------------
  // The code
  // ------------------------------------------------------------------

  class PaperFiles {
    var files: Files
    var table: Table

    constructor (chunker: Version, embedder: Version)
      ensures files == Start(chunker, embedder).files && table == map[]
    {
      files, table := Files(None, None, None, chunker, embedder), map[];
    }

    /** `embed_paper`, dying between its two writes if `dies`. */
    method EmbedPaper(batchSize: nat, dies: bool) returns (ok: bool)
      requires batchSize > 0
      modifies `files
      ensures files == if dies then HalfEmbedded(old(files)) else FullyEmbedded(old(files))
      ensures ok <==> EmbedOk(old(files)) && !(dies && Embeds(old(files)))
      ensures ok && old(files.manifest.Some? && files.manifest.value != []) ==>
        && files.npz.Some? && files.sidecar.Some?
        && files.sidecar.value.chunkerVersion == files.chunker && files.sidecar.value.embedderVersion == files.embedder
        && None !in files.sidecar.value.entries
        && forall c :: c in files.manifest.value ==> Some(c.id) in files.sidecar.value.entries
      ensures ok && old(files.manifest.Some? && files.manifest.value != []) ==>
        (files == old(files) <==>
         && old(files).npz.Some? && old(files).sidecar.Some?
         && old(files).sidecar.value.chunkerVersion == files.chunker
         && old(files).sidecar.value.embedderVersion == files.embedder
         && None !in old(files).sidecar.value.entries
         && forall c :: c in files.manifest.value ==> Some(c.id) in old(files).sidecar.value.entries)
      ensures files == old(files).(npz := files.npz, sidecar := files.sidecar)
      ensures old(files.manifest.None? || files.manifest.value == []) ==> ok && files == old(files)
      ensures !dies ==> (ok <==>
        || files.manifest.None?
        || forall i, j :: 0 <= i < j < |files.manifest.value| ==>
             files.manifest.value[i].id != files.manifest.value[j].id)
      ensures dies ==> files.sidecar == old(files).sidecar && (files != old(files) ==> !ok)
      ensures files != old(files) ==>
        && files.manifest.Some? && files.npz.Some? && AlignedNpz(files.npz.value, files.embedder)
        && (forall id :: id in files.npz.value.proofIds <==>
              exists c :: c in files.manifest.value && c.id == id && c.kind == "proof")
        && (forall id :: id in files.npz.value.stmtIds <==>
              exists c :: c in files.manifest.value && c.id == id && c.kind != "proof")
    {
      if files.manifest.None? {
        return true;
      }
      var chunks := files.manifest.value;
      IdsHold(chunks);
      if !Distinct(Ids(chunks)) {
        return false;
      }
      var current := IsUpToDate(files, Ids(chunks));
      if current || chunks == [] {
        return true;
      }
      var npz := BuildArchive(chunks, files.embedder, batchSize);
      ArchiveIsRight(chunks, files.embedder);
      SidecarHolds(chunks, files.chunker, files.embedder);
      hide Archive, SidecarOf, Distinct, WellFormed, Ids, AlignedNpz;
      files := files.(npz := Some(npz));
      if dies {
        return false;
      }
      files := files.(sidecar := Some(SidecarOf(chunks, files.chunker, files.embedder)));
      return true;
    }

    /** `ingest_one_paper` from its chunks on, undisturbed. */
    method IngestPaper(chunks: seq<Chunk>, batchSize: nat) returns (stored: bool)
      requires SoundFiles(files) && files.embedder != "" && batchSize > 0
      modifies this
      ensures var p := Paper(old(files), map[], old(table), {});
              files == Ingested(p, chunks).files && table == Ingested(p, chunks).table
      ensures stored <==> Storable(old(files), chunks)
    {
      ghost var before := files;
      files := files.(manifest := Some(chunks));
      if chunks == [] {
        return false;
      }
      var ok := EmbedPaper(batchSize, false);
      if !ok {
        return false;
      }
      IngestedRows(Paper(before, map[], table, {}), chunks);
      EmbeddedRecord(before.(manifest := Some(chunks)), chunks);
      var l := LoadRecord(files);
      var built := BuildTable(chunks, l.r);
      stored := built.Some?;
      table := if stored then Upsert(table, built.value) else table;
    }
  }
}
