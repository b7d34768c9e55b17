/** What torn pairs of archive and sidecar lead to, and what the steps that are not careful do: runs of the
    steps of `EmbedProtocol`. */
module TornPairs {
  import opened EmbedProtocol
  import opened Prelude
  import opened Store

  /** A sidecar that covers the chunks beside an archive that does not: the ingest is refused, and
      having changed neither file it will be refused again. */
  lemma TornPairStaysRefused(p: Paper, chunks: seq<Chunk>)
    requires SoundFiles(p.files) && p.files.embedder != "" && UpToDate(p.files, Ids(chunks))
    requires exists c :: c in chunks && !Holds(p.files, c.id)
    ensures Ingested(p, chunks) == p.(files := p.files.(manifest := Some(chunks)))
    ensures UpToDate(Ingested(p, chunks).files, Ids(chunks))
    ensures exists c :: c in chunks && !Holds(Ingested(p, chunks).files, c.id)
  {
    if Distinct(Ids(chunks)) {
      IngestedRows(p, chunks);
    }
    var c :| c in chunks && !Holds(p.files, c.id);
    hide Distinct, SoundFiles;
    assert !Holds(Ingested(p, chunks).files, c.id);
  }

  // The runs below are on single chunks, none of them a proof.

  function OneNpz(c: Chunk, space: Version): Npz {
    Npz([c.id], [Vector(space, c.id)], [], [])
  }

  function OneSidecar(c: Chunk, chunker: Version, embedder: Version): Sidecar {
    Sidecar(chunker, embedder, [Some(c.id)])
  }

  lemma OneSide(c: Chunk, proof: bool)
    requires c.kind != "proof"
    ensures OfSide([c], proof) == if proof then [] else [c.id]
  {
    var s := [c];
    assert Last(s) == c && s[..|s| - 1] == [];
    assert OfSide(s[..|s| - 1], proof) == [];
  }

  lemma OneArchive(c: Chunk, chunker: Version, embedder: Version)
    requires c.kind != "proof"
    ensures Archive([c], embedder) == OneNpz(c, embedder)
    ensures SidecarOf([c], chunker, embedder) == OneSidecar(c, chunker, embedder)
    ensures Ids([c]) == [c.id] && Distinct([c.id])
  {
    OneSide(c, false);
    OneSide(c, true);
    assert Encode([c.id], embedder) == [Vector(embedder, c.id)] && Encode([], embedder) == [];
  }

  lemma EmbedsOne(f: Files, c: Chunk)
    requires f.manifest == Some([c]) && c.kind != "proof" && !UpToDate(f, [c.id])
    ensures Embeds(f)
    ensures HalfEmbedded(f) == f.(npz := Some(OneNpz(c, f.embedder)))
    ensures FullyEmbedded(f) ==
            f.(npz := Some(OneNpz(c, f.embedder)), sidecar := Some(OneSidecar(c, f.chunker, f.embedder)))
  {
    OneArchive(c, f.chunker, f.embedder);
  }

  lemma StoresOne(p: Paper, c: Chunk, space: Version, stamp: Version)
    requires c.kind in KINDS && p.files.npz == Some(OneNpz(c, space))
    requires p.files.sidecar.Some? && p.files.sidecar.value.embedderVersion == stamp && stamp != ""
    ensures Stored(p, [c]) == p.(table := p.table[c.id := Row(c, Some(Vector(space, c.id)), None, stamp)])
  {
    var r := LoadRecord(p.files).r;
    LookupPairs(r.stmtIds, r.stmtVecs);
    assert r.stmtIds[0] == c.id && r.stmtVecs[0] == Vector(space, c.id);
    var row := Row(c, Some(Vector(space, c.id)), None, stamp);
    assert RowsOf([c], r) == [row];
    assert Upsert(p.table, [row]) == p.table[c.id := row];
  }

  /** The files and the table after a first ingest of one chunk. */
  function First(c: Chunk, chunker: Version, embedder: Version): Paper {
    Paper(Files(Some([c]), Some(OneNpz(c, embedder)), Some(OneSidecar(c, chunker, embedder)), chunker, embedder),
      map[], map[c.id := Row(c, Some(Vector(embedder, c.id)), None, embedder)], {embedder})
  }

  lemma FirstIngest(c: Chunk, chunker: Version, embedder: Version)
    requires c.kind in KINDS && c.kind != "proof" && embedder != ""
    ensures Ingested(Start(chunker, embedder), [c]) == First(c, chunker, embedder)
  {
    hide FullyEmbedded, Stored;
    var f := Start(chunker, embedder).files.(manifest := Some([c]));
    OneArchive(c, chunker, embedder);
    EmbedsOne(f, c);
    StoresOne(Start(chunker, embedder).(files := FullyEmbedded(f)), c, embedder, embedder);
  }

  /** The steps of an embed run that dies between its two writes. */
  ghost function TornEmbed(p: Paper, id: nat): Paper {
    Do(Do(Do(p, StartEmbed(id)), WriteArchive(id)), Die(id))
  }

  lemma TornEmbedIs(p: Paper, id: nat)
    requires id !in p.running
    ensures TornEmbed(p, id) == p.(files := HalfEmbedded(p.files))
  {
    hide Archive, UpToDate, Distinct;
    assert p.running[id := Writing(None, [], false)] - {id} == p.running;
    if Embeds(p.files) {
      var started := At(p, id, Writing(None, p.files.manifest.value, false));
      assert Do(p, StartEmbed(id)) == started;
      assert TornEmbed(p, id).running == p.running;
    } else {
      assert Do(p, StartEmbed(id)) == p && Do(p, WriteArchive(id)) == p;
      assert p.running - {id} == p.running;
    }
  }

  /** Ingest, re-chunk, die between archive and sidecar: chunking back to the first text is then up
      to date, and yet not in the archive. */
  lemma TornPairArises(chunker: Version, embedder: Version, c: Chunk, d: Chunk, id: nat)
    requires c.kind in KINDS && c.kind != "proof" && d.kind != "proof" && c.id != d.id && embedder != ""
    ensures var f := TornEmbed(Do(Ingested(Start(chunker, embedder), [c]), Rechunk(Some([d]))), id).files;
            UpToDate(f, [c.id]) && !Holds(f, c.id)
  {
    FirstIngest(c, chunker, embedder);
    var p := Do(First(c, chunker, embedder), Rechunk(Some([d])));
    TornEmbedIs(p, id);
    hide TornEmbed, Ingested;
    assert p.files.sidecar.value.entries == [Some(c.id)] && Some(d.id) !in p.files.sidecar.value.entries;
    assert d.id in [d.id];
    EmbedsOne(p.files, d);
    hide HalfEmbedded;
  }

  /** Two living embed runs of the same version suffice. */
  ghost function TwoStarted(p: Paper, c: Chunk, d: Chunk): Paper {
    Do(Do(Do(Do(p, Rechunk(Some([c]))), StartEmbed(1)), Rechunk(Some([d]))), StartEmbed(2))
  }

  lemma TwoStartedIs(chunker: Version, embedder: Version, c: Chunk, d: Chunk)
    ensures TwoStarted(Start(chunker, embedder), c, d) ==
            Paper(Files(Some([d]), None, None, chunker, embedder),
              map[1 := Writing(None, [c], false), 2 := Writing(None, [d], false)], map[], {embedder})
  {
    var p := Start(chunker, embedder);
    StartsOne(p, 1, c);
    var p2 := Do(Do(p, Rechunk(Some([c]))), StartEmbed(1));
    StartsOne(p2, 2, d);
    hide Do;
  }

  lemma StartsOne(p: Paper, id: nat, c: Chunk)
    requires id !in p.running && p.files.npz.None?
    ensures Do(Do(p, Rechunk(Some([c]))), StartEmbed(id))
            == At(p.(files := p.files.(manifest := Some([c]))), id, Writing(None, [c], false))
  {
    assert Distinct(Ids([c]));
  }

  /** The one that wrote its archive first writes its sidecar last. */
  ghost function Crossed(p: Paper): Paper {
    Do(Do(Do(Do(p, WriteArchive(1)), WriteArchive(2)), WriteSidecar(2)), WriteSidecar(1))
  }

  lemma TornWithoutDeath(chunker: Version, embedder: Version, c: Chunk, d: Chunk)
    requires c.kind != "proof" && d.kind != "proof" && c.id != d.id
    ensures var f := Crossed(TwoStarted(Start(chunker, embedder), c, d)).files;
            UpToDate(f, [c.id]) && !Holds(f, c.id)
  {
    hide TwoStarted, Crossed;
    OneArchive(c, chunker, embedder);
    OneArchive(d, chunker, embedder);
    TwoStartedIs(chunker, embedder, c, d);
    CrossedFiles(TwoStarted(Start(chunker, embedder), c, d), [c], [d]);
  }

  lemma CrossedFiles(p: Paper, c: seq<Chunk>, d: seq<Chunk>)
    requires p.running == map[1 := Writing(None, c, false), 2 := Writing(None, d, false)]
    ensures Crossed(p).files ==
            p.files.(npz := Some(Archive(d, p.files.embedder)),
              sidecar := Some(SidecarOf(c, p.files.chunker, p.files.embedder)))
  {
    hide Archive, SidecarOf;
    var p2 := Do(Do(p, WriteArchive(1)), WriteArchive(2));
    assert p2.running == map[1 := Writing(None, c, true), 2 := Writing(None, d, true)];
    assert Do(p2, WriteSidecar(2)).running == map[1 := Writing(None, c, true)];
  }

  /** Ingested under one version, torn under the next. */
  ghost function TornAcross(chunker: Version, one: Version, two: Version, c: Chunk): Paper {
    TornEmbed(Do(Ingested(Start(chunker, one), [c]), DeployEmbedder(two)), 0)
  }

  lemma TornAcrossIs(chunker: Version, one: Version, two: Version, c: Chunk)
    requires c.kind in KINDS && c.kind != "proof" && one != "" && one != two
    ensures TornAcross(chunker, one, two, c) ==
            var p := First(c, chunker, one);
            p.(files := p.files.(npz := Some(OneNpz(c, two)), embedder := two), released := {one, two})
  {
    hide Ingested, HalfEmbedded, TornEmbed;
    FirstIngest(c, chunker, one);
    var p := Do(Ingested(Start(chunker, one), [c]), DeployEmbedder(two));
    TornEmbedIs(p, 0);
    EmbedsOne(p.files, c);
  }

  /** The row that must not be: the vector of one space under the name of another. */
  function Misnamed(c: Chunk, one: Version, two: Version): (row: Row)
    ensures one != two ==> !Genuine(c.id, row)
  {
    Row(c, Some(Vector(two, c.id)), None, one)
  }

  lemma SkipsAndStores(p: Paper, c: Chunk, space: Version)
    requires c.kind in KINDS && p.files.embedder != "" && p.files.npz == Some(OneNpz(c, space))
    requires p.files.sidecar == Some(OneSidecar(c, p.files.chunker, p.files.embedder))
    ensures Ingested(p, [c]).table == p.table[c.id := Row(c, Some(Vector(space, c.id)), None, p.files.embedder)]
  {
    hide Stored;
    var f := p.files.(manifest := Some([c]));
    assert Ids([c]) == [c.id];
    assert UpToDate(f, Ids([c]));
    hide UpToDate, HalfEmbedded;
    StoresOne(p.(files := f), c, space, p.files.embedder);
  }

  /** A version brought back: deploy another, die between its archive and its sidecar, roll back.
      The sidecar is current again, and the ingest stamps vectors of the other space with it. */
  lemma ReusedVersionCorrupts(chunker: Version, one: Version, two: Version, c: Chunk)
    requires c.kind in KINDS && c.kind != "proof" && one != "" && one != two
    ensures Ingested(Do(TornAcross(chunker, one, two, c), DeployEmbedder(one)), [c]).table
            == map[c.id := Misnamed(c, one, two)]
  {
    hide TornAcross, Ingested;
    TornAcrossIs(chunker, one, two, c);
    SkipsAndStores(Do(TornAcross(chunker, one, two, c), DeployEmbedder(one)), c, two);
  }

  /** A chunk manifest gone at the embed step: the step reports success without embedding, and the
      torn pair goes into the table. */
  lemma BlindEmbedCorrupts(chunker: Version, one: Version, two: Version, c: Chunk)
    requires c.kind in KINDS && c.kind != "proof" && one != "" && one != two
    ensures var chunked := Do(TornAcross(chunker, one, two, c), ChunkOwn(0, [c]));
            StepsToStore(Do(Do(chunked, Rechunk(None)), EmbedOwn(0)), 0).table == map[c.id := Misnamed(c, one, two)]
  {
    TornAcrossIs(chunker, one, two, c);
    hide TornAcross, Stored, StepsToStore;
    var p := TornAcross(chunker, one, two, c);
    BlindSteps(p, [c]);
    StoresOne(p.(files := p.files.(manifest := None)), c, two, one);
  }

  lemma BlindSteps(p: Paper, chunks: seq<Chunk>)
    requires p.running == map[] && chunks != []
    ensures StepsToStore(Do(Do(Do(p, ChunkOwn(0, chunks)), Rechunk(None)), EmbedOwn(0)), 0)
            == Stored(p.(files := p.files.(manifest := None)), chunks)
  {
    hide Stored, StepsToStore;
    var q := Do(Do(Do(p, ChunkOwn(0, chunks)), Rechunk(None)), EmbedOwn(0));
    assert q == At(p.(files := p.files.(manifest := None)), 0, Ready(chunks));
    assert Ended(q, 0) == p.(files := p.files.(manifest := None));
    ReadyStores(q, 0);
  }

  /** The skip compares ids, not kinds: text that has become a proof keeps its statement column, and
      its proof column stays empty. */
  lemma KindChangeKeepsColumn(chunker: Version, embedder: Version, c: Chunk)
    requires c.kind in KINDS && c.kind != "proof" && embedder != ""
    ensures var p := c.(kind := "proof");
            Ingested(Ingested(Start(chunker, embedder), [c]), [p]).table
              == map[c.id := Row(p, Some(Vector(embedder, c.id)), None, embedder)]
  {
    hide Ingested;
    FirstIngest(c, chunker, embedder);
    SkipsAndStores(Ingested(Start(chunker, embedder), [c]), c.(kind := "proof"), embedder);
  }
}
