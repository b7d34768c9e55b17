/** The chunks table: row assembly, the upsert by chunk id, the corpus-version marker and the gate
    that reads it back (`_build_arrow_table` and `write_chunks` in `ingest/store.py`, `EmbedRecord`
    in `ingest/schema.py`). */
module Store {
  import opened Prelude

  type Id = string
  type Version = string

  /** What the embedder makes of one content in one embedding space. */
  datatype Vector = Vector(space: Version, content: Id)

  datatype Chunk = Chunk(id: Id, paper: string, kind: string, text: string, chunkerVersion: Version)

  /** A row has two vector columns and names the space its vectors are in. */
  datatype Row = Row(chunk: Chunk, stmt: Option<Vector>, proof: Option<Vector>, embedderVersion: Version)

  datatype Record = Record(stmtIds: seq<Id>, stmtVecs: seq<Vector>, proofIds: seq<Id>, proofVecs: seq<Vector>,
                           version: Version)

  type Table = map<Id, Row>

  const KINDS: set<string> := {
    "stmt", "proof", "section", "definition", "lemma", "proposition", "corollary", "remark", "example", "claim",
    "conjecture", "fact", "hypothesis", "observation", "problem", "question", "exercise", "assumption",
    "convention", "notation", "theorem"
  }

  // ------------------------------------------------------------------
  // Records and rows
  // ------------------------------------------------------------------

  predicate Distinct(ids: seq<Id>) {
    forall i, j :: 0 <= i < j < |ids| ==> ids[i] != ids[j]
  }

  /** What constructing a record demands. */
  predicate WellFormed(r: Record) {
    && |r.stmtIds| == |r.stmtVecs| && |r.proofIds| == |r.proofVecs|
    && Distinct(r.stmtIds) && Distinct(r.proofIds)
    && forall id :: id in r.stmtIds ==> id !in r.proofIds
  }

  function Lookup(ids: seq<Id>, vecs: seq<Vector>): map<Id, Vector>
    requires |ids| == |vecs|
  {
    if ids == [] then map[] else Lookup(ids[..|ids| - 1], vecs[..|ids| - 1])[ids[|ids| - 1] := vecs[|ids| - 1]]
  }

  /** With distinct ids the lookup is the pairing itself. */
  lemma {:induction false} LookupPairs(ids: seq<Id>, vecs: seq<Vector>)
    requires |ids| == |vecs|
    ensures forall id :: id in ids <==> id in Lookup(ids, vecs)
    ensures Distinct(ids) ==> forall i :: 0 <= i < |ids| ==> Lookup(ids, vecs)[ids[i]] == vecs[i]
  {
    if ids != [] {
      var n := |ids| - 1;
      LookupPairs(ids[..n], vecs[..n]);
      assert ids == ids[..n] + [ids[n]];
    }
  }

  function Find(m: map<Id, Vector>, id: Id): Option<Vector> {
    if id in m then Some(m[id]) else None
  }

  function RowOf(c: Chunk, r: Record): Row
    requires WellFormed(r)
  {
    Row(c, Find(Lookup(r.stmtIds, r.stmtVecs), c.id), Find(Lookup(r.proofIds, r.proofVecs), c.id), r.version)
  }

  function RowsOf(chunks: seq<Chunk>, r: Record): seq<Row>
    requires WellFormed(r)
  {
    seq(|chunks|, i requires 0 <= i < |chunks| => RowOf(chunks[i], r))
  }

  predicate Embedded(c: Chunk, r: Record) {
    c.id in r.stmtIds || c.id in r.proofIds
  }

  ghost predicate Buildable(chunks: seq<Chunk>, r: Record) {
    forall c :: c in chunks ==> Embedded(c, r) && c.kind in KINDS
  }

  /** `_build_arrow_table`: every chunk embedded and of a known kind, or no table at all. */
  method BuildTable(chunks: seq<Chunk>, r: Record) returns (built: Option<seq<Row>>)
    requires WellFormed(r)
    ensures built == if Buildable(chunks, r) then Some(RowsOf(chunks, r)) else None
  {
    var stmts, proofs := Lookup(r.stmtIds, r.stmtVecs), Lookup(r.proofIds, r.proofVecs);
    LookupPairs(r.stmtIds, r.stmtVecs);
    LookupPairs(r.proofIds, r.proofVecs);
    if exists c :: c in chunks && c.id !in stmts && c.id !in proofs {
      return None;
    }
    var rows: seq<Row> := [];
    for i := 0 to |chunks|
      invariant |rows| == i
      invariant forall j :: 0 <= j < i ==> rows[j] == RowOf(chunks[j], r) && chunks[j].kind in KINDS
    {
      if chunks[i].kind !in KINDS {
        return None;
      }
      rows := rows + [Row(chunks[i], Find(stmts, chunks[i].id), Find(proofs, chunks[i].id), r.version)];
    }
    assert rows == RowsOf(chunks, r);
    return Some(rows);
  }

  /** A row carries exactly one vector, the one of its own content in the space it names. */
  predicate Genuine(id: Id, row: Row) {
    && row.chunk.id == id
    && (row.stmt.Some? <==> row.proof.None?)
    && (row.stmt.Some? ==> row.stmt.value == Vector(row.embedderVersion, id))
    && (row.proof.Some? ==> row.proof.value == Vector(row.embedderVersion, id))
  }

  /** Every vector is of the id beside it, in this space. */
  predicate Aligned(ids: seq<Id>, vecs: seq<Vector>, space: Version) {
    |ids| == |vecs| && forall i :: 0 <= i < |ids| ==> vecs[i] == Vector(space, ids[i])
  }

  predicate AlignedRecord(r: Record, space: Version) {
    Aligned(r.stmtIds, r.stmtVecs, space) && Aligned(r.proofIds, r.proofVecs, space)
  }

  /** A row built from an aligned record is genuine exactly when the record names the space its
      vectors are in. */
  lemma RowGenuineIff(c: Chunk, r: Record, space: Version)
    requires WellFormed(r) && AlignedRecord(r, space) && Embedded(c, r)
    ensures Genuine(c.id, RowOf(c, r)) <==> r.version == space
    ensures RowOf(c, r).proof.Some? <==> c.id in r.proofIds
  {
    LookupPairs(r.stmtIds, r.stmtVecs);
    LookupPairs(r.proofIds, r.proofVecs);
  }

  // ------------------------------------------------------------------
  // The upsert
  // ------------------------------------------------------------------

  /** `merge_insert` on the chunk id, updating matches and inserting the rest. */
  function Upsert(table: Table, rows: seq<Row>): Table {
    if rows == [] then table else Upsert(table, rows[..|rows| - 1])[rows[|rows| - 1].chunk.id := rows[|rows| - 1]]
  }

  lemma {:induction false} UpsertConcat(table: Table, a: seq<Row>, b: seq<Row>)
    ensures Upsert(table, a + b) == Upsert(Upsert(table, a), b)
  {
    if b == [] {
      assert a + b == a;
    } else {
      var n := |b| - 1;
      UpsertConcat(table, a, b[..n]);
      assert (a + b)[..|a + b| - 1] == a + b[..n];
    }
  }

  /** The keys are those of both; a row is the last one written for its id, or the old one. */
  lemma {:induction false} UpsertIsRightBiased(table: Table, rows: seq<Row>, id: Id)
    ensures id in Upsert(table, rows) <==> id in table || exists r :: r in rows && r.chunk.id == id
    ensures (forall r :: r in rows ==> r.chunk.id != id) && id in table ==> Upsert(table, rows)[id] == table[id]
    ensures forall i ::
              0 <= i < |rows| && rows[i].chunk.id == id && (forall j :: i < j < |rows| ==> rows[j].chunk.id != id) ==>
                Upsert(table, rows)[id] == rows[i]
  {
    if rows != [] {
      var n := |rows| - 1;
      UpsertIsRightBiased(table, rows[..n], id);
      assert rows == rows[..n] + [rows[n]];
    }
  }

  // ------------------------------------------------------------------
  // A write
  // ------------------------------------------------------------------

  datatype Marker = Marker(version: nat, chunkerVersion: Version, embedderVersion: Version, paperCount: nat,
                           chunkCount: nat)

  datatype MarkerFile = Absent | Malformed | Present(marker: Marker)

  datatype State = State(table: Table, version: nat, markerFile: MarkerFile)

  /** What the world does to one write: the version the table then has, and whether the index
      refresh and the marker write succeed. */
  datatype Event = Event(tip: nat, indexed: bool, marked: bool)

  datatype GateFailure = MalformedMarker | MissingMarker | CountMismatchSwallow | CountMismatchArithmetic

  datatype Outcome = Ok(version: nat) | Refused | IndexFailed | Gated(reason: GateFailure)

  function Papers(table: Table): set<string> {
    set id | id in table :: table[id].chunk.paper
  }

  /** n is the length of a list without repetition of the papers that have a row. */
  ghost predicate CountsPapers(table: Table, n: nat) {
    exists papers: seq<string> :: |papers| == n && Distinct(papers)
      && forall p :: p in papers <==> HasPaper(table, p)
  }

  ghost predicate HasPaper(table: Table, p: string) {
    exists id :: id in table && table[id].chunk.paper == p
  }

  lemma {:induction false} AsSequence(s: set<string>)
    ensures exists list: seq<string> :: |list| == |s| && Distinct(list) && forall x :: x in list <==> x in s
  {
    if s == {} {
      var list: seq<string> := [];
      assert |list| == |s| && Distinct(list) && forall x :: x in list <==> x in s;
    } else {
      var y :| y in s;
      AsSequence(s - {y});
      var rest: seq<string> :| |rest| == |s - {y}| && Distinct(rest) && forall x :: x in rest <==> x in s - {y};
      var list := rest + [y];
      assert |list| == |s| && Distinct(list) && forall x :: x in list <==> x in s;
    }
  }

  lemma PapersAreCounted(table: Table)
    ensures CountsPapers(table, |Papers(table)|)
  {
    AsSequence(Papers(table));
    var list: seq<string> :| |list| == |Papers(table)| && Distinct(list)
      && forall x :: x in list <==> x in Papers(table);
    assert forall p :: p in list <==> HasPaper(table, p);
  }

  /** The state after a write of these rows. */
  function Written(s: State, rows: seq<Row>, embedder: Version, chunker: Version, e: Event): State {
    var table := Upsert(s.table, rows);
    State(table, e.tip,
      if e.indexed && e.marked then Present(Marker(e.tip, chunker, embedder, |Papers(table)|, |table|))
      else s.markerFile)
  }

  /** The state after a call of `write_chunks`, which writes all of its chunks or is refused. */
  ghost function Called(s: State, chunks: seq<Chunk>, r: Record, chunker: Version, e: Event): State
    requires WellFormed(r)
  {
    if Buildable(chunks, r) then Written(s, RowsOf(chunks, r), r.version, chunker, e) else s
  }

  class Dataset {
    var table: Table
    var version: nat
    var markerFile: MarkerFile

    constructor ()
      ensures Current() == State(map[], 0, Absent)
    {
      table, version, markerFile := map[], 0, Absent;
    }

    function Current(): State
      reads this
    {
      State(table, version, markerFile)
    }

    /** `write_chunks`: rows, indices, marker, gate. */
    method WriteChunks(chunks: seq<Chunk>, r: Record, chunker: Version, e: Event) returns (outcome: Outcome)
      requires WellFormed(r)
      modifies this
      ensures outcome.Refused? <==> !Buildable(chunks, r)
      ensures Current() == Called(old(Current()), chunks, r, chunker, e)
      ensures Buildable(chunks, r) && e.indexed && e.marked ==>
        && markerFile.Present? && CountsPapers(table, markerFile.marker.paperCount)
        && markerFile.marker == Marker(e.tip, chunker, r.version, markerFile.marker.paperCount, |table|)
      ensures outcome.IndexFailed? <==> !outcome.Refused? && !e.indexed
      ensures outcome.Ok? ==> outcome.version == e.tip
      ensures outcome.Ok? <==>
        Buildable(chunks, r) && e.indexed && markerFile.Present? && markerFile.marker.chunkCount == |table|
      ensures outcome != Gated(CountMismatchArithmetic)
      ensures outcome == Gated(MissingMarker) <==> Buildable(chunks, r) && e.indexed && markerFile.Absent?
      ensures outcome == Gated(MalformedMarker) <==> Buildable(chunks, r) && e.indexed && markerFile.Malformed?
    {
      var built := BuildTable(chunks, r);
      if built.None? {
        return Refused;
      }
      table := Upsert(table, built.value);
      PapersAreCounted(table);
      hide CountsPapers;
      version := e.tip;
      if !e.indexed {
        return IndexFailed;
      }
      var datasetVersion := version;
      var markerWriteFailed := !e.marked;
      if e.marked {
        markerFile := Present(Marker(datasetVersion, chunker, r.version, |Papers(table)|, |table|));
      }
      match markerFile
      case Malformed => return Gated(MalformedMarker);
      case Absent => return Gated(MissingMarker);
      case Present(marker) =>
        if marker.chunkCount != |table| {
          return Gated(if markerWriteFailed then CountMismatchSwallow else CountMismatchArithmetic);
        }
        return Ok(datasetVersion);
    }
  }

  // ------------------------------------------------------------------
  // Sequences of writes
  // ------------------------------------------------------------------

  datatype Write = Write(rows: seq<Row>, embedder: Version, chunker: Version, event: Event)

  function WrittenAll(s: State, writes: seq<Write>): State {
    if writes == [] then s
    else
      var w := Last(writes);
      Written(WrittenAll(s, writes[..|writes| - 1]), w.rows, w.embedder, w.chunker, w.event)
  }

  function Last<T>(s: seq<T>): T
    requires s != []
  {
    s[|s| - 1]
  }

  function AllRows(writes: seq<Write>): seq<Row> {
    if writes == [] then [] else AllRows(writes[..|writes| - 1]) + Last(writes).rows
  }

  /** Batching does not matter: after any split of the same rows, whatever failed on the way, the
      table is that of one write of them all, and if the last write got its marker out so are the
      marker's counts. */
  lemma {:induction false} BatchesAgree(s: State, writes: seq<Write>)
    ensures WrittenAll(s, writes).table == Upsert(s.table, AllRows(writes))
    ensures writes != [] && Last(writes).event.indexed && Last(writes).event.marked ==>
      var one := Written(s, AllRows(writes), Last(writes).embedder, Last(writes).chunker, Last(writes).event);
      WrittenAll(s, writes) == one
  {
    if writes != [] {
      var most := writes[..|writes| - 1];
      BatchesAgree(s, most);
      UpsertConcat(s.table, AllRows(most), Last(writes).rows);
    }
  }

  /** One call among several that share a record. */
  datatype Call = Call(chunks: seq<Chunk>, event: Event)

  ghost function CalledAll(s: State, calls: seq<Call>, r: Record, chunker: Version): State
    requires WellFormed(r)
  {
    if calls == [] then s
    else Called(CalledAll(s, calls[..|calls| - 1], r, chunker), Last(calls).chunks, r, chunker, Last(calls).event)
  }

  /** The calls that are not refused. */
  ghost function Accepted(calls: seq<Call>, r: Record): seq<Call> {
    if calls == [] then []
    else Accepted(calls[..|calls| - 1], r) + if Buildable(Last(calls).chunks, r) then [Last(calls)] else []
  }

  function ChunksOf(calls: seq<Call>): seq<Chunk> {
    if calls == [] then [] else ChunksOf(calls[..|calls| - 1]) + Last(calls).chunks
  }

  /** Calls that are all accepted, as writes of rows. */
  function WritesOf(calls: seq<Call>, r: Record, chunker: Version): seq<Write>
    requires WellFormed(r)
  {
    seq(|calls|, i requires 0 <= i < |calls| =>
      Write(RowsOf(calls[i].chunks, r), r.version, chunker, calls[i].event))
  }

  lemma {:induction false} RefusedCallsChangeNothing(s: State, calls: seq<Call>, r: Record, chunker: Version)
    requires WellFormed(r)
    ensures CalledAll(s, calls, r, chunker) == WrittenAll(s, WritesOf(Accepted(calls, r), r, chunker))
  {
    if calls != [] {
      var most, last := calls[..|calls| - 1], Last(calls);
      RefusedCallsChangeNothing(s, most, r, chunker);
      if Buildable(last.chunks, r) {
        var a := Accepted(most, r);
        var w := Write(RowsOf(last.chunks, r), r.version, chunker, last.event);
        assert WritesOf(a + [last], r, chunker) == WritesOf(a, r, chunker) + [w];
        assert (WritesOf(a, r, chunker) + [w])[..|a|] == WritesOf(a, r, chunker);
      } else {
        assert Accepted(calls, r) == Accepted(most, r);
      }
    }
  }

  lemma {:induction false} AllRowsOf(calls: seq<Call>, r: Record, chunker: Version)
    requires WellFormed(r)
    ensures AllRows(WritesOf(calls, r, chunker)) == RowsOf(ChunksOf(calls), r)
  {
    if calls != [] {
      var n := |calls| - 1;
      AllRowsOf(calls[..n], r, chunker);
      RowsOfConcat(ChunksOf(calls[..n]), calls[n].chunks, r);
      var w := Write(RowsOf(calls[n].chunks, r), r.version, chunker, calls[n].event);
      assert WritesOf(calls, r, chunker) == WritesOf(calls[..n], r, chunker) + [w];
      assert WritesOf(calls, r, chunker)[..n] == WritesOf(calls[..n], r, chunker);
    }
  }

  lemma {:induction false} AllAccepted(calls: seq<Call>, r: Record)
    requires WellFormed(r) && Buildable(ChunksOf(calls), r)
    ensures Accepted(calls, r) == calls
  {
    if calls != [] {
      var most := calls[..|calls| - 1];
      RowsOfConcat(ChunksOf(most), Last(calls).chunks, r);
      AllAccepted(most, r);
    }
  }

  /** Splitting chunks between calls: the table is that of one upsert of all chunks of the accepted
      calls, whatever failed on the way. Where one call would take all the chunks, the split ends in
      the very state of that call if the last marker write succeeds. */
  lemma SplitCallsAgree(s: State, calls: seq<Call>, r: Record, chunker: Version)
    requires WellFormed(r)
    ensures CalledAll(s, calls, r, chunker).table == Upsert(s.table, RowsOf(ChunksOf(Accepted(calls, r)), r))
    ensures Buildable(ChunksOf(calls), r) && calls != [] && Last(calls).event.indexed && Last(calls).event.marked ==>
      CalledAll(s, calls, r, chunker) == Called(s, ChunksOf(calls), r, chunker, Last(calls).event)
  {
    var accepted := Accepted(calls, r);
    var writes := WritesOf(accepted, r, chunker);
    RefusedCallsChangeNothing(s, calls, r, chunker);
    AllRowsOf(accepted, r, chunker);
    BatchesAgree(s, writes);
    if Buildable(ChunksOf(calls), r) && calls != [] {
      AllAccepted(calls, r);
      assert Last(writes).event == Last(calls).event;
    }
  }

  /** Rows are built chunk by chunk, so splitting the chunks splits the rows. */
  lemma RowsOfConcat(a: seq<Chunk>, b: seq<Chunk>, r: Record)
    requires WellFormed(r)
    ensures RowsOf(a + b, r) == RowsOf(a, r) + RowsOf(b, r)
    ensures Buildable(a + b, r) <==> Buildable(a, r) && Buildable(b, r)
  {
    assert (forall c :: c in a ==> c in a + b) && forall c :: c in b ==> c in a + b;
  }

  // ------------------------------------------------------------------
  // What the gate guarantees
  // ------------------------------------------------------------------

  /** The paper of a chunk is read off its id. */
  ghost predicate PapersFollow(table: Table, paperOf: Id -> string) {
    forall id :: id in table ==> table[id].chunk.paper == paperOf(id)
  }

  /** The marker on file describes the table as it was at some version up to this one. */
  ghost predicate MarkerOfThePast(s: State, paperOf: Id -> string) {
    && PapersFollow(s.table, paperOf)
    && (s.markerFile.Present? ==>
      var m := s.markerFile.marker;
      && m.version <= s.version
      && exists past: Table :: past.Keys <= s.table.Keys && PapersFollow(past, paperOf)
           && m.chunkCount == |past| && CountsPapers(past, m.paperCount))
  }

  ghost predicate RowsFollow(rows: seq<Row>, paperOf: Id -> string) {
    forall r :: r in rows ==> r.chunk.paper == paperOf(r.chunk.id)
  }

  /** What lets a write return normally: `WriteChunks` says exactly this of it. */
  predicate Returns(after: State, e: Event) {
    e.indexed && after.markerFile.Present? && after.markerFile.marker.chunkCount == |after.table|
  }

  lemma {:induction false} UpsertFollows(table: Table, rows: seq<Row>, paperOf: Id -> string)
    requires PapersFollow(table, paperOf) && RowsFollow(rows, paperOf)
    ensures PapersFollow(Upsert(table, rows), paperOf) && table.Keys <= Upsert(table, rows).Keys
  {
    if rows != [] {
      UpsertFollows(table, rows[..|rows| - 1], paperOf);
    }
  }

  lemma WriteKeepsMarker(s: State, rows: seq<Row>, embedder: Version, chunker: Version, e: Event, paperOf: Id -> string)
    requires MarkerOfThePast(s, paperOf) && RowsFollow(rows, paperOf) && e.tip >= s.version
    ensures MarkerOfThePast(Written(s, rows, embedder, chunker, e), paperOf)
  {
    UpsertFollows(s.table, rows, paperOf);
    PapersAreCounted(Upsert(s.table, rows));
    hide PapersFollow, Papers, CountsPapers;
  }

  /** Rows keep to their papers, and versions only grow. */
  ghost predicate Orderly(s: State, writes: seq<Write>, paperOf: Id -> string) {
    && (forall w :: w in writes ==> RowsFollow(w.rows, paperOf))
    && (forall n: nat :: n < |writes| ==> writes[n].event.tip >= WrittenAll(s, writes[..n]).version)
  }

  lemma OrderlyBefore(s: State, writes: seq<Write>, paperOf: Id -> string)
    requires writes != [] && Orderly(s, writes, paperOf)
    ensures Orderly(s, writes[..|writes| - 1], paperOf)
    ensures RowsFollow(Last(writes).rows, paperOf)
    ensures Last(writes).event.tip >= WrittenAll(s, writes[..|writes| - 1]).version
  {
    hide RowsFollow, WrittenAll;
    var most := writes[..|writes| - 1];
    forall k: nat | k < |most| ensures most[..k] == writes[..k] {}
    assert Last(writes) in writes;
  }

  lemma {:induction false} WritesKeepMarker(s: State, writes: seq<Write>, paperOf: Id -> string)
    requires MarkerOfThePast(s, paperOf)
    requires Orderly(s, writes, paperOf)
    ensures MarkerOfThePast(WrittenAll(s, writes), paperOf)
  {
    if writes != [] {
      hide MarkerOfThePast, Written, RowsFollow, Orderly;
      var most, w := writes[..|writes| - 1], Last(writes);
      OrderlyBefore(s, writes, paperOf);
      WritesKeepMarker(s, most, paperOf);
      WriteKeepsMarker(WrittenAll(s, most), w.rows, w.embedder, w.chunker, w.event, paperOf);
    }
  }

  lemma SameSizeSameKeys(a: set<Id>, b: set<Id>)
    requires a <= b && |a| == |b|
    ensures a == b
  {
    assert |b - a| == |b| - |a|;
  }

  lemma SamePapers(a: Table, b: Table, paperOf: Id -> string, n: nat)
    requires PapersFollow(a, paperOf) && PapersFollow(b, paperOf) && a.Keys == b.Keys && CountsPapers(a, n)
    ensures CountsPapers(b, n)
  {
    forall p ensures HasPaper(a, p) <==> HasPaper(b, p) {
      if id :| id in a && a[id].chunk.paper == p { assert id in b && b[id].chunk.paper == p; }
      if id :| id in b && b[id].chunk.paper == p { assert id in a && a[id].chunk.paper == p; }
    }
  }

  /** Over any history of writes with swallowed marker and index failures, a normal return means the
      marker counts the table's rows and papers. Its version is the returned one exactly when this
      call's marker write succeeded or, nothing having been committed, it already was; its space and
      chunker version are this call's exactly when the marker write succeeded or it already named them. */
  lemma NormalReturn(s: State, writes: seq<Write>, paperOf: Id -> string)
    requires MarkerOfThePast(s, paperOf) && Orderly(s, writes, paperOf)
    requires writes != [] && Returns(WrittenAll(s, writes), Last(writes).event)
    ensures var before, after, w := WrittenAll(s, writes[..|writes| - 1]), WrittenAll(s, writes), Last(writes);
            var m, prior, e := after.markerFile.marker, before.markerFile, w.event;
            && m.chunkCount == |after.table| && CountsPapers(after.table, m.paperCount)
            && (m.version == e.tip <==> e.marked || prior.marker.version == e.tip)
            && (e.tip > before.version ==> (m.version == e.tip <==> e.marked))
            && (m.embedderVersion == w.embedder <==> e.marked || prior.marker.embedderVersion == w.embedder)
            && (m.chunkerVersion == w.chunker <==> e.marked || prior.marker.chunkerVersion == w.chunker)
  {
    OrderlyBefore(s, writes, paperOf);
    WritesKeepMarker(s, writes[..|writes| - 1], paperOf);
    WritesKeepMarker(s, writes, paperOf);
    var after := WrittenAll(s, writes);
    hide RowsFollow, PapersFollow, Papers, Orderly, CountsPapers;
    var past: Table :| past.Keys <= after.table.Keys && PapersFollow(past, paperOf)
      && after.markerFile.marker.chunkCount == |past| && CountsPapers(past, after.markerFile.marker.paperCount);
    assert |past| == |past.Keys| && |after.table| == |after.table.Keys|;
    SameSizeSameKeys(past.Keys, after.table.Keys);
    SamePapers(past, after.table, paperOf, after.markerFile.marker.paperCount);
  }

  lemma {:induction false} UpsertGrows(table: Table, rows: seq<Row>)
    ensures table.Keys <= Upsert(table, rows).Keys
    ensures Upsert(table, rows).Keys == table.Keys <==> forall r :: r in rows ==> r.chunk.id in table
  {
    if rows != [] {
      var n := |rows| - 1;
      UpsertGrows(table, rows[..n]);
      assert rows == rows[..n] + [rows[n]];
    }
  }

  /** A swallowed marker write goes unnoticed exactly when the batch only rewrote rows the table
      already had: the gate compares counts, not versions. */
  lemma SwallowGoesUnnoticedIff(s: State, rows: seq<Row>, embedder: Version, chunker: Version, e: Event)
    requires s.markerFile.Present? && s.markerFile.marker.chunkCount == |s.table|
    requires e.indexed && !e.marked
    ensures Returns(Written(s, rows, embedder, chunker, e), e) <==> forall r :: r in rows ==> r.chunk.id in s.table
  {
    UpsertGrows(s.table, rows);
    var after := Upsert(s.table, rows);
    assert |after| == |after.Keys| && |s.table| == |s.table.Keys|;
    if |after| == |s.table| {
      SameSizeSameKeys(s.table.Keys, after.Keys);
    }
  }

  /** So a table can be rewritten in another space while its marker still names the old one. */
  lemma StaleSpaceReturns(s: State, row: Row, embedder: Version, chunker: Version, tip: nat)
    requires s.table == map[row.chunk.id := row] && embedder != row.embedderVersion
    requires s.markerFile == Present(Marker(s.version, chunker, row.embedderVersion, 1, 1)) && tip > s.version
    ensures var e := Event(tip, true, false);
            var after := Written(s, [row.(embedderVersion := embedder)], embedder, chunker, e);
            && Returns(after, e)
            && after.table[row.chunk.id].embedderVersion == embedder
            && after.markerFile.marker.embedderVersion != embedder && after.markerFile.marker.version != tip
  {
    var e, rows := Event(tip, true, false), [row.(embedderVersion := embedder)];
    assert s.table.Keys == {row.chunk.id};
    SwallowGoesUnnoticedIff(s, rows, embedder, chunker, e);
    UpsertIsRightBiased(s.table, rows, row.chunk.id);
    assert rows[0].chunk.id == row.chunk.id;
  }
}
