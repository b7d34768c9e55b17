/** The resumable two-pass citation ingest (`ingest` in `ingest/graph_ingest.py`).

    A run may be killed before any of its durable writes: graph upserts and checkpoint
    replacements. What a work fetches to is fixed; a fetch may be unreachable in a run. */
module GraphIngest {
  import opened Prelude

  type Id = string

  datatype Work = Work(oaWorkId: Option<string>, referencedWorks: seq<string>, metadata: string)

  datatype Checkpoint = Checkpoint(resolved: map<Id, Work>, edgesDone: set<Id>, fetchFailures: set<Id>)

  /** Everything that survives a kill: the graph and the checkpoint file. */
  datatype Disk = Disk(nodes: map<Id, Work>, edges: set<(Id, Id)>, checkpoint: Checkpoint)

  const EMPTY: Disk := Disk(map[], {}, Checkpoint(map[], {}, {}))

  type Works = Id -> Work

  /** a lists the work of b among its references. */
  predicate Cites(works: Works, a: Id, b: Id) {
    works(b).oaWorkId.Some? && works(b).oaWorkId.value in works(a).referencedWorks
  }

  ghost predicate DistinctWorks(ids: set<Id>, works: Works) {
    forall a, b :: a in ids && b in ids && a != b && works(a).oaWorkId.Some? ==>
      works(a).oaWorkId != works(b).oaWorkId
  }

  ghost predicate Faithful(m: map<Id, Work>, ids: set<Id>, works: Works) {
    forall id :: id in m ==> id in ids && m[id] == works(id)
  }

  /** What holds of the disk between runs over these seeds, whatever was killed or unreachable. */
  ghost predicate Consistent(disk: Disk, ids: set<Id>, works: Works) {
    && Faithful(disk.nodes, ids, works)
    && Faithful(disk.checkpoint.resolved, ids, works)
    && disk.checkpoint.resolved.Keys <= disk.nodes.Keys
    && disk.checkpoint.edgesDone <= disk.checkpoint.resolved.Keys
    && (forall e :: e in disk.edges ==> e.0 in ids && e.1 in ids && Cites(works, e.0, e.1))
  }

  /** The ids resolved once the first pass is over. */
  ghost function Reach(before: Disk, ids: set<Id>, unreachable: set<Id>): set<Id> {
    before.checkpoint.resolved.Keys + (ids - unreachable)
  }

  /** Everything a run may and must do to the disk. */
  ghost predicate RunStep(ids: set<Id>, works: Works, unreachable: set<Id>, before: Disk, after: Disk, complete: bool) {
    var reach := Reach(before, ids, unreachable);
    && before.checkpoint.resolved.Keys <= after.checkpoint.resolved.Keys <= reach
    && before.nodes.Keys <= after.nodes.Keys <= before.nodes.Keys + reach
    && before.edges <= after.edges
    && (forall e :: e in after.edges && e !in before.edges ==>
          e.0 in reach && e.0 !in before.checkpoint.edgesDone && e.1 in reach)
    && after.checkpoint.fetchFailures <= before.checkpoint.fetchFailures + unreachable
    && before.checkpoint.edgesDone <= after.checkpoint.edgesDone
    && (forall a :: a in after.checkpoint.edgesDone && a !in before.checkpoint.edgesDone ==>
          && after.checkpoint.resolved.Keys == reach
          && (DistinctWorks(ids, works) ==> Linked(works, reach, after.edges, a)))
    && (complete ==>
          after.checkpoint.resolved.Keys == reach && after.checkpoint.edgesDone == reach
          && reach <= after.nodes.Keys
          && after.checkpoint.fetchFailures == FailuresAfter(before, ids, unreachable))
  }

  /** Failures are recorded for what could not be reached and dropped for what now resolved. */
  ghost function FailuresAfter(before: Disk, ids: set<Id>, unreachable: set<Id>): set<Id> {
    var unresolved := ids - before.checkpoint.resolved.Keys;
    before.checkpoint.fetchFailures - (unresolved - unreachable) + unresolved * unreachable
  }

  /** Every citation from a to a resolved paper is in the graph. */
  ghost predicate Linked(works: Works, reach: set<Id>, edges: set<(Id, Id)>, a: Id) {
    forall b :: b in reach && Cites(works, a, b) ==> (a, b) in edges
  }

  // ------------------------------------------------------------------
  // The reverse map
  // ------------------------------------------------------------------

  ghost predicate Enumerates(order: seq<Id>, ids: set<Id>) {
    && (forall id :: id in order <==> id in ids)
    && (forall i, j :: 0 <= i < j < |order| ==> order[i] != order[j])
  }

  /** First-wins reverse map: each entry leads back to a resolved paper with that work id, and
      every work id among the first n papers has an entry. */
  ghost predicate Reverses(rev: map<string, Id>, order: seq<Id>, n: nat, works: Works)
    requires n <= |order|
  {
    && (forall w :: w in rev ==> rev[w] in order[..n] && works(rev[w]).oaWorkId == Some(w))
    && (forall i :: 0 <= i < n && works(order[i]).oaWorkId.Some? ==> works(order[i]).oaWorkId.value in rev)
  }

  method BuildReverseMap(order: seq<Id>, resolved: map<Id, Work>, ghost works: Works) returns (rev: map<string, Id>)
    requires forall id :: id in order ==> id in resolved && resolved[id] == works(id)
    ensures Reverses(rev, order, |order|, works)
  {
    rev := map[];
    for i := 0 to |order|
      invariant Reverses(rev, order, i, works)
    {
      var work := resolved[order[i]];
      assert order[..i + 1] == order[..i] + [order[i]];
      if work.oaWorkId.Some? && work.oaWorkId.value !in rev {
        rev := rev[work.oaWorkId.value := order[i]];
      }
    }
  }

  /** With distinct works, the reverse map finds exactly the cited papers. */
  lemma ReverseFindsCited(rev: map<string, Id>, order: seq<Id>, ids: set<Id>, works: Works, a: Id, b: Id)
    requires Reverses(rev, order, |order|, works) && Enumerates(order, ids) && DistinctWorks(ids, works)
    requires b in ids && Cites(works, a, b)
    ensures works(b).oaWorkId.value in rev && rev[works(b).oaWorkId.value] == b
  {
    var w := works(b).oaWorkId.value;
    assert b in order;
    var i :| 0 <= i < |order| && order[i] == b;
    assert rev[w] in order[..|order|];
    assert rev[w] in order;
  }

  // ------------------------------------------------------------------
  // A run
  // ------------------------------------------------------------------

  ghost function AllIds(seeds: seq<Id>): set<Id> { set id | id in seeds }

  /** What one run keeps in memory. */
  datatype Memory = Memory(resolved: map<Id, Work>, order: seq<Id>, edgesDone: set<Id>, failures: set<Id>)

  /** Memory in step with the disk: everything resolved has its node, and the checkpoint on disk
      is an earlier state of the memory. */
  ghost predicate InStep(disk: Disk, m: Memory, ids: set<Id>, works: Works) {
    && Consistent(disk, ids, works)
    && Faithful(m.resolved, ids, works) && Enumerates(m.order, m.resolved.Keys)
    && m.resolved.Keys <= disk.nodes.Keys
    && disk.checkpoint.resolved.Keys <= m.resolved.Keys
    && disk.checkpoint.edgesDone <= m.edgesDone <= m.resolved.Keys
  }

  /** The first n seeds have been resolved or recorded as failures. */
  ghost predicate Resolving(before: Disk, disk: Disk, m: Memory, seeds: seq<Id>, n: nat, works: Works,
                            unreachable: set<Id>)
    requires n <= |seeds|
  {
    var ids, seen := AllIds(seeds), Seen(seeds, n);
    && InStep(disk, m, ids, works)
    && m.resolved.Keys == before.checkpoint.resolved.Keys + (seen - unreachable)
    && m.edgesDone == before.checkpoint.edgesDone == disk.checkpoint.edgesDone
    && m.failures == FailuresAfter(before, seen, unreachable)
    && disk.checkpoint.fetchFailures <= before.checkpoint.fetchFailures + unreachable
    && disk.edges == before.edges
    && before.checkpoint.resolved.Keys <= disk.checkpoint.resolved.Keys
    && before.nodes.Keys <= disk.nodes.Keys <= before.nodes.Keys + m.resolved.Keys
  }

  ghost function Seen(seeds: seq<Id>, n: nat): set<Id>
    requires n <= |seeds|
  {
    set id | id in seeds[..n]
  }

  lemma SeenOneMore(seeds: seq<Id>, n: nat)
    requires n < |seeds|
    ensures Seen(seeds, n + 1) == Seen(seeds, n) + {seeds[n]} && seeds[n] in AllIds(seeds)
  {
    assert seeds[..n + 1] == seeds[..n] + [seeds[n]];
  }

  lemma ResolvingStarts(disk: Disk, m: Memory, seeds: seq<Id>, works: Works, unreachable: set<Id>)
    requires Consistent(disk, AllIds(seeds), works)
    requires m.resolved == disk.checkpoint.resolved && Enumerates(m.order, m.resolved.Keys)
    requires m.edgesDone == disk.checkpoint.edgesDone && m.failures == disk.checkpoint.fetchFailures
    ensures Resolving(disk, disk, m, seeds, 0, works, unreachable)
  {
  }

  /** Killed here, the run has done no more than a run may. */
  lemma ResolvingIsRunStep(before: Disk, disk: Disk, m: Memory, seeds: seq<Id>, n: nat, works: Works,
                           unreachable: set<Id>)
    requires n <= |seeds| && Resolving(before, disk, m, seeds, n, works, unreachable)
    ensures Consistent(disk, AllIds(seeds), works)
    ensures RunStep(AllIds(seeds), works, unreachable, before, disk, false)
  {
    assert Seen(seeds, n) <= AllIds(seeds);
  }

  lemma ResolvedAgain(before: Disk, disk: Disk, m: Memory, seeds: seq<Id>, n: nat, works: Works, unreachable: set<Id>)
    requires n < |seeds| && Resolving(before, disk, m, seeds, n, works, unreachable)
    requires seeds[n] in m.resolved
    ensures var merged := disk.(nodes := disk.nodes[seeds[n] := m.resolved[seeds[n]]]);
            Resolving(before, merged, m, seeds, n + 1, works, unreachable)
  {
    SeenOneMore(seeds, n);
    assert disk.nodes[seeds[n] := m.resolved[seeds[n]]] == disk.nodes;
  }

  lemma ResolveFailed(before: Disk, disk: Disk, m: Memory, seeds: seq<Id>, n: nat, works: Works, unreachable: set<Id>)
    requires n < |seeds| && Resolving(before, disk, m, seeds, n, works, unreachable)
    requires seeds[n] !in m.resolved && seeds[n] in unreachable
    ensures Resolving(before, disk, m.(failures := m.failures + {seeds[n]}), seeds, n + 1, works, unreachable)
  {
    SeenOneMore(seeds, n);
  }

  lemma ResolvedNow(before: Disk, disk: Disk, m: Memory, seeds: seq<Id>, n: nat, works: Works, unreachable: set<Id>)
    requires n < |seeds| && Resolving(before, disk, m, seeds, n, works, unreachable)
    requires seeds[n] !in m.resolved && seeds[n] !in unreachable
    ensures var id := seeds[n];
            var m' := m.(failures := m.failures - {id}, resolved := m.resolved[id := works(id)],
                         order := m.order + [id]);
            Resolving(before, disk.(nodes := disk.nodes[id := works(id)]), m', seeds, n + 1, works, unreachable)
  {
    hide Seen, AllIds, FailuresAfter, Enumerates, Cites;
    var id, seen := seeds[n], Seen(seeds, n);
    SeenOneMore(seeds, n);
    assert id !in before.checkpoint.resolved;
    FailureDropped(before, seen, unreachable, id);
    InStepMore(disk, m, AllIds(seeds), works, id);
    hide InStep;
    assert m.resolved[id := works(id)].Keys == m.resolved.Keys + {id};
    assert seen + {id} - unreachable == (seen - unreachable) + {id};
    assert disk.nodes[id := works(id)].Keys == disk.nodes.Keys + {id};
  }

  lemma FailureDropped(before: Disk, seen: set<Id>, unreachable: set<Id>, id: Id)
    requires id !in before.checkpoint.resolved && id !in unreachable
    ensures FailuresAfter(before, seen + {id}, unreachable) == FailuresAfter(before, seen, unreachable) - {id}
  {
  }

  lemma InStepMore(disk: Disk, m: Memory, ids: set<Id>, works: Works, id: Id)
    requires InStep(disk, m, ids, works) && id in ids && id !in m.resolved
    ensures InStep(disk.(nodes := disk.nodes[id := works(id)]),
              m.(failures := m.failures - {id}, resolved := m.resolved[id := works(id)], order := m.order + [id]),
              ids, works)
  {
    EnumeratesMore(m.order, m.resolved.Keys, id);
    hide Enumerates, Cites;
    assert m.resolved[id := works(id)].Keys == m.resolved.Keys + {id};
  }

  lemma EnumeratesMore(order: seq<Id>, ids: set<Id>, id: Id)
    requires Enumerates(order, ids) && id !in ids
    ensures Enumerates(order + [id], ids + {id})
  {
  }

  lemma ResolvingSaved(before: Disk, disk: Disk, m: Memory, seeds: seq<Id>, n: nat, works: Works, unreachable: set<Id>)
    requires n <= |seeds| && Resolving(before, disk, m, seeds, n, works, unreachable)
    ensures var saved := disk.(checkpoint := Checkpoint(m.resolved, m.edgesDone, m.failures));
            Resolving(before, saved, m, seeds, n, works, unreachable)
  {
  }

  /** What the second pass has done to the disk. */
  ghost predicate CitingDisk(before: Disk, disk: Disk, reach: set<Id>) {
    && before.checkpoint.resolved.Keys <= disk.checkpoint.resolved.Keys
    && before.nodes.Keys <= disk.nodes.Keys <= before.nodes.Keys + reach
    && before.edges <= disk.edges
    && (forall e :: e in disk.edges && e !in before.edges ==>
          e.0 in reach && e.0 !in before.checkpoint.edgesDone && e.1 in reach)
    && before.checkpoint.edgesDone <= disk.checkpoint.edgesDone
    && (forall a :: a in disk.checkpoint.edgesDone && a !in before.checkpoint.edgesDone ==>
          disk.checkpoint.resolved.Keys == reach)
  }

  /** Which papers it is done with: those done before and the first i, whose citations are in. */
  ghost predicate CitingDone(before: Disk, edges: set<(Id, Id)>, m: Memory, i: nat, ids: set<Id>, works: Works,
                             reach: set<Id>)
    requires i <= |m.order|
  {
    && (forall a :: a in m.edgesDone <==> a in before.checkpoint.edgesDone || a in m.order[..i])
    && (DistinctWorks(ids, works) ==> forall a :: a in m.order[..i] && a !in before.checkpoint.edgesDone ==>
          Linked(works, reach, edges, a))
  }

  /** The first i resolved papers have had their citations written. */
  ghost predicate Citing(before: Disk, disk: Disk, m: Memory, i: nat, ids: set<Id>, works: Works, unreachable: set<Id>)
    requires i <= |m.order|
  {
    var reach := Reach(before, ids, unreachable);
    && InStep(disk, m, ids, works)
    && m.resolved.Keys == reach && m.failures == FailuresAfter(before, ids, unreachable)
    && disk.checkpoint.fetchFailures <= before.checkpoint.fetchFailures + unreachable
    && CitingDisk(before, disk, reach)
    && CitingDone(before, disk.edges, m, i, ids, works, reach)
  }

  lemma CitingStarts(before: Disk, disk: Disk, m: Memory, seeds: seq<Id>, works: Works, unreachable: set<Id>)
    requires Resolving(before, disk, m, seeds, |seeds|, works, unreachable)
    ensures Citing(before, disk, m, 0, AllIds(seeds), works, unreachable)
  {
    assert seeds[..|seeds|] == seeds;
  }

  lemma CitingIsRunStep(before: Disk, disk: Disk, m: Memory, i: nat, ids: set<Id>, works: Works, unreachable: set<Id>)
    requires i <= |m.order| && Citing(before, disk, m, i, ids, works, unreachable)
    ensures Consistent(disk, ids, works) && RunStep(ids, works, unreachable, before, disk, false)
  {
    hide Linked, Cites;
    forall a | a in disk.checkpoint.edgesDone && a !in before.checkpoint.edgesDone
      ensures a in m.order[..i]
    {
      assert a in m.edgesDone;
    }
  }

  /** The edges out of paper a that walking its references adds. */
  ghost predicate AddsCitations(before: set<(Id, Id)>, after: set<(Id, Id)>, a: Id, rev: map<string, Id>,
                                refs: seq<string>) {
    && before <= after
    && (forall e :: e in after && e !in before ==> e.0 == a && exists r :: r in refs && r in rev && rev[r] == e.1)
  }

  lemma AddedAreCited(before: set<(Id, Id)>, after: set<(Id, Id)>, a: Id, rev: map<string, Id>, order: seq<Id>,
                      works: Works)
    requires Reverses(rev, order, |order|, works)
    requires AddsCitations(before, after, a, rev, works(a).referencedWorks)
    ensures forall e :: e in after && e !in before ==> e.0 == a && e.1 in order && Cites(works, e.0, e.1)
  {
    assert order[..|order|] == order;
    forall e | e in after && e !in before
      ensures e.0 == a && e.1 in order && Cites(works, e.0, e.1)
    {
      var r :| r in works(a).referencedWorks && r in rev && rev[r] == e.1;
    }
  }

  lemma DiskMore(before: Disk, disk: Disk, after: set<(Id, Id)>, a: Id, reach: set<Id>)
    requires CitingDisk(before, disk, reach) && disk.edges <= after
    requires a in reach && a !in before.checkpoint.edgesDone
    requires forall e :: e in after && e !in disk.edges ==> e.0 == a && e.1 in reach
    ensures CitingDisk(before, disk.(edges := after), reach)
  {
  }

  lemma DoneMore(before: Disk, edges: set<(Id, Id)>, after: set<(Id, Id)>, m: Memory, i: nat, ids: set<Id>,
                 works: Works, reach: set<Id>)
    requires i <= |m.order| && CitingDone(before, edges, m, i, ids, works, reach) && edges <= after
    ensures CitingDone(before, after, m, i, ids, works, reach)
  {
    hide Cites, DistinctWorks;
  }

  lemma InStepEdges(disk: Disk, after: set<(Id, Id)>, m: Memory, ids: set<Id>, works: Works)
    requires InStep(disk, m, ids, works)
    requires forall e :: e in after && e !in disk.edges ==> e.0 in ids && e.1 in ids && Cites(works, e.0, e.1)
    ensures InStep(disk.(edges := after), m, ids, works)
  {
    hide Cites, Enumerates;
  }

  lemma OrderIsReached(disk: Disk, m: Memory, ids: set<Id>, works: Works)
    requires InStep(disk, m, ids, works)
    ensures forall id :: id in m.order <==> id in m.resolved.Keys
    ensures m.resolved.Keys <= ids
    ensures forall i, j :: 0 <= i < j < |m.order| ==> m.order[i] != m.order[j]
  {
  }

  lemma CitingMore(before: Disk, disk: Disk, after: set<(Id, Id)>, m: Memory, i: nat, rev: map<string, Id>,
                   ids: set<Id>, works: Works, unreachable: set<Id>)
    requires i < |m.order| && Citing(before, disk, m, i, ids, works, unreachable)
    requires Reverses(rev, m.order, |m.order|, works)
    requires m.order[i] !in m.edgesDone
    requires AddsCitations(disk.edges, after, m.order[i], rev, works(m.order[i]).referencedWorks)
    ensures Citing(before, disk.(edges := after), m, i, ids, works, unreachable)
  {
    var a, reach := m.order[i], Reach(before, ids, unreachable);
    AddedAreCited(disk.edges, after, a, rev, m.order, works);
    OrderIsReached(disk, m, ids, works);
    assert a in m.order;
    assert a !in before.checkpoint.edgesDone by { hide InStep, CitingDisk; }
    hide InStep, Reach, Cites, DistinctWorks, FailuresAfter, Reverses;
    DoneMore(before, disk.edges, after, m, i, ids, works, reach);
    hide CitingDone;
    DiskMore(before, disk, after, a, reach);
    hide CitingDisk;
    InStepEdges(disk, after, m, ids, works);
  }

  lemma CitedOne(before: Disk, disk: Disk, m: Memory, i: nat, rev: map<string, Id>, ids: set<Id>, works: Works,
                 unreachable: set<Id>)
    requires i < |m.order| && Citing(before, disk, m, i, ids, works, unreachable)
    requires Reverses(rev, m.order, |m.order|, works)
    requires m.order[i] !in m.edgesDone ==>
      forall r :: r in works(m.order[i]).referencedWorks && r in rev ==> (m.order[i], rev[r]) in disk.edges
    ensures Citing(before, disk, m.(edgesDone := m.edgesDone + {m.order[i]}), i + 1, ids, works, unreachable)
  {
    hide InStep, CitingDisk, Reach, FailuresAfter, Reverses, CitingDone, Linked, DistinctWorks;
    LinkedNow(before, disk, m, i, rev, ids, works, unreachable);
    InStepDone(disk, m, i, ids, works);
    DoneNext(before, disk.edges, m, i, ids, works, Reach(before, ids, unreachable));
  }

  lemma DoneNext(before: Disk, edges: set<(Id, Id)>, m: Memory, i: nat, ids: set<Id>, works: Works, reach: set<Id>)
    requires i < |m.order| && CitingDone(before, edges, m, i, ids, works, reach)
    requires DistinctWorks(ids, works) && m.order[i] !in before.checkpoint.edgesDone ==>
      Linked(works, reach, edges, m.order[i])
    ensures CitingDone(before, edges, m.(edgesDone := m.edgesDone + {m.order[i]}), i + 1, ids, works, reach)
  {
    hide Linked, DistinctWorks;
    assert m.order[..i + 1] == m.order[..i] + [m.order[i]];
    assert forall x :: x in m.order[..i + 1] <==> x in m.order[..i] || x == m.order[i];
  }

  lemma InStepDone(disk: Disk, m: Memory, i: nat, ids: set<Id>, works: Works)
    requires InStep(disk, m, ids, works) && i < |m.order|
    ensures InStep(disk, m.(edgesDone := m.edgesDone + {m.order[i]}), ids, works)
  {
    assert m.order[i] in m.order;
  }

  lemma LinkedNow(before: Disk, disk: Disk, m: Memory, i: nat, rev: map<string, Id>, ids: set<Id>, works: Works,
                  unreachable: set<Id>)
    requires i < |m.order| && Citing(before, disk, m, i, ids, works, unreachable)
    requires Reverses(rev, m.order, |m.order|, works)
    requires m.order[i] !in m.edgesDone ==>
      forall r :: r in works(m.order[i]).referencedWorks && r in rev ==> (m.order[i], rev[r]) in disk.edges
    ensures DistinctWorks(ids, works) && m.order[i] !in before.checkpoint.edgesDone ==>
      Linked(works, Reach(before, ids, unreachable), disk.edges, m.order[i])
  {
    var a := m.order[i];
    var reach := Reach(before, ids, unreachable);
    if DistinctWorks(ids, works) && a !in before.checkpoint.edgesDone {
      FreshInOrder(m.order, i);
      DistinctSubset(reach, ids, works);
      hide DistinctWorks, FailuresAfter;
      forall b | b in reach && Cites(works, a, b) ensures (a, b) in disk.edges {
        ReverseFindsCited(rev, m.order, reach, works, a, b);
      }
    }
  }

  lemma FreshInOrder(order: seq<Id>, i: nat)
    requires i < |order| && forall j, k :: 0 <= j < k < |order| ==> order[j] != order[k]
    ensures order[i] !in order[..i]
  {
  }

  lemma DistinctSubset(some: set<Id>, ids: set<Id>, works: Works)
    requires some <= ids && DistinctWorks(ids, works)
    ensures DistinctWorks(some, works)
  {
  }

  lemma CitingSaved(before: Disk, disk: Disk, m: Memory, i: nat, ids: set<Id>, works: Works, unreachable: set<Id>)
    requires i <= |m.order| && Citing(before, disk, m, i, ids, works, unreachable)
    ensures var saved := disk.(checkpoint := Checkpoint(m.resolved, m.edgesDone, m.failures));
            Citing(before, saved, m, i, ids, works, unreachable)
  {
    hide Linked, Cites, DistinctWorks;
  }

  lemma RunCompletes(before: Disk, disk: Disk, m: Memory, ids: set<Id>, works: Works, unreachable: set<Id>)
    requires Citing(before, disk, m, |m.order|, ids, works, unreachable)
    requires disk.checkpoint == Checkpoint(m.resolved, m.edgesDone, m.failures)
    ensures RunStep(ids, works, unreachable, before, disk, true)
  {
    CitingIsRunStep(before, disk, m, |m.order|, ids, works, unreachable);
    assert m.order[..|m.order|] == m.order;
    hide Linked, Cites, DistinctWorks;
    assert forall a :: a in m.resolved ==> a in m.order && a in m.edgesDone;
  }

  // ------------------------------------------------------------------
  // Durable writes
  // ------------------------------------------------------------------

  datatype Write = Node(id: Id, work: Work) | Edge(src: Id, dst: Id) | Save(checkpoint: Checkpoint)

  /** What one write makes of the disk: an edge needs both its nodes. */
  function Apply(disk: Disk, w: Write): Disk {
    match w
    case Node(id, work) => disk.(nodes := disk.nodes[id := work])
    case Edge(src, dst) =>
      if src in disk.nodes && dst in disk.nodes then disk.(edges := disk.edges + {(src, dst)}) else disk
    case Save(checkpoint) => disk.(checkpoint := checkpoint)
  }

  ghost function Replay(disk: Disk, log: seq<Write>): Disk {
    if log == [] then disk else Apply(Replay(disk, log[..|log| - 1]), log[|log| - 1])
  }

  /** How often a log saves the checkpoint. */
  ghost function Saves(log: seq<Write>): nat {
    if log == [] then 0 else Saves(log[..|log| - 1]) + if log[|log| - 1].Save? then 1 else 0
  }

  lemma SavesMore(log: seq<Write>, w: Write)
    ensures Saves(log + [w]) == Saves(log) + if w.Save? then 1 else 0
  {
    assert (log + [w])[..|log|] == log;
  }

  /** From a disk and a budget to a disk and a budget by the writes of this log and no others. */
  ghost predicate Logged(start: Disk, allowance: nat, log: seq<Write>, disk: Disk, budget: nat) {
    disk == Replay(start, log) && budget + |log| == allowance
  }

  lemma LoggedNone(start: Disk, allowance: nat)
    ensures Logged(start, allowance, [], start, allowance) && Saves([]) == 0
  {
  }

  lemma LoggedMore(start: Disk, allowance: nat, log: seq<Write>, disk: Disk, budget: nat, w: Write)
    requires Logged(start, allowance, log, disk, budget) && budget > 0
    ensures Logged(start, allowance, log + [w], Apply(disk, w), budget - 1)
  {
    assert (log + [w])[..|log|] == log;
  }

  /** One durable write, or death for want of it. */
  predicate Spent(before: nat, after: nat, alive: bool) {
    (alive <==> before > 0) && after == if alive then before - 1 else 0
  }

  /** At most this many durable writes, or death for want of one. */
  predicate SpentAtMost(before: nat, after: nat, writes: nat, alive: bool) {
    after <= before <= after + writes && (!alive ==> after == 0)
  }

  ghost predicate RefsWithin(ids: set<Id>, works: Works, most: nat) {
    forall id :: id in ids ==> |works(id).referencedWorks| <= most
  }

  /** The durable writes a second pass over n papers needs at most. */
  function CiteWrites(n: nat, most: nat): nat {
    if n == 0 then 0 else CiteWrites(n - 1, most) + most + 1
  }

  lemma {:induction false} CiteWritesGrow(m: nat, n: nat, most: nat)
    requires m <= n
    ensures CiteWrites(m, most) <= CiteWrites(n, most)
    ensures CiteWrites(m + 1, most) == CiteWrites(m, most) + most + 1
    decreases n
  {
    if m < n { CiteWritesGrow(m, n - 1, most); }
  }

  /** The budget over one more paper: its citations, and perhaps a checkpoint; where it is known. */
  lemma CiteSpends(known: bool, start: nat, now: nat, next: nat, i: nat, total: nat, refs: nat, most: nat, alive: bool)
    requires known ==> SpentAtMost(start, now, CiteWrites(i, most), true) && refs <= most
    requires SpentAtMost(now, next, refs, alive) && i < total
    ensures known && alive ==> SpentAtMost(start, next, CiteWrites(i, most) + most, true)
    ensures known && alive ==> SpentAtMost(start, next, CiteWrites(i + 1, most), true)
    ensures known && !alive ==> SpentAtMost(start, next, CiteWrites(total, most), false)
  {
    CiteWritesGrow(i + 1, total, most);
    hide CiteWrites;
    CiteWritesGrow(i, i, most);
  }

  lemma SaveSpends(known: bool, start: nat, now: nat, next: nat, i: nat, total: nat, most: nat, alive: bool)
    requires known ==> SpentAtMost(start, now, CiteWrites(i, most) + most, true)
    requires Spent(now, next, alive) && i < total
    ensures known && alive ==> SpentAtMost(start, next, CiteWrites(i + 1, most), true)
    ensures known && !alive ==> SpentAtMost(start, next, CiteWrites(total, most), false)
  {
    CiteWritesGrow(i + 1, total, most);
    hide CiteWrites;
    CiteWritesGrow(i, i, most);
  }

  lemma NothingSpent(budget: nat, most: nat)
    ensures SpentAtMost(budget, budget, CiteWrites(0, most), true)
  {
  }

  lemma RefsAreWithin(ids: set<Id>, works: Works, most: nat, a: Id)
    requires a in ids
    ensures RefsWithin(ids, works, most) ==> |works(a).referencedWorks| <= most
  {
  }

  lemma SkipSpends(known: bool, start: nat, now: nat, i: nat, most: nat)
    requires known ==> SpentAtMost(start, now, CiteWrites(i, most), true)
    ensures known ==> SpentAtMost(start, now, CiteWrites(i + 1, most), true)
  {
  }

  lemma {:induction false} CiteWritesProduct(n: nat, most: nat)
    ensures CiteWrites(n, most) == n * (most + 1)
  {
    if n > 0 {
      CiteWritesProduct(n - 1, most);
      assert n * (most + 1) == (n - 1) * (most + 1) + (most + 1);
    }
  }

  // ------------------------------------------------------------------
  // How far the checkpoint lags behind the graph
  // ------------------------------------------------------------------

  /** What this run has added to the graph and the checkpoint does not know of. */
  ghost predicate Misses(before: Disk, disk: Disk, unsaved: set<Id>, uncited: set<Id>) {
    && (forall id :: id in disk.nodes ==> id in before.nodes || id in disk.checkpoint.resolved || id in unsaved)
    && (forall e :: e in disk.edges && e !in before.edges ==> e.0 in disk.checkpoint.edgesDone || e.0 in uncited)
  }

  /** The checkpoint misses at most n of the papers this run has merged, and at most n of those whose
      citations it has written. */
  ghost predicate Lags(before: Disk, disk: Disk, n: nat) {
    exists unsaved, uncited :: |unsaved| <= n && |uncited| <= n && Misses(before, disk, unsaved, uncited)
  }

  lemma LagsBy(before: Disk, disk: Disk, n: nat, unsaved: set<Id>, uncited: set<Id>)
    requires Misses(before, disk, unsaved, uncited) && |unsaved| <= n && |uncited| <= n
    ensures Lags(before, disk, n)
  {
  }

  /** Saving after pass 1, or in it, leaves nothing out. */
  lemma SavedResolved(before: Disk, disk: Disk, m: Memory, seeds: seq<Id>, n: nat, works: Works, unreachable: set<Id>)
    requires n <= |seeds| && Resolving(before, disk, m, seeds, n, works, unreachable)
    ensures Misses(before, disk.(checkpoint := Checkpoint(m.resolved, m.edgesDone, m.failures)), {}, {})
  {
  }

  lemma AgainMisses(before: Disk, disk: Disk, m: Memory, seeds: seq<Id>, n: nat, works: Works, unreachable: set<Id>,
                    unsaved: set<Id>, work: Work)
    requires n < |seeds| && Resolving(before, disk, m, seeds, n, works, unreachable) && seeds[n] in m.resolved
    requires Misses(before, disk, unsaved, {})
    ensures Misses(before, disk.(nodes := disk.nodes[seeds[n] := work]), unsaved, {})
  {
  }

  /** In pass 2, count papers having been newly done. */
  ghost predicate Trails(before: Disk, disk: Disk, m: Memory, unsaved: set<Id>, uncited: set<Id>, count: nat,
                         batchSize: nat)
    requires batchSize > 0
  {
    && Misses(before, disk, unsaved, uncited) && uncited + disk.checkpoint.edgesDone <= m.edgesDone
    && |unsaved| <= batchSize && |uncited| <= count % batchSize
  }

  lemma TrailsStart(before: Disk, disk: Disk, m: Memory, ids: set<Id>, works: Works, unreachable: set<Id>,
                    unsaved: set<Id>, batchSize: nat)
    requires Citing(before, disk, m, 0, ids, works, unreachable) && batchSize > 0
    requires |unsaved| <= batchSize && Misses(before, disk, unsaved, {})
    ensures Trails(before, disk, m, unsaved, {}, 0, batchSize)
  {
    hide Linked, Cites, DistinctWorks, Misses;
  }

  /** All edges this run has added start at papers it is done with. */
  ghost predicate AddedByDone(before: Disk, disk: Disk, m: Memory) {
    forall e :: e in disk.edges && e !in before.edges ==> e.0 in m.edgesDone
  }

  lemma TrailsLag(before: Disk, disk: Disk, m: Memory, unsaved: set<Id>, uncited: set<Id>, count: nat, batchSize: nat)
    requires batchSize > 0 && Trails(before, disk, m, unsaved, uncited, count, batchSize)
    ensures Lags(before, disk, batchSize) && AddedByDone(before, disk, m)
  {
    LagsBy(before, disk, batchSize, unsaved, uncited);
  }

  /** The citations of one more paper, or some of them, are in. */
  lemma TrailsMore(before: Disk, was: Disk, after: set<(Id, Id)>, m: Memory, a: Id, rev: map<string, Id>,
                   unsaved: set<Id>, uncited: set<Id>, count: nat, batchSize: nat)
    requires batchSize > 0 && Trails(before, was, m, unsaved, uncited, count, batchSize)
    requires a in m.resolved && AddsCitations(was.edges, after, a, rev, m.resolved[a].referencedWorks)
    ensures Lags(before, was.(edges := after), batchSize)
    ensures AddedByDone(before, was.(edges := after), m.(edgesDone := m.edgesDone + {a}))
    ensures (count + 1) % batchSize != 0 ==>
      Trails(before, was.(edges := after), m.(edgesDone := m.edgesDone + {a}), unsaved, uncited + {a}, count + 1,
        batchSize)
  {
    OneMore(uncited, a, count, batchSize);
    LagsBy(before, was.(edges := after), batchSize, unsaved, uncited + {a});
  }

  /** Saving the checkpoint leaves nothing out. */
  lemma TrailsSaved(before: Disk, disk: Disk, m: Memory, i: nat, ids: set<Id>, works: Works, unreachable: set<Id>,
                    count: nat, batchSize: nat)
    requires i <= |m.order| && Citing(before, disk, m, i, ids, works, unreachable) && batchSize > 0
    requires AddedByDone(before, disk, m)
    ensures var saved := disk.(checkpoint := Checkpoint(m.resolved, m.edgesDone, m.failures));
            Misses(before, saved, {}, {}) && Trails(before, saved, m, {}, {}, count, batchSize)
  {
    hide Linked, Cites, DistinctWorks;
  }

  lemma NothingMissed(disk: Disk)
    ensures Misses(disk, disk, {}, {})
  {
  }

  lemma MergeMisses(before: Disk, disk: Disk, unsaved: set<Id>, id: Id, work: Work)
    requires Misses(before, disk, unsaved, {})
    ensures Misses(before, disk.(nodes := disk.nodes[id := work]), unsaved + {id}, {})
  {
  }

  lemma OneMore(ids: set<Id>, id: Id, count: nat, batchSize: nat)
    requires batchSize > 0 && |ids| <= count % batchSize
    ensures |ids + {id}| <= batchSize
    ensures (count + 1) % batchSize != 0 ==> |ids + {id}| <= (count + 1) % batchSize
  {
    NextRemainder(count, batchSize);
    assert |ids + {id}| <= |ids| + 1;
  }

  lemma NextRemainder(count: nat, n: nat)
    requires n > 0
    ensures (count + 1) % n == if count % n + 1 == n then 0 else count % n + 1
  {
    var q, r, p := count / n, count % n, (count + 1) / n;
    assert count + 1 == q * n + (r + 1) == p * n + (count + 1) % n;
    if p > q {
      Multiples(p - q, n);
      assert (p - q) * n == p * n - q * n;
      if p > q + 1 {
        Multiples(p - q - 1, n);
        assert (p - q - 1) * n == p * n - q * n - n;
      }
    } else if p < q {
      Multiples(q - p, n);
    }
  }

  lemma NextQuotient(count: nat, n: nat)
    requires n > 0
    ensures (count + 1) / n == count / n + if (count + 1) % n == 0 then 1 else 0
  {
    NextRemainder(count, n);
    var q, p := count / n, (count + 1) / n;
    assert q * n + count % n + 1 == p * n + (count + 1) % n;
    var d := p - q - (if (count + 1) % n == 0 then 1 else 0);
    assert d * n == 0;
  }

  lemma QuotientGrows(a: nat, b: nat, n: nat)
    requires a <= b && n > 0
    ensures a / n <= b / n
    decreases b
  {
    if a < b {
      QuotientGrows(a, b - 1, n);
      NextQuotient(b - 1, n);
    }
  }

  lemma Multiples(k: nat, n: nat)
    requires k > 0
    ensures k * n >= n
  {
  }

  class CitationGraph {
    const seeds: seq<Id>
    const works: Works
    var disk: Disk
    /** Durable writes left before the process is killed. */
    var budget: nat
    /** The disk and the budget the run began with, and its durable writes. */
    ghost var start: Disk
    ghost var allowance: nat
    ghost var log: seq<Write>

    ghost predicate Valid()
      reads this
    {
      Consistent(disk, AllIds(seeds), works)
    }

    /** The disk is what the writes of the log have made of it, each of which was paid for. */
    ghost predicate Accounted()
      reads this
    {
      Logged(start, allowance, log, disk, budget)
    }

    constructor (seeds: seq<Id>, works: Works)
      ensures this.seeds == seeds && this.works == works && disk == EMPTY
      ensures Valid()
    {
      this.seeds, this.works, disk := seeds, works, EMPTY;
    }

    method Spend(ghost w: Write) returns (alive: bool)
      modifies `budget, `log
      ensures Spent(old(budget), budget, alive) && (!alive ==> budget == 0)
      ensures log == if alive then old(log) + [w] else old(log)
    {
      alive := budget > 0;
      if alive {
        budget, log := budget - 1, log + [w];
      }
    }

    /** `_merge_paper`. */
    method MergePaper(id: Id, work: Work) returns (alive: bool)
      requires Accounted()
      modifies `disk, `budget, `log
      ensures Accounted()
      ensures disk == if alive then old(disk).(nodes := old(disk).nodes[id := work]) else old(disk)
      ensures Spent(old(budget), budget, alive) && (!alive ==> budget == 0)
      ensures log == if alive then old(log) + [Node(id, work)] else old(log)
      ensures Saves(log) == Saves(old(log))
    {
      SavesMore(log, Node(id, work));
      if budget > 0 { LoggedMore(start, allowance, log, disk, budget, Node(id, work)); }
      alive := Spend(Node(id, work));
      if alive {
        disk := disk.(nodes := disk.nodes[id := work]);
      }
    }

    /** `_merge_cite`: nothing happens unless both nodes exist. */
    method MergeCite(src: Id, dst: Id) returns (alive: bool)
      requires Accounted()
      modifies `disk, `budget, `log
      ensures Accounted()
      ensures disk == if alive && src in old(disk).nodes && dst in old(disk).nodes
                      then old(disk).(edges := old(disk).edges + {(src, dst)}) else old(disk)
      ensures Spent(old(budget), budget, alive) && (!alive ==> budget == 0)
      ensures log == if alive then old(log) + [Edge(src, dst)] else old(log)
      ensures Saves(log) == Saves(old(log))
    {
      SavesMore(log, Edge(src, dst));
      if budget > 0 { LoggedMore(start, allowance, log, disk, budget, Edge(src, dst)); }
      alive := Spend(Edge(src, dst));
      if alive && src in disk.nodes && dst in disk.nodes {
        disk := disk.(edges := disk.edges + {(src, dst)});
      }
    }

    /** `save_checkpoint`: the replacement is atomic. */
    method SaveCheckpoint(m: Memory) returns (alive: bool)
      requires Accounted()
      modifies `disk, `budget, `log
      ensures Accounted()
      ensures disk == if alive then old(disk).(checkpoint := Checkpoint(m.resolved, m.edgesDone, m.failures))
                      else old(disk)
      ensures Spent(old(budget), budget, alive) && (!alive ==> budget == 0)
      ensures log == if alive then old(log) + [Save(Checkpoint(m.resolved, m.edgesDone, m.failures))] else old(log)
      ensures Saves(log) == Saves(old(log)) + if alive then 1 else 0
    {
      ghost var save := Save(Checkpoint(m.resolved, m.edgesDone, m.failures));
      SavesMore(log, save);
      if budget > 0 { LoggedMore(start, allowance, log, disk, budget, save); }
      alive := Spend(Save(Checkpoint(m.resolved, m.edgesDone, m.failures)));
      if alive {
        disk := disk.(checkpoint := Checkpoint(m.resolved, m.edgesDone, m.failures));
      }
    }

    /** Pass 1. */
    method Resolve(loaded: Memory, unreachable: set<Id>, batchSize: nat)
      returns (alive: bool, m: Memory, ghost unsaved: set<Id>)
      requires Valid() && Accounted() && batchSize > 0
      requires loaded.resolved == disk.checkpoint.resolved && Enumerates(loaded.order, loaded.resolved.Keys)
      requires loaded.edgesDone == disk.checkpoint.edgesDone && loaded.failures == disk.checkpoint.fetchFailures
      modifies `disk, `budget, `log
      ensures Valid() && Accounted() && RunStep(AllIds(seeds), works, unreachable, old(disk), disk, false)
      ensures alive ==> Resolving(old(disk), disk, m, seeds, |seeds|, works, unreachable)
      ensures alive ==> |m.order| <= |loaded.order| + |seeds|
      ensures SpentAtMost(old(budget), budget, 2 * |seeds|, alive)
      ensures |unsaved| <= batchSize && Misses(old(disk), disk, unsaved, {})
      ensures Saves(log) <= Saves(old(log)) + |seeds| / batchSize
    {
      hide Resolving, RunStep, Consistent, Enumerates, Misses, Logged, Saves;
      m, unsaved := loaded, {};
      assert Misses(disk, disk, {}, {}) by { NothingMissed(disk); }
      ghost var before := disk;
      var newInPass: nat := 0;
      ResolvingStarts(disk, m, seeds, works, unreachable);
      for n := 0 to |seeds|
        invariant Accounted()
        invariant Resolving(before, disk, m, seeds, n, works, unreachable)
        invariant |m.order| <= |loaded.order| + n && SpentAtMost(old(budget), budget, 2 * n, true)
        invariant |unsaved| <= newInPass % batchSize && Misses(before, disk, unsaved, {})
        invariant newInPass <= n && Saves(log) == Saves(old(log)) + newInPass / batchSize
      {
        QuotientGrows(newInPass, |seeds|, batchSize);
        var id := seeds[n];
        ResolvingIsRunStep(before, disk, m, seeds, n, works, unreachable);
        if id in m.resolved {
          ResolvedAgain(before, disk, m, seeds, n, works, unreachable);
          AgainMisses(before, disk, m, seeds, n, works, unreachable, unsaved, m.resolved[id]);
          alive := MergePaper(id, m.resolved[id]);
          if !alive { return; }
          continue;
        }
        if id in unreachable {
          ResolveFailed(before, disk, m, seeds, n, works, unreachable);
          m := m.(failures := m.failures + {id});
          continue;
        }
        ResolvedNow(before, disk, m, seeds, n, works, unreachable);
        OneMore(unsaved, id, newInPass, batchSize);
        MergeMisses(before, disk, unsaved, id, works(id));
        alive := MergePaper(id, works(id));
        if !alive { return; }
        unsaved := unsaved + {id};
        NextQuotient(newInPass, batchSize);
        m := m.(failures := m.failures - {id}, resolved := m.resolved[id := works(id)], order := m.order + [id]);
        newInPass := newInPass + 1;
        if newInPass % batchSize == 0 {
          ResolvingIsRunStep(before, disk, m, seeds, n + 1, works, unreachable);
          ResolvingSaved(before, disk, m, seeds, n + 1, works, unreachable);
          SavedResolved(before, disk, m, seeds, n + 1, works, unreachable);
          alive := SaveCheckpoint(m);
          if !alive { return; }
          unsaved := {};
        }
      }
      ResolvingIsRunStep(before, disk, m, seeds, |seeds|, works, unreachable);
      QuotientGrows(newInPass, |seeds|, batchSize);
      alive := true;
    }

    /** Walks the references of one paper. */
    method CitePaper(a: Id, refs: seq<string>, rev: map<string, Id>) returns (alive: bool)
      requires Accounted() && a in disk.nodes && forall w :: w in rev ==> rev[w] in disk.nodes
      modifies `disk, `budget, `log
      ensures Accounted()
      ensures disk == old(disk).(edges := disk.edges)
      ensures AddsCitations(old(disk).edges, disk.edges, a, rev, refs)
      ensures alive ==> forall r :: r in refs && r in rev ==> (a, rev[r]) in disk.edges
      ensures SpentAtMost(old(budget), budget, |refs|, alive)
      ensures Saves(log) == Saves(old(log))
    {
      hide Logged, Saves;
      for k := 0 to |refs|
        invariant Accounted() && Saves(log) == Saves(old(log))
        invariant disk == old(disk).(edges := disk.edges) && SpentAtMost(old(budget), budget, k, true)
        invariant AddsCitations(old(disk).edges, disk.edges, a, rev, refs)
        invariant forall j :: 0 <= j < k && refs[j] in rev ==> (a, rev[refs[j]]) in disk.edges
      {
        if refs[k] in rev {
          assert refs[k] in refs;
          alive := MergeCite(a, rev[refs[k]]);
          if !alive { return; }
        }
      }
      alive := true;
    }

    /** Pass 2 at one paper it has still to walk. */
    method CiteOne(ghost before: Disk, m: Memory, ghost i: nat, a: Id, rev: map<string, Id>,
                   ghost unreachable: set<Id>, ghost unsaved: set<Id>, ghost uncited: set<Id>, ghost count: nat,
                   ghost batchSize: nat)
      returns (alive: bool)
      requires i < |m.order| && m.order[i] == a && a !in m.edgesDone
      requires Citing(before, disk, m, i, AllIds(seeds), works, unreachable)
      requires Reverses(rev, m.order, |m.order|, works)
      requires batchSize > 0 && Trails(before, disk, m, unsaved, uncited, count, batchSize) && Accounted()
      modifies `disk, `budget, `log
      ensures Accounted()
      ensures Valid() && RunStep(AllIds(seeds), works, unreachable, before, disk, false)
      ensures Lags(before, disk, batchSize) && a in AllIds(seeds)
      ensures var done := m.(edgesDone := m.edgesDone + {a});
              && AddedByDone(before, disk, done)
              && (alive ==> Citing(before, disk, done, i + 1, AllIds(seeds), works, unreachable))
              && ((count + 1) % batchSize != 0 ==>
                    Trails(before, disk, done, unsaved, uncited + {a}, count + 1, batchSize))
      ensures SpentAtMost(old(budget), budget, |works(a).referencedWorks|, alive) && (!alive ==> budget == 0)
      ensures Saves(log) == Saves(old(log))
    {
      hide Citing, RunStep, Consistent, Reverses, AddsCitations, Faithful, Misses, Lags, AddedByDone, Trails;
      hide Logged;
      NodesForCitations(before, disk, m, i, rev, AllIds(seeds), works, unreachable);
      alive := CitePaper(a, m.resolved[a].referencedWorks, rev);
      ghost var was := old(disk);
      CitingMore(before, was, disk.edges, m, i, rev, AllIds(seeds), works, unreachable);
      CitingIsRunStep(before, disk, m, i, AllIds(seeds), works, unreachable);
      TrailsMore(before, was, disk.edges, m, a, rev, unsaved, uncited, count, batchSize);
      if alive {
        CitedOne(before, disk, m, i, rev, AllIds(seeds), works, unreachable);
      }
    }

    /** Pass 2. */
    method Cite(ghost before: Disk, loaded: Memory, rev: map<string, Id>, ghost unreachable: set<Id>, batchSize: nat,
                ghost most: nat, ghost resolvedUnsaved: set<Id>)
      returns (alive: bool, m: Memory)
      requires batchSize > 0 && Trails(before, disk, loaded, resolvedUnsaved, {}, 0, batchSize)
      requires Citing(before, disk, loaded, 0, AllIds(seeds), works, unreachable)
      requires Reverses(rev, loaded.order, |loaded.order|, works)
      requires Accounted()
      modifies `disk, `budget, `log
      ensures Accounted()
      ensures Valid() && RunStep(AllIds(seeds), works, unreachable, before, disk, false)
      ensures alive ==> Citing(before, disk, m, |m.order|, AllIds(seeds), works, unreachable)
      ensures RefsWithin(AllIds(seeds), works, most) ==>
                SpentAtMost(old(budget), budget, CiteWrites(|loaded.order|, most), alive)
      ensures Lags(before, disk, batchSize) && if alive then AddedByDone(before, disk, m) else budget == 0
      ensures Saves(log) <= Saves(old(log)) + |loaded.order| / batchSize
    {
      hide AddedByDone, Trails, Spent, SpentAtMost, Logged, Saves;
      NothingSpent(budget, most);
      hide Citing, RunStep, Consistent, Reverses, AddsCitations, Faithful, Misses, Lags, CiteWrites, RefsWithin;
      m := loaded;
      ghost var unsaved, uncited: set<Id> := resolvedUnsaved, {};
      var newEdgesPass: nat := 0;
      for i := 0 to |loaded.order|
        invariant Accounted()
        invariant m.order == loaded.order && m.resolved == loaded.resolved
        invariant Citing(before, disk, m, i, AllIds(seeds), works, unreachable)
        invariant RefsWithin(AllIds(seeds), works, most) ==>
                    SpentAtMost(old(budget), budget, CiteWrites(i, most), true)
        invariant Trails(before, disk, m, unsaved, uncited, newEdgesPass, batchSize)
        invariant newEdgesPass <= i && Saves(log) == Saves(old(log)) + newEdgesPass / batchSize
      {
        QuotientGrows(newEdgesPass, |loaded.order|, batchSize);
        var a := m.order[i];
        CitingIsRunStep(before, disk, m, i, AllIds(seeds), works, unreachable);
        if a in m.edgesDone {
          CitedOne(before, disk, m, i, rev, AllIds(seeds), works, unreachable);
          assert m.edgesDone + {a} == m.edgesDone;
          assert m == m.(edgesDone := m.edgesDone + {a});
          SkipSpends(RefsWithin(AllIds(seeds), works, most), old(budget), budget, i, most);
          continue;
        }
        ghost var left := budget;
        alive := CiteOne(before, m, i, a, rev, unreachable, unsaved, uncited, newEdgesPass, batchSize);
        RefsAreWithin(AllIds(seeds), works, most, a);
        CiteSpends(RefsWithin(AllIds(seeds), works, most), old(budget), left, budget, i, |loaded.order|,
          |works(a).referencedWorks|, most, alive);
        if !alive { return; }
        uncited := uncited + {a};
        m := m.(edgesDone := m.edgesDone + {a});
        NextQuotient(newEdgesPass, batchSize);
        newEdgesPass := newEdgesPass + 1;
        if newEdgesPass % batchSize == 0 {
          CitingSaved(before, disk, m, i + 1, AllIds(seeds), works, unreachable);
          TrailsSaved(before, disk, m, i + 1, AllIds(seeds), works, unreachable, newEdgesPass, batchSize);
          left := budget;
          alive := SaveCheckpoint(m);
          SaveSpends(RefsWithin(AllIds(seeds), works, most), old(budget), left, budget, i, |loaded.order|, most, alive);
          if !alive { return; }
          unsaved, uncited := {}, {};
        }
      }
      CitingIsRunStep(before, disk, m, |m.order|, AllIds(seeds), works, unreachable);
      TrailsLag(before, disk, m, unsaved, uncited, newEdgesPass, batchSize);
      QuotientGrows(newEdgesPass, |loaded.order|, batchSize);
      alive := true;
    }

    /** `ingest`: load, resolve, cite, save. `order` is the order in which the checkpoint's resolved
        papers come back, `writes` the durable writes before the process is killed: a run that does not complete
        has made exactly so many; one with enough of them, when no paper has more than `most` references,
        completes. */
    method Ingest(order: seq<Id>, unreachable: set<Id>, batchSize: nat, writes: nat, ghost most: nat)
      returns (complete: bool)
      requires Valid() && batchSize > 0
      requires Enumerates(order, disk.checkpoint.resolved.Keys)
      modifies this
      ensures Valid()
      ensures RunStep(AllIds(seeds), works, unreachable, old(disk), disk, complete)
      ensures Lags(old(disk), disk, batchSize)
      ensures disk == Replay(old(disk), log) && |log| <= writes && (!complete ==> |log| == writes)
      ensures Saves(log) <= |seeds| / batchSize + (|order| + |seeds|) / batchSize + 1
      ensures (RefsWithin(AllIds(seeds), works, most)
               && writes > 2 * |seeds| + (|order| + |seeds|) * (most + 1)) ==> complete
    {
      hide Citing, Resolving, RunStep, Consistent, Misses, Lags, AddedByDone, Trails, Saves, Reverses, Faithful;
      budget, start, allowance, log := writes, disk, writes, [];
      LoggedNone(disk, writes);
      ghost var before := disk;
      var m := Memory(disk.checkpoint.resolved, order, disk.checkpoint.edgesDone, disk.checkpoint.fetchFailures);
      ghost var unsaved: set<Id>;
      complete, m, unsaved := Resolve(m, unreachable, batchSize);
      LagsBy(before, disk, batchSize, unsaved, {});
      if !complete { return; }
      CitingStarts(before, disk, m, seeds, works, unreachable);
      TrailsStart(before, disk, m, AllIds(seeds), works, unreachable, unsaved, batchSize);
      ResolvedIsFaithful(before, disk, m, AllIds(seeds), works, unreachable);
      CiteWritesGrow(|m.order|, |order| + |seeds|, most);
      CiteWritesProduct(|order| + |seeds|, most);
      QuotientGrows(|m.order|, |order| + |seeds|, batchSize);
      var rev := BuildReverseMap(m.order, m.resolved, works);
      complete, m := Cite(before, m, rev, unreachable, batchSize, most, unsaved);
      if !complete { return; }
      CitingIsRunStep(before, disk, m, |m.order|, AllIds(seeds), works, unreachable);
      CitingSaved(before, disk, m, |m.order|, AllIds(seeds), works, unreachable);
      TrailsSaved(before, disk, m, |m.order|, AllIds(seeds), works, unreachable, 0, batchSize);
      complete := SaveCheckpoint(m);
      if complete {
        LagsBy(before, disk, batchSize, {}, {});
        RunCompletes(before, disk, m, AllIds(seeds), works, unreachable);
        CitingIsRunStep(before, disk, m, |m.order|, AllIds(seeds), works, unreachable);
      }
    }
  }

  lemma NodesForCitations(before: Disk, disk: Disk, m: Memory, i: nat, rev: map<string, Id>, ids: set<Id>,
                          works: Works, unreachable: set<Id>)
    requires i < |m.order| && Citing(before, disk, m, i, ids, works, unreachable)
    requires Reverses(rev, m.order, |m.order|, works)
    ensures m.order[i] in m.resolved && m.resolved[m.order[i]] == works(m.order[i]) && m.order[i] in ids
    ensures m.order[i] in disk.nodes && forall w :: w in rev ==> rev[w] in disk.nodes
  {
    assert m.order[..|m.order|] == m.order && m.order[i] in m.order;
  }

  lemma ResolvedIsFaithful(before: Disk, disk: Disk, m: Memory, ids: set<Id>, works: Works, unreachable: set<Id>)
    requires Citing(before, disk, m, 0, ids, works, unreachable)
    ensures forall id :: id in m.order ==> id in m.resolved && m.resolved[id] == works(id)
  {
  }

  // ------------------------------------------------------------------
  // Whole histories
  // ------------------------------------------------------------------

  /** The nodes and edges of every seed paper and every citation between two of them. */
  ghost predicate FullGraph(disk: Disk, ids: set<Id>, works: Works) {
    && Faithful(disk.nodes, ids, works) && disk.nodes.Keys == ids
    && forall a, b :: (a, b) in disk.edges <==> a in ids && b in ids && Cites(works, a, b)
  }

  /** Which citations a complete run leaves in the graph: those that were there, and those of every
      paper it had still to walk towards a paper it has resolved. */
  lemma CompleteRunEdges(before: Disk, after: Disk, ids: set<Id>, works: Works, unreachable: set<Id>, a: Id, b: Id)
    requires Consistent(before, ids, works) && Consistent(after, ids, works) && DistinctWorks(ids, works)
    requires RunStep(ids, works, unreachable, before, after, true)
    ensures (a, b) in after.edges <==>
      || (a, b) in before.edges
      || (Cites(works, a, b) && a in Reach(before, ids, unreachable) && b in Reach(before, ids, unreachable)
          && a !in before.checkpoint.edgesDone)
  {
    hide DistinctWorks, Cites, FailuresAfter;
  }

  /** A complete run that reaches every seed builds the full graph if and only if no paper already
      marked done lacks an edge. */
  lemma FullIffDonePapersLinked(before: Disk, after: Disk, ids: set<Id>, works: Works, unreachable: set<Id>)
    requires Consistent(before, ids, works) && Consistent(after, ids, works) && DistinctWorks(ids, works)
    requires RunStep(ids, works, unreachable, before, after, true)
    requires unreachable * ids <= before.checkpoint.resolved.Keys
    ensures FullGraph(after, ids, works) <==>
      forall a :: a in before.checkpoint.edgesDone ==> Linked(works, ids, before.edges, a)
  {
    assert Reach(before, ids, unreachable) == ids;
    forall a, b
      ensures (a, b) in after.edges <==>
        || (a, b) in before.edges
        || (Cites(works, a, b) && a in ids && b in ids && a !in before.checkpoint.edgesDone)
    {
      CompleteRunEdges(before, after, ids, works, unreachable, a, b);
    }
    hide DistinctWorks, Cites, FailuresAfter;
    assert after.nodes.Keys == ids;
    assert Faithful(after.nodes, ids, works);
    if FullGraph(after, ids, works) {
      forall a | a in before.checkpoint.edgesDone ensures Linked(works, ids, before.edges, a) {
        assert a in ids;
      }
    }
  }

  /** The states between runs: consecutive runs over the same seeds, each possibly killed. */
  ghost predicate History(disks: seq<Disk>, downs: seq<set<Id>>, ids: set<Id>, works: Works) {
    && |disks| == |downs| + 1 && disks[0] == EMPTY
    && (forall k :: 0 <= k < |disks| ==> Consistent(disks[k], ids, works))
    && (forall k: nat :: k < |downs| ==> RunStep(ids, works, downs[k], disks[k], disks[k + 1], false))
  }

  /** Run k either got every seed it still needed, or marked no paper done. */
  ghost predicate Harmless(disks: seq<Disk>, downs: seq<set<Id>>, ids: set<Id>, k: nat)
    requires |disks| == |downs| + 1 && k < |downs|
  {
    downs[k] * ids <= disks[k].checkpoint.resolved.Keys || disks[k + 1].checkpoint.edgesDone == {}
  }

  /** Nothing is marked done before every seed is resolved, and what is marked has its edges. */
  ghost predicate Settled(disk: Disk, ids: set<Id>, works: Works) {
    forall a :: a in disk.checkpoint.edgesDone ==>
      disk.checkpoint.resolved.Keys == ids && Linked(works, ids, disk.edges, a)
  }

  lemma StepSettles(before: Disk, after: Disk, ids: set<Id>, works: Works, unreachable: set<Id>)
    requires Consistent(before, ids, works) && Consistent(after, ids, works) && DistinctWorks(ids, works)
    requires RunStep(ids, works, unreachable, before, after, false)
    requires Settled(before, ids, works)
    requires unreachable * ids <= before.checkpoint.resolved.Keys || after.checkpoint.edgesDone == {}
    ensures Settled(after, ids, works)
  {
    hide DistinctWorks, Cites, FailuresAfter;
    if after.checkpoint.edgesDone != {} {
      assert Reach(before, ids, unreachable) == ids;
    }
  }

  lemma {:induction false} HistorySettles(disks: seq<Disk>, downs: seq<set<Id>>, ids: set<Id>, works: Works, n: nat)
    requires History(disks, downs, ids, works) && DistinctWorks(ids, works) && n <= |downs|
    requires forall k: nat :: k < n ==> Harmless(disks, downs, ids, k)
    ensures Settled(disks[n], ids, works)
  {
    if n > 0 {
      HistorySettles(disks, downs, ids, works, n - 1);
      assert RunStep(ids, works, downs[n - 1], disks[n - 1], disks[n], false);
      hide RunStep, Consistent, Settled, DistinctWorks;
      assert Harmless(disks, downs, ids, n - 1);
      StepSettles(disks[n - 1], disks[n], ids, works, downs[n - 1]);
    }
  }

  lemma {:induction false} NoFailures(disks: seq<Disk>, downs: seq<set<Id>>, ids: set<Id>, works: Works, n: nat)
    requires History(disks, downs, ids, works) && n <= |downs|
    requires forall k: nat :: k < n ==> downs[k] == {}
    ensures disks[n].checkpoint.fetchFailures == {}
  {
    if n > 0 {
      NoFailures(disks, downs, ids, works, n - 1);
      hide Consistent;
      assert RunStep(ids, works, downs[n - 1], disks[n - 1], disks[n], false);
    }
  }

  /** Whatever was killed or unreachable on the way, if no run marked papers done while a seed was
      missing, the first complete run that reaches every seed leaves the full graph. */
  lemma HarmlessHistoryIsFull(disks: seq<Disk>, downs: seq<set<Id>>, last: Disk, down: set<Id>, ids: set<Id>,
                              works: Works)
    requires History(disks, downs, ids, works) && DistinctWorks(ids, works)
    requires forall k: nat :: k < |downs| ==> Harmless(disks, downs, ids, k)
    requires Consistent(last, ids, works) && RunStep(ids, works, down, disks[|downs|], last, true)
    requires down * ids <= disks[|downs|].checkpoint.resolved.Keys
    ensures FullGraph(last, ids, works)
  {
    HistorySettles(disks, downs, ids, works, |downs|);
    assert Consistent(disks[|downs|], ids, works);
    hide RunStep, Consistent, DistinctWorks, FullGraph, Linked;
    FullIffDonePapersLinked(disks[|downs|], last, ids, works, down);
  }

  /** Crash convergence: with every fetch answered, runs killed anywhere followed by one complete run
      leave exactly the disk of a single uninterrupted run. */
  lemma CrashesConverge(disks: seq<Disk>, downs: seq<set<Id>>, last: Disk, single: Disk, ids: set<Id>, works: Works)
    requires History(disks, downs, ids, works) && DistinctWorks(ids, works)
    requires forall k: nat :: k < |downs| ==> downs[k] == {}
    requires Consistent(last, ids, works) && RunStep(ids, works, {}, disks[|downs|], last, true)
    requires Consistent(single, ids, works) && RunStep(ids, works, {}, EMPTY, single, true)
    ensures last == single && FullGraph(last, ids, works)
  {
    assert History([EMPTY], [], ids, works);
    assert Consistent(disks[|downs|], ids, works);
    hide RunStep, Consistent, DistinctWorks, History, FullGraph;
    NoFailures(disks, downs, ids, works, |downs|);
    HarmlessHistoryIsFull(disks, downs, last, {}, ids, works);
    HarmlessHistoryIsFull([EMPTY], [], single, {}, ids, works);
    FinalCheckpoint(disks[|downs|], last, ids, works);
    FinalCheckpoint(EMPTY, single, ids, works);
    SameGraph(last, single, ids, works);
  }

  lemma FinalCheckpoint(before: Disk, after: Disk, ids: set<Id>, works: Works)
    requires Consistent(before, ids, works) && Consistent(after, ids, works)
    requires RunStep(ids, works, {}, before, after, true)
    requires before.checkpoint.fetchFailures == {}
    ensures after.checkpoint == Checkpoint(map id | id in ids :: works(id), ids, {})
  {
    hide Cites, DistinctWorks, Linked;
    assert Reach(before, ids, {}) == ids;
  }

  lemma SameGraph(one: Disk, two: Disk, ids: set<Id>, works: Works)
    requires FullGraph(one, ids, works) && FullGraph(two, ids, works)
    ensures one.nodes == two.nodes && one.edges == two.edges
  {
    hide Cites;
    forall e ensures e in one.edges <==> e in two.edges {
      assert e == (e.0, e.1);
    }
  }

  /** One unreachable fetch is enough to lose an edge for good: a cites b, the first run cannot reach
      b but completes, and no later run, complete and with every fetch answered, adds the edge. */
  lemma MissedCitationStays(first: Disk, second: Disk, works: Works, a: Id, b: Id)
    requires a != b && Cites(works, a, b) && DistinctWorks({a, b}, works)
    requires Consistent(first, {a, b}, works) && RunStep({a, b}, works, {b}, EMPTY, first, true)
    requires Consistent(second, {a, b}, works) && RunStep({a, b}, works, {}, first, second, true)
    ensures (a, b) !in second.edges && b in second.nodes && second.checkpoint.fetchFailures == {}
    ensures !FullGraph(second, {a, b}, works)
  {
    assert Consistent(EMPTY, {a, b}, works);
    assert Reach(EMPTY, {a, b}, {b}) == {a};
    CompleteRunEdges(EMPTY, first, {a, b}, works, {b}, a, b);
    CompleteRunEdges(first, second, {a, b}, works, {}, a, b);
    hide Cites, DistinctWorks, Consistent;
    assert Reach(first, {a, b}, {}) == {a, b};
    assert first.checkpoint.fetchFailures == {b};
  }

  /** What a complete run leaves. */
  ghost function AfterComplete(before: Disk, ids: set<Id>, works: Works, unreachable: set<Id>): Disk {
    var reach := Reach(before, ids, unreachable);
    Disk(
      map id | id in before.nodes.Keys + reach :: works(id),
      before.edges
        + set a, b | a in reach - before.checkpoint.edgesDone && b in reach && Cites(works, a, b) :: (a, b),
      Checkpoint(map id | id in reach :: works(id), reach, FailuresAfter(before, ids, unreachable)))
  }

  /** Every consistent disk has a complete run, whatever is unreachable. */
  lemma CompleteRunExists(before: Disk, ids: set<Id>, works: Works, unreachable: set<Id>)
    requires Consistent(before, ids, works)
    ensures Consistent(AfterComplete(before, ids, works, unreachable), ids, works)
    ensures RunStep(ids, works, unreachable, before, AfterComplete(before, ids, works, unreachable), true)
  {
    var reach, after := Reach(before, ids, unreachable), AfterComplete(before, ids, works, unreachable);
    hide Cites, DistinctWorks;
    assert reach <= ids;
    forall a | a in reach && a !in before.checkpoint.edgesDone ensures Linked(works, reach, after.edges, a) {
      forall b | b in reach && Cites(works, a, b) ensures (a, b) in after.edges {}
    }
  }

  /** Two such runs that meet the hypotheses of `MissedCitationStays`. */
  lemma MissedCitationHappens() returns (works: Works, first: Disk, second: Disk)
    ensures Cites(works, "a", "b") && DistinctWorks({"a", "b"}, works)
    ensures Consistent(first, {"a", "b"}, works) && RunStep({"a", "b"}, works, {"b"}, EMPTY, first, true)
    ensures Consistent(second, {"a", "b"}, works) && RunStep({"a", "b"}, works, {}, first, second, true)
    ensures ("a", "b") !in second.edges && !FullGraph(second, {"a", "b"}, works)
  {
    works := (id: Id) => if id == "a" then Work(Some("W1"), ["W2"], "") else Work(Some("W2"), [], "");
    assert works("a").referencedWorks[0] == "W2";
    assert Consistent(EMPTY, {"a", "b"}, works);
    hide Consistent, RunStep, Cites, DistinctWorks, AfterComplete, FullGraph;
    first := AfterComplete(EMPTY, {"a", "b"}, works, {"b"});
    CompleteRunExists(EMPTY, {"a", "b"}, works, {"b"});
    second := AfterComplete(first, {"a", "b"}, works, {});
    CompleteRunExists(first, {"a", "b"}, works, {});
    MissedCitationStays(first, second, works, "a", "b");
  }
}
