/** How far the claims of `ExactCache` reach: runs, for any capacities and any number of operations in
    flight, that meet its bound on the mirror exactly, one that serves an old row, and what puts that
    die do to both. Rows that expire together are evicted in any order, as the store's query leaves
    them. */
module CacheLimits {
  import opened ExactCache
  import opened OrderedDict
  import opened Prelude

  // ------------------------------------------------------------------
  // Runs by their last world
  // ------------------------------------------------------------------

  /** How many operations may be in flight beside one, and whether puts may die between their row and the
      mirror. */
  datatype Regime = Regime(overlap: nat, deaths: bool)

  /** The last world of a run under a regime. */
  ghost predicate Within(limits: Limits, r: Regime, w: World) {
    exists steps, worlds :: RunUnder(limits, r, steps, worlds) && worlds[|steps|] == w
  }

  ghost predicate RunUnder(limits: Limits, r: Regime, steps: seq<Step>, worlds: seq<World>)
    ensures RunUnder(limits, r, steps, worlds) ==> |worlds| == |steps| + 1
  {
    IsRun(limits, steps, worlds) && AtMost(worlds, r.overlap) && (r.deaths || Unbroken(steps, worlds))
  }

  const IDLE: World := World(0.0, map[], [], map[], [], [])

  lemma WithinStart(limits: Limits, r: Regime)
    ensures Within(limits, r, IDLE)
  {
    var steps: seq<Step>, worlds := [], [IDLE];
    assert RunUnder(limits, r, steps, worlds) && worlds[|steps|] == IDLE;
  }

  lemma WithinStep(limits: Limits, r: Regime, w: World, step: Step, next: World)
    requires Within(limits, r, w) && Enabled(limits, w, step) && next == Apply(limits, w, step)
    requires |next.ops| <= r.overlap + 1 && (r.deaths || !PutDies(w, step))
    ensures Within(limits, r, next)
  {
    hide Enabled, Apply, PutDies, RunUnder;
    var steps, worlds :| RunUnder(limits, r, steps, worlds) && worlds[|steps|] == w;
    RunExtends(limits, r, steps, worlds, step, next);
    assert (worlds + [next])[|steps + [step]|] == next;
  }

  lemma RunExtends(limits: Limits, r: Regime, steps: seq<Step>, worlds: seq<World>, step: Step, next: World)
    requires RunUnder(limits, r, steps, worlds) && |next.ops| <= r.overlap + 1
    requires Enabled(limits, worlds[|steps|], step) && next == Apply(limits, worlds[|steps|], step)
    requires r.deaths || !PutDies(worlds[|steps|], step)
    ensures RunUnder(limits, r, steps + [step], worlds + [next])
  {
    hide Enabled, Apply, PutDies;
    assert IsRun(limits, steps + [step], worlds + [next]);
    assert AtMost(worlds + [next], r.overlap);
  }

  lemma OpsSize(ops: map<nat, Op>, id: nat, op: Op)
    ensures |ops[id := op]| == |ops| + if id in ops then 0 else 1
    ensures id in ops ==> |ops - {id}| == |ops| - 1
    ensures id !in ops ==> ops[id := op] - {id} == ops
  {
    assert ops[id := op].Keys == ops.Keys + {id} && (ops - {id}).Keys == ops.Keys - {id};
    assert |ops| == |ops.Keys| && |ops[id := op]| == |ops[id := op].Keys| && |ops - {id}| == |(ops - {id}).Keys|;
  }

  /** A put up to its row being stored. */
  lemma PutToStore(limits: Limits, r: Regime, w: World, id: nat, key: Key, payload: string, rows: map<Key, Row>)
    returns (w': World)
    requires Within(limits, r, w) && id !in w.ops && |w.ops| <= r.overlap
    requires StorePut(limits, w.store, key, RowOf(payload, w.clock), rows)
    ensures w' == w.(store := rows, ops := w.ops[id := Stored(key, RowOf(payload, w.clock))],
                     puts := w.puts + [PutRecord(key, payload, w.clock)])
    ensures Within(limits, r, w')
  {
    hide StorePut, Within;
    var begun := Apply(limits, w, StartPut(id, key, payload));
    OpsSize(w.ops, id, Putting(key, payload, w.clock));
    WithinStep(limits, r, w, StartPut(id, key, payload), begun);
    w' := Apply(limits, begun, WriteStore(id, rows));
    OpsSize(begun.ops, id, Stored(key, RowOf(payload, w.clock)));
    WithinStep(limits, r, begun, WriteStore(id, rows), w');
    assert w'.ops == w.ops[id := Stored(key, RowOf(payload, w.clock))];
  }

  lemma PutToMirror(limits: Limits, r: Regime, w: World, id: nat) returns (w': World)
    requires Within(limits, r, w) && id in w.ops && w.ops[id].Stored? && |w.ops| <= r.overlap + 1
    ensures w' == w.(mirror := Newest(Place(w.mirror, w.ops[id].key, w.ops[id].row), limits.mirror),
                     ops := w.ops - {id})
    ensures Within(limits, r, w')
  {
    hide Within;
    w' := Apply(limits, w, WriteMirror(id));
    OpsSize(w.ops, id, w.ops[id]);
    WithinStep(limits, r, w, WriteMirror(id), w');
  }

  /** A get that misses the mirror, up to its row being read. */
  lemma GetFromStore(limits: Limits, r: Regime, w: World, id: nat, key: Key) returns (w': World)
    requires Within(limits, r, w) && id !in w.ops && |w.ops| <= r.overlap
    requires Get(w.mirror, key) == None && key in w.store && w.store[key].expiresAt >= w.clock
    ensures w' == w.(ops := w.ops[id := Holding(key, w.clock, w.store[key])])
    ensures Within(limits, r, w')
  {
    hide Within, Get;
    var begun := Apply(limits, w, StartGet(id, key));
    OpsSize(w.ops, id, Getting(key, w.clock));
    WithinStep(limits, r, w, StartGet(id, key), begun);
    var missed := Apply(limits, begun, Probe(id));
    OpsSize(begun.ops, id, Missed(key, w.clock));
    WithinStep(limits, r, begun, Probe(id), missed);
    w' := Apply(limits, missed, ReadStore(id));
    OpsSize(missed.ops, id, Holding(key, w.clock, w.store[key]));
    WithinStep(limits, r, missed, ReadStore(id), w');
    assert w'.ops == w.ops[id := Holding(key, w.clock, w.store[key])];
  }

  lemma GetToMirror(limits: Limits, r: Regime, w: World, id: nat) returns (w': World)
    requires Within(limits, r, w) && id in w.ops && w.ops[id].Holding? && |w.ops| <= r.overlap + 1
    ensures var op := w.ops[id];
            w' == w.(mirror := Place(w.mirror, op.key, op.row), ops := w.ops - {id},
                     served := w.served + [Served(op.key, op.row.payload, op.began)])
    ensures Within(limits, r, w')
  {
    hide Within;
    w' := Apply(limits, w, Fill(id));
    OpsSize(w.ops, id, w.ops[id]);
    WithinStep(limits, r, w, Fill(id), w');
  }

  // ------------------------------------------------------------------
  // Serving the latest put
  // ------------------------------------------------------------------

  /** Every answer is the payload of the latest put of its key. */
  ghost predicate ServesLatest(limits: Limits, r: Regime) {
    forall w, step, s ::
      Within(limits, r, w) && Serves(limits, w, step, s) && |Apply(limits, w, step).ops| <= r.overlap + 1 ==>
      exists p :: Latest(w.puts, s.key) == Some(p) && p.payload == s.payload
  }

  lemma AloneServesLatest(limits: Limits, w: World, step: Step, s: Served)
    requires Within(limits, Regime(0, false), w) && Serves(limits, w, step, s) && |Apply(limits, w, step).ops| <= 1
    ensures exists p :: Latest(w.puts, s.key) == Some(p) && p.payload == s.payload
  {
    ServesAlive(limits, w, step, s);
    hide Enabled, Apply, PutDies, Latest, IsRun, AtMost, Unbroken;
    var steps, worlds :| RunUnder(limits, Regime(0, false), steps, worlds) && worlds[|steps|] == w;
    var next := Apply(limits, w, step);
    RunExtends(limits, Regime(0, false), steps, worlds, step, next);
    SequentialServesLatest(limits, steps + [step], worlds + [next], |steps|, s);
  }

  /** No step that answers a get is the death of a put. */
  lemma ServesAlive(limits: Limits, w: World, step: Step, s: Served)
    requires Serves(limits, w, step, s)
    ensures !PutDies(w, step)
  {
    assert |w.served + [s]| != |w.served|;
  }

  /** Two operations at once, and no deaths. */
  const TWO: Regime := Regime(1, false)

  /** One operation at a time, but puts may die. */
  const MORTAL: Regime := Regime(0, true)

  const OLD: Row := RowOf("old", 0.0)
  const NEW: Row := RowOf("new", 0.0)

  /** Idle, and the mirror has an older row than the latest. */
  ghost predicate Stale(limits: Limits, r: Regime, w: World) {
    && Within(limits, r, w) && w.ops == map[] && w.clock == 0.0
    && Get(w.mirror, "k") == Some(OLD) && Latest(w.puts, "k") == Some(PutRecord("k", "new", 0.0))
  }

  /** A get reads a row, a newer put completes, and the get writes the old row back over the newer one,
      never more than two operations being in flight. */
  lemma StaleMirror(limits: Limits) returns (w: World)
    requires limits.rows > 0
    ensures Stale(limits, TWO, w)
  {
    hide Within, StorePut, Newest, Place, Get, UniqueKeys, OthersKept;
    w := OldInHand(limits);
    StoreKeeps(limits, w.store, "k", NEW);
    w := PutToStore(limits, TWO, w, 3, "k", "new", w.store["k" := NEW]);
    w := PutToMirror(limits, TWO, w, 3);
    assert w.ops == map[2 := Holding("k", 0.0, OLD)];
    WithinUnique(limits, TWO, w);
    PlaceKeeps(w.mirror, "k", OLD);
    w := GetToMirror(limits, TWO, w, 2);
  }

  lemma OldInHand(limits: Limits) returns (w: World)
    requires limits.rows > 0
    ensures Within(limits, TWO, w) && w.clock == 0.0 && w.store.Keys == {"k"}
    ensures w.ops == map[2 := Holding("k", 0.0, OLD)]
  {
    hide Within, StorePut, Newest, Place;
    WithinStart(limits, TWO);
    var none: map<Key, Row> := map[];
    StoreKeeps(limits, none, "k", OLD);
    w := PutToStore(limits, TWO, IDLE, 1, "k", "old", none["k" := OLD]);
    w := GetFromStore(limits, TWO, w, 2, "k");
    w := PutToMirror(limits, TWO, w, 1);
  }

  /** Two puts one after the other die once their row is stored, a get between them bringing the first
      row to the mirror. */
  lemma StaleAfterDeath(limits: Limits) returns (w: World)
    requires limits.rows > 0
    ensures Stale(limits, MORTAL, w)
  {
    hide Within, StorePut, Place, Get, UniqueKeys, OthersKept;
    WithinStart(limits, MORTAL);
    var none: map<Key, Row> := map[];
    StoreKeeps(limits, none, "k", OLD);
    w := DeadPut(limits, MORTAL, IDLE, 1, "k", "old", none["k" := OLD]);
    AbsentAppends(w.mirror, "k", OLD);
    w := GetFromStore(limits, MORTAL, w, 2, "k");
    PlaceKeeps(w.mirror, "k", OLD);
    w := GetToMirror(limits, MORTAL, w, 2);
    assert w.ops == map[];
    StoreKeeps(limits, w.store, "k", NEW);
    w := DeadPut(limits, MORTAL, w, 3, "k", "new", w.store["k" := NEW]);
  }

  /** A put that dies once its row is stored. */
  lemma DeadPut(limits: Limits, r: Regime, w: World, id: nat, key: Key, payload: string, rows: map<Key, Row>)
    returns (w': World)
    requires r.deaths && Within(limits, r, w) && id !in w.ops && |w.ops| <= r.overlap
    requires StorePut(limits, w.store, key, RowOf(payload, w.clock), rows)
    ensures w' == w.(store := rows, puts := w.puts + [PutRecord(key, payload, w.clock)])
    ensures Within(limits, r, w')
  {
    hide StorePut, Within;
    var stored := PutToStore(limits, r, w, id, key, payload, rows);
    w' := Apply(limits, stored, Abandon(id));
    OpsSize(w.ops, id, stored.ops[id]);
    WithinStep(limits, r, stored, Abandon(id), w');
    assert w'.ops == w.ops;
  }

  lemma WithinUnique(limits: Limits, r: Regime, w: World)
    requires Within(limits, r, w)
    ensures UniqueKeys(w.mirror)
  {
    var steps, worlds :| RunUnder(limits, r, steps, worlds) && worlds[|steps|] == w;
    RunSound(limits, steps, worlds, |steps|);
  }

  lemma StoreKeeps(limits: Limits, before: map<Key, Row>, key: Key, row: Row)
    requires before.Keys <= {key} && limits.rows > 0
    ensures StorePut(limits, before, key, row, before[key := row])
  {
    assert before[key := row].Keys == {key};
    assert |before[key := row]| == |before[key := row].Keys|;
  }

  /** The next get is then answered by the older row. */
  lemma StaleAnswer(limits: Limits, r: Regime, idle: World) returns (w: World, step: Step)
    requires Stale(limits, r, idle)
    ensures Within(limits, r, w) && Serves(limits, w, step, Served("k", "old", 0.0))
    ensures |Apply(limits, w, step).ops| <= 1
    ensures Latest(w.puts, "k") == Some(PutRecord("k", "new", 0.0))
  {
    w := Apply(limits, idle, StartGet(4, "k"));
    hide Within, Place, Get;
    OpsSize(idle.ops, 4, Getting("k", 0.0));
    WithinStep(limits, r, idle, StartGet(4, "k"), w);
    step := Probe(4);
    OpsSize(w.ops, 4, w.ops[4]);
  }

  lemma StaleReadAfterOverlap(limits: Limits) returns (w: World, step: Step)
    requires limits.rows > 0
    ensures Within(limits, TWO, w) && Serves(limits, w, step, Served("k", "old", 0.0))
    ensures |Apply(limits, w, step).ops| <= 1
    ensures Latest(w.puts, "k") == Some(PutRecord("k", "new", 0.0))
  {
    hide Stale, Within, Serves, Latest;
    var idle := StaleMirror(limits);
    w, step := StaleAnswer(limits, TWO, idle);
  }

  lemma StaleReadAfterDeath(limits: Limits) returns (w: World, step: Step)
    requires limits.rows > 0
    ensures Within(limits, MORTAL, w) && Serves(limits, w, step, Served("k", "old", 0.0))
    ensures |Apply(limits, w, step).ops| <= 1
    ensures Latest(w.puts, "k") == Some(PutRecord("k", "new", 0.0))
  {
    hide Stale, Within, Serves, Latest;
    var idle := StaleAfterDeath(limits);
    w, step := StaleAnswer(limits, MORTAL, idle);
  }

  lemma WithinMore(limits: Limits, r: Regime, q: Regime, w: World)
    requires Within(limits, r, w) && r.overlap <= q.overlap && (r.deaths ==> q.deaths)
    ensures Within(limits, q, w)
  {
    var steps, worlds :| RunUnder(limits, r, steps, worlds) && worlds[|steps|] == w;
    assert RunUnder(limits, q, steps, worlds);
  }

  /** Every answer is the latest put's, in every run under a regime, if and only if operations do not overlap
      and no put dies between its row and the mirror. */
  lemma ServesLatestIff(limits: Limits, r: Regime)
    requires limits.rows > 0
    ensures ServesLatest(limits, r) <==> r.overlap == 0 && !r.deaths
  {
    hide Within;
    if r.overlap == 0 && !r.deaths {
      assert r == Regime(0, false);
      forall w, step, s |
        Within(limits, r, w) && Serves(limits, w, step, s) && |Apply(limits, w, step).ops| <= r.overlap + 1
        ensures exists p :: Latest(w.puts, s.key) == Some(p) && p.payload == s.payload
      {
        AloneServesLatest(limits, w, step, s);
      }
    } else {
      var w, step;
      if r.deaths {
        w, step := StaleReadAfterDeath(limits);
        WithinMore(limits, MORTAL, r, w);
      } else {
        w, step := StaleReadAfterOverlap(limits);
        WithinMore(limits, TWO, r, w);
      }
      hide Latest, Serves;
      assert Serves(limits, w, step, Served("k", "old", 0.0));
    }
  }

  // ------------------------------------------------------------------
  // A run as full as can be
  // ------------------------------------------------------------------

  const BLANK: Row := RowOf("", 0.0)

  /** Keys and operations are numbered; a key's number is its length. */
  function Name(n: nat): (key: Key)
    ensures |key| == n
  {
    seq(n, _ => 'k')
  }

  ghost predicate Absent(mirror: seq<MirrorSlot>, key: Key) {
    forall s :: s in mirror ==> s.key != key
  }

  lemma AbsentAppends(mirror: seq<MirrorSlot>, key: Key, row: Row)
    requires Absent(mirror, key)
    ensures Get(mirror, key) == None && Place(mirror, key, row) == mirror + [Slot(key, row)]
  {
    if Find(mirror, key) < |mirror| {
      assert mirror[Find(mirror, key)] in mirror;
    }
  }

  /** A world at time 0 whose rows are blank and whose numbers are all below n. */
  ghost predicate Flat(w: World, n: nat) {
    && w.clock == 0.0
    && (forall k :: k in w.store ==> |k| < n && w.store[k] == BLANK)
    && (forall s :: s in w.mirror ==> |s.key| < n && s.value == BLANK)
    && (forall id :: id in w.ops ==> id < n && FlatOp(w.ops[id], n))
  }

  ghost predicate FlatOp(op: Op, n: nat) {
    match op
    case Holding(key, began, row) => |key| < n && began == 0.0 && row == BLANK
    case Stored(key, row) => |key| < n && row == BLANK
    case _ => false
  }

  /** The store after a put of key n: one of the rows goes, perhaps the new one, if there is no room. */
  function AfterPut(limits: Limits, store: map<Key, Row>, n: nat, gone: Key): map<Key, Row> {
    var full := store[Name(n) := BLANK];
    if |store| < limits.rows then full else full - {gone}
  }

  lemma AfterPutIs(limits: Limits, w: World, n: nat, gone: Key)
    requires Flat(w, n) && |w.store| <= limits.rows && (gone in w.store || gone == Name(n))
    ensures StorePut(limits, w.store, Name(n), BLANK, AfterPut(limits, w.store, n, gone))
    ensures |AfterPut(limits, w.store, n, gone)| == if |w.store| < limits.rows then |w.store| + 1 else limits.rows
    ensures var rows := AfterPut(limits, w.store, n, gone);
            forall k :: k in rows ==> |k| < n + 1 && rows[k] == BLANK
    ensures gone == Name(n) && |w.store| == limits.rows ==> AfterPut(limits, w.store, n, gone) == w.store
  {
    var full := w.store[Name(n) := BLANK];
    assert Name(n) !in w.store;
    StoreSize(w.store, Name(n), gone);
    assert forall k :: k in full ==> |k| < n + 1 && full[k] == BLANK;
    hide Flat, Name;
  }

  lemma StoreSize(store: map<Key, Row>, key: Key, gone: Key)
    requires key !in store && (gone in store || gone == key)
    ensures var full := store[key := BLANK];
            |full| == |store| + 1 && |full - {gone}| == |store| && (gone == key ==> full - {gone} == store)
  {
    var full := store[key := BLANK];
    assert full.Keys == store.Keys + {key} && (full - {gone}).Keys == full.Keys - {gone};
    assert |full| == |full.Keys| && |store| == |store.Keys| && |full - {gone}| == |(full - {gone}).Keys|;
  }

  /** A whole put of key n. */
  lemma FreshPut(limits: Limits, r: Regime, w: World, n: nat, gone: Key) returns (w': World)
    requires Within(limits, r, w) && Flat(w, n) && |w.ops| <= r.overlap
    requires |w.store| <= limits.rows && (gone in w.store || gone == Name(n))
    ensures Within(limits, r, w') && Flat(w', n + 1) && w'.ops == w.ops
    ensures w'.store == AfterPut(limits, w.store, n, gone)
    ensures w'.mirror == Newest(w.mirror + [Slot(Name(n), BLANK)], limits.mirror)
  {
    hide Within, StorePut, Newest, Place;
    AfterPutIs(limits, w, n, gone);
    var rows := AfterPut(limits, w.store, n, gone);
    assert n !in w.ops;
    var w1 := PutToStore(limits, r, w, n, Name(n), "", rows);
    OpsSize(w.ops, n, Stored(Name(n), BLANK));
    w' := PutToMirror(limits, r, w1, n);
    AbsentAppends(w.mirror, Name(n), BLANK);
    assert w'.mirror == Newest(w.mirror + [Slot(Name(n), BLANK)], limits.mirror);
    FlatMore(limits, w, w', n);
  }

  lemma FlatMore(limits: Limits, w: World, w': World, n: nat)
    requires Flat(w, n) && w'.clock == w.clock && w'.ops == w.ops
    requires forall k :: k in w'.store ==> |k| < n + 1 && w'.store[k] == BLANK
    requires w'.mirror == Newest(w.mirror + [Slot(Name(n), BLANK)], limits.mirror)
    ensures Flat(w', n + 1)
  {
    forall op | FlatOp(op, n) ensures FlatOp(op, n + 1) {}
  }

  /** Puts fill the store. */
  lemma {:induction false} FillStore(limits: Limits, r: Regime, j: nat) returns (w: World)
    requires j <= limits.rows
    ensures Within(limits, r, w) && Flat(w, j) && w.ops == map[]
    ensures |w.store| == j && |w.mirror| <= limits.mirror
  {
    hide Within, AfterPut;
    if j == 0 {
      WithinStart(limits, r);
      return IDLE;
    }
    w := FillStore(limits, r, j - 1);
    AfterPutIs(limits, w, j - 1, Name(j - 1));
    w := FreshPut(limits, r, w, j - 1, Name(j - 1));
  }

  /** The last j slots have keys from n on. */
  ghost predicate FreshTail(mirror: seq<MirrorSlot>, j: nat, n: nat) {
    j <= |mirror| && forall i :: |mirror| - j <= i < |mirror| ==> |mirror[i].key| >= n
  }

  /** Puts that leave the full store as it is renew the mirror from its end. */
  lemma {:induction false} Flush(limits: Limits, r: Regime, w: World, n: nat, j: nat) returns (w': World)
    requires Within(limits, r, w) && Flat(w, n) && |w.ops| <= r.overlap
    requires |w.store| == limits.rows && |w.mirror| <= limits.mirror && j <= limits.mirror
    ensures Within(limits, r, w') && Flat(w', n + j) && w'.ops == w.ops && w'.store == w.store
    ensures |w'.mirror| <= limits.mirror && FreshTail(w'.mirror, j, n)
  {
    hide Within, AfterPut, Flat;
    if j == 0 {
      return w;
    }
    var w1 := Flush(limits, r, w, n, j - 1);
    AfterPutIs(limits, w1, n + j - 1, Name(n + j - 1));
    w' := FreshPut(limits, r, w1, n + j - 1, Name(n + j - 1));
    NewestTail(w1.mirror, Slot(Name(n + j - 1), BLANK), limits.mirror, j, n);
  }

  lemma NewestTail(mirror: seq<MirrorSlot>, last: MirrorSlot, cap: nat, j: nat, n: nat)
    requires 0 < j <= cap && |mirror| <= cap && FreshTail(mirror, j - 1, n) && |last.key| >= n
    ensures |Newest(mirror + [last], cap)| <= cap && FreshTail(Newest(mirror + [last], cap), j, n)
  {
  }

  /** Gets hold distinct rows that are in neither the full store nor the full mirror, which have nothing
      in common either. */
  ghost predicate Armed(limits: Limits, w: World) {
    && |w.store| == limits.rows && |w.mirror| == limits.mirror && Apart(w)
  }

  ghost predicate Apart(w: World) {
    && (forall s :: s in w.mirror ==> s.key !in w.store)
    && (forall id :: id in w.ops ==> Absent(w.mirror, w.ops[id].key))
    && InHand(w.ops, w.store)
  }

  ghost predicate InHand(ops: map<nat, Op>, store: map<Key, Row>) {
    && (forall id :: id in ops ==> ops[id].Holding? && ops[id].key !in store)
    && (forall a, b :: a in ops && b in ops && a != b ==> ops[a].key != ops[b].key)
  }

  /** A mirror renewed from number n on has nothing in common with what is older. */
  lemma RenewedApart(limits: Limits, w: World, old_: World, n: nat)
    requires Flat(old_, n) && w.store == old_.store && w.ops == old_.ops && InHand(w.ops, w.store)
    requires |w.store| == limits.rows && |w.mirror| <= limits.mirror && FreshTail(w.mirror, limits.mirror, n)
    ensures Armed(limits, w)
  {
  }

  /** One more get holds a row, which a put then takes out of the store. */
  lemma ArmOne(limits: Limits, r: Regime, w: World, n: nat) returns (w': World, n': nat)
    requires limits.rows > 0 && |w.ops| < r.overlap
    requires Within(limits, r, w) && Flat(w, n) && Armed(limits, w)
    ensures Within(limits, r, w') && Flat(w', n') && Armed(limits, w') && |w'.ops| == |w.ops| + 1
  {
    hide Within, AfterPut, Flat, Armed, InHand, Newest;
    var x, w1 := HoldOne(limits, r, w, n);
    AfterPutIs(limits, w1, n + 1, x);
    var w2 := FreshPut(limits, r, w1, n + 1, x);
    TakenInHand(limits, w, n, x);
    NewestFits(w1.mirror + [Slot(Name(n + 1), BLANK)], limits.mirror);
    w' := Flush(limits, r, w2, n + 2, limits.mirror);
    n' := n + 2 + limits.mirror;
    RenewedApart(limits, w', w2, n + 2);
  }

  lemma HoldOne(limits: Limits, r: Regime, w: World, n: nat) returns (x: Key, w': World)
    requires limits.rows > 0 && |w.ops| < r.overlap
    requires Within(limits, r, w) && Flat(w, n) && Armed(limits, w)
    ensures x in w.store && w'.store == w.store && |w.store| == limits.rows
    ensures Within(limits, r, w') && Flat(w', n + 1)
    ensures w'.ops == w.ops[n := Holding(x, 0.0, BLANK)] && |w'.ops| == |w.ops| + 1
  {
    hide Within;
    x := AnyKey(limits, w.store);
    AbsentAppends(w.mirror, x, BLANK);
    w' := GetFromStore(limits, r, w, n, x);
    OpsSize(w.ops, n, Holding(x, 0.0, BLANK));
  }

  lemma NewestFits(slots: seq<MirrorSlot>, cap: nat)
    ensures |Newest(slots, cap)| <= cap
  {
  }

  lemma AnyKey(limits: Limits, store: map<Key, Row>) returns (x: Key)
    requires |store| == limits.rows > 0
    ensures x in store
  {
    assert |store| == |store.Keys|;
    x :| x in store.Keys;
  }

  lemma TakenInHand(limits: Limits, w: World, n: nat, x: Key)
    requires Flat(w, n) && Armed(limits, w) && x in w.store && limits.rows > 0
    ensures InHand(w.ops[n := Holding(x, 0.0, BLANK)], AfterPut(limits, w.store, n + 1, x))
  {
    forall id | id in w.ops ensures w.ops[id].key != Name(n + 1) && id != n && w.ops[id].key != x {}
  }

  lemma {:induction false} Arm(limits: Limits, r: Regime, j: nat) returns (w: World, n: nat)
    requires limits.rows > 0 && j <= r.overlap
    ensures Within(limits, r, w) && Flat(w, n) && Armed(limits, w) && |w.ops| == j
  {
    hide Within;
    if j == 0 {
      var full := FillStore(limits, r, limits.rows);
      w := Flush(limits, r, full, limits.rows, limits.mirror);
      n := limits.rows + limits.mirror;
      RenewedApart(limits, w, full, limits.rows);
    } else {
      hide Flat, Armed;
      w, n := Arm(limits, r, j - 1);
      w, n := ArmOne(limits, r, w, n);
    }
  }

  /** The gets fill in what they hold. */
  lemma {:induction false} Release(limits: Limits, r: Regime, w: World, n: nat) returns (w': World)
    requires Within(limits, r, w) && Flat(w, n) && Apart(w) && |w.ops| <= r.overlap
    ensures Within(limits, r, w') && Flat(w', n) && w'.store == w.store && w'.ops == map[]
    ensures |w'.mirror| == |w.mirror| + |w.ops| && forall s :: s in w'.mirror ==> s.key !in w'.store
    decreases |w.ops|
  {
    hide Within, Place, Get;
    if w.ops == map[] {
      return w;
    }
    assert |w.ops| == |w.ops.Keys|;
    var id :| id in w.ops.Keys;
    AbsentAppends(w.mirror, w.ops[id].key, BLANK);
    OpsSize(w.ops, id, w.ops[id]);
    var w1 := GetToMirror(limits, r, w, id);
    assert w1.mirror == w.mirror + [Slot(w.ops[id].key, BLANK)];
    ReleasedOne(w, w1, n, id);
    hide Flat, Apart;
    w' := Release(limits, r, w1, n);
  }

  lemma ReleasedOne(w: World, w': World, n: nat, id: nat)
    requires Flat(w, n) && Apart(w) && id in w.ops
    requires w'.clock == w.clock && w'.store == w.store && w'.ops == w.ops - {id}
    requires w'.mirror == w.mirror + [Slot(w.ops[id].key, BLANK)]
    ensures Flat(w', n) && Apart(w')
  {
  }

  /** A whole get that brings a row to the mirror. */
  lemma WholeGet(limits: Limits, r: Regime, w: World, n: nat, key: Key) returns (w': World)
    requires Within(limits, r, w) && Flat(w, n) && |w.ops| <= r.overlap && key in w.store && Absent(w.mirror, key)
    ensures Within(limits, r, w') && Flat(w', n) && w'.store == w.store && w'.ops == w.ops
    ensures w'.mirror == w.mirror + [Slot(key, BLANK)]
  {
    hide Within, Place, Get;
    AbsentAppends(w.mirror, key, BLANK);
    w' := GetFromStore(limits, r, w, n, key);
    OpsSize(w.ops, n, Holding(key, 0.0, BLANK));
    w' := GetToMirror(limits, r, w', n);
  }

  /** Gets one after the other fill in rows of the store. */
  lemma {:induction false} ReadAll(limits: Limits, r: Regime, w: World, n: nat, keys: set<Key>) returns (w': World)
    requires Within(limits, r, w) && Flat(w, n) && w.ops == map[]
    requires keys <= w.store.Keys && forall k :: k in keys ==> Absent(w.mirror, k)
    ensures Within(limits, r, w') && Flat(w', n) && w'.store == w.store && w'.ops == map[]
    ensures |w'.mirror| == |w.mirror| + |keys|
    decreases |keys|
  {
    hide Within;
    if keys == {} {
      return w;
    }
    var k :| k in keys;
    var w1 := WholeGet(limits, r, w, n, k);
    assert |keys - {k}| == |keys| - 1;
    w' := ReadAll(limits, r, w1, n, keys - {k});
  }

  /** Puts that have reached the store only, each of whose rows a get brings to the mirror. */
  lemma {:induction false} Late(limits: Limits, r: Regime, w: World, n: nat, j: nat) returns (w': World)
    requires Within(limits, r, w) && Flat(w, n) && w.ops == map[] && j <= r.overlap
    requires |w.store| == limits.rows > 0
    ensures Within(limits, r, w') && Flat(w', n + j) && |w'.ops| == j
    ensures |w'.store| == limits.rows && |w'.mirror| == |w.mirror| + j
  {
    hide Within;
    if j == 0 {
      return w;
    }
    var w1 := Late(limits, r, w, n, j - 1);
    w' := LateOne(limits, r, w1, n + j - 1);
  }

  lemma LateOne(limits: Limits, r: Regime, w: World, n: nat) returns (w': World)
    requires Within(limits, r, w) && Flat(w, n) && |w.ops| < r.overlap && |w.store| == limits.rows > 0
    ensures Within(limits, r, w') && Flat(w', n + 1) && |w'.ops| == |w.ops| + 1
    ensures |w'.store| == limits.rows && |w'.mirror| == |w.mirror| + 1
  {
    hide Within, Flat;
    w' := LatePut(limits, r, w, n);
    w' := WholeGet(limits, r, w', n + 1, Name(n));
  }

  lemma LatePut(limits: Limits, r: Regime, w: World, n: nat) returns (w': World)
    requires Within(limits, r, w) && Flat(w, n) && |w.ops| <= r.overlap && |w.store| == limits.rows > 0
    ensures Within(limits, r, w') && Flat(w', n + 1) && w'.ops.Keys == w.ops.Keys + {n} && w'.ops[n].Stored?
    ensures |w'.ops| == |w.ops| + 1 && n !in w.ops
    ensures |w'.store| == limits.rows && w'.mirror == w.mirror && Name(n) in w'.store && Absent(w.mirror, Name(n))
  {
    var x := AnyKey(limits, w.store);
    var rows := AfterPut(limits, w.store, n, x);
    assert Name(n) in rows && Absent(w.mirror, Name(n)) && n !in w.ops && w.clock == 0.0;
    AfterPutIs(limits, w, n, x);
    OpsSize(w.ops, n, Stored(Name(n), BLANK));
    hide Within, StorePut, AfterPut, Flat, Absent;
    w' := PutToStore(limits, r, w, n, Name(n), "", rows);
    StoredFlat(w, w', n);
  }

  lemma StoredFlat(w: World, w': World, n: nat)
    requires Flat(w, n) && w'.clock == w.clock && w'.mirror == w.mirror
    requires forall k :: k in w'.store ==> |k| < n + 1 && w'.store[k] == BLANK
    requires w'.ops == w.ops[n := Stored(Name(n), BLANK)]
    ensures Flat(w', n + 1)
  {
    forall op | FlatOp(op, n) ensures FlatOp(op, n + 1) {}
  }

  /** Both capacities and twice the overlap. */
  function Most(limits: Limits, r: Regime): nat {
    limits.mirror + limits.rows + 2 * r.overlap
  }

  /** The mirror can hold that many entries. */
  lemma BoundIsReached(limits: Limits, r: Regime) returns (w: World)
    requires limits.rows > 0
    ensures Within(limits, r, w) && |w.mirror| == Most(limits, r)
  {
    var n: nat;
    hide Within, Flat;
    w, n := Arm(limits, r, r.overlap);
    w := Release(limits, r, w, n);
    hide Armed, Apart;
    assert |w.store| == |w.store.Keys|;
    w := ReadAll(limits, r, w, n, w.store.Keys);
    w := Late(limits, r, w, n, r.overlap);
  }

  /** Puts that die once their row is stored, each followed by a get of its key, fill the mirror without
      end: nothing ever trims it. */
  lemma {:induction false} DeathsFill(limits: Limits, r: Regime, j: nat) returns (w: World, n: nat)
    requires limits.rows > 0 && r.deaths
    ensures Within(limits, r, w) && Flat(w, n) && w.ops == map[] && |w.store| == limits.rows && |w.mirror| >= j
  {
    hide Within, Flat;
    if j == 0 {
      n := limits.rows;
      w := FillStore(limits, r, n);
    } else {
      w, n := DeathsFill(limits, r, j - 1);
      w := DeadPutThenGet(limits, r, w, n);
      n := n + 1;
    }
  }

  lemma DeadPutThenGet(limits: Limits, r: Regime, w: World, n: nat) returns (w': World)
    requires r.deaths && limits.rows > 0
    requires Within(limits, r, w) && Flat(w, n) && w.ops == map[] && |w.store| == limits.rows
    ensures Within(limits, r, w') && Flat(w', n + 1) && w'.ops == map[] && |w'.store| == limits.rows
    ensures |w'.mirror| == |w.mirror| + 1
  {
    hide Within;
    var stored := LatePut(limits, r, w, n);
    w' := Apply(limits, stored, Abandon(n));
    WithinStep(limits, r, stored, Abandon(n), w');
    assert w'.ops == map[];
    w' := WholeGet(limits, r, w', n + 1, Name(n));
  }

  /** A number bounds the mirror, in every run under a regime, if and only if no put dies between its row
      and the mirror and the number is both capacities and twice the overlap at least. */
  lemma LeastBound(limits: Limits, r: Regime, bound: nat)
    requires limits.rows > 0
    ensures (forall w :: Within(limits, r, w) ==> |w.mirror| <= bound) <==> !r.deaths && bound >= Most(limits, r)
  {
    var full := BoundIsReached(limits, r);
    if r.deaths {
      var w, n := DeathsFill(limits, r, bound + 1);
    } else {
      forall w | Within(limits, r, w) ensures |w.mirror| <= Most(limits, r) {
        var steps, worlds :| RunUnder(limits, r, steps, worlds) && worlds[|steps|] == w;
        MirrorIsBounded(limits, steps, worlds, r.overlap, |steps|);
      }
    }
  }

  /** The mirror stays within both capacities together, in every run under a regime, if and only if
      operations do not overlap and no put dies between its row and the mirror. */
  lemma CapacitiesHoldIff(limits: Limits, r: Regime)
    requires limits.rows > 0
    ensures (forall w :: Within(limits, r, w) ==> |w.mirror| <= limits.mirror + limits.rows) <==>
            r.overlap == 0 && !r.deaths
  {
    LeastBound(limits, r, limits.mirror + limits.rows);
  }
}
