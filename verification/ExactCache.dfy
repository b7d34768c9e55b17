/** Tier 1 of the retrieval cache: an in-process mirror over a durable row store, with await
    points between the two (`_tier1_get`, `_tier1_put` and `_rehydrate_tier1_from_sqlite` in
    `server/cache.py`, `Tier1Store` in `server/cache_sqlite.py`).

    The stretches between await points are the steps; any number of gets and puts interleave them.
    The clock never runs backwards. Both capacities are parameters. */
module ExactCache {
  import opened OrderedDict
  import opened Prelude

  const TTL_SECONDS: real := 3600.0

  datatype Limits = Limits(mirror: nat, rows: nat)

  /** The capacities of the module: `TIER1_MIRROR_CAP` is `MAX_ROWS`. */
  const LIMITS: Limits := Limits(10000, 10000)

  type Key = string

  datatype Row = Row(payload: string, expiresAt: real)

  type MirrorSlot = Slot<Key, Row>

  // ------------------------------------------------------------------
  // The mirror's critical sections
  // ------------------------------------------------------------------

  /** What a get finds in the mirror and leaves there: a live entry moves to the end, an expired
      one goes. */
  function Probed(mirror: seq<MirrorSlot>, key: Key, now: real): (Option<Row>, seq<MirrorSlot>) {
    match Get(mirror, key)
    case None => (None, mirror)
    case Some(row) =>
      if row.expiresAt < now then (None, Drop(mirror, key)) else (Some(row), Place(mirror, key, row))
  }

  /** Keys other than one keep their rows. */
  ghost predicate OthersKept(before: seq<MirrorSlot>, after: seq<MirrorSlot>, key: Key) {
    forall k :: k != key ==> Get(after, k) == Get(before, k)
  }

  class Mirror {
    var slots: seq<MirrorSlot>
    /** The keys found, filled in and put so far. */
    ghost var uses: seq<Key>

    /** The slots are in the order of last use. */
    ghost predicate Valid()
      reads this
    {
      UniqueKeys(slots) && InUseOrder(uses, slots)
    }

    constructor ()
      ensures Valid() && slots == [] && uses == []
    {
      slots, uses := [], [];
    }

    /** The first locked section of `_tier1_get`. */
    method Probe(key: Key, now: real) returns (hit: Option<Row>)
      requires Valid()
      modifies this
      ensures Valid() && (hit, slots) == Probed(old(slots), key, now)
      ensures hit.Some? <==> Get(old(slots), key).Some? && Get(old(slots), key).value.expiresAt >= now
      ensures Get(slots, key) == hit && (hit.Some? ==> hit == Get(old(slots), key))
      ensures OthersKept(old(slots), slots, key)
      ensures uses == old(uses) + if hit.Some? then [key] else []
    {
      var entry := Get(slots, key);
      ProbedKeeps(slots, key, now);
      DropInUseOrder(uses, slots, key);
      if entry.Some? {
        PlaceInUseOrder(uses, slots, key, entry.value);
        if entry.value.expiresAt < now {
          slots := Drop(slots, key);
        } else {
          slots := Place(slots, key, entry.value);
          uses := uses + [key];
          return entry;
        }
      }
      return None;
    }

    /** The second locked section of `_tier1_get`: the row is found under its key, every other key
        keeps its row, and the mirror grows past any capacity if the key is new. */
    method Fill(key: Key, row: Row)
      requires Valid()
      modifies this
      ensures Valid() && slots == Place(old(slots), key, row)
      ensures Get(slots, key) == Some(row) && OthersKept(old(slots), slots, key)
      ensures |slots| == |old(slots)| + if Get(old(slots), key).Some? then 0 else 1
      ensures uses == old(uses) + [key]
    {
      PlaceKeeps(slots, key, row);
      PlaceInUseOrder(uses, slots, key, row);
      slots := Place(slots, key, row);
      uses := uses + [key];
    }

    /** The locked section of `_tier1_put`: the mirror is within its capacity, has the new row if there
        is any room, and has lost no key but to the capacity, the least recently used first. */
    method Put(key: Key, row: Row, cap: nat)
      requires Valid()
      modifies this
      ensures Valid() && slots == Newest(Place(old(slots), key, row), cap) && |slots| <= cap
      ensures cap > 0 ==> Get(slots, key) == Some(row)
      ensures forall k :: k != key ==> Get(slots, k) == Get(old(slots), k) || Get(slots, k) == None
      ensures |old(slots)| < cap ==> OthersKept(old(slots), slots, key)
      ensures |slots| < cap ==> OthersKept(old(slots), slots, key)
      ensures uses == old(uses) + [key]
      ensures forall gone, kept :: gone in old(slots) && Get(slots, gone.key).None? && kept in slots ==>
                LastUse(uses, gone.key) < LastUse(uses, kept.key)
    {
      PlaceKeeps(slots, key, row);
      NewestKeeps(Place(slots, key, row), cap);
      PlaceInUseOrder(uses, slots, key, row);
      EvictsLeastRecent(uses + [key], Place(slots, key, row), cap);
      GonePlaced(slots, key, row, cap);
      slots := EvictOldest(Place(slots, key, row), cap);
      uses := uses + [key];
    }

    /** A whole `_tier1_get` that nothing overlaps: the live row of the mirror or else of the store, which
        the mirror then has under its own expiry; an expired row is gone from both. */
    method GetAlone(store: map<Key, Row>, key: Key, now: real) returns (hit: Option<Row>, store': map<Key, Row>)
      requires Valid()
      modifies this
      ensures Valid() && OthersKept(old(slots), slots, key)
      ensures var mirrored := Get(old(slots), key);
              hit == if mirrored.Some? && mirrored.value.expiresAt >= now then mirrored
                     else if key in store && store[key].expiresAt >= now then Some(store[key])
                     else None
      ensures Get(slots, key) == hit
      ensures store' == if hit.None? then store - {key} else store
      ensures uses == old(uses) + if hit.Some? then [key] else []
    {
      hit := Probe(key, now);
      store' := store;
      if hit.None? {
        if key in store && store[key].expiresAt < now {
          store' := store - {key};
        } else if key in store {
          Fill(key, store[key]);
          return Some(store[key]), store;
        }
        assert store' == store - {key};
      }
    }
  }

  /** A slot that is gone after placing and evicting has its key among those placed. */
  lemma GonePlaced(slots: seq<MirrorSlot>, key: Key, row: Row, cap: nat)
    requires UniqueKeys(slots)
    ensures forall gone :: gone in slots && Get(Newest(Place(slots, key, row), cap), gone.key).None? ==>
              exists s :: s in Place(slots, key, row) && s.key == gone.key
  {
    forall gone | gone in slots && Get(Newest(Place(slots, key, row), cap), gone.key).None?
      ensures exists s :: s in Place(slots, key, row) && s.key == gone.key
    {
      var all := Place(slots, key, row);
      var i :| 0 <= i < |slots| && slots[i] == gone;
      GetAt(slots, i);
      GetPlace(slots, key, row, gone.key);
      assert all[Find(all, gone.key)] in all;
    }
  }

  lemma ProbedKeeps(slots: seq<MirrorSlot>, key: Key, now: real)
    requires UniqueKeys(slots)
    ensures UniqueKeys(Probed(slots, key, now).1) && Get(Probed(slots, key, now).1, key) == Probed(slots, key, now).0
    ensures OthersKept(slots, Probed(slots, key, now).1, key)
  {
    DropShape(slots, key);
    GetDrop(slots, key, key);
    forall k | k != key ensures Get(Drop(slots, key), k) == Get(slots, k) {
      GetDrop(slots, key, k);
    }
    if Get(slots, key).Some? {
      PlaceKeeps(slots, key, Get(slots, key).value);
    }
    hide Get, Drop, Place, UniqueKeys;
  }

  lemma PlaceKeeps(slots: seq<MirrorSlot>, key: Key, row: Row)
    requires UniqueKeys(slots)
    ensures UniqueKeys(Place(slots, key, row)) && Get(Place(slots, key, row), key) == Some(row)
    ensures OthersKept(slots, Place(slots, key, row), key)
    ensures |Place(slots, key, row)| == |slots| + if Get(slots, key).Some? then 0 else 1
    ensures Find(Place(slots, key, row), key) == |Place(slots, key, row)| - 1
  {
    PlaceShape(slots, key, row);
    GetPlace(slots, key, row, key);
    forall k | k != key ensures Get(Place(slots, key, row), k) == Get(slots, k) {
      GetPlace(slots, key, row, k);
    }
    GetDrop(slots, key, key);
    FindSnoc(Drop(slots, key), Slot(key, row), key);
  }

  lemma NewestKeeps(slots: seq<MirrorSlot>, cap: nat)
    requires UniqueKeys(slots)
    ensures UniqueKeys(Newest(slots, cap))
    ensures forall k :: Get(Newest(slots, cap), k) == Get(slots, k) || Get(Newest(slots, cap), k) == None
    ensures forall k :: Find(slots, k) + cap >= |slots| ==> Get(Newest(slots, cap), k) == Get(slots, k)
  {
    forall k
      ensures Get(Newest(slots, cap), k) == Get(slots, k) || Get(Newest(slots, cap), k) == None
      ensures Find(slots, k) + cap >= |slots| ==> Get(Newest(slots, cap), k) == Get(slots, k)
    {
      GetNewest(slots, cap, k);
    }
  }

  // ------------------------------------------------------------------
  // The store
  // ------------------------------------------------------------------

  /** `Tier1Store.put`: insert or replace, then the rows that expire first go down to the cap. */
  ghost predicate StorePut(limits: Limits, before: map<Key, Row>, key: Key, row: Row, after: map<Key, Row>) {
    var full := before[key := row];
    && after.Keys <= full.Keys && (forall k :: k in after ==> after[k] == full[k])
    && |after| == (if |full| > limits.rows then limits.rows else |full|)
    && (forall gone, kept :: gone in full && gone !in after && kept in after ==>
          full[gone].expiresAt <= full[kept].expiresAt)
  }

  // ------------------------------------------------------------------
  // Interleavings
  // ------------------------------------------------------------------

  /** An operation between two of its steps. */
  datatype Op =
    | Getting(key: Key, began: real)
    | Missed(key: Key, began: real)
    | Holding(key: Key, began: real, row: Row)
    | Putting(key: Key, payload: string, began: real)
    | Stored(key: Key, row: Row)

  datatype PutRecord = PutRecord(key: Key, payload: string, at: real)

  datatype Served = Served(key: Key, payload: string, began: real)

  /** puts lists the puts in the order their rows reached the store, served the answers given. */
  datatype World = World(clock: real, store: map<Key, Row>, mirror: seq<MirrorSlot>, ops: map<nat, Op>,
                         puts: seq<PutRecord>, served: seq<Served>)

  /** `Abandon` is an operation that dies at an await, `HalfPut` a put whose row is inserted and which
      then dies in the store, before anything is evicted. */
  datatype Step =
    | Tick(now: real)
    | StartGet(id: nat, key: Key)
    | Probe(id: nat)
    | ReadStore(id: nat)
    | Fill(id: nat)
    | StartPut(id: nat, key: Key, payload: string)
    | WriteStore(id: nat, rows: map<Key, Row>)
    | WriteMirror(id: nat)
    | Abandon(id: nat)
    | HalfPut(id: nat)
    | Restart(rows: map<Key, Row>, slots: seq<MirrorSlot>)

  ghost predicate Rehydrated(limits: Limits, w: World, slots: seq<MirrorSlot>) {
    && |slots| <= limits.mirror && UniqueKeys(slots)
    && forall s :: s in slots ==> s.key in w.store && w.store[s.key] == s.value && s.value.expiresAt >= w.clock
  }

  ghost predicate Enabled(limits: Limits, w: World, step: Step) {
    match step
    case Tick(now) => now >= w.clock
    case StartGet(id, _) => id !in w.ops
    case Probe(id) => id in w.ops && w.ops[id].Getting?
    case ReadStore(id) => id in w.ops && w.ops[id].Missed?
    case Fill(id) => id in w.ops && w.ops[id].Holding?
    case StartPut(id, _, _) => id !in w.ops
    case WriteStore(id, rows) =>
      id in w.ops && w.ops[id].Putting?
      && StorePut(limits, w.store, w.ops[id].key, RowOf(w.ops[id].payload, w.ops[id].began), rows)
    case WriteMirror(id) => id in w.ops && w.ops[id].Stored?
    case Abandon(id) => id in w.ops
    case HalfPut(id) => id in w.ops && w.ops[id].Putting?
    case Restart(rows, slots) =>
      rows.Keys <= w.store.Keys && (forall k :: k in rows ==> rows[k] == w.store[k])
      && Rehydrated(limits, w.(store := rows), slots)
  }

  function RowOf(payload: string, at: real): Row { Row(payload, at + TTL_SECONDS) }

  ghost function Apply(limits: Limits, w: World, step: Step): World
    requires Enabled(limits, w, step)
  {
    match step
    case Tick(now) => w.(clock := now)
    case StartGet(id, key) => w.(ops := w.ops[id := Getting(key, w.clock)])
    case Probe(id) =>
      var op := w.ops[id];
      (match Probed(w.mirror, op.key, op.began)
       case (Some(row), slots) =>
         w.(mirror := slots, ops := w.ops - {id}, served := w.served + [Served(op.key, row.payload, op.began)])
       case (None, slots) => w.(mirror := slots, ops := w.ops[id := Missed(op.key, op.began)]))
    case ReadStore(id) =>
      var op := w.ops[id];
      if op.key !in w.store then w.(ops := w.ops - {id})
      else if w.store[op.key].expiresAt < w.clock then w.(store := w.store - {op.key}, ops := w.ops - {id})
      else w.(ops := w.ops[id := Holding(op.key, op.began, w.store[op.key])])
    case Fill(id) =>
      var op := w.ops[id];
      w.(mirror := Place(w.mirror, op.key, op.row), ops := w.ops - {id},
         served := w.served + [Served(op.key, op.row.payload, op.began)])
    case StartPut(id, key, payload) => w.(ops := w.ops[id := Putting(key, payload, w.clock)])
    case WriteStore(id, rows) =>
      var op := w.ops[id];
      w.(store := rows, ops := w.ops[id := Stored(op.key, RowOf(op.payload, op.began))],
         puts := w.puts + [PutRecord(op.key, op.payload, op.began)])
    case WriteMirror(id) =>
      var op := w.ops[id];
      w.(mirror := Newest(Place(w.mirror, op.key, op.row), limits.mirror), ops := w.ops - {id})
    case Abandon(id) => w.(ops := w.ops - {id})
    case HalfPut(id) =>
      var op := w.ops[id];
      w.(store := w.store[op.key := RowOf(op.payload, op.began)], ops := w.ops - {id},
         puts := w.puts + [PutRecord(op.key, op.payload, op.began)])
    case Restart(rows, slots) => w.(store := rows, mirror := slots, ops := map[])
  }

  /** A put dies between its row and the mirror. */
  predicate PutDies(w: World, step: Step) {
    match step
    case Abandon(id) => id in w.ops && w.ops[id].Stored?
    case HalfPut(_) => true
    case _ => false
  }

  /** No put of the run does. */
  ghost predicate Unbroken(steps: seq<Step>, worlds: seq<World>)
    requires |steps| <= |worlds|
  {
    forall i :: 0 <= i < |steps| ==> !PutDies(worlds[i], steps[i])
  }

  ghost predicate IsRun(limits: Limits, steps: seq<Step>, worlds: seq<World>) {
    && |worlds| == |steps| + 1
    && (exists clock :: worlds[0] == World(clock, map[], [], map[], [], []))
    && forall i :: 0 <= i < |steps| ==>
         Enabled(limits, worlds[i], steps[i]) && worlds[i + 1] == Apply(limits, worlds[i], steps[i])
  }

  // ------------------------------------------------------------------
  // Every interleaving: served payloads are genuine and fresh
  // ------------------------------------------------------------------

  /** The row is what some put of this key stored, with that put's expiry. */
  ghost predicate Genuine(puts: seq<PutRecord>, key: Key, row: Row) {
    exists p :: p in puts && p.key == key && row == RowOf(p.payload, p.at)
  }

  ghost predicate OpSound(w: World, op: Op) {
    match op
    case Getting(_, began) => began <= w.clock
    case Missed(_, began) => began <= w.clock
    case Holding(key, began, row) => Genuine(w.puts, key, row) && row.expiresAt >= began
    case Putting(_, _, _) => true
    case Stored(key, row) => Genuine(w.puts, key, row)
  }

  ghost predicate ServedSound(puts: seq<PutRecord>, s: Served) {
    exists p :: p in puts && p.key == s.key && p.payload == s.payload && p.at + TTL_SECONDS >= s.began
  }

  ghost predicate Sound(w: World) {
    && UniqueKeys(w.mirror)
    && (forall k :: k in w.store ==> Genuine(w.puts, k, w.store[k]))
    && (forall s :: s in w.mirror ==> Genuine(w.puts, s.key, s.value))
    && (forall id :: id in w.ops ==> OpSound(w, w.ops[id]))
    && (forall s :: s in w.served ==> ServedSound(w.puts, s))
  }

  lemma ProbedShape(mirror: seq<MirrorSlot>, key: Key, now: real)
    requires UniqueKeys(mirror)
    ensures UniqueKeys(Probed(mirror, key, now).1)
    ensures forall s :: s in Probed(mirror, key, now).1 ==> s in mirror
    ensures Probed(mirror, key, now).0.Some? ==>
      Slot(key, Probed(mirror, key, now).0.value) in mirror && Probed(mirror, key, now).0.value.expiresAt >= now
  {
    DropShape(mirror, key);
    DroppedOnly(mirror, key);
    var i := Find(mirror, key);
    if i < |mirror| {
      assert mirror[i] == Slot(key, mirror[i].value);
      PlaceShape(mirror, key, mirror[i].value);
    }
  }

  lemma NewestShape(slots: seq<MirrorSlot>, cap: nat)
    requires UniqueKeys(slots)
    ensures UniqueKeys(Newest(slots, cap)) && |Newest(slots, cap)| <= cap
    ensures forall s :: s in Newest(slots, cap) ==> s in slots
  {
  }

  lemma GenuineGrows(puts: seq<PutRecord>, put: PutRecord)
    ensures forall key, row :: Genuine(puts, key, row) ==> Genuine(puts + [put], key, row)
    ensures Genuine(puts + [put], put.key, RowOf(put.payload, put.at))
    ensures forall s :: ServedSound(puts, s) ==> ServedSound(puts + [put], s)
  {
    assert put in puts + [put];
    forall key, row | Genuine(puts, key, row) ensures Genuine(puts + [put], key, row) {
      var p :| p in puts && p.key == key && row == RowOf(p.payload, p.at);
      assert p in puts + [put];
    }
    forall s | ServedSound(puts, s) ensures ServedSound(puts + [put], s) {
      var p :| p in puts && p.key == s.key && p.payload == s.payload && p.at + TTL_SECONDS >= s.began;
      assert p in puts + [put];
    }
  }

  lemma GenuineServes(puts: seq<PutRecord>, key: Key, row: Row, began: real)
    requires Genuine(puts, key, row) && row.expiresAt >= began
    ensures ServedSound(puts, Served(key, row.payload, began))
  {
    var p :| p in puts && p.key == key && row == RowOf(p.payload, p.at);
    assert p in puts && p.payload == row.payload && p.at + TTL_SECONDS >= began;
  }

  lemma ProbeSound(limits: Limits, w: World, id: nat)
    requires Sound(w) && Enabled(limits, w, Probe(id))
    ensures Sound(Apply(limits, w, Probe(id)))
  {
    hide Genuine, ServedSound, Probed;
    var op := w.ops[id];
    assert OpSound(w, op);
    ProbedShape(w.mirror, op.key, op.began);
    var hit := Probed(w.mirror, op.key, op.began).0;
    if hit.Some? {
      assert Genuine(w.puts, op.key, hit.value);
      GenuineServes(w.puts, op.key, hit.value, op.began);
    }
  }

  lemma FillSound(limits: Limits, w: World, id: nat)
    requires Sound(w) && Enabled(limits, w, Fill(id))
    ensures Sound(Apply(limits, w, Fill(id)))
  {
    hide Genuine, ServedSound, Place;
    var op := w.ops[id];
    assert OpSound(w, op);
    PlaceShape(w.mirror, op.key, op.row);
    GenuineServes(w.puts, op.key, op.row, op.began);
  }

  lemma WriteStoreSound(limits: Limits, w: World, id: nat, rows: map<Key, Row>)
    requires Sound(w) && Enabled(limits, w, WriteStore(id, rows))
    ensures Sound(Apply(limits, w, WriteStore(id, rows)))
  {
    hide Genuine, ServedSound, RowOf;
    var op := w.ops[id];
    GenuineGrows(w.puts, PutRecord(op.key, op.payload, op.began));
    var w' := Apply(limits, w, WriteStore(id, rows));
    forall i | i in w'.ops ensures OpSound(w', w'.ops[i]) {
      if i != id { assert OpSound(w, w.ops[i]); }
    }
  }

  lemma WriteMirrorSound(limits: Limits, w: World, id: nat)
    requires Sound(w) && Enabled(limits, w, WriteMirror(id))
    ensures Sound(Apply(limits, w, WriteMirror(id)))
  {
    hide Genuine, ServedSound, Place, Newest;
    var op := w.ops[id];
    assert OpSound(w, op);
    PlaceShape(w.mirror, op.key, op.row);
    NewestShape(Place(w.mirror, op.key, op.row), limits.mirror);
  }

  lemma HalfPutSound(limits: Limits, w: World, id: nat)
    requires Sound(w) && Enabled(limits, w, HalfPut(id))
    ensures Sound(Apply(limits, w, HalfPut(id)))
  {
    hide Genuine, ServedSound, UniqueKeys;
    var op := w.ops[id];
    GenuineGrows(w.puts, PutRecord(op.key, op.payload, op.began));
  }

  lemma StepSound(limits: Limits, w: World, step: Step)
    requires Sound(w) && Enabled(limits, w, step)
    ensures Sound(Apply(limits, w, step))
  {
    hide Genuine, ServedSound, Probed, Place, Newest;
    match step {
      case Probe(id) => ProbeSound(limits, w, id);
      case Fill(id) => FillSound(limits, w, id);
      case WriteStore(id, rows) => WriteStoreSound(limits, w, id, rows);
      case WriteMirror(id) => WriteMirrorSound(limits, w, id);
      case ReadStore(id) => assert OpSound(w, w.ops[id]);
      case HalfPut(id) => HalfPutSound(limits, w, id);
      case _ =>
    }
  }

  lemma {:induction false} RunSound(limits: Limits, steps: seq<Step>, worlds: seq<World>, i: nat)
    requires IsRun(limits, steps, worlds) && i < |worlds|
    ensures Sound(worlds[i])
  {
    hide Sound, Apply, Enabled;
    if i == 0 {
      assert Sound(worlds[0]) by { StartSound(worlds[0]); }
    } else {
      RunSound(limits, steps, worlds, i - 1);
      StepSound(limits, worlds[i - 1], steps[i - 1]);
    }
  }

  lemma StartSound(w: World)
    requires exists clock :: w == World(clock, map[], [], map[], [], [])
    ensures Sound(w)
  {
  }

  /** However gets and puts interleave, restarts included: a served payload was put under the very
      key asked for, and that put's hour had not run out when the get began. */
  lemma ServedIsGenuine(limits: Limits, steps: seq<Step>, worlds: seq<World>, i: nat, s: Served)
    requires IsRun(limits, steps, worlds) && i < |worlds| && s in worlds[i].served
    ensures exists p :: p in worlds[i].puts && p.key == s.key && p.payload == s.payload && p.at + 3600.0 >= s.began
  {
    RunSound(limits, steps, worlds, i);
    assert ServedSound(worlds[i].puts, s);
  }

  /** No read ever extends a life: at any moment the expiry of every row, stored, mirrored or in a
      get's hands, is the expiry its put gave it. */
  lemma ExpiryIsThePuts(limits: Limits, steps: seq<Step>, worlds: seq<World>, i: nat, key: Key, row: Row)
    requires IsRun(limits, steps, worlds) && i < |worlds|
    requires || (key in worlds[i].store && worlds[i].store[key] == row)
             || Slot(key, row) in worlds[i].mirror
             || (exists id, began :: id in worlds[i].ops && worlds[i].ops[id] == Holding(key, began, row))
    ensures exists p :: p in worlds[i].puts && p.key == key && row == Row(p.payload, p.at + 3600.0)
  {
    RunSound(limits, steps, worlds, i);
    var w := worlds[i];
    if id, began :| id in w.ops && w.ops[id] == Holding(key, began, row) {
      assert OpSound(w, w.ops[id]);
    }
    assert Genuine(w.puts, key, row);
    var p :| p in w.puts && p.key == key && row == RowOf(p.payload, p.at);
    assert p in w.puts && row == Row(p.payload, p.at + TTL_SECONDS);
  }

  // ------------------------------------------------------------------
  // How large the mirror may grow
  // ------------------------------------------------------------------

  ghost function StoredIds(w: World): set<nat> { set id | id in w.ops && w.ops[id].Stored? }

  ghost function HoldingIds(w: World): set<nat> { set id | id in w.ops && w.ops[id].Holding? }

  ghost function KeysOf(ops: map<nat, Op>, ids: set<nat>): set<Key>
    requires ids <= ops.Keys
  {
    set id | id in ids :: ops[id].key
  }

  ghost predicate OpKey(ops: map<nat, Op>, ids: set<nat>, k: Key) {
    exists id :: id in ids && id in ops && ops[id].key == k
  }

  /** Accounts for the mirror since it was last trimmed: base is what the trim left, pool what the
      store and the gets under way could then bring back, late the puts whose row reached the store
      since, but not yet the mirror, before some get read it. */
  ghost predicate Accounted(limits: Limits, m: nat, w: World, base: set<Key>, pool: set<Key>, late: set<nat>) {
    && |base| <= limits.mirror && |pool| <= limits.rows + m && |late| <= m
    && |w.store| <= limits.rows && UniqueKeys(w.mirror)
    && late <= StoredIds(w)
    && (forall s :: s in w.mirror ==> s.key in base || s.key in pool || OpKey(w.ops, late, s.key))
    && (forall id :: id in w.ops && w.ops[id].Holding? ==> w.ops[id].key in pool || OpKey(w.ops, late, w.ops[id].key))
    && (forall k :: k in w.store ==> k in pool || OpKey(w.ops, StoredIds(w), k))
  }

  lemma SubsetSize<T>(a: set<T>, b: set<T>)
    requires a <= b
    ensures |a| <= |b|
  {
    assert b == a + (b - a);
  }

  lemma {:induction false} KeysOfSize(ops: map<nat, Op>, ids: set<nat>)
    requires ids <= ops.Keys
    ensures |KeysOf(ops, ids)| <= |ids|
  {
    if ids == {} {
      assert KeysOf(ops, ids) == {};
    } else {
      var x :| x in ids;
      KeysOfSize(ops, ids - {x});
      assert KeysOf(ops, ids) == KeysOf(ops, ids - {x}) + {ops[x].key};
    }
  }

  /** Those of one kind are fewer than the operations when one is of another kind. */
  lemma KindSize(w: World, id: nat)
    requires id in w.ops
    ensures !w.ops[id].Stored? ==> |StoredIds(w)| <= |w.ops| - 1
    ensures !w.ops[id].Holding? ==> |HoldingIds(w)| <= |w.ops| - 1
  {
    if !w.ops[id].Stored? { SubsetSize(StoredIds(w), w.ops.Keys - {id}); }
    if !w.ops[id].Holding? { SubsetSize(HoldingIds(w), w.ops.Keys - {id}); }
  }

  lemma {:induction false} SlotKeysSize(slots: seq<MirrorSlot>)
    requires UniqueKeys(slots)
    ensures |set s | s in slots :: s.key| == |slots|
  {
    var keys := set s | s in slots :: s.key;
    if slots == [] {
      assert keys == {};
    } else {
      var n := |slots| - 1;
      SlotKeysSize(slots[..n]);
      var front := set s | s in slots[..n] :: s.key;
      assert slots == slots[..n] + [slots[n]];
      assert keys == front + {slots[n].key};
      assert slots[n].key !in front;
    }
  }

  /** Operations in ids that are the same afterwards keep their keys. */
  lemma OpKeyKept(before: map<nat, Op>, after: map<nat, Op>, ids: set<nat>, ids': set<nat>)
    requires ids <= ids' && forall id :: id in ids && id in before ==> id in after && after[id] == before[id]
    ensures forall k :: OpKey(before, ids, k) ==> OpKey(after, ids', k)
  {
    forall k | OpKey(before, ids, k) ensures OpKey(after, ids', k) {
      var id :| id in ids && id in before && before[id].key == k;
      assert id in ids' && id in after && after[id].key == k;
    }
  }

  lemma ReadStoreAccounted(limits: Limits, m: nat, w: World, id: nat, base: set<Key>, pool: set<Key>, late: set<nat>)
    requires |w.ops| <= m + 1 && Accounted(limits, m, w, base, pool, late)
    requires Enabled(limits, w, ReadStore(id))
    ensures Accounted(limits, m, Apply(limits, w, ReadStore(id)), base, pool, StoredIds(w))
  {
    hide OpKey;
    KindSize(w, id);
    var w' := Apply(limits, w, ReadStore(id));
    assert StoredIds(w') == StoredIds(w);
    OpKeyKept(w.ops, w'.ops, late, StoredIds(w));
    OpKeyKept(w.ops, w'.ops, StoredIds(w), StoredIds(w));
    SubsetSize(w'.store.Keys, w.store.Keys);
  }

  lemma WriteStoreAccounted(limits: Limits, m: nat, w: World, id: nat, rows: map<Key, Row>,
                            base: set<Key>, pool: set<Key>, late: set<nat>)
    requires Accounted(limits, m, w, base, pool, late)
    requires Enabled(limits, w, WriteStore(id, rows))
    ensures Accounted(limits, m, Apply(limits, w, WriteStore(id, rows)), base, pool, late)
  {
    var w' := Apply(limits, w, WriteStore(id, rows));
    OpKeyKept(w.ops, w'.ops, late, late);
    OpKeyKept(w.ops, w'.ops, StoredIds(w), StoredIds(w'));
    assert OpKey(w'.ops, StoredIds(w'), w.ops[id].key) by { assert id in StoredIds(w'); }
    hide OpKey;
  }

  lemma ProbeAccounted(limits: Limits, m: nat, w: World, id: nat, base: set<Key>, pool: set<Key>, late: set<nat>)
    requires Accounted(limits, m, w, base, pool, late) && Enabled(limits, w, Probe(id))
    ensures Accounted(limits, m, Apply(limits, w, Probe(id)), base, pool, late)
  {
    hide OpKey, Probed, UniqueKeys;
    var w' := Apply(limits, w, Probe(id));
    assert StoredIds(w') == StoredIds(w);
    OpKeyKept(w.ops, w'.ops, late, late);
    OpKeyKept(w.ops, w'.ops, StoredIds(w), StoredIds(w'));
    ProbedShape(w.mirror, w.ops[id].key, w.ops[id].began);
  }

  lemma FillAccounted(limits: Limits, m: nat, w: World, id: nat, base: set<Key>, pool: set<Key>, late: set<nat>)
    requires Accounted(limits, m, w, base, pool, late) && Enabled(limits, w, Fill(id))
    ensures Accounted(limits, m, Apply(limits, w, Fill(id)), base, pool, late)
  {
    hide OpKey, Place, UniqueKeys;
    var w' := Apply(limits, w, Fill(id));
    assert StoredIds(w') == StoredIds(w);
    OpKeyKept(w.ops, w'.ops, late, late);
    OpKeyKept(w.ops, w'.ops, StoredIds(w), StoredIds(w'));
    PlaceShape(w.mirror, w.ops[id].key, w.ops[id].row);
  }

  lemma AbandonAccounted(limits: Limits, m: nat, w: World, id: nat, base: set<Key>, pool: set<Key>, late: set<nat>)
    requires Accounted(limits, m, w, base, pool, late) && id in w.ops && !w.ops[id].Stored?
    ensures Accounted(limits, m, Apply(limits, w, Abandon(id)), base, pool, late)
  {
    hide OpKey, UniqueKeys;
    var w' := Apply(limits, w, Abandon(id));
    assert StoredIds(w') == StoredIds(w);
    OpKeyKept(w.ops, w'.ops, late, late);
    OpKeyKept(w.ops, w'.ops, StoredIds(w), StoredIds(w'));
  }

  lemma StartAccounted(limits: Limits, m: nat, w: World, step: Step, base: set<Key>, pool: set<Key>, late: set<nat>)
    requires Accounted(limits, m, w, base, pool, late) && Enabled(limits, w, step)
    requires step.Tick? || step.StartGet? || step.StartPut?
    ensures Accounted(limits, m, Apply(limits, w, step), base, pool, late)
  {
    hide OpKey, UniqueKeys;
    var w' := Apply(limits, w, step);
    assert StoredIds(w') == StoredIds(w);
    OpKeyKept(w.ops, w'.ops, late, late);
    OpKeyKept(w.ops, w'.ops, StoredIds(w), StoredIds(w'));
  }

  lemma WriteMirrorAccounted(limits: Limits, m: nat, w: World, id: nat, base: set<Key>, pool: set<Key>, late: set<nat>)
    returns (base': set<Key>, pool': set<Key>)
    requires |w.ops| <= m + 1 && Accounted(limits, m, w, base, pool, late)
    requires Enabled(limits, w, WriteMirror(id))
    ensures Accounted(limits, m, Apply(limits, w, WriteMirror(id)), base', pool', {})
  {
    assert |w.store| <= limits.rows && UniqueKeys(w.mirror);
    hide Place, Newest, UniqueKeys, OpKey, Accounted;
    var w' := Apply(limits, w, WriteMirror(id));
    base' := set s | s in w'.mirror :: s.key;
    pool' := w.store.Keys + KeysOf(w.ops, HoldingIds(w));
    PlaceShape(w.mirror, w.ops[id].key, w.ops[id].row);
    NewestShape(Place(w.mirror, w.ops[id].key, w.ops[id].row), limits.mirror);
    SlotKeysSize(w'.mirror);
    KindSize(w, id);
    KeysOfSize(w.ops, HoldingIds(w));
    HoldingKeys(w);
    TrimmedAccounted(limits, m, w', base', pool');
  }

  lemma HoldingKeys(w: World)
    ensures forall i :: i in w.ops && w.ops[i].Holding? ==> w.ops[i].key in KeysOf(w.ops, HoldingIds(w))
  {
    forall i | i in w.ops && w.ops[i].Holding? ensures w.ops[i].key in KeysOf(w.ops, HoldingIds(w)) {
      assert i in HoldingIds(w);
    }
  }

  /** Right after a trim nothing is late. */
  lemma TrimmedAccounted(limits: Limits, m: nat, w: World, base: set<Key>, pool: set<Key>)
    requires |base| <= limits.mirror && |pool| <= limits.rows + m && |w.store| <= limits.rows && UniqueKeys(w.mirror)
    requires w.store.Keys <= pool && forall s :: s in w.mirror ==> s.key in base
    requires forall i :: i in w.ops && w.ops[i].Holding? ==> w.ops[i].key in pool
    ensures Accounted(limits, m, w, base, pool, {})
  {
    hide UniqueKeys, OpKey;
  }

  lemma RestartAccounted(limits: Limits, m: nat, w: World, rows: map<Key, Row>, slots: seq<MirrorSlot>)
    returns (base': set<Key>, pool': set<Key>)
    requires |w.store| <= limits.rows && Enabled(limits, w, Restart(rows, slots))
    ensures Accounted(limits, m, Apply(limits, w, Restart(rows, slots)), base', pool', {})
  {
    hide UniqueKeys, OpKey;
    base', pool' := set s | s in slots :: s.key, rows.Keys;
    SlotKeysSize(slots);
    SubsetSize(rows.Keys, w.store.Keys);
  }

  lemma StepAccounted(limits: Limits, m: nat, w: World, step: Step, base: set<Key>, pool: set<Key>, late: set<nat>)
    returns (base': set<Key>, pool': set<Key>, late': set<nat>)
    requires |w.ops| <= m + 1 && Accounted(limits, m, w, base, pool, late)
    requires Enabled(limits, w, step) && !PutDies(w, step)
    ensures Accounted(limits, m, Apply(limits, w, step), base', pool', late')
  {
    assert |w.store| <= limits.rows;
    hide Accounted;
    base', pool', late' := base, pool, late;
    match step {
      case ReadStore(id) =>
        ReadStoreAccounted(limits, m, w, id, base, pool, late);
        late' := StoredIds(w);
      case WriteStore(id, rows) => WriteStoreAccounted(limits, m, w, id, rows, base, pool, late);
      case Probe(id) => ProbeAccounted(limits, m, w, id, base, pool, late);
      case Fill(id) => FillAccounted(limits, m, w, id, base, pool, late);
      case WriteMirror(id) =>
        base', pool' := WriteMirrorAccounted(limits, m, w, id, base, pool, late);
        late' := {};
      case Restart(rows, slots) =>
        base', pool' := RestartAccounted(limits, m, w, rows, slots);
        late' := {};
      case Abandon(id) => AbandonAccounted(limits, m, w, id, base, pool, late);
      case _ => StartAccounted(limits, m, w, step, base, pool, late);
    }
  }

  /** At most m + 1 operations are ever in flight at once. */
  ghost predicate AtMost(worlds: seq<World>, m: nat) {
    forall i :: 0 <= i < |worlds| ==> |worlds[i].ops| <= m + 1
  }

  lemma {:induction false} RunAccounted(limits: Limits, steps: seq<Step>, worlds: seq<World>, m: nat, i: nat)
    returns (base: set<Key>, pool: set<Key>, late: set<nat>)
    requires IsRun(limits, steps, worlds) && Unbroken(steps, worlds) && AtMost(worlds, m) && i < |worlds|
    ensures Accounted(limits, m, worlds[i], base, pool, late)
  {
    hide Apply, Enabled;
    if i == 0 {
      base, pool, late := {}, {}, {};
    } else {
      hide Accounted;
      base, pool, late := RunAccounted(limits, steps, worlds, m, i - 1);
      base, pool, late := StepAccounted(limits, m, worlds[i - 1], steps[i - 1], base, pool, late);
    }
  }

  /** With at most m + 1 operations in flight, and no put dying between its row and the mirror, the mirror
      never exceeds its capacity plus the store's by more than 2 m; in sequential runs, m being 0, not
      at all. */
  lemma MirrorIsBounded(limits: Limits, steps: seq<Step>, worlds: seq<World>, m: nat, i: nat)
    requires IsRun(limits, steps, worlds) && Unbroken(steps, worlds) && AtMost(worlds, m) && i < |worlds|
    ensures |worlds[i].mirror| <= limits.mirror + limits.rows + 2 * m
  {
    hide IsRun, AtMost;
    var base, pool, late := RunAccounted(limits, steps, worlds, m, i);
    var w := worlds[i];
    SlotKeysSize(w.mirror);
    KeysOfSize(w.ops, late);
    var keys := set s | s in w.mirror :: s.key;
    assert keys <= base + pool + KeysOf(w.ops, late);
    SubsetSize(keys, base + pool + KeysOf(w.ops, late));
  }

  // ------------------------------------------------------------------
  // Sequential runs serve the latest put
  // ------------------------------------------------------------------

  ghost function Latest(puts: seq<PutRecord>, key: Key): Option<PutRecord> {
    if puts == [] then None
    else if puts[|puts| - 1].key == key then Some(puts[|puts| - 1])
    else Latest(puts[..|puts| - 1], key)
  }

  ghost predicate IsLatest(puts: seq<PutRecord>, key: Key, row: Row) {
    match Latest(puts, key)
    case None => false
    case Some(p) => row == RowOf(p.payload, p.at)
  }

  /** A put on its way from the store to the mirror. */
  ghost predicate Updating(w: World, key: Key) {
    exists id :: id in w.ops && w.ops[id].Stored? && w.ops[id].key == key
  }

  /** Store and mirror hold latest puts only, but for the mirror entry a put is about to replace. */
  ghost predicate Current(w: World) {
    && UniqueKeys(w.mirror)
    && (forall k :: k in w.store ==> IsLatest(w.puts, k, w.store[k]))
    && (forall s :: s in w.mirror && !Updating(w, s.key) ==> IsLatest(w.puts, s.key, s.value))
    && (forall id :: id in w.ops && w.ops[id].Holding? ==> IsLatest(w.puts, w.ops[id].key, w.ops[id].row))
    && (forall id :: id in w.ops && w.ops[id].Stored? ==> IsLatest(w.puts, w.ops[id].key, w.ops[id].row))
  }

  /** What a step that answers a get serves. */
  ghost predicate Serves(limits: Limits, w: World, step: Step, s: Served) {
    Enabled(limits, w, step) && Apply(limits, w, step).served == w.served + [s]
  }

  lemma LatestAfterPut(puts: seq<PutRecord>, put: PutRecord)
    ensures forall key, row :: key != put.key ==> (IsLatest(puts + [put], key, row) <==> IsLatest(puts, key, row))
    ensures IsLatest(puts + [put], put.key, RowOf(put.payload, put.at))
  {
    assert (puts + [put])[..|puts|] == puts;
  }

  /** With one operation in flight nothing but that operation is between two steps. */
  lemma OnlyOp(w: World, id: nat)
    requires |w.ops| <= 1 && id in w.ops
    ensures forall i :: i in w.ops ==> i == id
    ensures !w.ops[id].Stored? ==> forall key :: !Updating(w, key)
  {
    forall i | i in w.ops ensures i == id {
      assert i != id ==> |{i, id}| == 2;
      SubsetSize({i, id}, w.ops.Keys);
    }
  }

  lemma ProbeCurrent(limits: Limits, w: World, id: nat)
    requires |w.ops| <= 1 && Current(w) && Enabled(limits, w, Probe(id))
    ensures Current(Apply(limits, w, Probe(id)))
    ensures forall s :: Serves(limits, w, Probe(id), s) ==>
      Latest(w.puts, s.key).Some? && Latest(w.puts, s.key).value.payload == s.payload
  {
    hide Probed, UniqueKeys, Latest;
    OnlyOp(w, id);
    var op := w.ops[id];
    ProbedShape(w.mirror, op.key, op.began);
    var hit := Probed(w.mirror, op.key, op.began).0;
    if hit.Some? {
      assert IsLatest(w.puts, op.key, hit.value);
      ServedOne(w.served, Served(op.key, hit.value.payload, op.began));
    } else {
      forall s ensures !Serves(limits, w, Probe(id), s) {}
    }
  }

  lemma ServedOne(served: seq<Served>, x: Served)
    ensures forall s :: served + [x] == served + [s] ==> s == x
  {
    forall s | served + [x] == served + [s] ensures s == x {
      assert (served + [x])[|served|] == (served + [s])[|served|];
    }
  }

  lemma FillCurrent(limits: Limits, w: World, id: nat)
    requires |w.ops| <= 1 && Current(w) && Enabled(limits, w, Fill(id))
    ensures Current(Apply(limits, w, Fill(id)))
    ensures forall s :: Serves(limits, w, Fill(id), s) ==>
      Latest(w.puts, s.key).Some? && Latest(w.puts, s.key).value.payload == s.payload
  {
    hide Place, UniqueKeys, Latest;
    OnlyOp(w, id);
    var op := w.ops[id];
    PlaceShape(w.mirror, op.key, op.row);
    assert IsLatest(w.puts, op.key, op.row);
    ServedOne(w.served, Served(op.key, op.row.payload, op.began));
  }

  lemma WriteStoreCurrent(limits: Limits, w: World, id: nat, rows: map<Key, Row>)
    requires |w.ops| <= 1 && Current(w) && Enabled(limits, w, WriteStore(id, rows))
    ensures Current(Apply(limits, w, WriteStore(id, rows)))
  {
    OnlyOp(w, id);
    var op := w.ops[id];
    LatestAfterPut(w.puts, PutRecord(op.key, op.payload, op.began));
    var w' := Apply(limits, w, WriteStore(id, rows));
    hide Latest, IsLatest, UniqueKeys;
    assert Updating(w', op.key) by { assert w'.ops[id].Stored?; }
  }

  lemma WriteMirrorCurrent(limits: Limits, w: World, id: nat)
    requires |w.ops| <= 1 && Current(w) && Enabled(limits, w, WriteMirror(id))
    ensures Current(Apply(limits, w, WriteMirror(id)))
  {
    hide Place, Newest, UniqueKeys, Latest, IsLatest;
    OnlyOp(w, id);
    var op := w.ops[id];
    PlaceShape(w.mirror, op.key, op.row);
    NewestShape(Place(w.mirror, op.key, op.row), limits.mirror);
    forall s | s in w.mirror && s.key != op.key ensures !Updating(w, s.key) {}
  }

  lemma RestartCurrent(limits: Limits, w: World, rows: map<Key, Row>, slots: seq<MirrorSlot>)
    requires Current(w) && Enabled(limits, w, Restart(rows, slots))
    ensures Current(Apply(limits, w, Restart(rows, slots)))
  {
    hide UniqueKeys, Latest, IsLatest;
  }

  lemma ReadStoreCurrent(limits: Limits, w: World, id: nat)
    requires |w.ops| <= 1 && Current(w) && Enabled(limits, w, Step.ReadStore(id))
    ensures Current(Apply(limits, w, Step.ReadStore(id)))
  {
    hide UniqueKeys, Latest, IsLatest;
    OnlyOp(w, id);
  }

  lemma AbandonCurrent(limits: Limits, w: World, id: nat)
    requires |w.ops| <= 1 && Current(w) && id in w.ops && !w.ops[id].Stored?
    ensures Current(Apply(limits, w, Abandon(id)))
  {
    hide UniqueKeys, Latest, IsLatest;
    OnlyOp(w, id);
  }

  lemma OtherCurrent(limits: Limits, w: World, step: Step)
    requires |w.ops| <= 1 && Current(w) && Enabled(limits, w, step)
    requires |Apply(limits, w, step).ops| <= 1
    requires step.Tick? || step.StartGet? || step.StartPut?
    ensures Current(Apply(limits, w, step))
  {
    hide UniqueKeys, Latest, IsLatest;
    var w' := Apply(limits, w, step);
    if step.StartGet? || step.StartPut? {
      assert w'.ops.Keys == w.ops.Keys + {step.id};
      assert |w.ops.Keys| == 0;
      assert w.ops == map[];
    } else {
      assert forall key :: Updating(w', key) ==> Updating(w, key);
    }
  }

  lemma StepCurrent(limits: Limits, w: World, step: Step)
    requires |w.ops| <= 1 && Current(w) && Enabled(limits, w, step)
    requires |Apply(limits, w, step).ops| <= 1 && !PutDies(w, step)
    ensures Current(Apply(limits, w, step))
    ensures forall s :: Serves(limits, w, step, s) ==>
      Latest(w.puts, s.key).Some? && Latest(w.puts, s.key).value.payload == s.payload
  {
    match step {
      case Probe(id) => ProbeCurrent(limits, w, id);
      case Fill(id) => FillCurrent(limits, w, id);
      case WriteStore(id, rows) => WriteStoreCurrent(limits, w, id, rows);
      case WriteMirror(id) => WriteMirrorCurrent(limits, w, id);
      case Restart(rows, slots) => RestartCurrent(limits, w, rows, slots);
      case ReadStore(id) => ReadStoreCurrent(limits, w, id);
      case Abandon(id) => AbandonCurrent(limits, w, id);
      case _ => OtherCurrent(limits, w, step);
    }
  }

  lemma {:induction false} RunCurrent(limits: Limits, steps: seq<Step>, worlds: seq<World>, i: nat)
    requires IsRun(limits, steps, worlds) && Unbroken(steps, worlds) && AtMost(worlds, 0) && i < |worlds|
    ensures Current(worlds[i])
  {
    if i > 0 {
      hide Current, Apply, Enabled;
      RunCurrent(limits, steps, worlds, i - 1);
      assert |worlds[i].ops| <= 1;
      StepCurrent(limits, worlds[i - 1], steps[i - 1]);
    }
  }

  /** When operations do not overlap and no put dies between its row and the mirror, whatever is served
      is the payload of the latest put of the key. */
  lemma SequentialServesLatest(limits: Limits, steps: seq<Step>, worlds: seq<World>, i: nat, s: Served)
    requires IsRun(limits, steps, worlds) && Unbroken(steps, worlds) && AtMost(worlds, 0) && i < |steps|
    requires worlds[i + 1].served == worlds[i].served + [s]
    ensures exists p :: Latest(worlds[i].puts, s.key) == Some(p) && p.payload == s.payload
  {
    RunCurrent(limits, steps, worlds, i);
    StepCurrent(limits, worlds[i], steps[i]);
    assert Serves(limits, worlds[i], steps[i], s);
  }
}
