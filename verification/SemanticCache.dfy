/** Tier 2 of the retrieval cache: a ring buffer of recent query embeddings and a positional
    vector index over it (`_tier2_lookup`, `_tier2_put`, `_rebuild_tier2_index` and
    `invalidate_corpus_version` in `server/cache.py`). Each method body is one critical section of
    the tier's lock. The digest is injective; a vector search is any answer the index may give. */
module SemanticCache {
  import opened OrderedDict
  import opened Prelude

  const RING_CAPACITY: nat := 1000
  const TTL_SECONDS: real := 900.0
  const COSINE_THRESHOLD: real := 0.97
  const TOP_K: nat := 8

  datatype Embedding = Embedding(bytes: seq<int>)

  datatype Digest = Sha256(bytes: seq<int>)

  function SlotKey(e: Embedding): Digest { Sha256(e.bytes) }

  /** scope stands for the fingerprint of filters, level, corpus version and embedder. */
  datatype Entry = Entry(embedding: Embedding, scope: string, k: int, payload: string, expiresAt: real)

  type DictSlot = Slot<Digest, Entry>

  datatype Hit = Hit(payload: string, cosine: real, exactEmbedding: bool, cachedK: int)

  type Score = (Embedding, Embedding) -> real

  // ------------------------------------------------------------------
  // The index against the buffer
  // ------------------------------------------------------------------

  ghost predicate Distinct(keys: seq<Digest>) {
    forall i, j :: 0 <= i < j < |keys| ==> keys[i] != keys[j]
  }

  /** The keys of the index that are still live, in index order. */
  ghost function Live(keys: seq<Digest>, slots: seq<DictSlot>): seq<Digest> {
    if keys == [] then []
    else (if Get(slots, keys[0]).Some? then [keys[0]] else []) + Live(keys[1..], slots)
  }

  // ------------------------------------------------------------------
  // History
  // ------------------------------------------------------------------

  datatype Event =
    | Put(embedding: Embedding, scope: string, k: int, payload: string, at: real)
    | Invalidate

  /** The most recent put with this embedding since the last invalidation. */
  ghost function LatestPut(history: seq<Event>, e: Embedding): Option<Event> {
    if history == [] then None
    else
      var last := history[|history| - 1];
      match last
      case Invalidate => None
      case Put(e', _, _, _, _) => if e' == e then Some(last) else LatestPut(history[..|history| - 1], e)
  }

  /** The entry is what that put stored. */
  ghost predicate Backed(history: seq<Event>, s: DictSlot) {
    var e := s.value;
    && s.key == SlotKey(e.embedding)
    && LatestPut(history, e.embedding)
       == Some(Put(e.embedding, e.scope, e.k, e.payload, e.expiresAt - TTL_SECONDS))
  }

  // ------------------------------------------------------------------
  // Searching
  // ------------------------------------------------------------------

  /** What a search for the n best rows may return. */
  ghost predicate TopN(ranked: seq<nat>, rows: seq<Embedding>, q: Embedding, score: Score, n: nat) {
    && |ranked| == n
    && (forall i :: 0 <= i < n ==> ranked[i] < |rows|)
    && (forall i, j :: 0 <= i < j < n ==> ranked[i] != ranked[j])
    && (forall i, j :: 0 <= i < j < n ==> score(q, rows[ranked[i]]) >= score(q, rows[ranked[j]]))
    && (forall m, i :: 0 <= m < |rows| && m !in ranked && 0 <= i < n ==>
          score(q, rows[m]) <= score(q, rows[ranked[i]]))
  }

  function SearchSize(n: nat): nat { if n < TOP_K then n else TOP_K }

  /** Everything but freshness that a candidate is asked. */
  predicate Matches(slots: seq<DictSlot>, key: Digest, scope: string, k: int) {
    match Get(slots, key)
    case None => false
    case Some(e) => e.scope == scope && e.k >= k
  }

  /** The live entry under this key may answer the request. */
  predicate Acceptable(slots: seq<DictSlot>, key: Digest, scope: string, k: int, now: real) {
    Matches(slots, key, scope, k) && Get(slots, key).value.expiresAt >= now
  }

  /** How many of the ranked rows reach the threshold; the scores descend, so they come first. */
  function CandidateCount(ranked: seq<nat>, rows: seq<Embedding>, q: Embedding, score: Score): (n: nat)
    requires forall i :: 0 <= i < |ranked| ==> ranked[i] < |rows|
    ensures n <= |ranked|
    ensures forall i :: 0 <= i < n ==> score(q, rows[ranked[i]]) >= COSINE_THRESHOLD
    ensures n < |ranked| ==> score(q, rows[ranked[n]]) < COSINE_THRESHOLD
  {
    if ranked == [] || score(q, rows[ranked[0]]) < COSINE_THRESHOLD then 0
    else 1 + CandidateCount(ranked[1..], rows, q, score)
  }

  /** The first n candidates have been passed: none was acceptable, those that matched, having
      expired, are gone, and nothing else has changed. */
  ghost predicate Passed(before: seq<DictSlot>, slots: seq<DictSlot>, keys: seq<Digest>, ranked: seq<nat>, n: nat,
                         scope: string, k: int, now: real)
    requires forall i :: 0 <= i < |ranked| ==> ranked[i] < |keys|
  {
    && n <= |ranked|
    && (forall j :: 0 <= j < n ==> !Acceptable(before, keys[ranked[j]], scope, k, now))
    && (forall j :: 0 <= j < n && Matches(before, keys[ranked[j]], scope, k) ==>
          Get(slots, keys[ranked[j]]) == None)
    && (forall i :: n <= i < |ranked| ==> Get(slots, keys[ranked[i]]) == Get(before, keys[ranked[i]]))
    && (forall s :: s in slots ==> s in before)
    && (forall s :: s in before && s !in slots ==>
          s.value.expiresAt < now && s.value.scope == scope && s.value.k >= k)
  }

  /** What a lookup answers and leaves: it passes the candidates in rank order up to the first
      acceptable one, which is the answer; without one it passes them all and answers nothing. */
  ghost predicate Answers(hit: Option<Hit>, slots: seq<DictSlot>, left: seq<DictSlot>, keys: seq<Digest>,
                          rows: seq<Embedding>, ranked: seq<nat>, q: Embedding, score: Score, scope: string, k: int,
                          now: real)
    requires |keys| == |rows| && forall i :: 0 <= i < |ranked| ==> ranked[i] < |rows|
  {
    var n := CandidateCount(ranked, rows, q, score);
    match hit
    case None => Passed(slots, left, keys, ranked, n, scope, k, now)
    case Some(h) => exists i: nat :: i < n && AnswerAt(h, i, slots, keys, rows, ranked, q, score, scope, k, now)
                                     && Passed(slots, left, keys, ranked, i, scope, k, now)
  }

  ghost predicate AnswerAt(h: Hit, i: nat, slots: seq<DictSlot>, keys: seq<Digest>, rows: seq<Embedding>,
                           ranked: seq<nat>, q: Embedding, score: Score, scope: string, k: int, now: real)
    requires |keys| == |rows| && forall i :: 0 <= i < |ranked| ==> ranked[i] < |rows|
    requires i < |ranked|
  {
    var key := keys[ranked[i]];
    && Acceptable(slots, key, scope, k, now)
    && h == Hit(Get(slots, key).value.payload, score(q, rows[ranked[i]]), key == SlotKey(q), Get(slots, key).value.k)
  }

  // ------------------------------------------------------------------
  // Facts about the dictionary and the history
  // ------------------------------------------------------------------

  ghost function Without(keys: seq<Digest>, gone: Digest): seq<Digest> {
    if keys == [] then [] else (if keys[0] == gone then [] else [keys[0]]) + Without(keys[1..], gone)
  }

  lemma {:induction false} WithoutAbsent(keys: seq<Digest>, gone: Digest)
    requires gone !in keys
    ensures Without(keys, gone) == keys
  {
    if keys != [] { WithoutAbsent(keys[1..], gone); }
  }

  lemma {:induction false} WithoutAt(keys: seq<Digest>, i: nat)
    requires i < |keys| && keys[i] !in keys[..i] && keys[i] !in keys[i + 1..]
    ensures Without(keys, keys[i]) == keys[..i] + keys[i + 1..]
  {
    if i == 0 {
      WithoutAbsent(keys[1..], keys[0]);
    } else {
      WithoutAt(keys[1..], i - 1);
      assert keys[..i] == [keys[0]] + keys[1..][..i - 1];
      assert keys[1..][i..] == keys[i + 1..];
    }
  }

  lemma KeysDrop(slots: seq<DictSlot>, gone: Digest)
    requires UniqueKeys(slots)
    ensures Keys(Drop(slots, gone)) == Without(Keys(slots), gone)
  {
    var i := Find(slots, gone);
    if i < |slots| {
      WithoutAt(Keys(slots), i);
    } else {
      WithoutAbsent(Keys(slots), gone);
    }
  }

  lemma {:induction false} LiveDrop(keys: seq<Digest>, slots: seq<DictSlot>, gone: Digest)
    requires UniqueKeys(slots)
    ensures Live(keys, Drop(slots, gone)) == Without(Live(keys, slots), gone)
  {
    hide Drop, Get;
    if keys != [] {
      LiveDrop(keys[1..], slots, gone);
      GetDrop(slots, gone, keys[0]);
      if Get(slots, keys[0]).Some? {
        assert Live(keys, slots)[1..] == Live(keys[1..], slots);
      } else {
        assert Live(keys, slots) == Live(keys[1..], slots);
      }
    }
  }

  lemma {:induction false} LiveAll(keys: seq<Digest>, slots: seq<DictSlot>)
    requires forall i :: 0 <= i < |keys| ==> Get(slots, keys[i]).Some?
    ensures Live(keys, slots) == keys
  {
    hide Get;
    if keys != [] {
      forall i | 0 <= i < |keys[1..]| ensures Get(slots, keys[1..][i]).Some? {
        assert keys[1..][i] == keys[i + 1];
      }
      LiveAll(keys[1..], slots);
    }
  }

  /** A put with another embedding leaves a slot's backing alone. */
  lemma BackedAfterPut(history: seq<Event>, s: DictSlot, put: Event)
    requires Backed(history, s) && put.Put? && SlotKey(put.embedding) != s.key
    ensures Backed(history + [put], s)
  {
    assert (history + [put])[..|history|] == history;
  }

  // ------------------------------------------------------------------
  // The tier
  // ------------------------------------------------------------------

  /** The buffer is within its capacity, its keys are in order among the indexed keys, and each of
      its entries is the latest put with that embedding. */
  ghost predicate Consistent(history: seq<Event>, keys: seq<Digest>, slots: seq<DictSlot>) {
    && |slots| <= 1000
    && UniqueKeys(slots)
    && Live(keys, slots) == Keys(slots)
    && (forall i :: 0 <= i < |slots| ==> Backed(history, slots[i]))
  }

  class Tier2 {
    var buffer: seq<DictSlot>
    var keysInIndex: seq<Digest>
    var rows: seq<Embedding>
    ghost var history: seq<Event>

    ghost predicate Valid()
      reads this
    {
      && Distinct(keysInIndex) && |rows| == |keysInIndex|
      && (forall i :: 0 <= i < |rows| ==> keysInIndex[i] == SlotKey(rows[i]))
      && Consistent(history, keysInIndex, buffer)
    }

    constructor ()
      ensures Valid() && buffer == [] && history == []
    {
      buffer, keysInIndex, rows, history := [], [], [], [];
    }

    /** `_rebuild_tier2_index`. */
    method RebuildIndex()
      modifies `keysInIndex, `rows
      ensures keysInIndex == Keys(buffer)
      ensures rows == seq(|buffer|, i requires 0 <= i < |buffer| reads this => buffer[i].value.embedding)
    {
      rows := seq(|buffer|, i requires 0 <= i < |buffer| reads this => buffer[i].value.embedding);
      keysInIndex := Keys(buffer);
    }

    /** `_tier2_put`: the slot of this embedding moves to the end with the new entry, the oldest
        slots give way over capacity, and the index lists exactly the buffer. */
    method Put(e: Embedding, scope: string, k: int, payload: string, now: real)
      requires Valid()
      modifies this
      ensures Valid()
      ensures var slot := Slot(SlotKey(e), Entry(e, scope, k, payload, now + TTL_SECONDS));
              buffer == Newest(Drop(old(buffer), SlotKey(e)) + [slot], 1000)
      ensures keysInIndex == Keys(buffer)
      ensures history == old(history) + [Event.Put(e, scope, k, payload, now)]
    {
      hide Get, Drop, Find, Live, LatestPut, Backed;
      var key := SlotKey(e);
      var slot := Slot(key, Entry(e, scope, k, payload, now + TTL_SECONDS));
      DropShape(buffer, key);
      DropAbsent(buffer, key);
      PutSlots(history, buffer, slot, Event.Put(e, scope, k, payload, now));
      if Get(buffer, key).Some? {
        buffer := Drop(buffer, key) + [slot];
      } else {
        buffer := buffer + [slot];
        buffer := EvictOldest(buffer, RING_CAPACITY);
      }
      history := history + [Event.Put(e, scope, k, payload, now)];
      BackedKeys(history, buffer);
      RebuildIndex();
      LiveSelf(buffer);
    }

    /** `invalidate_corpus_version` on this tier. */
    method Invalidate() returns (dropped: nat)
      requires Valid()
      modifies this
      ensures Valid()
      ensures buffer == [] && keysInIndex == [] && rows == [] && dropped == |old(buffer)|
      ensures history == old(history) + [Event.Invalidate]
    {
      dropped := |buffer|;
      buffer, keysInIndex, rows := [], [], [];
      history := history + [Event.Invalidate];
    }

    /** `_tier2_lookup`: the first acceptable candidate of the best rows, in rank order; a
        candidate that matches but has expired is dropped on the way. */
    method Lookup(q: Embedding, scope: string, k: int, now: real, score: Score, ranked: seq<nat>)
      returns (hit: Option<Hit>)
      requires Valid()
      requires TopN(ranked, rows, q, score, SearchSize(|rows|))
      modifies `buffer
      ensures Valid()
      ensures Answers(hit, old(buffer), buffer, keysInIndex, rows, ranked, q, score, scope, k, now)
      ensures hit.Some? ==> FromLatestPut(history, hit.value, q, score, scope, k, now)
      ensures BestOfScan(hit, old(buffer), rows, q, score, scope, k, now)
      ensures |rows| <= 8 ==>
        (hit.Some? <==> exists s :: s in old(buffer) && ScanAccepts(s, q, score, scope, k, now))
    {
      hide Consistent, Answers, FromLatestPut, BestOfScan;
      ghost var was := buffer;
      if buffer == [] || |rows| == 0 {
        NothingLive(buffer, keysInIndex, rows, ranked, q, score, scope, k, now);
        hit := None;
      } else {
        hit, buffer := Scan(buffer, keysInIndex, rows, q, scope, k, now, score, ranked, history);
      }
      if hit.Some? {
        HitIsLatestPut(history, hit.value, was, buffer, keysInIndex, rows, ranked, q, score, scope, k, now);
      }
      LookupIsScan(history, hit, was, buffer, keysInIndex, rows, ranked, q, score, scope, k, now);
      if |rows| <= 8 {
        SmallIndexIsScan(history, hit, was, keysInIndex, rows, q, score, scope, k, now);
      }
    }

    /** The loop over the ranked rows. */
    static method Scan(slots: seq<DictSlot>, keys: seq<Digest>, rows: seq<Embedding>, q: Embedding, scope: string,
                       k: int, now: real, score: Score, ranked: seq<nat>, ghost history: seq<Event>)
      returns (hit: Option<Hit>, left: seq<DictSlot>)
      requires |keys| == |rows| && Distinct(keys)
      requires forall i :: 0 <= i < |ranked| ==> ranked[i] < |rows|
      requires forall i, j :: 0 <= i < j < |ranked| ==> ranked[i] != ranked[j]
      requires forall i, j :: 0 <= i < j < |ranked| ==> score(q, rows[ranked[i]]) >= score(q, rows[ranked[j]])
      requires Consistent(history, keys, slots)
      ensures Consistent(history, keys, left)
      ensures Answers(hit, slots, left, keys, rows, ranked, q, score, scope, k, now)
    {
      hide Consistent, Get, Drop, Find, Distinct, Passed, Answers, CandidateCount;
      hit, left := None, slots;
      var rank: nat := 0;
      PassNone(slots, keys, ranked, scope, k, now);
      while rank < |ranked|
        invariant rank <= CandidateCount(ranked, rows, q, score)
        invariant Consistent(history, keys, left)
        invariant Passed(slots, left, keys, ranked, rank, scope, k, now)
      {
        var cosine := score(q, rows[ranked[rank]]);
        if cosine < COSINE_THRESHOLD {
          break;
        }
        DescendingCount(ranked, rows, q, score, rank);
        var key := keys[ranked[rank]];
        var entry := Get(left, key);
        if entry.Some? && entry.value.scope == scope && entry.value.k >= k {
          if entry.value.expiresAt >= now {
            hit := Some(Hit(entry.value.payload, cosine, key == SlotKey(q), entry.value.k));
            PassHit(hit.value, slots, left, keys, rows, ranked, rank, q, score, scope, k, now);
            return;
          }
          PassExpired(slots, left, keys, ranked, rank, scope, k, now, history);
          left := Drop(left, key);
        } else {
          PassMismatch(slots, left, keys, ranked, rank, scope, k, now);
        }
        rank := rank + 1;
      }
      PassAll(slots, left, keys, rows, ranked, q, score, scope, k, now);
    }
  }

  lemma PassNone(slots: seq<DictSlot>, keys: seq<Digest>, ranked: seq<nat>, scope: string, k: int, now: real)
    requires forall i :: 0 <= i < |ranked| ==> ranked[i] < |keys|
    ensures Passed(slots, slots, keys, ranked, 0, scope, k, now)
  {
  }

  lemma PassMismatch(before: seq<DictSlot>, slots: seq<DictSlot>, keys: seq<Digest>, ranked: seq<nat>, rank: nat,
                     scope: string, k: int, now: real)
    requires forall i :: 0 <= i < |ranked| ==> ranked[i] < |keys|
    requires rank < |ranked| && Passed(before, slots, keys, ranked, rank, scope, k, now)
    requires !Matches(slots, keys[ranked[rank]], scope, k)
    ensures Passed(before, slots, keys, ranked, rank + 1, scope, k, now)
  {
    hide Get;
  }

  lemma PassHit(h: Hit, before: seq<DictSlot>, slots: seq<DictSlot>, keys: seq<Digest>, rows: seq<Embedding>,
                ranked: seq<nat>, rank: nat, q: Embedding, score: Score, scope: string, k: int, now: real)
    requires |keys| == |rows| && forall i :: 0 <= i < |ranked| ==> ranked[i] < |rows|
    requires rank < CandidateCount(ranked, rows, q, score)
    requires Passed(before, slots, keys, ranked, rank, scope, k, now)
    requires AnswerAt(h, rank, slots, keys, rows, ranked, q, score, scope, k, now)
    ensures Answers(Some(h), before, slots, keys, rows, ranked, q, score, scope, k, now)
  {
    hide Get;
    assert AnswerAt(h, rank, before, keys, rows, ranked, q, score, scope, k, now);
  }

  lemma PassAll(before: seq<DictSlot>, slots: seq<DictSlot>, keys: seq<Digest>, rows: seq<Embedding>,
                ranked: seq<nat>, q: Embedding, score: Score, scope: string, k: int, now: real)
    requires |keys| == |rows| && forall i :: 0 <= i < |ranked| ==> ranked[i] < |rows|
    requires Passed(before, slots, keys, ranked, CandidateCount(ranked, rows, q, score), scope, k, now)
    ensures Answers(None, before, slots, keys, rows, ranked, q, score, scope, k, now)
  {
  }

  /** Dropping the candidate at `rank`, which matches but has expired. */
  lemma PassExpired(before: seq<DictSlot>, slots: seq<DictSlot>, keys: seq<Digest>, ranked: seq<nat>, rank: nat,
                    scope: string, k: int, now: real, history: seq<Event>)
    requires Consistent(history, keys, slots) && Distinct(keys)
    requires forall i :: 0 <= i < |ranked| ==> ranked[i] < |keys|
    requires forall i, j :: 0 <= i < j < |ranked| ==> ranked[i] != ranked[j]
    requires rank < |ranked| && Passed(before, slots, keys, ranked, rank, scope, k, now)
    requires var e := Get(slots, keys[ranked[rank]]);
             e.Some? && e.value.scope == scope && e.value.k >= k && e.value.expiresAt < now
    ensures Passed(before, Drop(slots, keys[ranked[rank]]), keys, ranked, rank + 1, scope, k, now)
    ensures Consistent(history, keys, Drop(slots, keys[ranked[rank]]))
  {
    hide Drop, Get, Find, Live, Backed;
    var key := keys[ranked[rank]];
    DropKeepsValid(history, keys, slots, key);
    DropShape(slots, key);
    DroppedOnly(slots, key);
    forall i | 0 <= i < |ranked|
      ensures Get(Drop(slots, key), keys[ranked[i]]) == if i == rank then None else Get(slots, keys[ranked[i]])
    {
      GetDrop(slots, key, keys[ranked[i]]);
    }
  }

  lemma NothingLive(slots: seq<DictSlot>, keys: seq<Digest>, rows: seq<Embedding>, ranked: seq<nat>,
                    q: Embedding, score: Score, scope: string, k: int, now: real)
    requires slots == [] || |rows| == 0
    requires |keys| == |rows| && forall i :: 0 <= i < |ranked| ==> ranked[i] < |rows|
    ensures Answers(None, slots, slots, keys, rows, ranked, q, score, scope, k, now)
  {
  }

  // ------------------------------------------------------------------
  // What hits are worth
  // ------------------------------------------------------------------

  /** The hit comes from the latest put of an embedding that the request accepts. */
  ghost predicate FromLatestPut(history: seq<Event>, hit: Hit, q: Embedding, score: Score, scope: string, k: int,
                                now: real) {
    exists e, put ::
      && LatestPut(history, e) == Some(put) && put.Put? && put.payload == hit.payload
      && put.scope == scope && put.k == hit.cachedK >= k && put.at + 900.0 >= now
      && hit.cosine == score(q, e) >= 0.97
      && (hit.exactEmbedding <==> e == q)
  }

  /** A hit is never stale, narrower or from another scope: its payload is that of the most recent
      put, since the last invalidation, with an embedding within the threshold of the query; that
      put had the requested scope, at least the requested k and has not outlived its time. The
      exact mark says whether the embedding is the query's own. */
  lemma HitIsLatestPut(history: seq<Event>, hit: Hit, slots: seq<DictSlot>, left: seq<DictSlot>, keys: seq<Digest>,
                       rows: seq<Embedding>, ranked: seq<nat>, q: Embedding, score: Score, scope: string, k: int,
                       now: real)
    requires Consistent(history, keys, slots) && |keys| == |rows|
    requires forall i :: 0 <= i < |rows| ==> keys[i] == SlotKey(rows[i])
    requires forall i :: 0 <= i < |ranked| ==> ranked[i] < |rows|
    requires Answers(Some(hit), slots, left, keys, rows, ranked, q, score, scope, k, now)
    ensures FromLatestPut(history, hit, q, score, scope, k, now)
  {
    hide Passed, LatestPut;
    var i: nat :| i < CandidateCount(ranked, rows, q, score)
                  && AnswerAt(hit, i, slots, keys, rows, ranked, q, score, scope, k, now);
    var e := rows[ranked[i]];
    var key := keys[ranked[i]];
    var slot := slots[Find(slots, key)];
    assert Backed(history, slot) && slot.value.embedding == e;
    var put := Event.Put(e, slot.value.scope, slot.value.k, slot.value.payload, slot.value.expiresAt - TTL_SECONDS);
    assert LatestPut(history, e) == Some(put) && put.Put? && put.payload == hit.payload;
  }

  /** Is this live slot what a linear scan of the buffer for the request would accept? */
  ghost predicate ScanAccepts(s: DictSlot, q: Embedding, score: Score, scope: string, k: int, now: real) {
    && score(q, s.value.embedding) >= 0.97
    && s.value.scope == scope && s.value.k >= k && s.value.expiresAt >= now
  }

  lemma {:induction false} DistinctFits(s: seq<nat>, n: nat)
    requires forall i :: 0 <= i < |s| ==> s[i] < n
    requires forall i, j :: 0 <= i < j < |s| ==> s[i] != s[j]
    ensures |s| <= n
  {
    assert |s| > 0 ==> s[0] < n;
    if n > 0 && n - 1 in s {
      var p :| 0 <= p < |s| && s[p] == n - 1;
      DistinctFits(s[..p] + s[p + 1..], n - 1);
    } else if n > 0 {
      forall i | 0 <= i < |s| ensures s[i] < n - 1 { assert s[i] in s; }
      DistinctFits(s, n - 1);
    }
  }

  /** n distinct numbers below n are all the numbers below n. */
  lemma DistinctCovers(s: seq<nat>, n: nat, m: nat)
    requires |s| == n && forall i :: 0 <= i < n ==> s[i] < n
    requires forall i, j :: 0 <= i < j < n ==> s[i] != s[j]
    requires m < n
    ensures m in s
  {
    if m !in s { DistinctFits(s + [m], n); }
  }

  lemma {:induction false} LiveSubset(keys: seq<Digest>, slots: seq<DictSlot>, key: Digest)
    requires key in Live(keys, slots)
    ensures key in keys
  {
    if keys[0] != key { LiveSubset(keys[1..], slots, key); }
  }

  /** The row of a live slot. */
  lemma RowOf(history: seq<Event>, slots: seq<DictSlot>, keys: seq<Digest>, rows: seq<Embedding>, s: DictSlot)
    returns (m: nat)
    requires Consistent(history, keys, slots) && |keys| == |rows|
    requires forall i :: 0 <= i < |rows| ==> keys[i] == SlotKey(rows[i])
    requires s in slots
    ensures m < |rows| && keys[m] == s.key && rows[m] == s.value.embedding
    ensures Get(slots, s.key) == Some(s.value)
  {
    hide LatestPut, Get;
    var p :| 0 <= p < |slots| && slots[p] == s;
    GetAt(slots, p);
    assert Backed(history, slots[p]);
    assert Keys(slots)[p] == s.key;
    LiveSubset(keys, slots, s.key);
    m :| 0 <= m < |keys| && keys[m] == s.key;
  }

  /** Distinct numbers of a list are no more than the list is long. */
  lemma {:induction false} DistinctAmong(some: seq<nat>, list: seq<nat>)
    requires forall i, j :: 0 <= i < j < |some| ==> some[i] != some[j]
    requires forall i :: 0 <= i < |some| ==> some[i] in list
    ensures |some| <= |list|
  {
    assert |some| > 0 ==> some[0] in list;
    if list != [] {
      var most, last := list[..|list| - 1], list[|list| - 1];
      assert list == most + [last];
      if last in some {
        var p :| 0 <= p < |some| && some[p] == last;
        DistinctAmong(some[..p] + some[p + 1..], most);
      } else {
        forall i | 0 <= i < |some| ensures some[i] in most { assert some[i] in some; }
        DistinctAmong(some, most);
      }
    }
  }

  lemma DescendingCount(ranked: seq<nat>, rows: seq<Embedding>, q: Embedding, score: Score, i: nat)
    requires i < |ranked| && forall j :: 0 <= j < |ranked| ==> ranked[j] < |rows|
    requires forall a, b :: 0 <= a < b < |ranked| ==> score(q, rows[ranked[a]]) >= score(q, rows[ranked[b]])
    ensures score(q, rows[ranked[i]]) >= COSINE_THRESHOLD ==> i < CandidateCount(ranked, rows, q, score)
  {
    var n := CandidateCount(ranked, rows, q, score);
    assert n < i ==> score(q, rows[ranked[n]]) >= score(q, rows[ranked[i]]);
  }

  /** Rows of the index, each once. */
  ghost predicate Others(others: seq<nat>, rows: seq<Embedding>) {
    && (forall i :: 0 <= i < |others| ==> others[i] < |rows|)
    && (forall i, j :: 0 <= i < j < |others| ==> others[i] != others[j])
  }

  /** Eight rows of other embeddings are at least as near to the query as this one. */
  ghost predicate Crowded(rows: seq<Embedding>, e: Embedding, q: Embedding, score: Score) {
    exists others: seq<nat> :: |others| == 8 && Others(others, rows)
      && forall i :: 0 <= i < 8 ==> rows[others[i]] != e && score(q, rows[others[i]]) >= score(q, e)
  }

  /** A hit is on an accepted slot of the greatest score among all accepted ones, and fewer than eight rows
      are nearer; a miss means that every accepted slot is crowded out by eight rows. */
  ghost predicate BestOfScan(hit: Option<Hit>, slots: seq<DictSlot>, rows: seq<Embedding>, q: Embedding, score: Score,
                             scope: string, k: int, now: real) {
    match hit
    case Some(h) =>
      && (exists s :: s in slots && ScanAccepts(s, q, score, scope, k, now) && score(q, s.value.embedding) == h.cosine)
      && (forall s :: s in slots && ScanAccepts(s, q, score, scope, k, now) ==>
            score(q, s.value.embedding) <= h.cosine)
      && (forall nearer: seq<nat> ::
            Others(nearer, rows) && (forall i :: 0 <= i < |nearer| ==> score(q, rows[nearer[i]]) > h.cosine) ==>
              |nearer| < 8)
    case None =>
      forall s :: s in slots && ScanAccepts(s, q, score, scope, k, now) ==> Crowded(rows, s.value.embedding, q, score)
  }

  /** A lookup is a linear scan of the live buffer, but for slots crowded out by eight rows that are at
      least as near. */
  lemma LookupIsScan(history: seq<Event>, hit: Option<Hit>, slots: seq<DictSlot>, left: seq<DictSlot>,
                     keys: seq<Digest>, rows: seq<Embedding>, ranked: seq<nat>, q: Embedding, score: Score,
                     scope: string, k: int, now: real)
    requires Consistent(history, keys, slots) && |keys| == |rows| && Distinct(keys)
    requires forall i :: 0 <= i < |rows| ==> keys[i] == SlotKey(rows[i])
    requires TopN(ranked, rows, q, score, SearchSize(|rows|))
    requires Answers(hit, slots, left, keys, rows, ranked, q, score, scope, k, now)
    ensures BestOfScan(hit, slots, rows, q, score, scope, k, now)
  {
    assert forall i :: 0 <= i < |ranked| ==> ranked[i] < |rows|;
    hide Consistent, LatestPut, ScanAccepts, TopN, Answers, Crowded, Others, Distinct;
    forall s | s in slots && ScanAccepts(s, q, score, scope, k, now)
      ensures hit.Some? ==> score(q, s.value.embedding) <= hit.value.cosine
      ensures hit.None? ==> Crowded(rows, s.value.embedding, q, score)
    {
      AcceptedIsAnswered(history, hit, slots, left, keys, rows, ranked, q, score, scope, k, now, s);
    }
    if hit.Some? {
      AnswerIsAccepted(history, hit.value, slots, left, keys, rows, ranked, q, score, scope, k, now);
      forall nearer: seq<nat> | Others(nearer, rows)
                                && forall i :: 0 <= i < |nearer| ==> score(q, rows[nearer[i]]) > hit.value.cosine
        ensures |nearer| < 8
      {
        NearerAreFew(hit.value, slots, left, keys, rows, ranked, q, score, scope, k, now, nearer);
      }
    }
  }

  /** With at most eight rows in the index none can be crowded out: the lookup hits exactly when some live
      slot is accepted. */
  lemma SmallIndexIsScan(history: seq<Event>, hit: Option<Hit>, slots: seq<DictSlot>, keys: seq<Digest>,
                         rows: seq<Embedding>, q: Embedding, score: Score, scope: string, k: int, now: real)
    requires Consistent(history, keys, slots) && |keys| == |rows| <= 8
    requires forall i :: 0 <= i < |rows| ==> keys[i] == SlotKey(rows[i])
    requires BestOfScan(hit, slots, rows, q, score, scope, k, now)
    ensures hit.Some? <==> exists s :: s in slots && ScanAccepts(s, q, score, scope, k, now)
  {
    hide Consistent, ScanAccepts;
    if s :| s in slots && ScanAccepts(s, q, score, scope, k, now) {
      if hit.None? {
        assert Crowded(rows, s.value.embedding, q, score);
        var others: seq<nat> :| |others| == 8 && Others(others, rows)
          && forall i :: 0 <= i < 8 ==> rows[others[i]] != s.value.embedding
                                        && score(q, rows[others[i]]) >= score(q, s.value.embedding);
        var m := RowOf(history, slots, keys, rows, s);
        DistinctFits(others + [m], |rows|);
      }
    }
  }

  /** An accepted slot is answered, or one at least as near is, or it is crowded out. */
  lemma AcceptedIsAnswered(history: seq<Event>, hit: Option<Hit>, slots: seq<DictSlot>, left: seq<DictSlot>,
                           keys: seq<Digest>, rows: seq<Embedding>, ranked: seq<nat>, q: Embedding, score: Score,
                           scope: string, k: int, now: real, s: DictSlot)
    requires Consistent(history, keys, slots) && |keys| == |rows| && Distinct(keys)
    requires forall i :: 0 <= i < |rows| ==> keys[i] == SlotKey(rows[i])
    requires TopN(ranked, rows, q, score, SearchSize(|rows|))
    requires Answers(hit, slots, left, keys, rows, ranked, q, score, scope, k, now)
    requires s in slots && ScanAccepts(s, q, score, scope, k, now)
    ensures hit.Some? ==> score(q, s.value.embedding) <= hit.value.cosine
    ensures hit.None? ==> Crowded(rows, s.value.embedding, q, score)
  {
    hide Consistent, LatestPut, Answers, Crowded, TopN, ScanAccepts, Acceptable, Get, CandidateCount, Distinct;
    var m := RowOf(history, slots, keys, rows, s);
    AcceptedRow(slots, keys, rows, s, m, q, score, scope, k, now);
    RankedDescends(ranked, rows, q, score, SearchSize(|rows|));
    if m in ranked {
      var i :| 0 <= i < |ranked| && ranked[i] == m;
      DescendingCount(ranked, rows, q, score, i);
      AcceptableIsAnswered(hit, slots, left, keys, rows, ranked, q, score, scope, k, now, i);
    } else {
      RankedCrowd(keys, rows, ranked, q, score, m);
      if hit.Some? {
        var n := HitIsRanked(hit.value, slots, left, keys, rows, ranked, q, score, scope, k, now);
      }
    }
  }

  lemma AcceptedRow(slots: seq<DictSlot>, keys: seq<Digest>, rows: seq<Embedding>, s: DictSlot, m: nat, q: Embedding,
                    score: Score, scope: string, k: int, now: real)
    requires |keys| == |rows| && m < |rows| && keys[m] == s.key && rows[m] == s.value.embedding
    requires Get(slots, s.key) == Some(s.value) && ScanAccepts(s, q, score, scope, k, now)
    ensures Acceptable(slots, keys[m], scope, k, now) && score(q, rows[m]) >= COSINE_THRESHOLD
  {
  }

  lemma RankedDescends(ranked: seq<nat>, rows: seq<Embedding>, q: Embedding, score: Score, n: nat)
    requires TopN(ranked, rows, q, score, n)
    ensures forall i :: 0 <= i < |ranked| ==> ranked[i] < |rows|
    ensures forall i, j :: 0 <= i < j < |ranked| ==> score(q, rows[ranked[i]]) >= score(q, rows[ranked[j]])
  {
  }

  /** An acceptable candidate is answered, or one before it is. */
  lemma AcceptableIsAnswered(hit: Option<Hit>, slots: seq<DictSlot>, left: seq<DictSlot>, keys: seq<Digest>,
                             rows: seq<Embedding>, ranked: seq<nat>, q: Embedding, score: Score, scope: string, k: int,
                             now: real, i: nat)
    requires |keys| == |rows| && forall j :: 0 <= j < |ranked| ==> ranked[j] < |rows|
    requires forall a, b :: 0 <= a < b < |ranked| ==> score(q, rows[ranked[a]]) >= score(q, rows[ranked[b]])
    requires Answers(hit, slots, left, keys, rows, ranked, q, score, scope, k, now)
    requires i < CandidateCount(ranked, rows, q, score) && Acceptable(slots, keys[ranked[i]], scope, k, now)
    ensures hit.Some? && score(q, rows[ranked[i]]) <= hit.value.cosine
  {
    hide Acceptable;
  }

  /** A hit is on one of the ranked rows. */
  lemma HitIsRanked(hit: Hit, slots: seq<DictSlot>, left: seq<DictSlot>, keys: seq<Digest>, rows: seq<Embedding>,
                    ranked: seq<nat>, q: Embedding, score: Score, scope: string, k: int, now: real)
    returns (n: nat)
    requires |keys| == |rows| && forall j :: 0 <= j < |ranked| ==> ranked[j] < |rows|
    requires Answers(Some(hit), slots, left, keys, rows, ranked, q, score, scope, k, now)
    ensures n < |ranked| && hit.cosine == score(q, rows[ranked[n]])
  {
    hide Passed, Acceptable;
    n :| n < CandidateCount(ranked, rows, q, score)
         && AnswerAt(hit, n, slots, keys, rows, ranked, q, score, scope, k, now);
  }

  /** A row that is not ranked is crowded out by those that are, and no candidate is farther. */
  lemma RankedCrowd(keys: seq<Digest>, rows: seq<Embedding>, ranked: seq<nat>, q: Embedding, score: Score, m: nat)
    requires |keys| == |rows| && Distinct(keys) && forall i :: 0 <= i < |rows| ==> keys[i] == SlotKey(rows[i])
    requires TopN(ranked, rows, q, score, SearchSize(|rows|)) && m < |rows| && m !in ranked
    ensures Crowded(rows, rows[m], q, score)
    ensures forall i :: 0 <= i < |ranked| ==> score(q, rows[m]) <= score(q, rows[ranked[i]])
  {
    if |rows| <= 8 { DistinctCovers(ranked, |rows|, m); }
    forall i | 0 <= i < 8 ensures rows[ranked[i]] != rows[m] {
      assert ranked[i] in ranked;
      assert ranked[i] < m || m < ranked[i];
    }
    assert |ranked| == 8 && Others(ranked, rows);
  }

  /** Rows strictly nearer than the hit were ranked before it. */
  lemma NearerAreFew(hit: Hit, slots: seq<DictSlot>, left: seq<DictSlot>, keys: seq<Digest>, rows: seq<Embedding>,
                     ranked: seq<nat>, q: Embedding, score: Score, scope: string, k: int, now: real, nearer: seq<nat>)
    requires |keys| == |rows| && TopN(ranked, rows, q, score, SearchSize(|rows|))
    requires Answers(Some(hit), slots, left, keys, rows, ranked, q, score, scope, k, now)
    requires Others(nearer, rows) && forall i :: 0 <= i < |nearer| ==> score(q, rows[nearer[i]]) > hit.cosine
    ensures |nearer| < 8
  {
    assert forall i :: 0 <= i < |ranked| ==> ranked[i] < |rows|;
    hide Answers;
    var n := HitIsRanked(hit, slots, left, keys, rows, ranked, q, score, scope, k, now);
    forall j | 0 <= j < |nearer| ensures nearer[j] in ranked[..n] {
      assert nearer[j] in ranked;
      var p :| 0 <= p < |ranked| && ranked[p] == nearer[j];
      assert p < n;
      assert ranked[..n][p] == nearer[j];
    }
    hide TopN;
    DistinctAmong(nearer, ranked[..n]);
  }

  lemma AnswerIsAccepted(history: seq<Event>, hit: Hit, slots: seq<DictSlot>, left: seq<DictSlot>,
                         keys: seq<Digest>, rows: seq<Embedding>, ranked: seq<nat>, q: Embedding, score: Score,
                         scope: string, k: int, now: real)
    requires Consistent(history, keys, slots) && |keys| == |rows|
    requires forall i :: 0 <= i < |rows| ==> keys[i] == SlotKey(rows[i])
    requires forall i :: 0 <= i < |ranked| ==> ranked[i] < |rows|
    requires Answers(Some(hit), slots, left, keys, rows, ranked, q, score, scope, k, now)
    ensures exists s :: s in slots && ScanAccepts(s, q, score, scope, k, now)
                        && score(q, s.value.embedding) == hit.cosine
  {
    hide Consistent, Passed, LatestPut, ScanAccepts;
    var i: nat :| i < CandidateCount(ranked, rows, q, score)
                  && AnswerAt(hit, i, slots, keys, rows, ranked, q, score, scope, k, now);
    FoundSlot(history, slots, keys, rows, ranked[i], q, score, scope, k, now);
  }

  lemma FoundSlot(history: seq<Event>, slots: seq<DictSlot>, keys: seq<Digest>, rows: seq<Embedding>, row: nat,
                  q: Embedding, score: Score, scope: string, k: int, now: real)
    requires Consistent(history, keys, slots) && |keys| == |rows| && row < |rows|
    requires keys[row] == SlotKey(rows[row])
    requires Acceptable(slots, keys[row], scope, k, now) && score(q, rows[row]) >= COSINE_THRESHOLD
    ensures exists s :: s in slots && ScanAccepts(s, q, score, scope, k, now)
                        && score(q, s.value.embedding) == score(q, rows[row])
  {
    var slot := slots[Find(slots, keys[row])];
    assert Backed(history, slot);
    assert slot in slots && ScanAccepts(slot, q, score, scope, k, now);
  }

  lemma BackedKeys(history: seq<Event>, slots: seq<DictSlot>)
    requires forall i :: 0 <= i < |slots| ==> Backed(history, slots[i])
    ensures forall i :: 0 <= i < |slots| ==> slots[i].key == SlotKey(slots[i].value.embedding)
  {
  }

  lemma LiveSelf(slots: seq<DictSlot>)
    requires UniqueKeys(slots)
    ensures Live(Keys(slots), slots) == Keys(slots) && Distinct(Keys(slots))
  {
    forall i | 0 <= i < |slots| ensures Get(slots, Keys(slots)[i]).Some? {
      GetAt(slots, i);
    }
    LiveAll(Keys(slots), slots);
  }

  lemma DropKeepsValid(history: seq<Event>, keys: seq<Digest>, slots: seq<DictSlot>, gone: Digest)
    requires UniqueKeys(slots) && Live(keys, slots) == Keys(slots)
    requires forall i :: 0 <= i < |slots| ==> Backed(history, slots[i])
    ensures var left := Drop(slots, gone);
            && UniqueKeys(left) && Live(keys, left) == Keys(left)
            && forall i :: 0 <= i < |left| ==> Backed(history, left[i])
  {
    hide Live, Backed, Get;
    DropShape(slots, gone);
    KeysDrop(slots, gone);
    LiveDrop(keys, slots, gone);
  }

  lemma PutSlots(history: seq<Event>, slots: seq<DictSlot>, slot: DictSlot, put: Event)
    requires UniqueKeys(slots)
    requires forall i :: 0 <= i < |slots| ==> Backed(history, slots[i])
    requires put.Put? && slot.key == SlotKey(put.embedding)
    requires slot.value == Entry(put.embedding, put.scope, put.k, put.payload, put.at + TTL_SECONDS)
    ensures var all := Drop(slots, slot.key) + [slot];
            && UniqueKeys(all)
            && forall i :: 0 <= i < |all| ==> Backed(history + [put], all[i])
  {
    hide Drop, Get, LatestPut;
    DropShape(slots, slot.key);
    var left := Drop(slots, slot.key);
    forall i | 0 <= i < |left| ensures Backed(history + [put], left[i]) {
      var j :| 0 <= j < |slots| && slots[j] == left[i];
      BackedAfterPut(history, left[i], put);
    }
    BackedByPut(history, slot, put);
  }

  lemma BackedByPut(history: seq<Event>, slot: DictSlot, put: Event)
    requires put.Put? && slot.key == SlotKey(put.embedding)
    requires slot.value == Entry(put.embedding, put.scope, put.k, put.payload, put.at + TTL_SECONDS)
    ensures Backed(history + [put], slot)
  {
    assert (history + [put])[|history|] == put;
  }
}
