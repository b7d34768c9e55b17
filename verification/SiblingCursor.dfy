/** The theorem/proof pairing loop over the children of one container
    (`_extract_chunks_from_container` in `ingest/chunker.py`).

    Children are compared by content, as the parser's tags are, so a repeated proof is found at
    its first occurrence. What the loop emits is recorded as the positions it emits for. */
module SiblingCursor {
  import opened Prelude

  /** How the loop classifies a child, in the order it asks. */
  datatype Role =
    | Proof
    | Theorem(pairable: bool)
    | Section
    | Container
    | Prose

  datatype Child = Child(role: Role, content: string)

  datatype Emit =
    | Statement(at: nat)
    | ProofGroup(at: nat, theorem: Option<nat>)
    | Descend(at: nat)

  predicate Blocks(c: Child) { c.role.Theorem? || c.role.Section? }

  /** The position of the proof a search from j on finds, if nothing blocks it. */
  function FindProof(children: seq<Child>, j: nat): (r: Option<nat>)
    ensures r.Some? ==> j <= r.value < |children| && children[r.value].role.Proof?
    ensures r.Some? ==> forall m :: j <= m < r.value ==> !children[m].role.Proof? && !Blocks(children[m])
    decreases |children| - j
  {
    if j >= |children| then None
    else if children[j].role.Proof? then Some(j)
    else if Blocks(children[j]) then None
    else FindProof(children, j + 1)
  }

  /** The proof the theorem at i is paired with. */
  function PairedProof(children: seq<Child>, i: nat): Option<nat>
    requires i < |children|
  {
    if children[i].role == Theorem(true) then FindProof(children, i + 1) else None
  }

  /** The proof at j belongs to the theorem at i: it is the next proof, and what stands between the two
      is neither a theorem nor a section. */
  ghost predicate Pairs(children: seq<Child>, i: nat, j: nat) {
    && i < j < |children| && children[i].role == Theorem(true) && children[j].role == Proof
    && forall m :: i < m < j ==>
         !children[m].role.Proof? && !children[m].role.Theorem? && !children[m].role.Section?
  }

  /** The search finds the first proof from j on unless something blocks it. */
  lemma {:induction false} FindProofIff(children: seq<Child>, j: nat, q: nat)
    requires j <= q < |children|
    ensures FindProof(children, j) == Some(q) <==>
            children[q].role.Proof? && forall m :: j <= m < q ==> !children[m].role.Proof? && !Blocks(children[m])
    decreases |children| - j
  {
    if j < q {
      FindProofIff(children, j + 1, q);
    }
  }

  /** The pairing search finds exactly the proof that belongs to the theorem. */
  lemma PairedProofIff(children: seq<Child>, i: nat, j: nat)
    requires i < |children|
    ensures PairedProof(children, i) == Some(j) <==> Pairs(children, i, j)
  {
    if i < j < |children| {
      FindProofIff(children, i + 1, j);
    }
  }

  lemma PairedIff(children: seq<Child>, i: nat)
    requires i < |children|
    ensures PairedProof(children, i).Some? ==> Pairs(children, i, PairedProof(children, i).value)
    ensures PairedProof(children, i).None? ==> forall j: nat :: !Pairs(children, i, j)
  {
    if PairedProof(children, i).Some? {
      PairedProofIff(children, i, PairedProof(children, i).value);
    }
    forall j: nat | Pairs(children, i, j) ensures PairedProof(children, i) == Some(j) {
      PairedProofIff(children, i, j);
    }
  }

  /** `list.index`: the first position holding an equal child. */
  function IndexOf(children: seq<Child>, c: Child): (k: nat)
    requires c in children
    ensures k < |children| && children[k] == c
    ensures forall m :: 0 <= m < k ==> children[m] != c
  {
    if children[0] == c then 0 else 1 + IndexOf(children[1..], c)
  }

  datatype State = State(cursor: nat, out: seq<Emit>)

  function Step(children: seq<Child>, s: State): State
    requires s.cursor < |children|
  {
    var i := s.cursor;
    match children[i].role
    case Proof => State(i + 1, s.out + [ProofGroup(i, None)])
    case Theorem(_) =>
      (match PairedProof(children, i)
       case Some(j) =>
         State(IndexOf(children, children[j]) + 1, s.out + [Statement(i), ProofGroup(j, Some(i))])
       case None => State(i + 1, s.out + [Statement(i)]))
    case Section => State(i + 1, s.out + [Descend(i)])
    case Container => State(i + 1, s.out + [Descend(i)])
    case Prose => State(i + 1, s.out)
  }

  /** The state after at most the given number of rounds of the loop. */
  function Run(children: seq<Child>, rounds: nat): State {
    if rounds == 0 then State(0, [])
    else
      var s := Run(children, rounds - 1);
      if s.cursor < |children| then Step(children, s) else s
  }

  /** A step, written out. */
  lemma StepIs(children: seq<Child>, i: nat, out: seq<Emit>)
    requires i < |children|
    ensures var s := Step(children, State(i, out));
            && (children[i].role.Proof? ==> s.out == out + [ProofGroup(i, None)])
            && (children[i].role.Section? || children[i].role.Container? ==> s.out == out + [Descend(i)])
            && (children[i].role.Prose? ==> s.out == out)
            && (children[i].role.Theorem? && (forall j: nat :: !Pairs(children, i, j)) ==>
                  s.out == out + [Statement(i)])
            && ((forall j: nat :: !Pairs(children, i, j)) ==> s.cursor == i + 1)
            && (forall j: nat :: Pairs(children, i, j) ==>
                  && s.out == out + [Statement(i), ProofGroup(j, Some(i))]
                  && 0 < s.cursor <= |children| && children[s.cursor - 1] == children[j]
                  && forall k :: 0 <= k < s.cursor - 1 ==> children[k] != children[j])
  {
    PairedIff(children, i);
    forall j: nat | Pairs(children, i, j) ensures PairedProof(children, i) == Some(j) {
      PairedProofIff(children, i, j);
    }
    assert PairedProof(children, i).None? ==> forall j: nat :: !Pairs(children, i, j);
    hide Pairs, FindProof;
  }

  /** One round of the loop. */
  method Round(children: seq<Child>, i: nat, out: seq<Emit>) returns (next: nat, out': seq<Emit>)
    requires i < |children|
    ensures State(next, out') == Step(children, State(i, out))
  {
    var child := children[i];
    if child.role.Proof? {
      return i + 1, out + [ProofGroup(i, None)];
    }
    if !child.role.Theorem? {
      return i + 1, if child.role.Prose? then out else out + [Descend(i)];
    }
    var proofChild: Option<nat> := None;
    if child.role.pairable {
      var j: nat := i + 1;
      while j < |children|
        invariant i < j <= |children|
        invariant FindProof(children, i + 1) == FindProof(children, j)
      {
        if children[j].role.Proof? {
          proofChild := Some(j);
          break;
        }
        if Blocks(children[j]) {
          break;
        }
        j := j + 1;
      }
    }
    assert proofChild == PairedProof(children, i);
    out' := out + [Statement(i)];
    if proofChild.Some? {
      out' := out' + [ProofGroup(proofChild.value, Some(i))];
      next := IndexOf(children, children[proofChild.value]) + 1;
    } else {
      next := i + 1;
    }
  }

  /** The loop, watched for a number of rounds. */
  method ExtractFromContainer(children: seq<Child>, rounds: nat) returns (i: nat, out: seq<Emit>)
    ensures State(i, out) == Run(children, rounds)
  {
    hide Step;
    i, out := 0, [];
    var round: nat := 0;
    while round < rounds && i < |children|
      invariant round <= rounds
      invariant State(i, out) == Run(children, round)
    {
      i, out := Round(children, i, out);
      round := round + 1;
    }
    RunStopped(children, round, rounds);
  }

  lemma {:induction false} RunStopped(children: seq<Child>, a: nat, b: nat)
    requires a <= b
    requires a < b ==> Run(children, a).cursor >= |children|
    ensures Run(children, a) == Run(children, b)
    decreases b - a
  {
    hide Step;
    if a < b { RunStopped(children, a, b - 1); }
  }

  // ------------------------------------------------------------------
  // When the loop ends
  // ------------------------------------------------------------------

  /** The proof at j, paired with the theorem at i, repeats the child at k before the theorem. */
  ghost predicate Twin(children: seq<Child>, i: nat, j: nat, k: nat) {
    k < i && Pairs(children, i, j) && children[k] == children[j]
  }

  /** No paired proof repeats a child that stands before its theorem. */
  ghost predicate NoEarlierTwin(children: seq<Child>) {
    forall i: nat, j: nat, k: nat :: !Twin(children, i, j, k)
  }

  /** From a theorem at i whose proof stands at k before it, or from anywhere before i, no round
      leads past i. */
  lemma StepPinned(children: seq<Child>, s: State, i: nat, j: nat, k: nat)
    requires Twin(children, i, j, k)
    requires s.cursor <= i && s.cursor < |children|
    ensures Step(children, s).cursor <= i
  {
    var c := s.cursor;
    PairedIff(children, c);
    PairedProofIff(children, i, j);
    if children[c].role.Theorem? && PairedProof(children, c).Some? && c < i {
      assert Blocks(children[i]);
      assert PairedProof(children, c).value < i;
    }
  }

  /** A repeated proof pins the cursor: it never gets past the theorem paired with the repeat. */
  lemma {:induction false} TwinPinsCursor(children: seq<Child>, i: nat, j: nat, k: nat, rounds: nat)
    requires Twin(children, i, j, k)
    ensures Run(children, rounds).cursor <= i
  {
    hide Step, Twin;
    if rounds > 0 {
      var s := Run(children, rounds - 1);
      TwinPinsCursor(children, i, j, k, rounds - 1);
      if s.cursor < |children| {
        StepPinned(children, s, i, j, k);
      }
    }
  }

  lemma StepForward(children: seq<Child>, s: State)
    requires NoEarlierTwin(children) && s.cursor < |children|
    ensures s.cursor < Step(children, s).cursor <= |children|
  {
    if PairedProof(children, s.cursor).Some? {
      PairJumpsForward(children, s.cursor);
    }
  }

  lemma {:induction false} CursorAdvances(children: seq<Child>, rounds: nat)
    requires NoEarlierTwin(children)
    ensures Run(children, rounds).cursor <= |children|
    ensures Run(children, rounds).cursor >= if rounds < |children| then rounds else |children|
  {
    if rounds > 0 {
      hide Step;
      CursorAdvances(children, rounds - 1);
      var s := Run(children, rounds - 1);
      if s.cursor < |children| {
        StepForward(children, s);
      }
    }
  }

  /** Without an earlier twin, looking the paired proof up finds the proof itself. */
  lemma PairJumpsForward(children: seq<Child>, i: nat)
    requires NoEarlierTwin(children) && i < |children| && PairedProof(children, i).Some?
    ensures IndexOf(children, children[PairedProof(children, i).value]) == PairedProof(children, i).value
  {
    var j := PairedProof(children, i).value;
    var k := IndexOf(children, children[j]);
    assert Pairs(children, i, j) && !Twin(children, i, j, k);
    assert children[i].role != children[j].role;
  }

  /** The loop ends exactly when no paired proof repeats a child before its theorem, and then
      within one round a child. */
  lemma LoopEndsIff(children: seq<Child>)
    ensures NoEarlierTwin(children) <==> exists n :: Run(children, n).cursor >= |children|
    ensures NoEarlierTwin(children) ==> Run(children, |children|).cursor == |children|
  {
    if NoEarlierTwin(children) {
      CursorAdvances(children, |children|);
    } else {
      var i: nat, j: nat, k: nat :| Twin(children, i, j, k);
      forall n ensures Run(children, n).cursor < |children| {
        TwinPinsCursor(children, i, j, k, n);
      }
    }
  }

  /** An orphan proof, a theorem and the same proof again: the loop returns to the theorem
      for ever. */
  lemma RepeatedProofLoops(text: string, n: nat)
    ensures var children := [Child(Proof, text), Child(Theorem(true), "1"), Child(Proof, text)];
            Run(children, n).cursor < |children|
  {
    var children := [Child(Proof, text), Child(Theorem(true), "1"), Child(Proof, text)];
    assert FindProof(children, 2) == Some(2);
    TwinPinsCursor(children, 1, 2, 0, n);
  }

  // ------------------------------------------------------------------
  // What the loop emits
  // ------------------------------------------------------------------

  ghost predicate StrictlyBetween(children: seq<Child>, m: nat) {
    exists i: nat, j: nat :: Pairs(children, i, j) && i < m < j
  }

  /** What document order asks for at position m: every theorem its statement, every proof its
      group, owned by the theorem it is paired with; subtrees are entered unless they stand
      between a theorem and its proof. */
  ghost predicate ExpectedAt(children: seq<Child>, m: nat, e: seq<Emit>)
    requires m < |children|
  {
    match children[m].role
    case Theorem(_) => e == [Statement(m)]
    case Proof =>
      |e| == 1 && e[0].ProofGroup? && e[0].at == m
      && (e[0].theorem.Some? ==> Pairs(children, e[0].theorem.value, m))
      && (e[0].theorem.None? ==> forall i: nat :: !Pairs(children, i, m))
    case Prose => e == []
    case _ => e == if StrictlyBetween(children, m) then [] else [Descend(m)]
  }

  /** out lists what document order asks for at the first n positions. */
  ghost predicate Expected(children: seq<Child>, n: nat, out: seq<Emit>)
    requires n <= |children|
    decreases n
  {
    if n == 0 then out == []
    else exists cut: nat :: cut <= |out| && Expected(children, n - 1, out[..cut])
                       && ExpectedAt(children, n - 1, out[cut..])
  }

  lemma ExpectedAppend(children: seq<Child>, n: nat, out: seq<Emit>, e: seq<Emit>)
    requires n < |children| && Expected(children, n, out) && ExpectedAt(children, n, e)
    ensures Expected(children, n + 1, out + e)
  {
    assert (out + e)[..|out|] == out && (out + e)[|out|..] == e;
  }

  /** The cursor is never strictly inside a pair. */
  ghost predicate Outside(children: seq<Child>, c: nat) {
    forall i: nat, j: nat :: Pairs(children, i, j) && i < c ==> j < c
  }

  /** Between a theorem and its proof nothing is expected. */
  lemma {:induction false} PairBody(children: seq<Child>, i: nat, j: nat, m: nat, out: seq<Emit>)
    requires Pairs(children, i, j) && i < m <= j
    requires Expected(children, i + 1, out)
    ensures Expected(children, m, out)
  {
    if m > i + 1 {
      PairBody(children, i, j, m - 1, out);
      assert !children[m - 1].role.Proof? && !Blocks(children[m - 1]);
      assert ExpectedAt(children, m - 1, []);
      ExpectedAppend(children, m - 1, out, []);
      assert out + [] == out;
    }
  }

  /** A theorem with its proof: the cursor jumps over what stands between. */
  lemma PairIsExpected(children: seq<Child>, i: nat, j: nat, out: seq<Emit>)
    requires Pairs(children, i, j)
    requires Outside(children, i) && Expected(children, i, out)
    ensures Outside(children, j + 1)
    ensures Expected(children, j + 1, out + [Statement(i), ProofGroup(j, Some(i))])
  {
    hide Expected;
    var stated := out + [Statement(i)];
    ExpectedAppend(children, i, out, [Statement(i)]);
    PairBody(children, i, j, j, stated);
    ExpectedAppend(children, j, stated, [ProofGroup(j, Some(i))]);
    assert stated + [ProofGroup(j, Some(i))] == out + [Statement(i), ProofGroup(j, Some(i))];
    forall a: nat, b: nat | Pairs(children, a, b) && a < j + 1 ensures b < j + 1 {
      assert Blocks(children[a]) && children[j].role.Proof?;
    }
  }

  lemma SingleIsExpected(children: seq<Child>, i: nat, out: seq<Emit>, e: seq<Emit>)
    requires i < |children| && PairedProof(children, i).None?
    requires Outside(children, i) && Expected(children, i, out)
    requires e == match children[i].role
                  case Theorem(_) => [Statement(i)]
                  case Proof => [ProofGroup(i, None)]
                  case Prose => []
                  case _ => [Descend(i)]
    ensures Outside(children, i + 1)
    ensures Expected(children, i + 1, out + e)
  {
    hide Expected;
    PairedIff(children, i);
    assert ExpectedAt(children, i, e);
    ExpectedAppend(children, i, out, e);
  }

  lemma StepIsExpected(children: seq<Child>, s: State)
    requires NoEarlierTwin(children) && s.cursor < |children|
    requires Outside(children, s.cursor) && Expected(children, s.cursor, s.out)
    ensures Step(children, s).cursor <= |children|
    ensures Outside(children, Step(children, s).cursor)
    ensures Expected(children, Step(children, s).cursor, Step(children, s).out)
  {
    hide Expected, Outside;
    var i := s.cursor;
    match PairedProof(children, i) {
      case Some(j) =>
        PairIsExpected(children, i, j, s.out);
        PairJumpsForward(children, i);
      case None =>
        var e := match children[i].role
                 case Theorem(_) => [Statement(i)]
                 case Proof => [ProofGroup(i, None)]
                 case Prose => []
                 case _ => [Descend(i)];
        SingleIsExpected(children, i, s.out, e);
        assert Step(children, s).out == s.out + e;
    }
  }

  lemma {:induction false} RunIsExpected(children: seq<Child>, rounds: nat)
    requires NoEarlierTwin(children)
    ensures Run(children, rounds).cursor <= |children|
    ensures Outside(children, Run(children, rounds).cursor)
    ensures Expected(children, Run(children, rounds).cursor, Run(children, rounds).out)
  {
    if rounds > 0 {
      RunIsExpected(children, rounds - 1);
      var s := Run(children, rounds - 1);
      if s.cursor < |children| { StepIsExpected(children, s); }
    }
  }

  /** When the loop ends, it has emitted exactly what document order asks for. */
  lemma DocumentOrder(children: seq<Child>, rounds: nat)
    requires NoEarlierTwin(children) && rounds >= |children|
    ensures Run(children, rounds).cursor == |children|
    ensures Expected(children, |children|, Run(children, rounds).out)
  {
    CursorAdvances(children, rounds);
    RunIsExpected(children, rounds);
  }
}
