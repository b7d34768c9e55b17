/** Overlapping windows over a long proof (`_window_proof_text` in `ingest/chunker.py`). The
    tokenizer's output, one character range a token, is a parameter. */
module ProofWindows {

  const PROOF_MAX_TOKENS: nat := 1856
  const PROOF_WINDOW_OVERLAP: nat := 64
  const STRIDE: nat := PROOF_MAX_TOKENS - PROOF_WINDOW_OVERLAP

  datatype Offset = Offset(start: nat, end: nat)

  /** A Python slice: bounds past the end are clipped, crossed bounds give nothing. */
  function Slice(text: string, a: nat, b: nat): string {
    var hi := if b < |text| then b else |text|;
    if a <= hi then text[a..hi] else ""
  }

  /** How many windows n tokens need, n being more than one window holds: the least number of
      strides that, after the first overlap, reach the end. */
  function WindowCount(n: nat): nat
    requires n > PROOF_MAX_TOKENS
  {
    (n - PROOF_WINDOW_OVERLAP + STRIDE - 1) / STRIDE
  }

  function WindowStart(k: nat): nat { k * STRIDE }

  function WindowEnd(k: nat, n: nat): nat {
    if WindowStart(k) + PROOF_MAX_TOKENS < n then WindowStart(k) + PROOF_MAX_TOKENS else n
  }

  /** The window holds the characters of the text from a up to b, as far as the text goes. */
  ghost predicate Holds(window: string, text: string, a: nat, b: nat) {
    && (forall i :: a <= i < b && i < |text| ==> i - a < |window| && window[i - a] == text[i])
    && (|window| > 0 ==> a + |window| <= b && a + |window| <= |text|)
  }

  lemma SliceHolds(text: string, a: nat, b: nat)
    ensures Holds(Slice(text, a, b), text, a, b)
  {
  }

  /** Window k is the text of the tokens from 1792 k on, of at most 1856 of them. */
  ghost predicate Windowed(text: string, offsets: seq<Offset>, windows: seq<string>) {
    forall k: nat :: k < |windows| ==>
      var last := if 1792 * k + 1855 < |offsets| then 1792 * k + 1855 else |offsets| - 1;
      0 <= 1792 * k <= last && Holds(windows[k], text, offsets[1792 * k].start, offsets[last].end)
  }

  lemma WindowedNone(text: string, offsets: seq<Offset>)
    ensures Windowed(text, offsets, [])
  {
  }

  lemma WindowedMore(text: string, offsets: seq<Offset>, windows: seq<string>)
    requires Windowed(text, offsets, windows) && WindowStart(|windows|) < |offsets|
    ensures var k := |windows|;
            Windowed(text, offsets, windows +
              [Slice(text, offsets[WindowStart(k)].start, offsets[WindowEnd(k, |offsets|) - 1].end)])
  {
    var k := |windows|;
    SliceHolds(text, offsets[WindowStart(k)].start, offsets[WindowEnd(k, |offsets|) - 1].end);
    hide Slice, Holds;
  }

  lemma NextWindow(k: nat, n: nat)
    ensures WindowStart(k + 1) == WindowStart(k) + PROOF_MAX_TOKENS - PROOF_WINDOW_OVERLAP
    ensures WindowEnd(k, n) == if WindowStart(k) + PROOF_MAX_TOKENS < n then WindowStart(k) + PROOF_MAX_TOKENS else n
  {
  }

  lemma CountReached(n: nat, k: nat)
    requires n > PROOF_MAX_TOKENS && WindowStart(k) + PROOF_WINDOW_OVERLAP < n <= WindowStart(k) + PROOF_MAX_TOKENS
    ensures k + 1 == WindowCount(n)
  {
  }

  /** `_window_proof_text`. */
  method WindowProofText(text: string, offsets: seq<Offset>) returns (windows: seq<string>)
    ensures |offsets| <= PROOF_MAX_TOKENS ==> windows == [text]
    ensures |offsets| > PROOF_MAX_TOKENS ==> |windows| == WindowCount(|offsets|) && Windowed(text, offsets, windows)
  {
    if |offsets| <= PROOF_MAX_TOKENS {
      return [text];
    }
    WindowedNone(text, offsets);
    windows := [];
    var start: nat := 0;
    assert start == WindowStart(0);
    hide Slice, WindowCount, WindowStart, WindowEnd, Windowed;
    while start < |offsets|
      invariant start == WindowStart(|windows|)
      invariant start + PROOF_WINDOW_OVERLAP < |offsets|
      invariant Windowed(text, offsets, windows)
      decreases |offsets| - start
    {
      var end := if start + PROOF_MAX_TOKENS < |offsets| then start + PROOF_MAX_TOKENS else |offsets|;
      NextWindow(|windows|, |offsets|);
      WindowedMore(text, offsets, windows);
      windows := windows + [Slice(text, offsets[start].start, offsets[end - 1].end)];
      if end >= |offsets| {
        CountReached(|offsets|, |windows| - 1);
        break;
      }
      start := end - PROOF_WINDOW_OVERLAP;
    }
  }

  // ------------------------------------------------------------------
  // What the windows are worth
  // ------------------------------------------------------------------

  /** All windows but the last are full, neighbours share exactly the overlap, the last one ends
      with the last token and none starts inside it only by overlap. */
  lemma WindowShapes(n: nat, k: nat)
    requires n > PROOF_MAX_TOKENS && k < WindowCount(n)
    ensures WindowStart(k) + PROOF_WINDOW_OVERLAP < n
    ensures k + 1 < WindowCount(n) ==>
      && WindowEnd(k, n) - WindowStart(k) == PROOF_MAX_TOKENS
      && WindowEnd(k, n) - WindowStart(k + 1) == PROOF_WINDOW_OVERLAP
    ensures k + 1 == WindowCount(n) ==>
      WindowEnd(k, n) == n && PROOF_WINDOW_OVERLAP < n - WindowStart(k) <= PROOF_MAX_TOKENS
  {
  }

  ghost function Window<T>(tokens: seq<T>, k: nat): seq<T>
    requires |tokens| > PROOF_MAX_TOKENS && k < WindowCount(|tokens|)
  {
    WindowShapes(|tokens|, k);
    tokens[WindowStart(k)..WindowEnd(k, |tokens|)]
  }

  /** The first m windows put together, each after the first without its leading overlap. */
  ghost function Glued<T>(tokens: seq<T>, m: nat): seq<T>
    requires |tokens| > PROOF_MAX_TOKENS && m <= WindowCount(|tokens|)
  {
    if m == 0 then []
    else
      WindowShapes(|tokens|, m - 1);
      Glued(tokens, m - 1) + if m == 1 then Window(tokens, 0) else Window(tokens, m - 1)[PROOF_WINDOW_OVERLAP..]
  }

  lemma {:induction false} GluedIsPrefix<T>(tokens: seq<T>, m: nat)
    requires |tokens| > PROOF_MAX_TOKENS && 0 < m <= WindowCount(|tokens|)
    ensures Glued(tokens, m) == tokens[..WindowEnd(m - 1, |tokens|)]
  {
    WindowShapes(|tokens|, m - 1);
    if m == 1 {
      assert Glued(tokens, 0) == [];
    } else {
      GluedIsPrefix(tokens, m - 1);
      WindowShapes(|tokens|, m - 2);
    }
  }

  /** Gluing all windows gives the token sequence back. */
  lemma {:induction false} WindowsReassemble<T>(tokens: seq<T>)
    requires |tokens| > PROOF_MAX_TOKENS
    ensures Glued(tokens, WindowCount(|tokens|)) == tokens
  {
    var m := WindowCount(|tokens|);
    GluedIsPrefix(tokens, m);
    WindowShapes(|tokens|, m - 1);
  }

  ghost predicate Monotone(offsets: seq<Offset>) {
    && (forall i :: 0 <= i < |offsets| ==> offsets[i].start <= offsets[i].end)
    && (forall i, j :: 0 <= i < j < |offsets| ==>
          offsets[i].start <= offsets[j].start && offsets[i].end <= offsets[j].end)
  }

  /** With monotone offsets the character ranges of the windows leave no gap: the first begins
      where the first token does, the last ends where the last token does, and each begins no
      later than its predecessor ends. */
  lemma CharactersCovered(offsets: seq<Offset>, k: nat)
    requires |offsets| > PROOF_MAX_TOKENS && Monotone(offsets) && k < WindowCount(|offsets|)
    ensures k == 0 ==> WindowStart(k) == 0
    ensures k + 1 == WindowCount(|offsets|) ==> WindowEnd(k, |offsets|) == |offsets|
    ensures k + 1 < WindowCount(|offsets|) ==>
      && WindowStart(k + 1) < WindowEnd(k, |offsets|)
      && offsets[WindowStart(k)].start <= offsets[WindowStart(k + 1)].start
      && offsets[WindowStart(k + 1)].start <= offsets[WindowEnd(k, |offsets|) - 1].end
  {
    WindowShapes(|offsets|, k);
    if k + 1 < WindowCount(|offsets|) {
      var a, b := WindowStart(k + 1), WindowEnd(k, |offsets|) - 1;
      assert a < b && offsets[a].start <= offsets[b].start <= offsets[b].end;
    }
  }
}
