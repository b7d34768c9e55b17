/** Greedy token packing of prose blocks (`_extract_body_fallback_chunks` in `ingest/chunker.py`).
    Token counting is a parameter. */
module BlockPacking {

  const STMT_MAX_TOKENS: nat := 1920

  function Total(blocks: seq<string>, count: string -> nat): nat {
    if blocks == [] then 0 else Total(blocks[..|blocks| - 1], count) + count(blocks[|blocks| - 1])
  }

  ghost function Concat(pieces: seq<seq<string>>): seq<string> {
    if pieces == [] then [] else pieces[0] + Concat(pieces[1..])
  }

  /** A piece is one block, of any size, or stays within the budget. */
  ghost predicate Fits(piece: seq<string>, count: string -> nat) {
    |piece| == 1 || (|piece| > 1 && Total(piece, count) <= 1920)
  }

  /** pieces cuts blocks, in order, into pieces that fit. */
  ghost predicate Splits(pieces: seq<seq<string>>, blocks: seq<string>, count: string -> nat) {
    Concat(pieces) == blocks && forall i :: 0 <= i < |pieces| ==> Fits(pieces[i], count)
  }

  /** No piece has room for the block that follows it. */
  ghost predicate Saturated(pieces: seq<seq<string>>, count: string -> nat) {
    forall i :: 0 <= i < |pieces| - 1 && pieces[i + 1] != [] ==>
      Total(pieces[i] + [pieces[i + 1][0]], count) > 1920
  }

  lemma TotalSnoc(a: seq<string>, x: string, count: string -> nat)
    ensures Total(a + [x], count) == Total(a, count) + count(x)
  {
    assert (a + [x])[..|a|] == a;
  }

  lemma {:induction false} TotalConcat(a: seq<string>, b: seq<string>, count: string -> nat)
    ensures Total(a + b, count) == Total(a, count) + Total(b, count)
  {
    if b == [] {
      assert a + b == a;
    } else {
      TotalConcat(a, b[..|b| - 1], count);
      assert (a + b)[..|a + b| - 1] == a + b[..|b| - 1];
    }
  }

  lemma {:induction false} ConcatSnoc(pieces: seq<seq<string>>, last: seq<string>)
    ensures Concat(pieces + [last]) == Concat(pieces) + last
  {
    if pieces == [] {
      assert pieces + [last] == [last];
      assert [last][1..] == [];
    } else {
      ConcatSnoc(pieces[1..], last);
      assert (pieces + [last])[1..] == pieces[1..] + [last];
    }
  }

  /** Saturation of a sequence with one more piece depends on that piece's first block only. */
  lemma SaturatedSnoc(pieces: seq<seq<string>>, last: seq<string>, count: string -> nat)
    requires last != []
    ensures Saturated(pieces + [last], count) <==>
      Saturated(pieces, count)
      && (pieces != [] ==> Total(pieces[|pieces| - 1] + [last[0]], count) > STMT_MAX_TOKENS)
  {
    var all := pieces + [last];
    if Saturated(all, count) {
      forall i | 0 <= i < |pieces| - 1 && pieces[i + 1] != []
        ensures Total(pieces[i] + [pieces[i + 1][0]], count) > STMT_MAX_TOKENS
      {
        assert all[i] == pieces[i] && all[i + 1] == pieces[i + 1];
      }
      if pieces != [] {
        assert all[|pieces| - 1] == pieces[|pieces| - 1] && all[|pieces| - 1 + 1] == last;
      }
    }
  }

  /** The loop's state after the blocks in `done`: flushed buffers and the buffer being filled. */
  ghost predicate Packed(buffers: seq<seq<string>>, buffer: seq<string>, done: seq<string>, count: string -> nat) {
    && Splits(buffers, Concat(buffers), count) && Saturated(buffers, count)
    && Concat(buffers) + buffer == done
    && (buffer == [] ==> buffers == [])
    && (buffer != [] ==> Fits(buffer, count))
    && (buffers != [] && buffer != [] ==>
          Total(buffers[|buffers| - 1] + [buffer[0]], count) > STMT_MAX_TOKENS)
  }

  lemma PackedStart(count: string -> nat)
    ensures Packed([], [], [], count) && Total([], count) == 0
  {
  }

  lemma PackedDone(buffers: seq<seq<string>>, done: seq<string>, count: string -> nat)
    requires Packed(buffers, [], done, count)
    ensures Splits(buffers, done, count) && Saturated(buffers, count)
  {
    assert Concat(buffers) + [] == Concat(buffers);
  }

  lemma PackedAdd(buffers: seq<seq<string>>, buffer: seq<string>, done: seq<string>, x: string, count: string -> nat)
    requires Packed(buffers, buffer, done, count)
    requires buffer == [] || Total(buffer, count) + count(x) <= STMT_MAX_TOKENS
    ensures Packed(buffers, buffer + [x], done + [x], count)
  {
    TotalSnoc(buffer, x, count);
  }

  lemma PackedFlush(buffers: seq<seq<string>>, buffer: seq<string>, done: seq<string>, count: string -> nat)
    requires Packed(buffers, buffer, done, count) && buffer != []
    ensures Splits(buffers + [buffer], done, count) && Saturated(buffers + [buffer], count)
  {
    ConcatSnoc(buffers, buffer);
    SaturatedSnoc(buffers, buffer, count);
  }

  lemma PackedFlushAdd(buffers: seq<seq<string>>, buffer: seq<string>, done: seq<string>, x: string,
                       count: string -> nat)
    requires Packed(buffers, buffer, done, count) && buffer != []
    requires Total(buffer, count) + count(x) > STMT_MAX_TOKENS
    ensures Packed(buffers + [buffer], [x], done + [x], count)
  {
    PackedFlush(buffers, buffer, done, count);
    TotalSnoc(buffer, x, count);
  }

  /** The packing loop with its final flush: the flushed buffers cut the blocks in order into
      pieces that fit, none with room for the next block. */
  method PackBlocks(texts: seq<string>, count: string -> nat) returns (buffers: seq<seq<string>>)
    ensures Splits(buffers, texts, count)
    ensures Saturated(buffers, count)
  {
    hide Saturated, Splits, Packed, Total;
    PackedStart(count);
    buffers := [];
    var buffer: seq<string> := [];
    var bufferTokens: nat := 0;
    var i: nat := 0;
    while i < |texts|
      invariant i <= |texts|
      invariant bufferTokens == Total(buffer, count)
      invariant Packed(buffers, buffer, texts[..i], count)
    {
      var n := count(texts[i]);
      assert texts[..i + 1] == texts[..i] + [texts[i]];
      if buffer != [] && bufferTokens + n > STMT_MAX_TOKENS {
        PackedFlushAdd(buffers, buffer, texts[..i], texts[i], count);
        buffers := buffers + [buffer];
        buffer, bufferTokens := [], 0;
        assert buffer + [texts[i]] == [texts[i]];
      } else {
        PackedAdd(buffers, buffer, texts[..i], texts[i], count);
      }
      TotalSnoc(buffer, texts[i], count);
      buffer := buffer + [texts[i]];
      bufferTokens := bufferTokens + n;
      i := i + 1;
    }
    assert texts[..i] == texts;
    if buffer != [] {
      PackedFlush(buffers, buffer, texts, count);
      buffers := buffers + [buffer];
    } else {
      PackedDone(buffers, texts, count);
    }
  }

  /** A saturated split that starts ahead never needs more pieces than another split. */
  lemma {:induction false} StaysAhead(a: seq<seq<string>>, b: seq<seq<string>>, lead: seq<string>, count: string -> nat)
    requires forall i :: 0 <= i < |a| ==> Fits(a[i], count)
    requires forall i :: 0 <= i < |b| ==> Fits(b[i], count)
    requires Saturated(a, count)
    requires Concat(b) == lead + Concat(a)
    ensures |a| <= |b|
    decreases |b|
  {
    if a != [] {
      var reach := lead + a[0];
      assert Concat(b) == reach + Concat(a[1..]);
      assert b != [] by { assert |Concat(b)| > 0; }
      if |b[0]| > |reach| {
        PieceTooLong(a, b[0], Concat(b[1..]), lead, count);
      }
      assert Concat(b)[|b[0]|..] == Concat(b[1..]);
      assert (reach + Concat(a[1..]))[|b[0]|..] == reach[|b[0]|..] + Concat(a[1..]);
      forall i | 0 <= i < |a[1..]| - 1 && a[1..][i + 1] != []
        ensures Total(a[1..][i] + [a[1..][i + 1][0]], count) > STMT_MAX_TOKENS
      {
        assert a[1..][i] == a[i + 1] && a[1..][i + 1] == a[i + 2];
      }
      StaysAhead(a[1..], b[1..], reach[|b[0]|..], count);
    }
  }

  lemma PieceTooLong(a: seq<seq<string>>, piece: seq<string>, rest: seq<string>, lead: seq<string>,
                     count: string -> nat)
    requires a != [] && forall i :: 0 <= i < |a| ==> Fits(a[i], count)
    requires Saturated(a, count)
    requires piece + rest == lead + a[0] + Concat(a[1..])
    requires Fits(piece, count)
    ensures |piece| <= |lead + a[0]|
  {
    if |piece| > |lead + a[0]| {
      var whole := piece + rest;
      assert a[1..] != [];
      assert Concat(a[1..]) == a[1] + Concat(a[1..][1..]);
      var n := |lead + a[0]|;
      assert whole[n] == a[1][0];
      assert piece == lead + (a[0] + [a[1][0]]) + piece[n + 1..] by {
        assert whole[..n] == lead + a[0];
        assert piece[..n] == lead + a[0];
      }
      TotalConcat(lead + (a[0] + [a[1][0]]), piece[n + 1..], count);
      TotalConcat(lead, a[0] + [a[1][0]], count);
      assert false;
    }
  }

  /** The greedy packing is optimal: no order-preserving split into pieces that fit is shorter. */
  lemma GreedyIsFewest(greedy: seq<seq<string>>, other: seq<seq<string>>, blocks: seq<string>, count: string -> nat)
    requires Splits(greedy, blocks, count) && Saturated(greedy, count)
    requires Splits(other, blocks, count)
    ensures |greedy| <= |other|
  {
    assert Concat(other) == [] + Concat(greedy);
    StaysAhead(greedy, other, [], count);
  }

  /** Saturation leaves no choice: the blocks have one saturated split. */
  lemma {:induction false} SaturatedIsUnique(a: seq<seq<string>>, b: seq<seq<string>>, blocks: seq<string>,
                                             count: string -> nat)
    requires Splits(a, blocks, count) && Saturated(a, count)
    requires Splits(b, blocks, count) && Saturated(b, count)
    ensures a == b
    decreases |a|
  {
    assert a != [] ==> |Concat(a)| > 0;
    assert b != [] ==> |Concat(b)| > 0;
    if a != [] && b != [] {
      PieceTooLong(a, b[0], Concat(b[1..]), [], count);
      PieceTooLong(b, a[0], Concat(a[1..]), [], count);
      SplitHead(a[0], Concat(a[1..]), blocks);
      SplitHead(b[0], Concat(b[1..]), blocks);
      SaturatedTail(a, count);
      SaturatedTail(b, count);
      SaturatedIsUnique(a[1..], b[1..], blocks[|a[0]|..], count);
      assert a == [a[0]] + a[1..] && b == [b[0]] + b[1..];
    }
  }

  lemma SplitHead(head: seq<string>, rest: seq<string>, blocks: seq<string>)
    requires blocks == head + rest
    ensures head == blocks[..|head|] && rest == blocks[|head|..]
  {
  }

  lemma SaturatedTail(a: seq<seq<string>>, count: string -> nat)
    requires a != [] && Saturated(a, count)
    ensures Saturated(a[1..], count)
  {
    forall i | 0 <= i < |a[1..]| - 1 && a[1..][i + 1] != []
      ensures Total(a[1..][i] + [a[1..][i + 1][0]], count) > STMT_MAX_TOKENS
    {
      assert a[1..][i] == a[i + 1] && a[1..][i + 1] == a[i + 2];
    }
  }
}
