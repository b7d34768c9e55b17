/** Chunk bodies of one markdown section (`_paragraph_blocks`, `_split_oversized` and
    `_group_blocks` in `ingest/textbook_markdown_chunker.py`). The token count and the test for a
    block that starts a statement or a proof are parameters. */
module MarkdownGroup {
  import opened OpenMath
  import opened PyText
  import opened TextSplit

  const TARGET_TOKENS: nat := 600
  const MAX_TOKENS: nat := 1500
  const MAX_MERGE_BLOCKS: nat := 50

  // ------------------------------------------------------------------
  // Merging across open math
  // ------------------------------------------------------------------

  /** Pieces i up to m make one block: math is open after every shorter prefix, and closed at the
      end unless the cap or the last piece was reached. */
  ghost predicate OneMerge(raw: seq<string>, sep: string, i: nat, m: nat, block: string) {
    && i < m <= |raw| && m - i - 1 <= MAX_MERGE_BLOCKS
    && block == Join(sep, raw[i..m])
    && (forall q :: i < q < m ==> MathOpen(Join(sep, raw[i..q])))
    && (MathOpen(block) ==> m - i - 1 == MAX_MERGE_BLOCKS || m == |raw|)
  }

  /** The blocks are the merges of the first n pieces. */
  ghost predicate Merges(raw: seq<string>, sep: string, n: nat, blocks: seq<string>)
    decreases |blocks|
  {
    if blocks == [] then n == 0
    else exists i: nat :: i < n && OneMerge(raw, sep, i, n, Last(blocks))
                          && Merges(raw, sep, i, blocks[..|blocks| - 1])
  }

  lemma MergesSnoc(raw: seq<string>, sep: string, i: nat, n: nat, blocks: seq<string>, block: string)
    requires Merges(raw, sep, i, blocks) && OneMerge(raw, sep, i, n, block)
    ensures Merges(raw, sep, n, blocks + [block])
  {
    assert (blocks + [block])[..|blocks|] == blocks && Last(blocks + [block]) == block;
  }

  lemma JoinSnoc(sep: string, parts: seq<string>, x: string)
    requires parts != []
    ensures Join(sep, parts + [x]) == Join(sep, parts) + sep + x
  {
    assert (parts + [x])[..|parts|] == parts;
  }

  /** The merging loop of both splitters. */
  method MergeOpenMath(raw: seq<string>, sep: string) returns (blocks: seq<string>)
    ensures Merges(raw, sep, |raw|, blocks)
  {
    hide MathOpen, Join, Merges;
    MergesNone(raw, sep);
    blocks := [];
    var i: nat := 0;
    while i < |raw|
      invariant i <= |raw|
      invariant Merges(raw, sep, i, blocks)
    {
      ghost var from := i;
      var block := raw[i];
      assert raw[i..i + 1] == [raw[i]];
      JoinOne(sep, raw[i]);
      var merges: nat := 0;
      while MathOpen(block) && i + 1 < |raw| && merges < MAX_MERGE_BLOCKS
        invariant i < |raw| && merges == i - from <= MAX_MERGE_BLOCKS
        invariant block == Join(sep, raw[from..i + 1])
        invariant forall q :: from < q < i + 1 ==> MathOpen(Join(sep, raw[from..q]))
        decreases |raw| - i
      {
        JoinSnoc(sep, raw[from..i + 1], raw[i + 1]);
        assert raw[from..i + 2] == raw[from..i + 1] + [raw[i + 1]];
        i := i + 1;
        merges := merges + 1;
        block := block + sep + raw[i];
      }
      MergesSnoc(raw, sep, from, i + 1, blocks, block);
      blocks := blocks + [block];
      i := i + 1;
    }
  }

  lemma MergesNone(raw: seq<string>, sep: string)
    ensures Merges(raw, sep, 0, [])
  {
  }

  lemma JoinOne(sep: string, x: string)
    ensures Join(sep, [x]) == x
  {
  }

  lemma {:induction false} MergesKeepInk(raw: seq<string>, sep: string, n: nat, blocks: seq<string>)
    requires Merges(raw, sep, n, blocks) && n <= |raw|
    requires forall i :: 0 <= i < |sep| ==> IsSpace(sep[i])
    ensures InkOf(blocks) == InkOf(raw[..n])
    decreases |blocks|
  {
    hide IsSpace, Ink;
    if blocks != [] {
      var i: nat :| i < n && OneMerge(raw, sep, i, n, Last(blocks))
                    && Merges(raw, sep, i, blocks[..|blocks| - 1]);
      MergesKeepInk(raw, sep, i, blocks[..|blocks| - 1]);
      JoinKeepsInk(sep, raw[i..n]);
      assert raw[..n] == raw[..i] + raw[i..n];
      InkOfConcat(raw[..i], raw[i..n]);
    }
  }

  /** A block whose runs of dollars, the escaped ones dropped, hold an odd number of pairs or of singles took
      the whole cap of pieces or the last piece; and every block went on exactly while this was so. */
  lemma {:induction false} OddOnlyAtCapOrEnd(raw: seq<string>, sep: string, n: nat, blocks: seq<string>,
                                             block: string)
    requires Merges(raw, sep, n, blocks) && block in blocks
    ensures exists i: nat, m: nat :: OddMerge(raw, sep, i, m, block)
    decreases |blocks|
  {
    hide MathOpen, Join, OddRuns;
    var i: nat :| i < n && OneMerge(raw, sep, i, n, Last(blocks))
                  && Merges(raw, sep, i, blocks[..|blocks| - 1]);
    if block != Last(blocks) {
      assert block in blocks[..|blocks| - 1];
      OddOnlyAtCapOrEnd(raw, sep, i, blocks[..|blocks| - 1], block);
    } else {
      MathOpenIff(block);
      forall q | i < q < n ensures OddRuns(Join(sep, raw[i..q])) {
        MathOpenIff(Join(sep, raw[i..q]));
      }
      assert OddMerge(raw, sep, i, n, block);
    }
  }

  /** The block is pieces i up to m: odd after every shorter prefix, and even at the end unless the cap or
      the last piece was reached. */
  ghost predicate OddMerge(raw: seq<string>, sep: string, i: nat, m: nat, block: string) {
    && i < m <= |raw| && m - i - 1 <= 50 && block == Join(sep, raw[i..m])
    && (forall q :: i < q < m ==> OddRuns(Join(sep, raw[i..q])))
    && (OddRuns(block) ==> m - i - 1 == 50 || m == |raw|)
  }

  // ------------------------------------------------------------------
  // Paragraph blocks
  // ------------------------------------------------------------------

  /** The paragraphs of a text: the pieces between blank lines that are not blank, stripped. */
  ghost predicate AreParagraphs(body: string, raw: seq<string>) {
    exists pieces :: CutFrom(BlankLine, body, 0, pieces) && AreStripped(pieces, raw)
  }

  /** `_paragraph_blocks`: the merges of the paragraphs; the text survives up to whitespace. */
  method ParagraphBlocks(body: string) returns (blocks: seq<string>)
    ensures exists raw :: AreParagraphs(body, raw) && Merges(raw, "\n\n", |raw|, blocks)
    ensures InkOf(blocks) == Ink(body)
  {
    var pieces := Split(BlankLine, body, 0, 0);
    var raw := Trimmed(pieces);
    SplitCuts(BlankLine, body, 0, 0);
    TrimmedAreStripped(pieces);
    SplitKeepsInk(BlankLine, body, 0, 0);
    TrimmedKeepsInk(pieces);
    hide Split, Trimmed, CutFrom, AreStripped, Merges;
    assert AreParagraphs(body, raw);
    blocks := MergeOpenMath(raw, "\n\n");
    MergesKeepInk(raw, "\n\n", |raw|, blocks);
    assert raw[..|raw|] == raw && body[0..] == body;
  }

  // ------------------------------------------------------------------
  // Splitting an oversized block
  // ------------------------------------------------------------------

  /** The pieces are runs of consecutive sentences, each one sentence or within the maximum, and none
      with room for the next sentence. */
  ghost predicate SentenceRuns(pieces: seq<string>, sentences: seq<string>, count: string -> nat)
    decreases |pieces|
  {
    if pieces == [] then sentences == []
    else exists k: nat :: LastRun(pieces, sentences, k, count)
                          && SentenceRuns(pieces[..|pieces| - 1], sentences[..k], count)
  }

  /** The last piece is the sentences from k on. */
  ghost predicate LastRun(pieces: seq<string>, sentences: seq<string>, k: nat, count: string -> nat)
    requires pieces != []
  {
    && k < |sentences| && Last(pieces) == Join(" ", sentences[k..])
    && (k + 1 == |sentences| || count(Last(pieces)) <= 1500)
    && (|pieces| > 1 ==> count(Last(pieces[..|pieces| - 1]) + " " + sentences[k]) > 1500)
  }

  lemma SentenceRunsSnoc(pieces: seq<string>, before: seq<string>, run: seq<string>, count: string -> nat)
    requires SentenceRuns(pieces, before, count) && run != []
    requires |run| == 1 || count(Join(" ", run)) <= MAX_TOKENS
    requires pieces != [] ==> count(Last(pieces) + " " + run[0]) > MAX_TOKENS
    ensures SentenceRuns(pieces + [Join(" ", run)], before + run, count)
  {
    var all := before + run;
    assert (pieces + [Join(" ", run)])[..|pieces|] == pieces;
    assert all[..|before|] == before && all[|before|..] == run;
    assert LastRun(pieces + [Join(" ", run)], all, |before|, count);
  }

  /** The sentences of a block, mended where they cut math open. */
  ghost predicate MendedSentences(block: string, sentences: seq<string>) {
    exists raw :: CutFrom(SentenceGap, block, 0, raw) && Merges(raw, " ", |raw|, sentences)
  }

  /** `_split_oversized`: consecutive sentences, mended where they cut math open, are packed into
      pieces that stay within the maximum unless they are one sentence. */
  method SplitOversized(block: string, count: string -> nat) returns (pieces: seq<string>)
    ensures InkOf(pieces) == Ink(block)
    ensures exists sentences :: MendedSentences(block, sentences) && SentenceRuns(pieces, sentences, count)
  {
    var raw := Split(SentenceGap, block, 0, 0);
    SplitCuts(SentenceGap, block, 0, 0);
    hide Split, CutFrom;
    var merged := MergeOpenMath(raw, " ");
    assert MendedSentences(block, merged);
    SplitKeepsInk(SentenceGap, block, 0, 0);
    MergesKeepInk(raw, " ", |raw|, merged);
    assert raw[..|raw|] == raw && block[0..] == block;
    pieces := PackSentences(merged, count);
    SentenceRunsKeepInk(pieces, merged, count);
    // There is always a sentence, so the fallback to the whole block is never taken.
    assert merged != [] && pieces != [];
  }

  /** The pieces cover the sentences before the buffer, and the buffer is the rest of those read. */
  ghost predicate Packing(pieces: seq<string>, before: seq<string>, buf: seq<string>, read: seq<string>,
                          count: string -> nat) {
    && before + buf == read && (buf == [] ==> read == [])
    && SentenceRuns(pieces, before, count)
    && (|buf| <= 1 || count(Join(" ", buf)) <= MAX_TOKENS)
    && (pieces != [] ==> buf != [] && count(Last(pieces) + " " + buf[0]) > MAX_TOKENS)
  }

  lemma PackingAdds(pieces: seq<string>, before: seq<string>, buf: seq<string>, read: seq<string>, x: string,
                    count: string -> nat)
    requires Packing(pieces, before, buf, read, count)
    requires buf == [] || count(Join(" ", buf + [x])) <= MAX_TOKENS
    ensures Packing(pieces, before, buf + [x], read + [x], count)
  {
    hide Join, SentenceRuns;
    assert before + (buf + [x]) == read + [x];
  }

  lemma PackingFlushes(pieces: seq<string>, before: seq<string>, buf: seq<string>, read: seq<string>, x: string,
                       count: string -> nat)
    requires Packing(pieces, before, buf, read, count)
    requires buf != [] && count(Join(" ", buf + [x])) > MAX_TOKENS
    ensures Packing(pieces + [Join(" ", buf)], read, [x], read + [x], count)
  {
    JoinSnoc(" ", buf, x);
    hide Join;
    SentenceRunsSnoc(pieces, before, buf, count);
    hide SentenceRuns;
    assert Last(pieces + [Join(" ", buf)]) == Join(" ", buf);
  }

  lemma PackingEnds(pieces: seq<string>, before: seq<string>, buf: seq<string>, read: seq<string>, count: string -> nat)
    requires Packing(pieces, before, buf, read, count)
    ensures SentenceRuns(if buf == [] then pieces else pieces + [Join(" ", buf)], read, count)
  {
    hide Join;
    if buf != [] {
      SentenceRunsSnoc(pieces, before, buf, count);
    }
    hide SentenceRuns;
    assert buf == [] ==> before == read;
  }

  /** The loop that packs sentences: it looks before it adds. */
  method PackSentences(merged: seq<string>, count: string -> nat) returns (pieces: seq<string>)
    ensures SentenceRuns(pieces, merged, count)
  {
    SentenceRunsNone(count);
    pieces := [];
    var buf: seq<string> := [];
    ghost var before: seq<string> := [];
    assert Packing(pieces, before, buf, merged[..0], count);
    hide Join, SentenceRuns, Packing;
    for i := 0 to |merged|
      invariant Packing(pieces, before, buf, merged[..i], count)
    {
      assert merged[..i + 1] == merged[..i] + [merged[i]];
      if buf != [] && count(Join(" ", buf + [merged[i]])) > MAX_TOKENS {
        PackingFlushes(pieces, before, buf, merged[..i], merged[i], count);
        pieces := pieces + [Join(" ", buf)];
        buf, before := [], merged[..i];
        assert [] + [merged[i]] == [merged[i]];
      } else {
        PackingAdds(pieces, before, buf, merged[..i], merged[i], count);
      }
      buf := buf + [merged[i]];
    }
    PackingEnds(pieces, before, buf, merged[..|merged|], count);
    assert merged[..|merged|] == merged;
    if buf != [] {
      pieces := pieces + [Join(" ", buf)];
    }
  }

  lemma SentenceRunsNone(count: string -> nat)
    ensures SentenceRuns([], [], count)
  {
  }

  lemma {:induction false} SentenceRunsKeepInk(pieces: seq<string>, sentences: seq<string>, count: string -> nat)
    requires SentenceRuns(pieces, sentences, count)
    ensures InkOf(pieces) == InkOf(sentences)
    decreases |pieces|
  {
    if pieces != [] {
      var k: nat :| LastRun(pieces, sentences, k, count)
                    && SentenceRuns(pieces[..|pieces| - 1], sentences[..k], count);
      SentenceRunsKeepInk(pieces[..|pieces| - 1], sentences[..k], count);
      JoinKeepsInk(" ", sentences[k..]);
      assert sentences == sentences[..k] + sentences[k..];
      InkOfConcat(sentences[..k], sentences[k..]);
    }
  }

  // ------------------------------------------------------------------
  // Grouping blocks
  // ------------------------------------------------------------------

  datatype Group = Run(blocks: seq<string>) | Oversized(block: string, pieces: seq<string>)

  ghost function BlocksOf(groups: seq<Group>): seq<string> {
    if groups == [] then []
    else
      var g := groups[|groups| - 1];
      BlocksOf(groups[..|groups| - 1]) + if g.Run? then g.blocks else [g.block]
  }

  ghost function ChunksOf(groups: seq<Group>): seq<string> {
    if groups == [] then []
    else
      var g := groups[|groups| - 1];
      ChunksOf(groups[..|groups| - 1]) + if g.Run? then [Join("\n\n", g.blocks)] else g.pieces
  }

  /** A run of blocks fit for one chunk: within the maximum, only its first block may start a
      statement or proof, and no proper prefix had reached the target. */
  ghost predicate GoodRun(blocks: seq<string>, count: string -> nat, startsUnit: string -> bool) {
    && blocks != [] && count(Join("\n\n", blocks)) <= 1500
    && (forall i :: 0 < i < |blocks| ==> !startsUnit(blocks[i]))
    && (forall i :: 0 < i < |blocks| ==> count(Join("\n\n", blocks[..i])) < 600)
  }

  /** The pieces of an oversized block: they hold its text, and each is within the maximum or one
      sentence that cannot be split. */
  ghost predicate GoodPieces(block: string, pieces: seq<string>, count: string -> nat) {
    && count(block) > MAX_TOKENS && InkOf(pieces) == Ink(block)
    && exists sentences :: MendedSentences(block, sentences) && SentenceRuns(pieces, sentences, count)
  }

  ghost predicate GoodGroup(g: Group, count: string -> nat, startsUnit: string -> bool) {
    match g
    case Run(blocks) => GoodRun(blocks, count, startsUnit)
    case Oversized(block, pieces) => GoodPieces(block, pieces, count)
  }

  /** Why a run ended where block x came next. */
  ghost predicate Full(run: seq<string>, x: string, count: string -> nat, startsUnit: string -> bool) {
    || startsUnit(x)
    || count(x) > 1500
    || count(Join("\n\n", run + [x])) > 1500
    || count(Join("\n\n", run)) >= 600
  }

  ghost function FirstBlock(g: Group): seq<string> {
    if g.Run? then (if g.blocks == [] then [] else [g.blocks[0]]) else [g.block]
  }

  ghost predicate Grouping(groups: seq<Group>, count: string -> nat, startsUnit: string -> bool) {
    && (forall i :: 0 <= i < |groups| ==> GoodGroup(groups[i], count, startsUnit))
    && (forall i :: 0 <= i < |groups| - 1 && groups[i].Run? && FirstBlock(groups[i + 1]) != [] ==>
          Full(groups[i].blocks, FirstBlock(groups[i + 1])[0], count, startsUnit))
  }

  lemma GroupsSnoc(groups: seq<Group>, g: Group)
    ensures BlocksOf(groups + [g]) == BlocksOf(groups) + if g.Run? then g.blocks else [g.block]
    ensures ChunksOf(groups + [g]) == ChunksOf(groups) + if g.Run? then [Join("\n\n", g.blocks)] else g.pieces
  {
    assert (groups + [g])[..|groups|] == groups;
  }

  /** Block x may begin a group after these groups. */
  ghost predicate MayBegin(groups: seq<Group>, x: string, count: string -> nat, startsUnit: string -> bool) {
    groups != [] && groups[|groups| - 1].Run? ==> Full(groups[|groups| - 1].blocks, x, count, startsUnit)
  }

  /** State of the grouping loop while block x is handled: closed groups and the block buffer. */
  ghost predicate Handling(groups: seq<Group>, buf: seq<string>, x: string, count: string -> nat,
                           startsUnit: string -> bool) {
    && Grouping(groups, count, startsUnit)
    && (buf == [] ==> MayBegin(groups, x, count, startsUnit))
    && (buf != [] ==> GoodRun(buf, count, startsUnit) && count(Join("\n\n", buf)) < TARGET_TOKENS
                      && MayBegin(groups, buf[0], count, startsUnit))
  }

  /** Its state between blocks. */
  ghost predicate Filling(groups: seq<Group>, buf: seq<string>, count: string -> nat, startsUnit: string -> bool) {
    forall x :: Handling(groups, buf, x, count, startsUnit)
  }

  lemma FillingNone(count: string -> nat, startsUnit: string -> bool)
    ensures Filling([], [], count, startsUnit)
    ensures BlocksOf([]) == [] && ChunksOf([]) == []
  {
  }

  lemma GroupingSnoc(groups: seq<Group>, g: Group, count: string -> nat, startsUnit: string -> bool)
    requires Grouping(groups, count, startsUnit) && GoodGroup(g, count, startsUnit)
    requires FirstBlock(g) != [] && MayBegin(groups, FirstBlock(g)[0], count, startsUnit)
    ensures Grouping(groups + [g], count, startsUnit)
  {
    hide GoodGroup, Full, FirstBlock;
    var all := groups + [g];
    assert forall i :: 0 <= i < |groups| ==> all[i] == groups[i];
    assert all[|groups|] == g;
  }

  /** Closing the buffer for block x, which may not join it. */
  lemma CloseFor(groups: seq<Group>, buf: seq<string>, x: string, count: string -> nat, startsUnit: string -> bool)
    requires Handling(groups, buf, x, count, startsUnit) && buf != []
    requires Full(buf, x, count, startsUnit)
    ensures Handling(groups + [Run(buf)], [], x, count, startsUnit)
  {
    GroupingSnoc(groups, Run(buf), count, startsUnit);
  }

  lemma AddOversized(groups: seq<Group>, x: string, pieces: seq<string>, count: string -> nat,
                     startsUnit: string -> bool)
    requires Handling(groups, [], x, count, startsUnit) && GoodPieces(x, pieces, count)
    ensures Filling(groups + [Oversized(x, pieces)], [], count, startsUnit)
  {
    GroupingSnoc(groups, Oversized(x, pieces), count, startsUnit);
  }

  /** Adding block x to the buffer, then closing it if it reached the target. */
  lemma AddBlock(groups: seq<Group>, buf: seq<string>, x: string, count: string -> nat, startsUnit: string -> bool)
    requires Handling(groups, buf, x, count, startsUnit)
    requires buf == [] || !startsUnit(x)
    requires count(Join("\n\n", buf + [x])) <= MAX_TOKENS
    ensures count(Join("\n\n", buf + [x])) < TARGET_TOKENS ==> Filling(groups, buf + [x], count, startsUnit)
    ensures count(Join("\n\n", buf + [x])) >= TARGET_TOKENS ==>
      Filling(groups + [Run(buf + [x])], [], count, startsUnit)
  {
    hide Join;
    var grown := buf + [x];
    forall i | 0 < i < |grown|
      ensures !startsUnit(grown[i]) && count(Join("\n\n", grown[..i])) < TARGET_TOKENS
    {
      if i < |buf| {
        assert grown[..i] == buf[..i] && grown[i] == buf[i];
      } else {
        assert grown[..i] == buf;
      }
    }
    assert GoodRun(grown, count, startsUnit);
    GroupingSnoc(groups, Run(grown), count, startsUnit);
  }

  /** The groups and the buffer hold the blocks read so far. */
  ghost predicate Hold(groups: seq<Group>, buf: seq<string>, read: seq<string>) {
    BlocksOf(groups) + buf == read
  }

  lemma HoldNone()
    ensures Hold([], [], [])
  {
  }

  lemma HeldAll(groups: seq<Group>, read: seq<string>)
    requires Hold(groups, [], read)
    ensures BlocksOf(groups) == read
  {
  }

  lemma HoldBlock(groups: seq<Group>, buf: seq<string>, read: seq<string>, block: string)
    requires Hold(groups, buf, read)
    ensures Hold(groups, buf + [block], read + [block])
  {
    assert BlocksOf(groups) + (buf + [block]) == BlocksOf(groups) + buf + [block];
  }

  lemma HoldOversized(groups: seq<Group>, read: seq<string>, block: string, pieces: seq<string>)
    requires Hold(groups, [], read)
    ensures Hold(groups + [Oversized(block, pieces)], [], read + [block])
  {
    GroupsSnoc(groups, Oversized(block, pieces));
    assert BlocksOf(groups) + [] == BlocksOf(groups);
  }

  /** The nested `flush`: a non-empty buffer becomes one chunk. */
  method Flush(chunks: seq<string>, buf: seq<string>, ghost groups: seq<Group>, ghost read: seq<string>)
    returns (chunks': seq<string>, ghost groups': seq<Group>)
    requires ChunksOf(groups) == chunks && Hold(groups, buf, read)
    ensures groups' == if buf == [] then groups else groups + [Run(buf)]
    ensures ChunksOf(groups') == chunks' && Hold(groups', [], read)
  {
    if buf == [] {
      return chunks, groups;
    }
    GroupsSnoc(groups, Run(buf));
    return chunks + [Join("\n\n", buf)], groups + [Run(buf)];
  }

  /** `_group_blocks`: the chunks are, in order, the joins of good runs of blocks and the pieces
      of oversized blocks, and no run ends before it must. */
  method GroupBlocks(blocks: seq<string>, count: string -> nat, startsUnit: string -> bool)
    returns (chunks: seq<string>)
    ensures exists groups :: BlocksOf(groups) == blocks && ChunksOf(groups) == chunks
                             && Grouping(groups, count, startsUnit)
  {
    hide BlocksOf, ChunksOf, Join, Filling, Grouping, GoodRun, SentenceRuns, Merges, Hold;
    chunks := [];
    var buf: seq<string> := [];
    ghost var groups: seq<Group> := [];
    FillingNone(count, startsUnit);
    HoldNone();
    for i := 0 to |blocks|
      invariant Hold(groups, buf, blocks[..i])
      invariant ChunksOf(groups) == chunks
      invariant Filling(groups, buf, count, startsUnit)
    {
      var block := blocks[i];
      assert blocks[..i + 1] == blocks[..i] + [block];
      FillingHandles(groups, buf, block, count, startsUnit);
      JoinOne("\n\n", block);
      if buf != [] && startsUnit(block) {
        CloseFor(groups, buf, block, count, startsUnit);
        chunks, groups := Flush(chunks, buf, groups, blocks[..i]);
        buf := [];
      }
      if count(block) > MAX_TOKENS {
        if buf != [] { CloseFor(groups, buf, block, count, startsUnit); }
        chunks, groups := Flush(chunks, buf, groups, blocks[..i]);
        buf := [];
        var pieces := SplitOversized(block, count);
        AddOversized(groups, block, pieces, count, startsUnit);
        GroupsSnoc(groups, Oversized(block, pieces));
        HoldOversized(groups, blocks[..i], block, pieces);
        chunks := chunks + pieces;
        groups := groups + [Oversized(block, pieces)];
        continue;
      }
      if buf != [] && count(Join("\n\n", buf + [block])) > MAX_TOKENS {
        CloseFor(groups, buf, block, count, startsUnit);
        chunks, groups := Flush(chunks, buf, groups, blocks[..i]);
        buf := [];
      }
      assert [] + [block] == [block];
      HoldBlock(groups, buf, blocks[..i], block);
      AddBlock(groups, buf, block, count, startsUnit);
      buf := buf + [block];
      if count(Join("\n\n", buf)) >= TARGET_TOKENS {
        chunks, groups := Flush(chunks, buf, groups, blocks[..i + 1]);
        buf := [];
      }
    }
    assert blocks[..|blocks|] == blocks;
    FillingEnds(groups, buf, count, startsUnit);
    chunks, groups := Flush(chunks, buf, groups, blocks);
    HeldAll(groups, blocks);
  }

  /** The chunks of one section: its text survives, in order and up to whitespace. */
  method SectionChunks(body: string, count: string -> nat, startsUnit: string -> bool) returns (chunks: seq<string>)
    ensures InkOf(chunks) == Ink(body)
  {
    hide Grouping;
    var blocks := ParagraphBlocks(body);
    chunks := GroupBlocks(blocks, count, startsUnit);
    ghost var groups :| BlocksOf(groups) == blocks && ChunksOf(groups) == chunks
                        && Grouping(groups, count, startsUnit);
    GroupingGroups(groups, count, startsUnit);
    GroupingKeepsInk(groups, count, startsUnit);
  }

  lemma GroupingGroups(groups: seq<Group>, count: string -> nat, startsUnit: string -> bool)
    requires Grouping(groups, count, startsUnit)
    ensures forall i :: 0 <= i < |groups| ==> GoodGroup(groups[i], count, startsUnit)
  {
  }

  lemma FillingHandles(groups: seq<Group>, buf: seq<string>, x: string, count: string -> nat,
                       startsUnit: string -> bool)
    requires Filling(groups, buf, count, startsUnit)
    ensures Handling(groups, buf, x, count, startsUnit)
  {
  }

  lemma FillingEnds(groups: seq<Group>, buf: seq<string>, count: string -> nat, startsUnit: string -> bool)
    requires Filling(groups, buf, count, startsUnit)
    ensures Grouping(if buf == [] then groups else groups + [Run(buf)], count, startsUnit)
  {
    assert Handling(groups, buf, "", count, startsUnit);
    if buf != [] { GroupingSnoc(groups, Run(buf), count, startsUnit); }
  }

  // ------------------------------------------------------------------
  // What a grouping guarantees
  // ------------------------------------------------------------------

  /** The chunks hold the text of the blocks, in order, up to whitespace. */
  lemma {:induction false} GroupingKeepsInk(groups: seq<Group>, count: string -> nat, startsUnit: string -> bool)
    requires forall i :: 0 <= i < |groups| ==> GoodGroup(groups[i], count, startsUnit)
    ensures InkOf(ChunksOf(groups)) == InkOf(BlocksOf(groups))
  {
    assert IsSpace('\n');
    hide Ink, IsSpace, GoodRun;
    if groups != [] {
      var front, g := groups[..|groups| - 1], groups[|groups| - 1];
      GroupingKeepsInk(front, count, startsUnit);
      match g {
        case Run(blocks) =>
          JoinKeepsInk("\n\n", blocks);
          InkOfConcat(BlocksOf(front), blocks);
          InkOfSnoc(ChunksOf(front), Join("\n\n", blocks));
        case Oversized(block, pieces) =>
          InkOfConcat(ChunksOf(front), pieces);
          InkOfSnoc(BlocksOf(front), block);
      }
    }
  }

  /** A chunk longer than the maximum is one sentence that could not be split. */
  lemma {:induction false} OnlySentencesExceed(groups: seq<Group>, count: string -> nat, startsUnit: string -> bool,
                                               c: string)
    requires forall i :: 0 <= i < |groups| ==> GoodGroup(groups[i], count, startsUnit)
    requires c in ChunksOf(groups) && count(c) > 1500
    ensures exists block, sentences :: block in BlocksOf(groups) && c in sentences && MendedSentences(block, sentences)
  {
    hide MendedSentences, GoodRun;
    var front, g := groups[..|groups| - 1], groups[|groups| - 1];
    if c in ChunksOf(front) {
      OnlySentencesExceed(front, count, startsUnit, c);
    } else if g.Run? {
      assert false by { LongRun(g, count, startsUnit); }
    } else {
      var sentences :| MendedSentences(g.block, sentences) && SentenceRuns(g.pieces, sentences, count);
      LongPiece(g.pieces, sentences, count, c);
    }
  }

  lemma LongRun(g: Group, count: string -> nat, startsUnit: string -> bool)
    requires g.Run? && GoodGroup(g, count, startsUnit)
    ensures count(Join("\n\n", g.blocks)) <= MAX_TOKENS
  {
  }

  lemma {:induction false} LongPiece(pieces: seq<string>, sentences: seq<string>, count: string -> nat, c: string)
    requires SentenceRuns(pieces, sentences, count) && c in pieces && count(c) > MAX_TOKENS
    ensures c in sentences
    decreases |pieces|
  {
    var k: nat :| LastRun(pieces, sentences, k, count)
                  && SentenceRuns(pieces[..|pieces| - 1], sentences[..k], count);
    if c in pieces[..|pieces| - 1] {
      LongPiece(pieces[..|pieces| - 1], sentences[..k], count, c);
    } else {
      assert sentences[k..] == [sentences[k]];
    }
  }
}
