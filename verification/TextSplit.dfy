/** The two regex splits of the markdown chunker (`_BLANKLINE_RE`, `_SENTENCE_SPLIT_RE` and the
    stripping of `_paragraph_blocks` in `ingest/textbook_markdown_chunker.py`): the code's search, and
    what `re.split` promises about its pieces. */
module TextSplit {
  import opened PyText

  // ------------------------------------------------------------------
  // The two regex splits
  // ------------------------------------------------------------------

  /** Where a blank-line separator that starts at i ends: a newline, spaces or tabs, a newline. */
  function BlankEnd(s: string, i: nat): (e: nat)
    requires i < |s|
    ensures e == i || (i < e <= |s| && forall k :: i <= k < e ==> IsSpace(s[k]))
  {
    if s[i] != '\n' then i
    else
      var j := SkipTabs(s, i + 1);
      if j < |s| && s[j] == '\n' then j + 1 else i
  }

  function SkipTabs(s: string, i: nat): (j: nat)
    requires i <= |s|
    ensures i <= j <= |s| && forall k :: i <= k < j ==> IsSpace(s[k])
    decreases |s| - i
  {
    if i < |s| && (s[i] == ' ' || s[i] == '\t') then SkipTabs(s, i + 1) else i
  }

  /** Where the whitespace after a sentence end, starting at i, ends. */
  function GapEnd(s: string, i: nat): (e: nat)
    requires i < |s|
    ensures e == i || (i < e <= |s| && forall k :: i <= k < e ==> IsSpace(s[k]))
  {
    if i > 0 && s[i - 1] in ".!?" then SkipSpaces(s, i) else i
  }

  function SkipSpaces(s: string, i: nat): (j: nat)
    requires i <= |s|
    ensures i <= j <= |s| && forall k :: i <= k < j ==> IsSpace(s[k])
    decreases |s| - i
  {
    if i < |s| && IsSpace(s[i]) then SkipSpaces(s, i + 1) else i
  }

  datatype Separator = BlankLine | SentenceGap

  function SeparatorEnd(sep: Separator, s: string, i: nat): (e: nat)
    requires i < |s|
    ensures e == i || (i < e <= |s| && forall k :: i <= k < e ==> IsSpace(s[k]))
  {
    match sep
    case BlankLine => BlankEnd(s, i)
    case SentenceGap => GapEnd(s, i)
  }

  /** `re.split`: the current piece began at start and the search stands at i. */
  function Split(sep: Separator, s: string, start: nat, i: nat): (r: seq<string>)
    requires start <= i <= |s|
    ensures r != []
    decreases |s| - i
  {
    if i == |s| then [s[start..]]
    else
      var e := SeparatorEnd(sep, s, i);
      if e > i then [s[start..i]] + Split(sep, s, e, e) else Split(sep, s, start, i + 1)
  }

  // ------------------------------------------------------------------
  // What splitting means
  // ------------------------------------------------------------------

  /** The pattern matches the text from a up to b: two newlines with nothing but spaces and tabs between
      them, or all the whitespace after a full stop, exclamation or question mark. */
  ghost predicate IsGap(sep: Separator, s: string, a: nat, b: nat) {
    match sep
    case BlankLine =>
      && a + 1 < b <= |s| && s[a] == '\n' && s[b - 1] == '\n'
      && forall k :: a < k < b - 1 ==> s[k] == ' ' || s[k] == '\t'
    case SentenceGap =>
      && 0 < a < b <= |s| && (s[a - 1] == '.' || s[a - 1] == '!' || s[a - 1] == '?')
      && (forall k :: a <= k < b ==> IsSpace(s[k])) && (b < |s| ==> !IsSpace(s[b]))
  }

  /** No match starts from a on and before b. */
  ghost predicate NoGap(sep: Separator, s: string, a: nat, b: nat) {
    forall p: nat, e: nat :: a <= p < b ==> !IsGap(sep, s, p, e)
  }

  /** The pieces are what the leftmost matches leave of the text from start on. */
  ghost predicate CutFrom(sep: Separator, s: string, start: nat, pieces: seq<string>)
    requires start <= |s|
    decreases |pieces|
  {
    if |pieces| <= 1 then pieces == [s[start..]] && NoGap(sep, s, start, |s|)
    else exists a: nat, b: nat :: CutAt(sep, s, start, a, b, pieces[0]) && CutFrom(sep, s, b, pieces[1..])
  }

  ghost predicate CutAt(sep: Separator, s: string, start: nat, a: nat, b: nat, piece: string) {
    start <= a < b <= |s| && IsGap(sep, s, a, b) && NoGap(sep, s, start, a) && piece == s[start..a]
  }

  lemma SeparatorIff(sep: Separator, s: string, i: nat)
    requires i < |s|
    ensures SeparatorEnd(sep, s, i) > i ==> IsGap(sep, s, i, SeparatorEnd(sep, s, i))
    ensures SeparatorEnd(sep, s, i) == i ==> forall e: nat :: !IsGap(sep, s, i, e)
  {
    match sep
    case BlankLine => if s[i] == '\n' {
      SkipsTabs(s, i + 1);
      forall e: nat | IsGap(sep, s, i, e) ensures e == SeparatorEnd(sep, s, i) {
        var j := SkipTabs(s, i + 1);
        assert s[e - 1] == '\n';
      }
    }
    case SentenceGap => if i > 0 && s[i - 1] in ".!?" {
      SkipsSpaces(s, i);
      assert s[i - 1] == '.' || s[i - 1] == '!' || s[i - 1] == '?';
    } else {
      assert i > 0 ==> s[i - 1] != '.' && s[i - 1] != '!' && s[i - 1] != '?' by {
        assert ".!?"[0] == '.' && ".!?"[1] == '!' && ".!?"[2] == '?';
      }
    }
  }

  lemma {:induction false} SkipsTabs(s: string, i: nat)
    requires i <= |s|
    ensures forall k :: i <= k < SkipTabs(s, i) ==> s[k] == ' ' || s[k] == '\t'
    ensures SkipTabs(s, i) < |s| ==> s[SkipTabs(s, i)] != ' ' && s[SkipTabs(s, i)] != '\t'
    decreases |s| - i
  {
    if i < |s| && (s[i] == ' ' || s[i] == '\t') { SkipsTabs(s, i + 1); }
  }

  lemma {:induction false} SkipsSpaces(s: string, i: nat)
    requires i <= |s|
    ensures SkipSpaces(s, i) < |s| ==> !IsSpace(s[SkipSpaces(s, i)])
    ensures i < |s| && IsSpace(s[i]) ==> SkipSpaces(s, i) > i
    decreases |s| - i
  {
    if i < |s| && IsSpace(s[i]) { SkipsSpaces(s, i + 1); }
  }

  /** Splitting cuts at the leftmost matches and nowhere else. */
  lemma {:induction false} SplitCuts(sep: Separator, s: string, start: nat, i: nat)
    requires start <= i <= |s| && NoGap(sep, s, start, i)
    ensures CutFrom(sep, s, start, Split(sep, s, start, i))
    decreases |s| - i
  {
    hide IsGap, SeparatorEnd;
    if i < |s| {
      SeparatorIff(sep, s, i);
      var e := SeparatorEnd(sep, s, i);
      if e > i {
        SplitCuts(sep, s, e, e);
        var rest := Split(sep, s, e, e);
        var all := [s[start..i]] + rest;
        assert all[1..] == rest && all[0] == s[start..i] && |all| > 1;
        assert CutAt(sep, s, start, i, e, all[0]) && CutFrom(sep, s, e, all[1..]);
      } else {
        SplitCuts(sep, s, start, i + 1);
      }
    }
  }

  // ------------------------------------------------------------------
  // Splitting loses whitespace only
  // ------------------------------------------------------------------

  lemma InkOfOne(x: string)
    ensures InkOf([x]) == Ink(x)
  {
    InkOfSnoc([], x);
    assert [] + [x] == [x];
  }

  lemma CutKeepsInk(s: string, start: nat, i: nat, e: nat)
    requires start <= i <= e <= |s| && forall k :: i <= k < e ==> IsSpace(s[k])
    ensures Ink(s[start..]) == Ink(s[start..i]) + Ink(s[e..])
  {
    hide Ink, IsSpace;
    assert s[start..] == s[start..i] + (s[i..e] + s[e..]);
    InkConcat(s[start..i], s[i..e] + s[e..]);
    InkConcat(s[i..e], s[e..]);
    BlankHasNoInk(s[i..e]);
  }

  lemma InkOfCons(x: string, rest: seq<string>)
    ensures InkOf([x] + rest) == Ink(x) + InkOf(rest)
  {
    InkOfConcat([x], rest);
    InkOfOne(x);
  }

  /** Splitting loses whitespace only. */
  lemma {:induction false} SplitKeepsInk(sep: Separator, s: string, start: nat, i: nat)
    requires start <= i <= |s|
    ensures InkOf(Split(sep, s, start, i)) == Ink(s[start..])
    decreases |s| - i
  {
    hide Ink, IsSpace, InkOf;
    if i == |s| {
      InkOfOne(s[start..]);
    } else {
      var e := SeparatorEnd(sep, s, i);
      if e > i {
        SplitKeepsInk(sep, s, e, e);
        InkOfCons(s[start..i], Split(sep, s, e, e));
        CutKeepsInk(s, start, i, e);
      } else {
        SplitKeepsInk(sep, s, start, i + 1);
      }
    }
  }

  /** `[b.strip() for b in pieces if b.strip()]`. */
  function Trimmed(pieces: seq<string>): (r: seq<string>)
    ensures |r| <= |pieces|
  {
    if pieces == [] then []
    else
      var last := Strip(pieces[|pieces| - 1]);
      Trimmed(pieces[..|pieces| - 1]) + if last == "" then [] else [last]
  }

  /** x without the whitespace at either end. */
  ghost predicate IsStripped(x: string, stripped: string) {
    exists a, b ::
      && 0 <= a <= b <= |x| && stripped == x[a..b]
      && (forall i :: 0 <= i < a || b <= i < |x| ==> IsSpace(x[i]))
      && (a < b ==> !IsSpace(x[a]) && !IsSpace(x[b - 1]))
  }

  /** The pieces that are not blank, each stripped, in order. */
  ghost predicate AreStripped(pieces: seq<string>, stripped: seq<string>)
    decreases |pieces|
  {
    if pieces == [] then stripped == []
    else if forall i :: 0 <= i < |Last(pieces)| ==> IsSpace(Last(pieces)[i]) then
      AreStripped(pieces[..|pieces| - 1], stripped)
    else
      && stripped != [] && IsStripped(Last(pieces), Last(stripped))
      && AreStripped(pieces[..|pieces| - 1], stripped[..|stripped| - 1])
  }

  lemma {:induction false} TrimmedAreStripped(pieces: seq<string>)
    ensures AreStripped(pieces, Trimmed(pieces))
  {
    if pieces != [] {
      var most, x := pieces[..|pieces| - 1], Last(pieces);
      TrimmedAreStripped(most);
      StripOne(x);
      hide Strip, IsSpace, IsStripped;
      if Strip(x) != "" {
        assert Trimmed(pieces) == Trimmed(most) + [Strip(x)];
        assert Trimmed(pieces)[..|Trimmed(most)|] == Trimmed(most);
      } else {
        assert Trimmed(pieces) == Trimmed(most);
      }
    }
  }

  lemma StripOne(x: string)
    ensures IsStripped(x, Strip(x))
    ensures Strip(x) == "" <==> forall i :: 0 <= i < |x| ==> IsSpace(x[i])
  {
    StripIs(x);
    hide Strip, IsSpace;
    var a, b :| && 0 <= a <= b <= |x| && Strip(x) == x[a..b]
                && (forall i :: 0 <= i < a || b <= i < |x| ==> IsSpace(x[i]))
                && (a < b ==> !IsSpace(x[a]) && !IsSpace(x[b - 1]));
  }

  function Last(s: seq<string>): string
    requires s != []
  {
    s[|s| - 1]
  }

  lemma {:induction false} TrimmedKeepsInk(pieces: seq<string>)
    ensures InkOf(Trimmed(pieces)) == InkOf(pieces)
  {
    if pieces != [] {
      var last := pieces[|pieces| - 1];
      TrimmedKeepsInk(pieces[..|pieces| - 1]);
      StripKeepsInk(last);
      var front := Trimmed(pieces[..|pieces| - 1]);
      InkOfSnoc(front, Strip(last));
      if Strip(last) == "" {
        assert Trimmed(pieces) == front;
        assert InkOf(front) + "" == InkOf(front);
      }
    }
  }
}
