/** The TeX scanners: the comment stripper, the writer's brace scanner and whitespace normaliser
    (`ingest/preamble.py`) and the reader's brace scanner (`ingest/index_definitions.py`). */
module TexScan {
  import opened Prelude
  import opened PyText

  // ------------------------------------------------------------------
  // Comments
  // ------------------------------------------------------------------

  /** Where a left-to-right reader of TeX is: in a comment, or in text after an even or odd run
      of backslashes. */
  datatype Mode = Comment | Text(odd: bool)

  function NextMode(m: Mode, c: char): Mode {
    if m.Comment? then (if c == '\n' then Text(false) else Comment)
    else if c == '\\' then Text(!m.odd)
    else if c == '%' && !m.odd then Comment
    else Text(false)
  }

  /** One-pass reference: a character is kept when the reader is in text after it. */
  function Stripped(s: string, m: Mode): string {
    if s == "" then ""
    else
      var m' := NextMode(m, s[0]);
      (if m'.Comment? then "" else [s[0]]) + Stripped(s[1..], m')
  }

  ghost function ModeAfter(s: string, m: Mode): Mode {
    if s == "" then m else ModeAfter(s[1..], NextMode(m, s[0]))
  }

  lemma {:induction false} ModeAfterAppend(s: string, m: Mode, c: char)
    ensures ModeAfter(s + [c], m) == NextMode(ModeAfter(s, m), c)
    ensures Stripped(s + [c], m) == Stripped(s, m) + if ModeAfter(s + [c], m).Comment? then "" else [c]
  {
    if s == "" {
      assert s + [c] == [c];
    } else {
      ModeAfterAppend(s[1..], NextMode(m, s[0]), c);
      assert (s + [c])[1..] == s[1..] + [c];
    }
  }

  /** Length of the run of backslashes that ends just before position i. */
  ghost function Backslashes(s: string, i: nat): nat
    requires i <= |s|
  {
    if i > 0 && s[i - 1] == '\\' then 1 + Backslashes(s, i - 1) else 0
  }

  /** In text, looking back over the backslashes tells the parity the automaton carries. */
  lemma {:induction false} LookBackIsParity(s: string, i: nat)
    requires i <= |s| && ModeAfter(s[..i], Text(false)).Text?
    ensures ModeAfter(s[..i], Text(false)).odd == (Backslashes(s, i) % 2 == 1)
  {
    if i > 0 {
      assert s[..i] == s[..i - 1] + [s[i - 1]];
      ModeAfterAppend(s[..i - 1], Text(false), s[i - 1]);
      if s[i - 1] == '\\' { LookBackIsParity(s, i - 1); }
    }
  }

  /** `_strip_tex_comments`: the characters outside comments, in order. */
  method StripTexComments(text: string) returns (out: string)
    ensures out == Stripped(text, Text(false)) == Uncommented(text, |text|)
  {
    hide Uncommented, InComment;
    out := "";
    var i: nat := 0;
    while i < |text|
      invariant i <= |text|
      invariant i < |text| && text[i] != '\n' ==> ModeAfter(text[..i], Text(false)).Text?
      invariant out == Stripped(text[..i], Text(false))
    {
      var ch := text[i];
      if ch == '%' {
        var bs: nat := 0;
        var j: int := i - 1;
        while j >= 0 && text[j] == '\\'
          invariant -1 <= j < i
          invariant Backslashes(text, i) == bs + Backslashes(text, j + 1)
        {
          bs := bs + 1;
          j := j - 1;
        }
        LookBackIsParity(text, i);
        if bs % 2 == 0 {
          ghost var from := i;
          while i < |text| && text[i] != '\n'
            invariant from <= i <= |text|
            invariant ModeAfter(text[..i], Text(false)) == if i == from then Text(false) else Comment
            invariant out == Stripped(text[..i], Text(false))
            decreases |text| - i
          {
            assert text[..i + 1] == text[..i] + [text[i]];
            ModeAfterAppend(text[..i], Text(false), text[i]);
            i := i + 1;
          }
          continue;
        }
      }
      assert text[..i + 1] == text[..i] + [text[i]];
      ModeAfterAppend(text[..i], Text(false), text[i]);
      out := out + [ch];
      i := i + 1;
    }
    assert text[..i] == text;
    StrippedIsUncommented(text, |text|);
  }

  /** The first n characters without those in comments. */
  ghost function Uncommented(s: string, n: nat): string
    requires n <= |s|
  {
    if n == 0 then "" else Uncommented(s, n - 1) + if InComment(s, n - 1) then "" else [s[n - 1]]
  }

  lemma {:induction false} StrippedIsUncommented(s: string, n: nat)
    requires n <= |s|
    ensures Stripped(s[..n], Text(false)) == Uncommented(s, n)
    ensures n == |s| ==> Stripped(s, Text(false)) == Uncommented(s, n)
  {
    assert n == |s| ==> s[..n] == s;
    if n > 0 {
      StrippedIsUncommented(s, n - 1);
      assert s[..n] == s[..n - 1] + [s[n - 1]];
      ModeAfterAppend(s[..n - 1], Text(false), s[n - 1]);
      CommentMeansUnescapedPercent(s, n - 1);
    }
  }

  /** An unescaped percent sign stands at or before i on the same line. */
  ghost predicate InComment(s: string, i: nat)
    requires i < |s|
  {
    exists k :: 0 <= k <= i && s[k] == '%' && Backslashes(s, k) % 2 == 0 && '\n' !in s[k..i + 1]
  }

  /** The automaton is in a comment exactly after an unescaped percent sign of the same line. */
  lemma {:induction false} CommentMeansUnescapedPercent(s: string, i: nat)
    requires i < |s|
    ensures ModeAfter(s[..i + 1], Text(false)).Comment? <==> InComment(s, i)
  {
    assert s[..i + 1] == s[..i] + [s[i]];
    ModeAfterAppend(s[..i], Text(false), s[i]);
    var m := ModeAfter(s[..i], Text(false));
    if m.Text? { LookBackIsParity(s, i); }
    if i > 0 { CommentMeansUnescapedPercent(s, i - 1); }
    if ModeAfter(s[..i + 1], Text(false)).Comment? {
      if m.Comment? {
        var k :| 0 <= k <= i - 1 && s[k] == '%' && Backslashes(s, k) % 2 == 0 && '\n' !in s[k..i];
        assert s[k..i + 1] == s[k..i] + [s[i]];
      } else {
        assert s[i..i + 1] == [s[i]];
      }
    }
    if k :| 0 <= k <= i && s[k] == '%' && Backslashes(s, k) % 2 == 0 && '\n' !in s[k..i + 1] {
      assert s[i] in s[k..i + 1];
      if k < i { assert s[k..i + 1] == s[k..i] + [s[i]]; }
    }
  }

  ghost function Newlines(s: string): nat {
    if s == "" then 0 else (if s[0] == '\n' then 1 else 0) + Newlines(s[1..])
  }

  lemma {:induction false} StrippedKeepsNewlines(s: string, m: Mode)
    ensures Newlines(Stripped(s, m)) == Newlines(s)
  {
    if s != "" {
      StrippedKeepsNewlines(s[1..], NextMode(m, s[0]));
      if NextMode(m, s[0]).Comment? {
        assert Stripped(s, m) == Stripped(s[1..], NextMode(m, s[0]));
      } else {
        assert Stripped(s, m)[1..] == Stripped(s[1..], NextMode(m, s[0]));
      }
    }
  }

  lemma {:induction false} StrippedTwice(s: string, m: Mode, t: Mode)
    requires t.Text? && (m.Text? ==> t == m)
    ensures Stripped(Stripped(s, m), t) == Stripped(s, m)
  {
    if s != "" {
      var m' := NextMode(m, s[0]);
      if m'.Comment? {
        StrippedTwice(s[1..], m', t);
        assert Stripped(s, m) == Stripped(s[1..], m');
      } else {
        StrippedTwice(s[1..], m', m');
        assert Stripped(s, m)[1..] == Stripped(s[1..], m');
      }
    }
  }

  /** Stripping comments again changes nothing. */
  lemma StripIsIdempotent(s: string)
    ensures Stripped(Stripped(s, Text(false)), Text(false)) == Stripped(s, Text(false))
  {
    StrippedTwice(s, Text(false), Text(false));
  }

  // ------------------------------------------------------------------
  // Braces
  // ------------------------------------------------------------------

  /** Opening minus closing braces of s, a backslash hiding the character after it. */
  ghost function Level(s: string): int {
    if s == "" then 0
    else if s[0] == '\\' && |s| > 1 then Level(s[2..])
    else (if s[0] == '{' then 1 else if s[0] == '}' then -1 else 0) + Level(s[1..])
  }

  /** s ends with a backslash that hides whatever comes next. */
  ghost predicate Dangling(s: string) {
    if s == "" then false
    else if s[0] == '\\' then |s| == 1 || Dangling(s[2..])
    else Dangling(s[1..])
  }

  lemma {:induction false} LevelConcat(s: string, u: string)
    requires !Dangling(s)
    ensures Level(s + u) == Level(s) + Level(u)
    ensures Dangling(s + u) == Dangling(u)
    decreases |s|
  {
    if s == "" {
      assert s + u == u;
    } else if s[0] == '\\' {
      LevelConcat(s[2..], u);
      assert (s + u)[2..] == s[2..] + u;
    } else {
      LevelConcat(s[1..], u);
      assert (s + u)[1..] == s[1..] + u;
    }
  }

  /** A dangling backslash swallows the next character and counts nothing. */
  lemma {:induction false} LevelAfterEscape(s: string, c: char)
    ensures Dangling(s) ==> Level(s + [c]) == Level(s) && !Dangling(s + [c])
    decreases |s|
  {
    if s != "" {
      if s[0] == '\\' && |s| > 1 {
        LevelAfterEscape(s[2..], c);
        assert (s + [c])[2..] == s[2..] + [c];
      } else if s[0] == '\\' {
        assert (s + [c])[2..] == "";
      } else {
        LevelAfterEscape(s[1..], c);
        assert (s + [c])[1..] == s[1..] + [c];
      }
    }
  }

  lemma LevelStep(s: string, c: char)
    ensures !Dangling(s) ==> Level(s + [c]) == Level(s) + (if c == '{' then 1 else if c == '}' then -1 else 0)
    ensures !Dangling(s) ==> Dangling(s + [c]) == (c == '\\')
    ensures Level(s + [c]) >= Level(s) - 1
  {
    if Dangling(s) {
      LevelAfterEscape(s, c);
    } else {
      LevelConcat(s, [c]);
      assert [c][1..] == "";
    }
  }

  /** Reading from start, the braces close the one already open just before e. */
  ghost predicate Closes(text: string, start: nat, e: nat) {
    start < e <= |text| && Level(text[start..e]) == -1
  }

  ghost predicate FirstClose(text: string, start: nat, e: nat) {
    Closes(text, start, e) && forall e' :: start <= e' < e ==> !Closes(text, start, e')
  }

  /** No prefix goes below the starting level before the first close. */
  lemma {:induction false} LevelsBeforeClose(text: string, start: nat, i: nat)
    requires start <= i <= |text|
    requires forall e: nat :: start <= e <= i ==> !Closes(text, start, e)
    ensures Level(text[start..i]) >= 0
  {
    assert !Closes(text, start, i);
    if start < i {
      LevelsBeforeClose(text, start, i - 1);
      assert text[start..i] == text[start..i - 1] + [text[i - 1]];
      LevelStep(text[start..i - 1], text[i - 1]);
    } else {
      assert text[start..i] == "";
    }
  }

  /** The text up to the first close is a balanced body and the brace that ends it. */
  lemma FirstCloseEndsBody(text: string, start: nat, e: nat)
    requires FirstClose(text, start, e)
    ensures text[e - 1] == '}'
    ensures Level(text[start..e - 1]) == 0 && !Dangling(text[start..e - 1])
    ensures forall i :: start <= i < e ==> Level(text[start..i]) >= 0
  {
    forall i | start <= i < e ensures Level(text[start..i]) >= 0 {
      LevelsBeforeClose(text, start, i);
    }
    var body := text[start..e - 1];
    assert text[start..e] == body + [text[e - 1]];
    LevelStep(body, text[e - 1]);
    if Dangling(body) { LevelAfterEscape(body, text[e - 1]); }
  }

  lemma ScanStep(text: string, start: nat, i: nat)
    requires start <= i < |text| && !Dangling(text[start..i])
    ensures Level(text[start..i + 1]) ==
      Level(text[start..i]) + (if text[i] == '{' then 1 else if text[i] == '}' then -1 else 0)
    ensures Dangling(text[start..i + 1]) == (text[i] == '\\')
    ensures text[i] == '\\' && i + 1 < |text| ==>
      Level(text[start..i + 2]) == Level(text[start..i]) && !Dangling(text[start..i + 2])
  {
    assert text[start..i + 1] == text[start..i] + [text[i]];
    LevelStep(text[start..i], text[i]);
    if text[i] == '\\' && i + 1 < |text| {
      assert text[start..i + 2] == text[start..i + 1] + [text[i + 1]];
      LevelAfterEscape(text[start..i + 1], text[i + 1]);
    }
  }

  /** `_scan_balanced_body`: the shortest body that balances, and none exactly when no prefix of
      the text closes the brace. */
  method ScanBalancedBody(text: string, start: nat) returns (end: Option<nat>)
    ensures end.Some? ==> FirstClose(text, start, end.value)
    ensures end.None? <==> forall e: nat :: !Closes(text, start, e)
  {
    var depth: int := 1;
    var i := start;
    assert start <= |text| ==> text[start..i] == "";
    while i < |text|
      invariant start <= i && (i <= |text| || i == start)
      invariant i < |text| ==> !Dangling(text[start..i]) && Level(text[start..i]) == depth - 1
      invariant forall e: nat :: e <= i ==> !Closes(text, start, e)
    {
      ScanStep(text, start, i);
      if text[i] == '\\' && i + 1 < |text| {
        i := i + 2;
        continue;
      }
      if text[i] == '{' {
        depth := depth + 1;
      } else if text[i] == '}' {
        depth := depth - 1;
        if depth == 0 {
          assert Closes(text, start, i + 1);
          return Some(i + 1);
        }
      }
      i := i + 1;
    }
    return None;
  }

  /** `_balance_braces`: the body as well as the place after it. */
  method BalanceBraces(text: string, start: nat) returns (body: Option<string>, end: nat)
    ensures body.Some? ==> FirstClose(text, start, end) && body.value == text[start..end - 1]
    ensures body.None? <==> forall e: nat :: !Closes(text, start, e)
    ensures body.None? ==> end == start
  {
    var depth: int := 1;
    var i := start;
    assert start <= |text| ==> text[start..i] == "";
    while i < |text|
      invariant start <= i && (i <= |text| || i == start)
      invariant i < |text| ==> !Dangling(text[start..i]) && Level(text[start..i]) == depth - 1
      invariant forall e: nat :: e <= i ==> !Closes(text, start, e)
    {
      ScanStep(text, start, i);
      if text[i] == '\\' && i + 1 < |text| {
        i := i + 2;
        continue;
      }
      if text[i] == '{' {
        depth := depth + 1;
      } else if text[i] == '}' {
        depth := depth - 1;
        if depth == 0 {
          assert Closes(text, start, i + 1);
          return Some(text[start..i]), i + 1;
        }
      }
      i := i + 1;
    }
    return None, start;
  }

  // ------------------------------------------------------------------
  // Whitespace
  // ------------------------------------------------------------------

  /** `re.sub(r"\s+", " ", s)`; inRun tells that the character before s was whitespace. */
  function Collapse(s: string, inRun: bool): string {
    if s == "" then ""
    else if IsSpace(s[0]) then (if inRun then "" else " ") + Collapse(s[1..], true)
    else [s[0]] + Collapse(s[1..], false)
  }

  /** A text without whitespace stays as it is, */
  lemma {:induction false} CollapseSolid(s: string, inRun: bool)
    requires forall i :: 0 <= i < |s| ==> !IsSpace(s[i])
    ensures Collapse(s, inRun) == s
  {
    hide IsSpace;
    if s != "" { CollapseSolid(s[1..], false); }
  }

  /** and all the whitespace between two texts becomes one space. */
  lemma CollapseGap(u: string, gap: string, v: string)
    requires gap != "" && forall i :: 0 <= i < |gap| ==> IsSpace(gap[i])
    requires (u != "" ==> !IsSpace(u[|u| - 1])) && (v != "" ==> !IsSpace(v[0]))
    ensures Collapse(u + gap + v, false) == Collapse(u, false) + " " + Collapse(v, false)
  {
    hide IsSpace, Collapse;
    GapCollapses(gap, v);
    assert u + gap + v == u + (gap + v);
    if u == "" {
      EmptyCollapses();
      assert u + (gap + v) == gap + v;
    } else {
      CollapseConcat(u, gap + v, false);
      assert Collapse(u, false) + (" " + Collapse(v, false)) == Collapse(u, false) + " " + Collapse(v, false);
    }
  }

  lemma GapCollapses(gap: string, v: string)
    requires gap != "" && (forall i :: 0 <= i < |gap| ==> IsSpace(gap[i])) && (v != "" ==> !IsSpace(v[0]))
    ensures Collapse(gap + v, false) == " " + Collapse(v, false)
  {
    hide IsSpace;
    CollapseBlank(gap[1..], v);
    assert (gap + v)[1..] == gap[1..] + v && (gap + v)[0] == gap[0];
  }

  lemma EmptyCollapses()
    ensures Collapse("", false) == "" && forall s: string :: "" + s == s
  {
  }

  lemma {:induction false} CollapseBlank(gap: string, v: string)
    requires (forall i :: 0 <= i < |gap| ==> IsSpace(gap[i])) && (v != "" ==> !IsSpace(v[0]))
    ensures Collapse(gap + v, true) == Collapse(v, false)
  {
    hide IsSpace;
    if gap == "" {
      assert gap + v == v;
    } else {
      CollapseBlank(gap[1..], v);
      assert (gap + v)[1..] == gap[1..] + v;
    }
  }

  /** `_normalise`. */
  function Normalise(macro: string): string {
    Strip(Collapse(macro, false))
  }

  lemma {:induction false} CollapseConcat(s: string, u: string, inRun: bool)
    requires s != "" && !IsSpace(s[|s| - 1])
    ensures Collapse(s + u, inRun) == Collapse(s, inRun) + Collapse(u, false)
  {
    hide IsSpace;
    assert (s + u)[1..] == s[1..] + u;
    if |s| > 1 {
      CollapseConcat(s[1..], u, IsSpace(s[0]));
    } else {
      assert s[1..] + u == u;
    }
  }

  lemma {:induction false} CollapseKeepsLast(s: string, inRun: bool)
    requires s != "" && !IsSpace(s[|s| - 1])
    ensures Collapse(s, inRun) != "" && Collapse(s, inRun)[|Collapse(s, inRun)| - 1] == s[|s| - 1]
  {
    hide IsSpace;
    if |s| > 1 {
      CollapseKeepsLast(s[1..], IsSpace(s[0]));
    }
  }

  lemma {:induction false} LStripConcat(s: string, u: string)
    requires s != "" && !IsSpace(s[|s| - 1])
    ensures LStrip(s + u) == LStrip(s) + u
    ensures LStrip(s) != "" && LStrip(s)[|LStrip(s)| - 1] == s[|s| - 1]
  {
    if IsSpace(s[0]) {
      assert (s + u)[1..] == s[1..] + u;
      LStripConcat(s[1..], u);
    }
  }

  lemma LevelCons(c: char, s: string)
    requires c != '\\'
    ensures Level([c] + s) == Level(s) + (if c == '{' then 1 else if c == '}' then -1 else 0)
    ensures Dangling([c] + s) == Dangling(s)
  {
    assert ([c] + s)[1..] == s;
  }

  lemma LevelConsEscape(c: char, s: string)
    ensures Level(['\\', c] + s) == Level(s)
    ensures Dangling(['\\', c] + s) == Dangling(s)
  {
    assert (['\\', c] + s)[2..] == s;
  }

  /** The first step of Collapse: an escape pair, a swallowed space, or one character. */
  lemma CollapseSplit(s: string, inRun: bool)
    requires s != ""
    ensures s[0] == '\\' && |s| > 1 ==>
      Collapse(s, inRun) == ['\\', if IsSpace(s[1]) then ' ' else s[1]] + Collapse(s[2..], IsSpace(s[1]))
    ensures IsSpace(s[0]) && inRun ==> Collapse(s, inRun) == Collapse(s[1..], true)
    ensures !(IsSpace(s[0]) && inRun) ==>
      Collapse(s, inRun) == [if IsSpace(s[0]) then ' ' else s[0]] + Collapse(s[1..], IsSpace(s[0]))
  {
    assert !IsSpace('\\');
    hide IsSpace;
    if s[0] == '\\' && |s| > 1 {
      assert s[1..][1..] == s[2..];
      assert Collapse(s[1..], false) == [if IsSpace(s[1]) then ' ' else s[1]] + Collapse(s[2..], IsSpace(s[1]));
    }
  }

  /** The levels of a collapsed string are the levels of the string. */
  lemma {:induction false} CollapseKeepsLevel(s: string, inRun: bool)
    ensures Level(Collapse(s, inRun)) == Level(s)
    ensures Dangling(Collapse(s, inRun)) == Dangling(s)
    decreases |s|
  {
    if s != "" {
      CollapseSplit(s, inRun);
      if s[0] == '\\' && |s| > 1 {
        CollapseKeepsLevel(s[2..], IsSpace(s[1]));
        LevelConsEscape(if IsSpace(s[1]) then ' ' else s[1], Collapse(s[2..], IsSpace(s[1])));
      } else if s[0] == '\\' {
        assert Collapse(s[1..], false) == "" && Collapse(s, inRun) == s;
      } else {
        CollapseKeepsLevel(s[1..], IsSpace(s[0]));
        LevelCons(if IsSpace(s[0]) then ' ' else s[0], Collapse(s[1..], IsSpace(s[0])));
      }
    }
  }

  /** A prefix of the collapsed string has the level of some prefix of the string. */
  lemma {:induction false} CollapsePrefix(s: string, inRun: bool, k: nat) returns (j: nat)
    requires k <= |Collapse(s, inRun)|
    ensures j <= |s| && Level(Collapse(s, inRun)[..k]) == Level(s[..j])
    decreases |s|
  {
    var c := Collapse(s, inRun);
    if k == 0 {
      j := 0;
      return;
    }
    CollapseSplit(s, inRun);
    if s[0] == '\\' {
      if k == 1 || |s| == 1 {
        assert |s| == 1 ==> Collapse(s[1..], false) == "";
        assert c[..k] == "\\" && s[..1] == "\\";
        j := 1;
      } else {
        var rest := Collapse(s[2..], IsSpace(s[1]));
        j := CollapsePrefix(s[2..], IsSpace(s[1]), k - 2);
        assert c[..k] == ['\\', c[1]] + rest[..k - 2];
        assert s[..j + 2] == ['\\', s[1]] + s[2..][..j];
        LevelConsEscape(c[1], rest[..k - 2]);
        LevelConsEscape(s[1], s[2..][..j]);
        j := j + 2;
      }
    } else {
      var rest := Collapse(s[1..], IsSpace(s[0]));
      var k' := if IsSpace(s[0]) && inRun then k else k - 1;
      j := CollapsePrefix(s[1..], IsSpace(s[0]), k');
      if k' < k {
        assert c[..k] == [c[0]] + rest[..k'];
        LevelCons(c[0], rest[..k']);
      }
      assert s[..j + 1] == [s[0]] + s[1..][..j];
      LevelCons(s[0], s[1..][..j]);
      j := j + 1;
    }
  }

  /** Normalising a captured macro touches its head and the inside of its body only. */
  lemma NormaliseParts(head: string, body: string)
    requires head != "" && head[|head| - 1] == '{'
    ensures Normalise(head + body + "}") == Normalise(head) + Collapse(body, false) + "}"
  {
    assert !IsSpace('{') && !IsSpace('}');
    hide IsSpace;
    var c := Collapse(head, false);
    CollapseConcat(head, body + "}", false);
    CollapseKeepsLast(head, false);
    assert head + body + "}" == head + (body + "}");
    CollapseTail(body, false);
    LStripConcat(c, Collapse(body, false) + "}");
    LStripConcat(c, "");
    assert c + "" == c;
    var line := LStrip(c) + (Collapse(body, false) + "}");
    assert line == LStrip(c) + Collapse(body, false) + "}";
    assert line[|line| - 1] == '}';
  }

  lemma {:induction false} CollapseTail(body: string, inRun: bool)
    ensures Collapse(body + "}", inRun) == Collapse(body, inRun) + "}"
  {
    if body == "" {
      assert body + "}" == "}";
      assert "}"[1..] == "";
    } else {
      assert (body + "}")[1..] == body[1..] + "}";
      CollapseTail(body[1..], IsSpace(body[0]));
    }
  }

  lemma SliceOfSlice(s: string, a: nat, b: nat, n: nat)
    requires a <= b <= |s| && n <= b - a
    ensures s[a..b][..n] == s[a..a + n]
  {
  }

  /** The reader recovers what the writer scanned: the writer captures a macro from the start m
      of its head to the first close e after the head's brace and stores it normalised; scanning
      the stored line from the end of the normalised head ends at the end of the line, on the
      whitespace-collapsed body. */
  lemma ReaderRecoversBody(text: string, m: nat, start: nat, e: nat)
    requires m < start <= |text| && text[start - 1] == '{'
    requires FirstClose(text, start, e)
    ensures var line := Normalise(text[m..e]); var p := |Normalise(text[m..start])|;
            && p < |line| && line[..p] == Normalise(text[m..start])
            && FirstClose(line, p, |line|)
            && line[p..|line| - 1] == Collapse(text[start..e - 1], false)
  {
    var head, body := text[m..start], text[start..e - 1];
    FirstCloseEndsBody(text, start, e);
    assert text[m..e] == head + body + "}";
    NormaliseParts(head, body);
    var line, p, c := Normalise(text[m..e]), |Normalise(head)|, Collapse(body, false);
    assert line[p..|line| - 1] == c;
    CollapseKeepsLevel(body, false);
    assert line[p..|line|] == c + "}";
    LevelStep(c, '}');
    forall e' | p <= e' < |line| ensures !Closes(line, p, e') {
      SliceOfSlice(line, p, |line| - 1, e' - p);
      var j := CollapsePrefix(body, false, e' - p);
      SliceOfSlice(text, start, e - 1, j);
    }
  }
}
