/** When a text ends inside math (`_inline_math_open` in `ingest/textbook_markdown_chunker.py`): the
    counts it takes, and what they say about the runs of dollars in the text. */
module OpenMath {

  /** Drops every escaped dollar. */
  function Unescape(s: string): string {
    if s == "" then ""
    else if |s| > 1 && s[0] == '\\' && s[1] == '$' then Unescape(s[2..])
    else [s[0]] + Unescape(s[1..])
  }

  /** `s.count("$$")`: pairs that do not overlap, from the left. */
  function DollarPairs(s: string): nat {
    if |s| < 2 then 0
    else if s[0] == '$' && s[1] == '$' then 1 + DollarPairs(s[2..])
    else DollarPairs(s[1..])
  }

  function Dollars(s: string): nat {
    if s == "" then 0 else (if s[0] == '$' then 1 else 0) + Dollars(s[1..])
  }

  /** `_inline_math_open`. */
  predicate MathOpen(text: string) {
    var cleaned := Unescape(text);
    DollarPairs(cleaned) % 2 == 1 || (Dollars(cleaned) - 2 * DollarPairs(cleaned)) % 2 == 1
  }

  // ------------------------------------------------------------------
  // What is left without escaped dollars
  // ------------------------------------------------------------------

  /** The character at k is a dollar after a backslash, or that backslash. */
  ghost predicate EscapedAt(s: string, k: nat)
    requires k < |s|
  {
    (s[k] == '\\' && k + 1 < |s| && s[k + 1] == '$') || (s[k] == '$' && k > 0 && s[k - 1] == '\\')
  }

  /** The other characters among the first n. */
  ghost function Unescaped(s: string, n: nat): string
    requires n <= |s|
  {
    if n == 0 then "" else Unescaped(s, n - 1) + if EscapedAt(s, n - 1) then "" else [s[n - 1]]
  }

  lemma {:induction false} UnescapeFrom(s: string, i: nat)
    requires i <= |s| && (0 < i < |s| && s[i] == '$' ==> s[i - 1] != '\\')
    ensures Unescaped(s, |s|) == Unescaped(s, i) + Unescape(s[i..])
    decreases |s| - i
  {
    if i < |s| {
      if i + 1 < |s| && s[i] == '\\' && s[i + 1] == '$' {
        UnescapeFrom(s, i + 2);
        assert s[i..][2..] == s[i + 2..];
        assert EscapedAt(s, i) && EscapedAt(s, i + 1);
        assert Unescaped(s, i + 2) == Unescaped(s, i);
      } else {
        UnescapeFrom(s, i + 1);
        assert s[i..][1..] == s[i + 1..];
        assert Unescaped(s, i + 1) == Unescaped(s, i) + [s[i]];
      }
    }
  }

  lemma UnescapeDropsEscaped(s: string)
    ensures Unescape(s) == Unescaped(s, |s|)
  {
    UnescapeFrom(s, 0);
    assert s[0..] == s;
  }

  // ------------------------------------------------------------------
  // Runs of dollars
  // ------------------------------------------------------------------

  datatype DollarRun = DollarRun(from: nat, length: nat) {
    function To(): nat { from + length }
  }

  /** Adjacent dollars with none before and none after. */
  ghost predicate MaximalRun(s: string, r: DollarRun) {
    && r.length > 0 && r.To() <= |s| && (forall k :: r.from <= k < r.To() ==> s[k] == '$')
    && (r.from > 0 ==> s[r.from - 1] != '$') && (r.To() < |s| ==> s[r.To()] != '$')
  }

  /** All maximal runs, from the left. */
  ghost predicate AllRuns(s: string, runs: seq<DollarRun>) {
    && (forall r :: r in runs <==> MaximalRun(s, r))
    && forall i, j :: 0 <= i < j < |runs| ==> runs[i].To() <= runs[j].from
  }

  /** A run of d dollars has d / 2 pairs, */
  ghost function PairsIn(runs: seq<DollarRun>): nat
  {
    if runs == [] then 0 else runs[0].length / 2 + PairsIn(runs[1..])
  }

  /** and a single one if d is odd. */
  ghost function SinglesIn(runs: seq<DollarRun>): nat
  {
    if runs == [] then 0 else runs[0].length % 2 + SinglesIn(runs[1..])
  }

  /** Where the dollars that start at i end. */
  ghost function RunEnd(s: string, i: nat): (e: nat)
    requires i <= |s|
    ensures i <= e <= |s| && (forall k :: i <= k < e ==> s[k] == '$') && (e < |s| ==> s[e] != '$')
    decreases |s| - i
  {
    if i < |s| && s[i] == '$' then RunEnd(s, i + 1) else i
  }

  /** Counting over the dollars from i to e. */
  lemma {:induction false} CountRun(s: string, i: nat, e: nat)
    requires i <= e <= |s| && (forall k :: i <= k < e ==> s[k] == '$') && (e < |s| ==> s[e] != '$')
    ensures DollarPairs(s[i..]) == (e - i) / 2 + DollarPairs(s[e..])
    ensures Dollars(s[i..]) == e - i + Dollars(s[e..])
    decreases e - i
  {
    if e - i == 1 {
      assert s[i..][1..] == s[e..];
    } else if e - i > 1 {
      CountRun(s, i + 2, e);
      assert s[i..][2..] == s[i + 2..] && s[i..][1..] == s[i + 1..] && s[i + 1..][1..] == s[i + 2..];
    }
  }

  /** The runs from the k-th on are those from i on, and i is not inside one. */
  ghost predicate SplitAt(s: string, runs: seq<DollarRun>, i: nat, k: nat) {
    && AllRuns(s, runs) && i <= |s| && k <= |runs| && (0 < i < |s| && s[i] == '$' ==> s[i - 1] != '$')
    && (forall j :: 0 <= j < k ==> runs[j].To() <= i)
    && (forall j :: k <= j < |runs| ==> runs[j].from >= i)
  }

  /** Past a character that is no dollar no run begins; at a dollar the k-th run does. */
  lemma SplitMoves(s: string, runs: seq<DollarRun>, i: nat, k: nat)
    requires SplitAt(s, runs, i, k)
    ensures i == |s| ==> k == |runs|
    ensures i < |s| && s[i] != '$' ==> SplitAt(s, runs, i + 1, k)
    ensures i < |s| && s[i] == '$' ==>
      k < |runs| && runs[k] == DollarRun(i, RunEnd(s, i) - i) && SplitAt(s, runs, RunEnd(s, i), k + 1)
  {
    assert k < |runs| ==> MaximalRun(s, runs[k]) by {
      assert k < |runs| ==> runs[k] in runs;
    }
    if i < |s| && s[i] == '$' {
      var e := RunEnd(s, i);
      assert e > i && MaximalRun(s, DollarRun(i, e - i));
      var j :| 0 <= j < |runs| && runs[j] == DollarRun(i, e - i);
    }
  }

  lemma {:induction false} CountRuns(s: string, runs: seq<DollarRun>, i: nat, k: nat)
    requires i <= |s| && k <= |runs| && SplitAt(s, runs, i, k)
    ensures DollarPairs(s[i..]) == PairsIn(runs[k..])
    ensures Dollars(s[i..]) == 2 * PairsIn(runs[k..]) + SinglesIn(runs[k..])
    decreases |s| - i
  {
    SplitMoves(s, runs, i, k);
    hide SplitAt;
    if i < |s| && s[i] != '$' {
      CountRuns(s, runs, i + 1, k);
      assert s[i..][1..] == s[i + 1..];
    } else if i < |s| {
      var e := RunEnd(s, i);
      CountRun(s, i, e);
      CountRuns(s, runs, e, k + 1);
      assert runs[k..][1..] == runs[k + 1..];
    }
  }

  /** Maximal runs that share a dollar are the same. */
  lemma SameRun(s: string, a: DollarRun, b: DollarRun)
    requires MaximalRun(s, a) && MaximalRun(s, b) && a.from <= b.from < a.To()
    ensures a == b
  {
  }

  ghost function RunsFrom(s: string, i: nat): seq<DollarRun>
    requires i <= |s|
    decreases |s| - i
  {
    if i == |s| then []
    else if s[i] != '$' then RunsFrom(s, i + 1)
    else [DollarRun(i, RunEnd(s, i + 1) - i)] + RunsFrom(s, RunEnd(s, i + 1))
  }

  lemma {:induction false} RunsFromAll(s: string, i: nat)
    requires i <= |s| && (0 < i < |s| && s[i] == '$' ==> s[i - 1] != '$')
    ensures forall r :: r in RunsFrom(s, i) <==> MaximalRun(s, r) && r.from >= i
    ensures forall j, k :: 0 <= j < k < |RunsFrom(s, i)| ==> RunsFrom(s, i)[j].To() <= RunsFrom(s, i)[k].from
    decreases |s| - i
  {
    if i < |s| {
      if s[i] != '$' {
        RunsFromAll(s, i + 1);
      } else {
        var e := RunEnd(s, i + 1);
        var rest := RunsFrom(s, e);
        RunsFromAll(s, e);
        assert MaximalRun(s, DollarRun(i, e - i));
        forall r | MaximalRun(s, r) && i <= r.from < e ensures r == DollarRun(i, e - i) {
          SameRun(s, DollarRun(i, e - i), r);
        }
        forall k | 0 <= k < |rest| ensures e <= rest[k].from { assert rest[k] in rest; }
      }
    }
  }

  /** Every text has its runs. */
  lemma RunsExist(s: string)
    ensures exists runs :: AllRuns(s, runs)
  {
    RunsFromAll(s, 0);
    assert AllRuns(s, RunsFrom(s, 0));
  }

  /** The runs of dollars that remain once the escaped ones are dropped hold an odd number of pairs, or
      an odd number of singles. */
  ghost predicate OddRuns(text: string) {
    exists runs :: AllRuns(Unescaped(text, |text|), runs) && (PairsIn(runs) % 2 == 1 || SinglesIn(runs) % 2 == 1)
  }

  /** Math is open exactly then. */
  lemma MathOpenIff(text: string)
    ensures MathOpen(text) <==> OddRuns(text)
  {
    var cleaned := Unescape(text);
    UnescapeDropsEscaped(text);
    RunsExist(cleaned);
    forall runs | AllRuns(cleaned, runs)
      ensures MathOpen(text) <==> PairsIn(runs) % 2 == 1 || SinglesIn(runs) % 2 == 1
    {
      CountRuns(cleaned, runs, 0, 0);
      assert cleaned[0..] == cleaned && runs[0..] == runs;
    }
  }
}
