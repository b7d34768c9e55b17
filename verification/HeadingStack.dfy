/** Sectioning of a markdown document by its ATX headings (`_parse_sections` and
    `_chapter_from_stack` in `ingest/textbook_markdown_chunker.py`). Lines come already matched
    against the heading pattern. */
module HeadingStack {
  import opened Prelude
  import opened PyText

  datatype Line = Heading(depth: nat, title: string) | Body(text: string)

  datatype Entry = Entry(depth: nat, title: string)

  datatype Region = Region(path: seq<string>, chapter: Option<string>, body: string)

  // ------------------------------------------------------------------
  // What the stack should hold
  // ------------------------------------------------------------------

  /** The heading at p is still in force before line n: every later heading is deeper. */
  ghost predicate InForce(lines: seq<Line>, p: nat, n: nat)
    requires p < n <= |lines|
  {
    lines[p].Heading? && forall q :: p < q < n && lines[q].Heading? ==> lines[p].depth < lines[q].depth
  }

  /** The headings from p on that are in force before line n, in order. */
  ghost function PathFrom(lines: seq<Line>, p: nat, n: nat): (path: seq<Entry>)
    requires p <= n <= |lines|
    decreases n - p
  {
    if p == n then []
    else (if InForce(lines, p, n) then [Entry(lines[p].depth, lines[p].title)] else []) + PathFrom(lines, p + 1, n)
  }

  ghost predicate Deepening(path: seq<Entry>) {
    forall i, j :: 0 <= i < j < |path| ==> path[i].depth < path[j].depth
  }

  ghost function Below(path: seq<Entry>, depth: nat): seq<Entry> {
    if path == [] then [] else (if path[0].depth < depth then [path[0]] else []) + Below(path[1..], depth)
  }

  lemma {:induction false} BelowSnoc(path: seq<Entry>, e: Entry, depth: nat)
    ensures Below(path + [e], depth) == Below(path, depth) + if e.depth < depth then [e] else []
  {
    if path == [] {
      assert path + [e] == [e] && [e][1..] == [];
    } else {
      BelowSnoc(path[1..], e, depth);
      assert (path + [e])[1..] == path[1..] + [e];
    }
  }

  lemma {:induction false} BelowAll(path: seq<Entry>, depth: nat)
    requires forall i :: 0 <= i < |path| ==> path[i].depth < depth
    ensures Below(path, depth) == path
  {
    if path != [] { BelowAll(path[1..], depth); }
  }

  /** Every entry of the path is a heading in force at or after p. */
  lemma {:induction false} PathEntry(lines: seq<Line>, p: nat, n: nat, e: Entry)
    requires p <= n <= |lines| && e in PathFrom(lines, p, n)
    ensures exists q :: p <= q < n && InForce(lines, q, n) && e == Entry(lines[q].depth, lines[q].title)
    decreases n - p
  {
    if InForce(lines, p, n) && e == Entry(lines[p].depth, lines[p].title) {
    } else {
      PathEntry(lines, p + 1, n, e);
    }
  }

  /** Depths strictly increase along the path. */
  lemma {:induction false} PathDeepens(lines: seq<Line>, p: nat, n: nat)
    requires p <= n <= |lines|
    ensures Deepening(PathFrom(lines, p, n))
    decreases n - p
  {
    if p < n {
      PathDeepens(lines, p + 1, n);
      var rest := PathFrom(lines, p + 1, n);
      if InForce(lines, p, n) {
        forall j | 0 <= j < |rest| ensures lines[p].depth < rest[j].depth {
          PathEntry(lines, p + 1, n, rest[j]);
        }
      }
    }
  }

  /** A heading line ends what is at least as deep and joins the path; a body line changes nothing. */
  lemma {:induction false} PathStep(lines: seq<Line>, p: nat, n: nat)
    requires p <= n < |lines|
    ensures lines[n].Body? ==> PathFrom(lines, p, n + 1) == PathFrom(lines, p, n)
    ensures lines[n].Heading? ==>
      PathFrom(lines, p, n + 1) ==
      Below(PathFrom(lines, p, n), lines[n].depth) + [Entry(lines[n].depth, lines[n].title)]
    decreases n - p
  {
    if p < n {
      PathStep(lines, p + 1, n);
      var rest := PathFrom(lines, p + 1, n);
      if InForce(lines, p, n) {
        var e := Entry(lines[p].depth, lines[p].title);
        assert ([e] + rest)[1..] == rest;
        assert InForce(lines, p, n + 1) <==> lines[n].Body? || lines[p].depth < lines[n].depth;
      } else {
        assert !InForce(lines, p, n + 1);
        assert PathFrom(lines, p, n) == rest;
        assert PathFrom(lines, p, n + 1) == PathFrom(lines, p + 1, n + 1);
      }
    } else {
      assert PathFrom(lines, n + 1, n + 1) == [];
    }
  }

  // ------------------------------------------------------------------
  // What the regions should be
  // ------------------------------------------------------------------

  /** Where the run of body lines that ends before line n starts. */
  ghost function RunStart(lines: seq<Line>, n: nat): (a: nat)
    requires n <= |lines|
    ensures a <= n && forall k :: a <= k < n ==> lines[k].Body?
    ensures a > 0 ==> lines[a - 1].Heading?
  {
    if n > 0 && lines[n - 1].Body? then RunStart(lines, n - 1) else n
  }

  /** The texts of the body lines from a up to b. */
  ghost function Texts(lines: seq<Line>, a: nat, b: nat): seq<string>
    requires a <= b <= |lines|
    decreases b
  {
    if a == b then []
    else Texts(lines, a, b - 1) + if lines[b - 1].Body? then [lines[b - 1].text] else []
  }

  /** The titles of the headings from p on that are in force before line n, outermost first. */
  ghost function TitlesInForce(lines: seq<Line>, p: nat, n: nat): seq<string>
    requires p <= n <= |lines|
    decreases n - p
  {
    if p == n then []
    else (if InForce(lines, p, n) then [lines[p].title] else []) + TitlesInForce(lines, p + 1, n)
  }

  function Titles(stack: seq<Entry>): seq<string> {
    seq(|stack|, i requires 0 <= i < |stack| => stack[i].title)
  }

  lemma {:induction false} TitlesOfPath(lines: seq<Line>, p: nat, n: nat)
    requires p <= n <= |lines|
    ensures Titles(PathFrom(lines, p, n)) == TitlesInForce(lines, p, n)
    decreases n - p
  {
    if p < n {
      TitlesOfPath(lines, p + 1, n);
      var rest := PathFrom(lines, p + 1, n);
      if InForce(lines, p, n) {
        var e := Entry(lines[p].depth, lines[p].title);
        assert Titles([e] + rest) == [e.title] + Titles(rest);
      } else {
        assert PathFrom(lines, p, n) == rest && [] + TitlesInForce(lines, p + 1, n) == TitlesInForce(lines, p + 1, n);
      }
    }
  }

  function FirstShallow(stack: seq<Entry>): Option<string> {
    if stack == [] then None
    else if stack[0].depth <= 2 then Some(stack[0].title)
    else FirstShallow(stack[1..])
  }

  /** `_chapter_from_stack`. */
  function ChapterFromStack(stack: seq<Entry>): Option<string> {
    match FirstShallow(stack)
    case Some(title) => Some(title)
    case None => if stack != [] then Some(stack[0].title) else None
  }

  /** Since depths increase, the chapter is the outermost heading whatever its depth. */
  lemma {:induction false} ChapterIsOutermost(stack: seq<Entry>)
    requires Deepening(stack)
    ensures ChapterFromStack(stack) == if stack == [] then None else Some(stack[0].title)
  {
    if stack != [] && stack[0].depth > 2 {
      NoneShallow(stack);
    }
  }

  lemma {:induction false} NoneShallow(stack: seq<Entry>)
    requires forall i :: 0 <= i < |stack| ==> stack[i].depth > 2
    ensures FirstShallow(stack) == None
  {
    if stack != [] { NoneShallow(stack[1..]); }
  }

  /** The region of the run of body lines before line n: none when the run is blank. */
  ghost function RegionBefore(lines: seq<Line>, n: nat): seq<Region>
    requires n <= |lines|
  {
    var body := Strip(Join("\n", Texts(lines, RunStart(lines, n), n)));
    var titles := TitlesInForce(lines, 0, n);
    if body == "" then []
    else [Region(titles, if titles == [] then None else Some(titles[0]), body)]
  }

  /** The regions closed by the headings among the first n lines. */
  ghost function Regions(lines: seq<Line>, n: nat): seq<Region>
    requires n <= |lines|
  {
    if n == 0 then []
    else Regions(lines, n - 1) + if lines[n - 1].Heading? then RegionBefore(lines, n - 1) else []
  }

  function Flushed(stack: seq<Entry>, bodyLines: seq<string>): seq<Region> {
    var body := Strip(Join("\n", bodyLines));
    if body == "" then [] else [Region(Titles(stack), ChapterFromStack(stack), body)]
  }

  lemma FlushIsRegion(lines: seq<Line>, n: nat, stack: seq<Entry>, bodyLines: seq<string>)
    requires n <= |lines|
    requires stack == PathFrom(lines, 0, n)
    requires bodyLines == Texts(lines, RunStart(lines, n), n)
    ensures Flushed(stack, bodyLines) == RegionBefore(lines, n)
  {
    PathDeepens(lines, 0, n);
    ChapterIsOutermost(stack);
    TitlesOfPath(lines, 0, n);
  }

  /** `_parse_sections`: one region for each run of body lines that is not blank, carrying the
      headings in force there. */
  method ParseSections(lines: seq<Line>) returns (out: seq<Region>)
    ensures out == Regions(lines, |lines|) + RegionBefore(lines, |lines|)
  {
    var stack: seq<Entry> := [];
    var bodyLines: seq<string> := [];
    out := [];
    var n: nat := 0;
    while n < |lines|
      invariant n <= |lines|
      invariant stack == PathFrom(lines, 0, n)
      invariant bodyLines == Texts(lines, RunStart(lines, n), n)
      invariant out == Regions(lines, n)
    {
      PathStep(lines, 0, n);
      match lines[n] {
        case Body(text) =>
          bodyLines := bodyLines + [text];
          assert bodyLines == Texts(lines, RunStart(lines, n + 1), n + 1);
        case Heading(depth, title) =>
          FlushIsRegion(lines, n, stack, bodyLines);
          out := out + Flushed(stack, bodyLines);
          bodyLines := [];
          stack := PopTo(stack, depth, lines, n);
          stack := stack + [Entry(depth, title)];
      }
      n := n + 1;
    }
    FlushIsRegion(lines, n, stack, bodyLines);
    out := out + Flushed(stack, bodyLines);
  }

  /** The loop that pops what is at least as deep. */
  method PopTo(path: seq<Entry>, depth: nat, ghost lines: seq<Line>, ghost n: nat) returns (stack: seq<Entry>)
    requires n <= |lines| && path == PathFrom(lines, 0, n)
    ensures stack == Below(path, depth)
  {
    PathDeepens(lines, 0, n);
    stack := path;
    while stack != [] && stack[|stack| - 1].depth >= depth
      invariant Deepening(stack)
      invariant Below(stack, depth) == Below(path, depth)
    {
      BelowSnoc(stack[..|stack| - 1], stack[|stack| - 1], depth);
      assert stack == stack[..|stack| - 1] + [stack[|stack| - 1]];
      stack := stack[..|stack| - 1];
    }
    BelowAll(stack, depth);
  }

  // ------------------------------------------------------------------
  // Nothing is lost
  // ------------------------------------------------------------------

  ghost function Bodies(regions: seq<Region>): seq<string> {
    seq(|regions|, i requires 0 <= i < |regions| => regions[i].body)
  }

  lemma {:induction false} TextsSplit(lines: seq<Line>, a: nat, b: nat, c: nat)
    requires a <= b <= c <= |lines|
    ensures Texts(lines, a, c) == Texts(lines, a, b) + Texts(lines, b, c)
    decreases c
  {
    if b < c { TextsSplit(lines, a, b, c - 1); }
  }

  lemma RegionInk(lines: seq<Line>, n: nat)
    requires n <= |lines|
    ensures InkOf(Bodies(RegionBefore(lines, n))) == InkOf(Texts(lines, RunStart(lines, n), n))
  {
    var texts := Texts(lines, RunStart(lines, n), n);
    JoinKeepsInk("\n", texts);
    StripKeepsInk(Join("\n", texts));
    var r := RegionBefore(lines, n);
    if r != [] {
      assert Bodies(r) == [] + [r[0].body];
      InkOfSnoc([], r[0].body);
    }
  }

  lemma BodiesConcat(a: seq<Region>, b: seq<Region>)
    ensures InkOf(Bodies(a + b)) == InkOf(Bodies(a)) + InkOf(Bodies(b))
  {
    assert Bodies(a + b) == Bodies(a) + Bodies(b);
    InkOfConcat(Bodies(a), Bodies(b));
  }

  /** The regions closed so far and the run up to n hold the ink of the first n lines. */
  lemma {:induction false} RegionsInk(lines: seq<Line>, n: nat)
    requires n <= |lines|
    ensures InkOf(Bodies(Regions(lines, n))) == InkOf(Texts(lines, 0, RunStart(lines, n)))
    ensures InkOf(Bodies(Regions(lines, n) + RegionBefore(lines, n))) == InkOf(Texts(lines, 0, n))
  {
    hide RegionBefore, InkOf, Bodies;
    var a := RunStart(lines, n);
    if a == 0 {
      NoRegionYet(lines, n);
    } else if a < n {
      RegionsInk(lines, n - 1);
      assert Regions(lines, n) == Regions(lines, n - 1);
    } else {
      RegionsInk(lines, n - 1);
      assert Texts(lines, 0, n) == Texts(lines, 0, n - 1);
    }
    BodiesConcat(Regions(lines, n), RegionBefore(lines, n));
    RegionInk(lines, n);
    TextsSplit(lines, 0, a, n);
    InkOfConcat(Texts(lines, 0, a), Texts(lines, a, n));
  }

  lemma {:induction false} NoRegionYet(lines: seq<Line>, n: nat)
    requires n <= |lines| && RunStart(lines, n) == 0
    ensures Regions(lines, n) == [] && InkOf(Bodies(Regions(lines, n))) == ""
  {
    if n > 0 { NoRegionYet(lines, n - 1); }
  }

  /** The regions hold the text of all body lines, each once and in order, up to whitespace. */
  lemma EveryLineLandsOnce(lines: seq<Line>)
    ensures InkOf(Bodies(Regions(lines, |lines|) + RegionBefore(lines, |lines|)))
         == InkOf(Texts(lines, 0, |lines|))
  {
    RegionsInk(lines, |lines|);
  }
}
