/** Harvest windows of the daily delta run (`_resolve_resume`, `harvest_set` and the window choice, the
    walk over the sets and the final state of `run_delta` in `ingest/oai_delta.py`). Days are whole
    numbers; a run reads the clock several times, so it has a first and a last day. */
module HarvestWindows {
  import opened Prelude

  datatype Persisted = Persisted(lastDate: Option<int>, token: Option<string>, tokenSet: Option<string>)

  const FRESH: Persisted := Persisted(None, None, None)

  /** `_resolve_resume`: the date to harvest from, with the token and its set when they are
      still good. */
  function ResolveResume(state: Persisted, today: int): (r: (int, Option<string>, Option<string>)) {
    match state.lastDate
    case None => (today - 1, None, None)
    case Some(last) =>
      if last > today then (today - 1, None, None)
      else if state.token.Some? && state.token != Some("") && last == today then (last, state.token, state.tokenSet)
      else (last, None, None)
  }

  /** A page that names a next one, and the day it was written to the state file. */
  datatype Page = Page(day: int, next: string)

  /** How the walk over the pages of a set ends after those: with a last page, given up because a fetch
      raised a RuntimeError, or with an error that aborts the run. */
  datatype WalkEnd = LastPage(day: int) | GivenUp | Crashed

  datatype Walk = Walk(setSpec: string, pages: seq<Page>, end: WalkEnd)

  /** How far the sets have been walked: what was last written to the state file, the sets walked to their
      last page, and whether the run has crashed. */
  datatype Progress = Progress(file: Option<Persisted>, harvested: set<string>, crashed: bool) {
    /** The day of the last page written. */
    function Left(): Option<int> { if file.Some? then file.value.lastDate else None }
  }

  /** The last thing a walk writes: the day of its last page, and the token for the next if it named one. */
  function LastWrite(w: Walk): Option<Persisted> {
    if w.end.LastPage? then Some(Persisted(Some(w.end.day), None, None))
    else if w.pages != [] then
      Some(Persisted(Some(w.pages[|w.pages| - 1].day), Some(w.pages[|w.pages| - 1].next), Some(w.setSpec)))
    else None
  }

  function Walked(walks: seq<Walk>): Progress {
    if walks == [] then Progress(None, {}, false)
    else
      var p, w := Walked(walks[..|walks| - 1]), walks[|walks| - 1];
      if p.crashed then p
      else Progress(if LastWrite(w).Some? then LastWrite(w) else p.file,
                    p.harvested + if w.end.LastPage? then {w.setSpec} else {}, w.end.Crashed?)
  }

  /** An inclusive range of days. */
  datatype Window = Window(from: int, until: int)

  /** The first thing the server is asked for a set: its records in a window, or what a token continues. */
  datatype Request = Query(setSpec: string, window: Window) | Resume(token: string)

  /** How a run ends that has walked all sets. */
  datatype Ending = Aborted | Finished(day: int)

  /** A completed run has taken in the records of the sets it harvested. */
  datatype Outcome =
    | Refused
    | Stopped(window: Window)
    | DryRun(window: Window)
    | Completed(window: Window, harvested: set<string>)

  /** The default window of a run that starts today. */
  function DefaultWindow(state: Persisted, today: int): Window {
    Window(ResolveResume(state, today).0, today - 1)
  }

  class StateFile {
    var state: Persisted

    constructor ()
      ensures state == FRESH
    {
      state := FRESH;
    }

    /** `harvest_set`: one state write a page. */
    method HarvestSet(w: Walk, window: Window, token: Option<string>) returns (first: Request)
      modifies this
      ensures w.end.LastPage? ==> state == Persisted(Some(w.end.day), None, None)
      ensures !w.end.LastPage? && w.pages != [] ==>
        var last := w.pages[|w.pages| - 1];
        state == Persisted(Some(last.day), Some(last.next), Some(w.setSpec))
      ensures !w.end.LastPage? && w.pages == [] ==> state == old(state)
      ensures first == if token.Some? then Resume(token.value) else Query(w.setSpec, window)
    {
      first := if token.Some? then Resume(token.value) else Query(w.setSpec, window);
      for i := 0 to |w.pages|
        invariant state == if i == 0 then old(state)
                           else Persisted(Some(w.pages[i - 1].day), Some(w.pages[i - 1].next), Some(w.setSpec))
      {
        state := Persisted(Some(w.pages[i].day), Some(w.pages[i].next), Some(w.setSpec));
      }
      if w.end.LastPage? {
        state := Persisted(Some(w.end.day), None, None);
      }
    }

    /** `run_delta`: overridden or default window, the walks over the sets, and the final state unless the
        run aborts or is a dry run. A set given up does not stop the run, nor keep it from completing. The
        token on file is used for the first walk over its set, on the day it was handed out. */
    method RunDelta(from: Option<int>, until: Option<int>, today: int, walks: seq<Walk>,
                    ending: Ending, dryRun: bool) returns (outcome: Outcome, requests: seq<Request>)
      modifies this
      ensures var date := old(state).lastDate;
              var asked := Window(if from.Some? then from.value
                                  else if date.Some? && date.value <= today then date.value else today - 1,
                                  if until.Some? then until.value else today - 1);
              && (outcome.Refused? <==> asked.from > asked.until)
              && (!outcome.Refused? ==> outcome.window == asked)
              && (!outcome.Refused? ==> Asked(old(state), today, walks, asked, requests))
      ensures outcome.Refused? ==> state == old(state) && requests == []
      ensures outcome.Completed? <==> !outcome.Refused? && !Walked(walks).crashed && ending.Finished? && !dryRun
      ensures outcome.Completed? ==>
        state == Persisted(Some(ending.day), None, None) && outcome.harvested == Walked(walks).harvested
      ensures outcome.DryRun? <==> !outcome.Refused? && !Walked(walks).crashed && ending.Finished? && dryRun
      ensures outcome.DryRun? || outcome.Stopped? ==>
        state == if Walked(walks).file.Some? then Walked(walks).file.value else old(state)
      ensures from.None? && until.None? && old(state).lastDate == Some(today) ==> outcome.Refused?
    {
      var resume := ResolveResume(state, today);
      var effectiveFrom := if from.Some? then from.value else resume.0;
      var effectiveUntil := if until.Some? then until.value else today - 1;
      if effectiveFrom > effectiveUntil {
        return Refused, [];
      }
      var window := Window(effectiveFrom, effectiveUntil);
      hide Walked, Asked;
      var harvested, crashed;
      harvested, crashed, requests := WalkSets(walks, window, today, resume.1, resume.2);
      if crashed || ending.Aborted? {
        return Stopped(window), requests;
      }
      if dryRun {
        return DryRun(window), requests;
      }
      state := Persisted(Some(ending.day), None, None);
      return Completed(window, harvested), requests;
    }

    /** The walks, the token going to its set. */
    method WalkSets(walks: seq<Walk>, window: Window, today: int, resumeToken: Option<string>,
                    resumeSet: Option<string>)
      returns (harvested: set<string>, crashed: bool, requests: seq<Request>)
      requires Keeps(state, today, walks, 0, resumeToken, resumeSet)
      modifies this
      ensures crashed == Walked(walks).crashed && (!crashed ==> harvested == Walked(walks).harvested)
      ensures state == if Walked(walks).file.Some? then Walked(walks).file.value else old(state)
      ensures Asked(old(state), today, walks, window, requests)
    {
      var token, tokenSet := resumeToken, resumeSet;
      harvested, requests := {}, [];
      ghost var before := state;
      hide Asked, Keeps, RequestAt;
      for i := 0 to |walks|
        invariant var p := Walked(walks[..i]);
                  && !p.crashed && harvested == p.harvested
                  && state == if p.file.Some? then p.file.value else before
        invariant Keeps(before, today, walks, i, token, tokenSet)
        invariant |requests| == i
        invariant forall j :: 0 <= j < i ==> requests[j] == RequestAt(before, today, walks, window, j)
      {
        assert walks[..i + 1][..i] == walks[..i];
        var given: Option<string> := None;
        KeepsNext(before, today, walks, i, window, token, tokenSet);
        if token.Some? && tokenSet == Some(walks[i].setSpec) {
          given, token, tokenSet := token, None, None;
        }
        var first := HarvestSet(walks[i], window, given);
        requests := requests + [first];
        if walks[i].end.Crashed? {
          CrashEndsWalks(walks, i + 1);
          IsAsked(before, today, walks, window, requests);
          return {}, true, requests;
        }
        if walks[i].end.LastPage? {
          harvested := harvested + {walks[i].setSpec};
        }
      }
      assert walks[..|walks|] == walks;
      IsAsked(before, today, walks, window, requests);
      crashed := false;
    }
  }

  /** The first request of every walk that was begun: all of them, or those up to the one that crashed. */
  ghost predicate Asked(state: Persisted, today: int, walks: seq<Walk>, window: Window, requests: seq<Request>) {
    && |requests| <= |walks| && (|requests| == |walks| || Walked(walks[..|requests|]).crashed)
    && forall i :: 0 <= i < |requests| ==> requests[i] == RequestAt(state, today, walks, window, i)
  }

  /** The token on file, if it is one of this set, was handed out today and no walk before went over the set;
      otherwise the set and the window. */
  ghost function RequestAt(state: Persisted, today: int, walks: seq<Walk>, window: Window, i: nat): Request
    requires i < |walks|
  {
    if TokenFresh(state, today) && OfSet(state, walks[i]) && (forall j :: 0 <= j < i ==> !OfSet(state, walks[j]))
    then Resume(state.token.value) else Query(walks[i].setSpec, window)
  }

  /** Before walk i the token is kept, with its set, if it is fresh and no walk has used it. */
  ghost predicate Keeps(state: Persisted, today: int, walks: seq<Walk>, i: nat, token: Option<string>,
                        tokenSet: Option<string>)
    requires i <= |walks|
  {
    && (token.Some? ==> token == state.token && tokenSet == state.tokenSet)
    && (token.Some? <==> TokenFresh(state, today) && forall j :: 0 <= j < i ==> !OfSet(state, walks[j]))
  }

  lemma KeepsNext(state: Persisted, today: int, walks: seq<Walk>, i: nat, window: Window, token: Option<string>,
                  tokenSet: Option<string>)
    requires i < |walks| && Keeps(state, today, walks, i, token, tokenSet)
    ensures var uses := token.Some? && tokenSet == Some(walks[i].setSpec);
            && RequestAt(state, today, walks, window, i)
               == (if uses then Resume(token.value) else Query(walks[i].setSpec, window))
            && (if uses then Keeps(state, today, walks, i + 1, None, None)
                else Keeps(state, today, walks, i + 1, token, tokenSet))
  {
  }

  lemma IsAsked(state: Persisted, today: int, walks: seq<Walk>, window: Window, requests: seq<Request>)
    requires |requests| <= |walks| && (|requests| == |walks| || Walked(walks[..|requests|]).crashed)
    requires forall i :: 0 <= i < |requests| ==> requests[i] == RequestAt(state, today, walks, window, i)
    ensures Asked(state, today, walks, window, requests)
  {
  }

  /** Walk i is begun: none before it crashed. */
  ghost predicate Begun(walks: seq<Walk>, i: nat) {
    i < |walks| && forall j :: 0 <= j < i ==> !walks[j].end.Crashed?
  }

  /** The last walk that was begun and wrote a page. */
  ghost predicate LastToWrite(walks: seq<Walk>, i: nat) {
    && Begun(walks, i) && (walks[i].end.LastPage? || walks[i].pages != [])
    && forall j: nat :: i < j && Begun(walks, j) ==> !walks[j].end.LastPage? && walks[j].pages == []
  }

  /** A run crashes if one of its walks does, and has harvested the sets of the walks it began that reached a
      last page. */
  lemma {:induction false} HarvestedIff(walks: seq<Walk>)
    ensures Walked(walks).crashed <==> exists i :: 0 <= i < |walks| && walks[i].end.Crashed?
    ensures forall x :: x in Walked(walks).harvested <==>
              exists i: nat :: Begun(walks, i) && walks[i].setSpec == x && walks[i].end.LastPage?
  {
    if walks != [] {
      var n := |walks| - 1;
      HarvestedIff(walks[..n]);
      BegunOneMore(walks, n);
      hide Begun;
      forall x ensures x in Walked(walks).harvested <==>
                       exists i: nat :: Begun(walks, i) && walks[i].setSpec == x && walks[i].end.LastPage?
      {
        if i: nat :| Begun(walks, i) && walks[i].setSpec == x && walks[i].end.LastPage? {
          if i < n { assert Begun(walks[..n], i) && walks[..n][i] == walks[i]; }
        }
        if i: nat :| Begun(walks[..n], i) && walks[..n][i].setSpec == x && walks[..n][i].end.LastPage? {
          assert Begun(walks, i);
        }
      }
    }
  }

  lemma BegunOneMore(walks: seq<Walk>, n: nat)
    requires |walks| == n + 1
    requires Walked(walks[..n]).crashed <==> exists i :: 0 <= i < n && walks[..n][i].end.Crashed?
    ensures forall i: nat :: Begun(walks, i) <==> Begun(walks[..n], i) || (i == n && !Walked(walks[..n]).crashed)
    ensures forall i: nat :: Begun(walks[..n], i) ==> i < n
  {
    forall i: nat
      ensures Begun(walks, i) <==> Begun(walks[..n], i) || (i == n && !Walked(walks[..n]).crashed)
    {
      assert forall j :: 0 <= j < n ==> walks[j] == walks[..n][j];
    }
  }

  /** The file is left as the last walk that was begun and wrote a page did: with the day of its last page, and
      with a token and the set if that page named a next one. */
  lemma {:induction false} FileIsLastWrite(walks: seq<Walk>)
    ensures Walked(walks).file.Some? <==> exists i: nat :: LastToWrite(walks, i)
    ensures forall i: nat :: LastToWrite(walks, i) ==> Walked(walks).file == Some(
              if walks[i].end.LastPage? then Persisted(Some(walks[i].end.day), None, None)
              else
                var last := walks[i].pages[|walks[i].pages| - 1];
                Persisted(Some(last.day), Some(last.next), Some(walks[i].setSpec)))
  {
    if walks != [] {
      var n := |walks| - 1;
      FileIsLastWrite(walks[..n]);
      HarvestedIff(walks[..n]);
      BegunOneMore(walks, n);
      WalkedOneMore(walks, n);
      assert forall i: nat :: LastToWrite(walks[..n], i) ==> i < n && walks[..n][i] == walks[i];
      hide Begun, LastToWrite;
      if Begun(walks, n) && (walks[n].end.LastPage? || walks[n].pages != []) {
        assert LastToWrite(walks, n);
      }
    }
  }

  lemma WalkedOneMore(walks: seq<Walk>, n: nat)
    requires |walks| == n + 1
    requires forall i: nat :: Begun(walks, i) <==> Begun(walks[..n], i) || (i == n && !Walked(walks[..n]).crashed)
    requires forall i: nat :: Begun(walks[..n], i) ==> i < n
    ensures forall i: nat :: LastToWrite(walks, i) <==>
              if Begun(walks, n) && (walks[n].end.LastPage? || walks[n].pages != []) then i == n
              else LastToWrite(walks[..n], i)
  {
    hide Begun, Walked;
    forall i: nat
      ensures LastToWrite(walks, i) <==>
              if Begun(walks, n) && (walks[n].end.LastPage? || walks[n].pages != []) then i == n
              else LastToWrite(walks[..n], i)
    {
      assert forall j: nat :: j < n ==> walks[j] == walks[..n][j];
    }
  }

  lemma {:induction false} CrashEndsWalks(walks: seq<Walk>, n: nat)
    requires n <= |walks| && Walked(walks[..n]).crashed
    ensures Walked(walks) == Walked(walks[..n])
  {
    if n < |walks| {
      var most := walks[..|walks| - 1];
      assert most[..n] == walks[..n];
      CrashEndsWalks(most, n);
    } else {
      assert walks[..n] == walks;
    }
  }

  /** There is a token, and the file was last written today. */
  predicate TokenFresh(state: Persisted, today: int) {
    state.token.Some? && state.token.value != "" && state.lastDate == Some(today)
  }

  /** The token on file is one of this walk's set. */
  predicate OfSet(state: Persisted, w: Walk) {
    state.tokenSet == Some(w.setSpec)
  }

  // ------------------------------------------------------------------
  // Schedules of default-window runs
  // ------------------------------------------------------------------

  /** A run: the day it started, the day the state file is left with if it was written at all, whether
      the run completed, and the sets it harvested. An aborted or dry run that fetched no page writes
      nothing. */
  datatype Run = Run(start: int, left: Option<int>, completed: bool, harvested: set<string>)

  /** The last day a run is known to have been going on. */
  function End(run: Run): int {
    if run.left.Some? then run.left.value else run.start
  }

  /** Runs one after the other, each starting on a later day than the one before ended. */
  ghost predicate Schedule(runs: seq<Run>) {
    && (forall k :: 0 <= k < |runs| ==> runs[k].start <= End(runs[k]) && (runs[k].completed ==> runs[k].left.Some?))
    && (forall k :: 0 < k < |runs| ==> End(runs[k - 1]) < runs[k].start)
  }

  /** The date in the state file after the first k runs. */
  function DateAfter(runs: seq<Run>, k: nat): Option<int>
    requires k <= |runs|
  {
    if k == 0 then None else if runs[k - 1].left.Some? then runs[k - 1].left else DateAfter(runs, k - 1)
  }

  function WindowOf(runs: seq<Run>, k: nat): Window
    requires k < |runs|
  {
    DefaultWindow(Persisted(DateAfter(runs, k), None, None), runs[k].start)
  }

  lemma {:induction false} StartsAscend(runs: seq<Run>, j: nat, k: nat)
    requires Schedule(runs) && j < k < |runs|
    ensures End(runs[j]) < runs[k].start
    decreases k
  {
    if j < k - 1 { StartsAscend(runs, j, k - 1); }
  }

  /** The date is the one the last run to move it left. */
  lemma {:induction false} DateIsLastMove(runs: seq<Run>, k: nat)
    requires Schedule(runs) && k <= |runs|
    ensures DateAfter(runs, k).None? <==> forall j: nat :: j < k ==> runs[j].left.None?
    ensures DateAfter(runs, k).Some? ==> exists j: nat :: j < k && runs[j].left == DateAfter(runs, k)
    ensures forall j: nat :: j < k && runs[j].left.Some? ==>
              DateAfter(runs, k).Some? && runs[j].left.value <= DateAfter(runs, k).value
  {
    if k > 0 {
      DateIsLastMove(runs, k - 1);
      forall j: nat | j < k - 1 ensures End(runs[j]) < runs[k - 1].start { StartsAscend(runs, j, k - 1); }
    }
  }

  /** No window is refused; each begins on the date in the state file, or the day before its run if there
      is none, and ends the day before its run. */
  lemma WindowBounds(runs: seq<Run>, k: nat)
    requires Schedule(runs) && k < |runs|
    ensures var date := DateAfter(runs, k);
            WindowOf(runs, k) == Window(if date.Some? then date.value else runs[k].start - 1, runs[k].start - 1)
    ensures WindowOf(runs, k).from <= WindowOf(runs, k).until
  {
    DateIsLastMove(runs, k);
    if DateAfter(runs, k).Some? {
      var j: nat :| j < k && runs[j].left == DateAfter(runs, k);
      StartsAscend(runs, j, k);
    }
  }

  /** What one run is given: its day, what it fetches, how it ends. */
  datatype Attempt = Attempt(today: int, walks: seq<Walk>, ending: Ending, dryRun: bool)

  function RunOf(a: Attempt): Run {
    var p := Walked(a.walks);
    var completed := !p.crashed && a.ending.Finished? && !a.dryRun;
    Run(a.today, if completed then Some(a.ending.day) else p.Left(), completed, if completed then p.harvested else {})
  }

  function RunsOf(attempts: seq<Attempt>): seq<Run> {
    seq(|attempts|, i requires 0 <= i < |attempts| => RunOf(attempts[i]))
  }

  predicate AsScheduled(outcome: Outcome, runs: seq<Run>, k: nat)
    requires k < |runs|
  {
    && !outcome.Refused? && outcome.window == WindowOf(runs, k)
    && (outcome.Completed? <==> runs[k].completed)
    && (outcome.Completed? ==> outcome.harvested == runs[k].harvested)
  }

  /** The code on a schedule: every run has the window of the schedule, and completes as it says. */
  method RunSchedule(file: StateFile, attempts: seq<Attempt>) returns (outcomes: seq<Outcome>)
    requires file.state == FRESH && Schedule(RunsOf(attempts))
    modifies file
    ensures |outcomes| == |attempts|
    ensures forall k :: 0 <= k < |attempts| ==> AsScheduled(outcomes[k], RunsOf(attempts), k)
    ensures file.state.lastDate == DateAfter(RunsOf(attempts), |attempts|)
  {
    outcomes := [];
    ghost var runs := RunsOf(attempts);
    for i := 0 to |attempts|
      invariant |outcomes| == i && file.state.lastDate == DateAfter(runs, i)
      invariant forall k :: 0 <= k < i ==> AsScheduled(outcomes[k], runs, k)
    {
      hide Schedule, DateAfter, AsScheduled;
      var outcome := RunAttempt(file, attempts, i);
      outcomes := outcomes + [outcome];
    }
  }

  method RunAttempt(file: StateFile, attempts: seq<Attempt>, i: nat) returns (outcome: Outcome)
    requires i < |attempts| && Schedule(RunsOf(attempts))
    requires file.state.lastDate == DateAfter(RunsOf(attempts), i)
    modifies file
    ensures AsScheduled(outcome, RunsOf(attempts), i)
    ensures file.state.lastDate == DateAfter(RunsOf(attempts), i + 1)
  {
    var a := attempts[i];
    WindowBounds(RunsOf(attempts), i);
    SameWindow(file.state, a.today);
    hide Schedule, Walked, Asked;
    FileKeepsDate(a.walks);
    assert RunsOf(attempts)[i] == RunOf(a);
    var requests;
    outcome, requests := file.RunDelta(None, None, a.today, a.walks, a.ending, a.dryRun);
  }

  /** What is written always has a date. */
  lemma {:induction false} FileKeepsDate(walks: seq<Walk>)
    ensures Walked(walks).file.Some? ==> Walked(walks).Left().Some?
  {
    if walks != [] { FileKeepsDate(walks[..|walks| - 1]); }
  }

  /** The window does not depend on a saved token. */
  lemma SameWindow(state: Persisted, today: int)
    ensures DefaultWindow(state, today) == DefaultWindow(Persisted(state.lastDate, None, None), today)
  {
  }

  /** A run is followed by one that begins where it did itself if and only if it wrote no page and did
      not complete, and some run before it had moved the date. */
  lemma RevisitedIff(runs: seq<Run>, k: nat)
    requires Schedule(runs) && k + 1 < |runs|
    ensures WindowOf(runs, k + 1).from == WindowOf(runs, k).from <==>
            runs[k].left.None? && DateAfter(runs, k).Some?
  {
    WindowBounds(runs, k);
    WindowBounds(runs, k + 1);
  }

  // ------------------------------------------------------------------
  // Which days of a set are harvested
  // ------------------------------------------------------------------

  ghost predicate InWindow(runs: seq<Run>, k: nat, day: int) {
    k < |runs| && WindowOf(runs, k).from <= day <= WindowOf(runs, k).until
  }

  /** Some completed run had the day in its window and walked the set to its last page. */
  ghost predicate Covered(runs: seq<Run>, setSpec: string, day: int) {
    exists k: nat :: InWindow(runs, k, day) && Harvests(runs[k], setSpec)
  }

  predicate Harvests(run: Run, setSpec: string) {
    run.completed && setSpec in run.harvested
  }

  /** Nothing before run k's start is in a later window once run k has moved the date. */
  lemma {:induction false} WindowsDisjoint(runs: seq<Run>, j: nat, k: nat, day: int)
    requires Schedule(runs) && j < k && j < |runs| && runs[j].left.Some?
    ensures !(InWindow(runs, j, day) && InWindow(runs, k, day))
  {
    if k < |runs| {
      WindowBounds(runs, j);
      WindowBounds(runs, k);
      DateIsLastMove(runs, k);
    }
  }

  /** Run k is the first to move the date of those that start after the day. */
  ghost predicate Decides(runs: seq<Run>, k: nat, day: int) {
    && k < |runs| && runs[k].start > day && runs[k].left.Some?
    && forall j: nat :: j < k && runs[j].start > day ==> runs[j].left.None?
  }

  /** A run that had started by the day left the state file with a later one. */
  ghost predicate Overrun(runs: seq<Run>, day: int) {
    exists j: nat :: j < |runs| && OverrunBy(runs[j], day)
  }

  predicate OverrunBy(run: Run, day: int) {
    run.start <= day && run.left.Some? && day < run.left.value
  }

  /** Over completed, aborted and dry runs: a day of a set is harvested if and only if the first run that
      starts after it and moves the date completes and has walked the set to its end, no run was under
      way across the day, and the date had been moved before or the day is the eve of that run. */
  lemma CoveredIff(runs: seq<Run>, setSpec: string, day: int)
    requires Schedule(runs)
    ensures Covered(runs, setSpec, day) <==>
      && !Overrun(runs, day)
      && exists k: nat :: Decides(runs, k, day) && Harvests(runs[k], setSpec)
                          && (DateAfter(runs, k).Some? || day == runs[k].start - 1)
  {
    if k: nat :| InWindow(runs, k, day) && Harvests(runs[k], setSpec) {
      CoveredDecides(runs, k, day);
    }
    if k: nat :| Decides(runs, k, day) && Harvests(runs[k], setSpec)
                 && (DateAfter(runs, k).Some? || day == runs[k].start - 1) {
      if !Overrun(runs, day) {
        DecidedCovered(runs, k, day);
      }
    }
  }

  /** What a completed run gives up of a set is never harvested. */
  lemma GivenUpIsLost(runs: seq<Run>, k: nat, setSpec: string, day: int)
    requires Schedule(runs) && InWindow(runs, k, day) && runs[k].completed && setSpec !in runs[k].harvested
    ensures !Covered(runs, setSpec, day)
  {
    if j: nat :| InWindow(runs, j, day) && Harvests(runs[j], setSpec) {
      if j < k {
        WindowsDisjoint(runs, j, k, day);
      } else {
        WindowsDisjoint(runs, k, j, day);
      }
    }
  }

  lemma CoveredDecides(runs: seq<Run>, k: nat, day: int)
    requires Schedule(runs) && InWindow(runs, k, day) && runs[k].completed
    ensures !Overrun(runs, day) && Decides(runs, k, day)
    ensures DateAfter(runs, k).Some? || day == runs[k].start - 1
  {
    WindowBounds(runs, k);
    DateIsLastMove(runs, k);
    forall j: nat | k < j < |runs| ensures !OverrunBy(runs[j], day) {
      StartsAscend(runs, k, j);
    }
  }

  lemma DecidedCovered(runs: seq<Run>, k: nat, day: int)
    requires Schedule(runs) && Decides(runs, k, day) && runs[k].completed && !Overrun(runs, day)
    requires DateAfter(runs, k).Some? || day == runs[k].start - 1
    ensures InWindow(runs, k, day)
  {
    WindowBounds(runs, k);
    DateIsLastMove(runs, k);
    if DateAfter(runs, k).Some? {
      var j: nat :| j < k && runs[j].left == DateAfter(runs, k);
      assert !OverrunBy(runs[j], day);
    }
  }

  // ------------------------------------------------------------------
  // Schedules on which every run completes
  // ------------------------------------------------------------------

  ghost predicate AllComplete(runs: seq<Run>) {
    forall k :: 0 <= k < |runs| ==> runs[k].completed
  }

  ghost predicate AllHarvest(runs: seq<Run>, setSpec: string) {
    forall k :: 0 <= k < |runs| ==> setSpec in runs[k].harvested
  }

  /** The first run from k on that starts after the day decides about it. */
  lemma {:induction false} FirstAfter(runs: seq<Run>, k: nat, day: int) returns (m: nat)
    requires Schedule(runs) && AllComplete(runs) && k < |runs| && day < runs[|runs| - 1].start
    requires forall j: nat :: j < k ==> runs[j].start <= day
    ensures Decides(runs, m, day) && (m == 0 ==> k == 0 && day < runs[0].start)
    decreases |runs| - k
  {
    if day < runs[k].start {
      m := k;
    } else {
      m := FirstAfter(runs, k + 1, day);
    }
  }

  /** Of the days from the one before the first run to the one before the last, exactly those of a set are
      missed on which a run had started and not yet finished, or whose next run gave the set up. */
  lemma CoveredIffNoOverrun(runs: seq<Run>, setSpec: string, day: int)
    requires Schedule(runs) && AllComplete(runs) && runs != []
    requires runs[0].start - 1 <= day <= runs[|runs| - 1].start - 1
    ensures Covered(runs, setSpec, day) <==>
      !Overrun(runs, day) && forall k: nat :: Decides(runs, k, day) ==> setSpec in runs[k].harvested
  {
    var m := FirstAfter(runs, 0, day);
    DateIsLastMove(runs, m);
    assert m > 0 ==> runs[0].left.Some?;
    forall k: nat | Decides(runs, k, day) ensures k == m {}
    CoveredIff(runs, setSpec, day);
  }

  /** Runs that finish on the day they start tile: consecutive windows are adjacent, and no day is missed
      of a set that none of them gives up. */
  lemma {:induction false} WindowsTile(runs: seq<Run>)
    requires Schedule(runs) && AllComplete(runs) && forall k :: 0 <= k < |runs| ==> runs[k].start == End(runs[k])
    ensures forall k: nat :: k + 1 < |runs| ==> WindowOf(runs, k).until + 1 == WindowOf(runs, k + 1).from
    ensures forall setSpec, day {:trigger Covered(runs, setSpec, day)} ::
      (runs != [] && runs[0].start - 1 <= day <= runs[|runs| - 1].start - 1 && AllHarvest(runs, setSpec)) ==>
        Covered(runs, setSpec, day)
  {
    forall k: nat | k + 1 < |runs| ensures WindowOf(runs, k).until + 1 == WindowOf(runs, k + 1).from {
      WindowBounds(runs, k);
      WindowBounds(runs, k + 1);
    }
    forall setSpec, day {:trigger Covered(runs, setSpec, day)} |
      runs != [] && runs[0].start - 1 <= day <= runs[|runs| - 1].start - 1 && AllHarvest(runs, setSpec)
      ensures Covered(runs, setSpec, day)
    {
      CoveredIffNoOverrun(runs, setSpec, day);
    }
  }
}
