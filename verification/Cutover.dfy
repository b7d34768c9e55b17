/** The two-rename directory swap and its inverse (`perform_directory_swap` and
    `perform_rollback` in `ops/cutover.py`) over the directories they touch. */
module Cutover {

  /** The configured paths, and the paths a rolled-back dataset is set aside at. */
  datatype Place = Active | Staging | Rollback | Failed(name: nat)

  type Dataset = int
  type Dirs = map<Place, Dataset>

  /** What the environment does to a rename: it may go through, be refused by the operating
      system, or never happen because the process is killed first. */
  datatype Fate = Works | Errors | Dies

  datatype Outcome = Done | Refused | Restored | OsError | Killed

  /** A directory moved from one place to another. */
  ghost function Moved(dirs: Dirs, src: Place, dst: Place): Dirs
    requires src in dirs
  {
    (dirs - {src})[dst := dirs[src]]
  }

  ghost predicate SwapAllowed(dirs: Dirs, sameDevice: bool) {
    Rollback !in dirs && Active in dirs && Staging in dirs && sameDevice
  }

  ghost predicate RollbackAllowed(dirs: Dirs) {
    Rollback in dirs && Active in dirs
  }

  /** Every way a swap can change the directories: fully, not at all, or only its first half. */
  ghost predicate SwapStep(before: Dirs, after: Dirs) {
    || after == before
    || (SwapAllowed(before, true) && after == Moved(Moved(before, Active, Rollback), Staging, Active))
    || (SwapAllowed(before, true) && after == Moved(before, Active, Rollback))
  }

  ghost predicate RollbackStep(before: Dirs, after: Dirs, name: nat) {
    || after == before
    || (RollbackAllowed(before) && Failed(name) !in before
        && after == Moved(Moved(before, Active, Failed(name)), Rollback, Active))
    || (RollbackAllowed(before) && Failed(name) !in before && after == Moved(before, Active, Failed(name)))
  }

  class FileSystem {
    var dirs: Dirs

    constructor (initial: Dirs)
      ensures dirs == initial
    {
      dirs := initial;
    }

    /** `os.rename` on directories that are not empty: an absent source or a taken target is an
        error. */
    method Rename(src: Place, dst: Place, fate: Fate) returns (actual: Fate)
      modifies this
      ensures actual == if fate == Works && (src !in old(dirs) || dst in old(dirs)) then Errors else fate
      ensures actual == Works ==> dirs == Moved(old(dirs), src, dst)
      ensures actual != Works ==> dirs == old(dirs)
    {
      if fate != Works {
        return fate;
      }
      if src !in dirs || dst in dirs {
        return Errors;
      }
      dirs := (dirs - {src})[dst := dirs[src]];
      return Works;
    }

    /** `perform_directory_swap`, given the fates of the renames it may make. */
    method PerformDirectorySwap(sameDevice: bool, first: Fate, second: Fate, undo: Fate) returns (outcome: Outcome)
      modifies this
      ensures SwapStep(old(dirs), dirs)
      ensures outcome == Refused <==> !SwapAllowed(old(dirs), sameDevice)
      ensures outcome == Done <==> SwapAllowed(old(dirs), sameDevice) && first == Works && second == Works
      ensures outcome == Done ==>
        && Active in old(dirs) && Staging in old(dirs)
        && dirs == (old(dirs) - {Staging})[Active := old(dirs[Staging])][Rollback := old(dirs[Active])]
      ensures outcome == Refused || outcome == Restored ==> dirs == old(dirs)
      ensures outcome != Done && Active in dirs ==> dirs == old(dirs)
      ensures outcome == Restored <==>
        SwapAllowed(old(dirs), sameDevice) && first == Works && second == Errors && undo == Works
      ensures outcome == OsError <==>
        && SwapAllowed(old(dirs), sameDevice)
        && (first == Errors || (first == Works && second == Errors && undo == Errors))
      ensures outcome == Killed <==>
        && SwapAllowed(old(dirs), sameDevice)
        && (first == Dies || (first == Works && (second == Dies || (second == Errors && undo == Dies))))
      ensures Active in old(dirs) && Active !in dirs <==>
        && SwapAllowed(old(dirs), sameDevice) && first == Works
        && (second == Dies || (second == Errors && undo != Works))
    {
      if Rollback in dirs || Active !in dirs || Staging !in dirs || !sameDevice {
        return Refused;
      }
      var r := Rename(Active, Rollback, first);
      if r != Works {
        return if r == Errors then OsError else Killed;
      }
      r := Rename(Staging, Active, second);
      if r == Errors {
        r := Rename(Rollback, Active, undo);
        if r != Works {
          return if r == Errors then OsError else Killed;
        }
        assert dirs == old(dirs);
        return Restored;
      }
      return if r == Works then Done else Killed;
    }

    /** `perform_rollback`; the dataset taken out of service goes to the named place. */
    method PerformRollback(name: nat, first: Fate, second: Fate, undo: Fate) returns (outcome: Outcome)
      modifies this
      ensures RollbackStep(old(dirs), dirs, name)
      ensures outcome == Refused <==> !RollbackAllowed(old(dirs))
      ensures outcome == Done <==>
        RollbackAllowed(old(dirs)) && Failed(name) !in old(dirs) && first == Works && second == Works
      ensures outcome == Done ==>
        && Active in old(dirs) && Rollback in old(dirs)
        && dirs == (old(dirs) - {Rollback})[Active := old(dirs[Rollback])][Failed(name) := old(dirs[Active])]
      ensures outcome == Refused || outcome == Restored ==> dirs == old(dirs)
      ensures outcome != Done && Active in dirs ==> dirs == old(dirs)
      ensures outcome == Restored <==>
        && RollbackAllowed(old(dirs)) && Failed(name) !in old(dirs)
        && first == Works && second == Errors && undo == Works
      ensures outcome == OsError <==>
        && RollbackAllowed(old(dirs))
        && (first == Errors
            || (first == Works && Failed(name) in old(dirs))
            || (first == Works && second == Errors && undo == Errors))
      ensures outcome == Killed <==>
        && RollbackAllowed(old(dirs))
        && (first == Dies
            || (first == Works && Failed(name) !in old(dirs)
                && (second == Dies || (second == Errors && undo == Dies))))
      ensures Active in old(dirs) && Active !in dirs <==>
        && RollbackAllowed(old(dirs)) && Failed(name) !in old(dirs) && first == Works
        && (second == Dies || (second == Errors && undo != Works))
    {
      if Rollback !in dirs || Active !in dirs {
        return Refused;
      }
      var r := Rename(Active, Failed(name), first);
      if r != Works {
        return if r == Errors then OsError else Killed;
      }
      r := Rename(Rollback, Active, second);
      if r == Errors {
        r := Rename(Failed(name), Active, undo);
        if r != Works {
          return if r == Errors then OsError else Killed;
        }
        assert dirs == old(dirs);
        return Restored;
      }
      return if r == Works then Done else Killed;
    }
  }

  // ------------------------------------------------------------------
  // Runs: swaps, rollbacks and staging builds, with any faults
  // ------------------------------------------------------------------

  datatype Op = Swap | RollBack(name: nat) | Build(dataset: Dataset)

  /** A staging build makes a new dataset where there is none. */
  ghost predicate BuildStep(before: Dirs, after: Dirs, d: Dataset) {
    Staging !in before && d !in before.Values && after == before[Staging := d]
  }

  ghost predicate OpStep(op: Op, before: Dirs, after: Dirs) {
    match op
    case Swap => SwapStep(before, after)
    case RollBack(name) => RollbackStep(before, after, name)
    case Build(d) => BuildStep(before, after, d)
  }

  /** states is what the directories went through under the operations. */
  ghost predicate IsRun(ops: seq<Op>, states: seq<Dirs>) {
    |states| == |ops| + 1 && forall i :: 0 <= i < |ops| ==> OpStep(ops[i], states[i], states[i + 1])
  }

  ghost predicate OnePlaceEach(dirs: Dirs) {
    forall p, q :: p in dirs && q in dirs && p != q ==> dirs[p] != dirs[q]
  }

  lemma StepConserves(op: Op, before: Dirs, after: Dirs)
    requires OpStep(op, before, after) && OnePlaceEach(before)
    ensures OnePlaceEach(after)
    ensures forall p :: p in before ==> before[p] in after.Values
  {
    forall p | p in before ensures before[p] in after.Values {
      if p in after && after[p] == before[p] {
      } else if p == Active {
        match op {
          case Swap => assert after[Rollback] == before[p];
          case RollBack(name) => assert after[Failed(name)] == before[p];
          case Build(_) => assert false;
        }
      } else {
        assert after[Active] == before[p];
      }
    }
  }

  /** No dataset is ever lost or overwritten: whatever was somewhere at some moment is somewhere
      at every later moment, and always in one place. */
  lemma {:induction false} NothingIsLost(ops: seq<Op>, states: seq<Dirs>, i: nat, j: nat)
    requires IsRun(ops, states) && OnePlaceEach(states[0]) && i <= j < |states|
    ensures OnePlaceEach(states[j])
    ensures states[i].Values <= states[j].Values
    decreases j
  {
    if j > 0 {
      NothingIsLost(ops, states, if i < j then i else j - 1, j - 1);
      StepConserves(ops[j - 1], states[j - 1], states[j]);
      assert states[j - 1].Values <= states[j].Values;
    }
  }

  /** Where a dataset that has been in service may be. */
  ghost predicate Recoverable(dirs: Dirs, d: Dataset) {
    exists p :: p in dirs && dirs[p] == d && p != Staging
  }

  /** A dataset in service stays at the active path, the rollback path or a failed-cutover path
      whatever is run and whatever fails. */
  lemma {:induction false} ServedStaysRecoverable(ops: seq<Op>, states: seq<Dirs>, i: nat, j: nat)
    requires IsRun(ops, states) && i <= j < |states|
    requires Active in states[i]
    ensures Recoverable(states[j], states[i][Active])
    decreases j
  {
    var d := states[i][Active];
    if i < j {
      ServedStaysRecoverable(ops, states, i, j - 1);
      var before, after := states[j - 1], states[j];
      var p :| p in before && before[p] == d && p != Staging;
      if p in after && after[p] == d {
      } else if p == Active {
        match ops[j - 1] {
          case Swap => assert after[Rollback] == d;
          case RollBack(name) => assert after[Failed(name)] == d;
          case Build(_) => assert false;
        }
      } else {
        assert after[Active] == d;
      }
    }
  }

  /** A rollback right after a successful swap puts everything back, the promoted dataset being
      set aside. */
  method SwapThenRollback(fs: FileSystem, name: nat) returns (swapped: Outcome, back: Outcome)
    requires SwapAllowed(fs.dirs, true) && Failed(name) !in fs.dirs
    modifies fs
    ensures swapped == Done && back == Done
    ensures fs.dirs == (old(fs.dirs) - {Staging})[Failed(name) := old(fs.dirs[Staging])]
  {
    swapped := fs.PerformDirectorySwap(true, Works, Works, Works);
    back := fs.PerformRollback(name, Works, Works, Works);
  }

  /** Once the active path is missing, as after a crash between the renames, both operations
      refuse, and nothing the two do ever brings it back. */
  lemma {:induction false} MissingActiveStays(ops: seq<Op>, states: seq<Dirs>, j: nat)
    requires IsRun(ops, states) && j < |states|
    requires Active !in states[0]
    ensures Active !in states[j]
    ensures !SwapAllowed(states[j], true) && !RollbackAllowed(states[j])
    ensures forall p :: p in states[0] ==> p in states[j] && states[j][p] == states[0][p]
  {
    if j > 0 { MissingActiveStays(ops, states, j - 1); }
  }
}
