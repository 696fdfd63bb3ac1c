/** In every run the counters and the status agree with what was done, and what was recorded can be
    undone. */
module DaemonRecords {
  import opened Wrappers
  import opened Lists
  import opened Outcomes
  import opened Daemon
  import opened DaemonProperties
  import Git
  import Tick
  import Metrics
  import History

  function Flat(rounds: seq<seq<Attempt>>): seq<Attempt> {
    if rounds == [] then [] else Flat(rounds[..|rounds| - 1]) + rounds[|rounds| - 1]
  }

  /** All attempts so far, oldest first. */
  function Attempts(s: State): seq<Attempt> {
    Flat(s.finished) + s.current
  }

  lemma FlatGrows(rounds: seq<seq<Attempt>>, round: seq<Attempt>)
    ensures Flat(rounds + [round]) == Flat(rounds) + round
  {
    assert (rounds + [round])[..|rounds|] == rounds;
  }

  /** A step adds its attempt to all attempts, and only ending a round moves any. */
  lemma StepAttempts(u: Setup, s: State, e: Event)
    requires Step(u, s, e).Some?
    ensures Attempts(Step(u, s, e).value) == if e.Tend? then Attempts(s) + [e.attempt] else Attempts(s)
  {
    StepRounds(u, s, e);
    FlatGrows(s.finished, s.current);
  }

  // ----- Counters and history -----

  function Entries(a: Attempt): seq<Metrics.Entry> {
    (if a.written then [Metrics.Wrote] else []) + [Metrics.Ticked(SampleOf(a))]
  }

  function Log(attempts: seq<Attempt>): seq<Metrics.Entry> {
    if attempts == [] then [] else Log(attempts[..|attempts| - 1]) + Entries(attempts[|attempts| - 1])
  }

  function Rows(attempts: seq<Attempt>): seq<TickRecord> {
    if attempts == [] then []
    else
      var a := attempts[|attempts| - 1];
      Rows(attempts[..|attempts| - 1]) + (if a.written then [a.row] else [])
  }

  lemma ReplayMore(log: seq<Metrics.Entry>, e: Metrics.Entry)
    ensures Metrics.Replay(log + [e]) ==
      match e
      case Ticked(s) => Metrics.Recorded(Metrics.Replay(log), s)
      case Wrote => Metrics.Appended(Metrics.Replay(log))
  {
    assert (log + [e])[..|log|] == log;
  }

  lemma ReplayEntries(log: seq<Metrics.Entry>, a: Attempt)
    ensures Metrics.Replay(log + Entries(a)) == Counted(Metrics.Replay(log), a)
  {
    var ticked := Metrics.Ticked(SampleOf(a));
    if a.written {
      ReplayMore(log, Metrics.Wrote);
      ReplayMore(log + [Metrics.Wrote], ticked);
      assert log + Entries(a) == log + [Metrics.Wrote] + [ticked];
    } else {
      ReplayMore(log, ticked);
      assert log + Entries(a) == log + [ticked];
    }
  }

  lemma StepCounts(u: Setup, s: State, e: Event)
    requires Step(u, s, e).Some?
    ensures Step(u, s, e).value.counters == if e.Tend? then Counted(s.counters, e.attempt) else s.counters
    ensures Step(u, s, e).value.file ==
            if e.Tend? then History.AfterOne(u.codec, s.file, WriteOf(e.attempt)) else s.file
    ensures e.Tend? ==> e.attempt.written == History.Landed(u.codec, WriteOf(e.attempt))
  {
    match e
    case Tend(_) =>
    case EndRound =>
    case TakeRequest(_) =>
    case TakeTimer(_) =>
    case Request =>
    case _ =>
  }

  lemma {:induction false} CountersInvariant(u: Setup, s0: State, es: seq<Event>)
    requires Started(u, s0) && Run(u, s0, es).Some?
    ensures Run(u, s0, es).value.counters == Metrics.Replay(Log(Attempts(Run(u, s0, es).value)))
  {
    if es != [] {
      var before, e := es[..|es| - 1], es[|es| - 1];
      var s := Run(u, s0, before).value;
      CountersInvariant(u, s0, before);
      StepCounts(u, s, e);
      StepAttempts(u, s, e);
      if e.Tend? {
        var all := Attempts(s) + [e.attempt];
        assert all[..|all| - 1] == Attempts(s);
        ReplayEntries(Log(Attempts(s)), e.attempt);
      }
    }
  }

  const RAN := (a: Attempt) => a.row.outcome.ran
  const SKIPPED := (a: Attempt) => !a.row.outcome.ran
  const FAILED := (a: Attempt) => a.row.outcome.exitCode.Some? && a.row.outcome.exitCode.value != 0

  lemma CountMore(log: seq<Metrics.Entry>, a: Attempt, p: Metrics.Entry -> bool)
    ensures Count(log + Entries(a), p) ==
      Count(log, p) + (if a.written && p(Metrics.Wrote) then 1 else 0)
      + (if p(Metrics.Ticked(SampleOf(a))) then 1 else 0)
  {
    var ticked := Metrics.Ticked(SampleOf(a));
    CountOneMore(log, Metrics.Wrote, p);
    if a.written {
      CountOneMore(log + [Metrics.Wrote], ticked, p);
      assert log + Entries(a) == log + [Metrics.Wrote] + [ticked];
    } else {
      CountOneMore(log, ticked, p);
      assert log + Entries(a) == log + [ticked];
    }
  }

  lemma {:induction false} LogCounts(attempts: seq<Attempt>)
    ensures Count(Log(attempts), Metrics.IS_TICK) == |attempts|
    ensures Count(Log(attempts), Metrics.IS_RUN) == Count(attempts, RAN)
    ensures Count(Log(attempts), Metrics.IS_SKIP) == Count(attempts, SKIPPED)
    ensures Count(Log(attempts), Metrics.IS_FAILURE) == Count(attempts, FAILED)
    ensures Count(Log(attempts), Metrics.IS_WRITE) == |Rows(attempts)|
  {
    if attempts != [] {
      var before, a := attempts[..|attempts| - 1], attempts[|attempts| - 1];
      LogCounts(before);
      CountMore(Log(before), a, Metrics.IS_TICK);
      CountMore(Log(before), a, Metrics.IS_RUN);
      CountMore(Log(before), a, Metrics.IS_SKIP);
      CountMore(Log(before), a, Metrics.IS_FAILURE);
      CountMore(Log(before), a, Metrics.IS_WRITE);
    }
  }

  lemma {:induction false} CountsPartition(attempts: seq<Attempt>)
    ensures Count(attempts, RAN) + Count(attempts, SKIPPED) == |attempts|
    ensures |Rows(attempts)| <= |attempts|
  {
    if attempts != [] {
      CountsPartition(attempts[..|attempts| - 1]);
    }
  }

  /** How long the ticks took in all; a clock set back counts as no time. */
  function TotalSeconds(attempts: seq<Attempt>): nat {
    if attempts == [] then 0
    else
      var row := attempts[|attempts| - 1].row;
      TotalSeconds(attempts[..|attempts| - 1])
      + if row.finishedAt > row.startedAt then row.finishedAt - row.startedAt else 0
  }

  lemma SecondsMore(log: seq<Metrics.Entry>, e: Metrics.Entry)
    ensures Metrics.Seconds(log + [e]) == Metrics.Seconds(log) + if e.Ticked? then e.sample.seconds else 0
  {
    assert (log + [e])[..|log|] == log;
  }

  lemma {:induction false} LogSeconds(attempts: seq<Attempt>)
    ensures Metrics.Seconds(Log(attempts)) == TotalSeconds(attempts)
  {
    if attempts != [] {
      var before, a := Log(attempts[..|attempts| - 1]), attempts[|attempts| - 1];
      LogSeconds(attempts[..|attempts| - 1]);
      var wrote := if a.written then before + [Metrics.Wrote] else before;
      SecondsMore(before, Metrics.Wrote);
      SecondsMore(wrote, Metrics.Ticked(SampleOf(a)));
      assert Log(attempts) == wrote + [Metrics.Ticked(SampleOf(a))];
    }
  }

  lemma AppendsCounted(u: Setup, s0: State, es: seq<Event>)
    requires Started(u, s0) && Run(u, s0, es).Some?
    ensures Run(u, s0, es).value.counters.appends == |Rows(Attempts(Run(u, s0, es).value))| % Metrics.U64
  {
    var all := Attempts(Run(u, s0, es).value);
    CountersInvariant(u, s0, es);
    Metrics.CountersAreCounts(Log(all));
    LogCounts(all);
  }

  /** In every reachable state each counter is the number of attempts of its kind, modulo its width,
      the appends are the rows written, the seconds those the ticks took, the gauges those of the latest
      tick, and every attempt either ran or was skipped. */
  lemma CountersAgree(u: Setup, s0: State, es: seq<Event>)
    requires Started(u, s0) && Run(u, s0, es).Some?
    ensures var s := Run(u, s0, es).value; var all := Attempts(s);
      && s.counters.total == |all| % Metrics.U64
      && s.counters.ran == Count(all, RAN) % Metrics.U64
      && s.counters.skipped == Count(all, SKIPPED) % Metrics.U64
      && s.counters.failures == Count(all, FAILED) % Metrics.U64
      && s.counters.appends == |Rows(all)| % Metrics.U64
      && s.counters.seconds == TotalSeconds(all) % Metrics.U64
      && (all != [] ==>
            && s.counters.issuesLast == all[|all| - 1].row.outcome.auditTotalIssues % Metrics.U64
            && s.counters.lastTick == all[|all| - 1].recordedAt % Metrics.U64)
      && Count(all, RAN) + Count(all, SKIPPED) == |all| && |Rows(all)| <= |all|
  {
    var all := Attempts(Run(u, s0, es).value);
    CountersInvariant(u, s0, es);
    Metrics.CountersAreCounts(Log(all));
    LogCounts(all);
    LogSeconds(all);
    CountsPartition(all);
    if all != [] {
      ReplayEntries(Log(all[..|all| - 1]), all[|all| - 1]);
    }
  }

  // ----- The status -----

  /** The latest attempt on the primary root. */
  function LatestPrimary(s: State): Option<LastTick> {
    if s.current != [] then Some(Shown(s.current[0].row))
    else if s.finished == [] || s.finished[|s.finished| - 1] == [] then None
    else Some(Shown(s.finished[|s.finished| - 1][0].row))
  }

  lemma StepLastTick(u: Setup, s: State, e: Event)
    requires Step(u, s, e).Some?
    ensures Step(u, s, e).value.lastTick ==
            if e.Tend? && s.current == [] then Some(Shown(e.attempt.row)) else s.lastTick
  {
    match e
    case Tend(_) =>
    case EndRound =>
    case TakeRequest(_) =>
    case TakeTimer(_) =>
    case Request =>
    case _ =>
  }

  /** The status shows the latest attempt on the primary root, as soon as it is made. */
  lemma {:induction false} LastTickIsLatest(u: Setup, s0: State, es: seq<Event>)
    requires Started(u, s0) && Run(u, s0, es).Some?
    ensures Run(u, s0, es).value.lastTick == LatestPrimary(Run(u, s0, es).value)
  {
    if es != [] {
      var before, e := es[..|es| - 1], es[|es| - 1];
      var s := Run(u, s0, before).value;
      LastTickIsLatest(u, s0, before);
      RoundsInvariant(u, s0, before);
      StepLastTick(u, s, e);
      StepRounds(u, s, e);
      StepRoundFlag(u, s, e);
    }
  }

  // ----- What every tick kept -----

  /** What a recorded attempt still promises, whatever the root has become. */
  predicate Sound(u: Setup, a: Attempt) {
    var o := a.row.outcome;
    && (o.reasonSkipped.Some? <==> !o.ran)
    && (o.exitCode.Some? ==> o.ran)
    && (o.preTickSha.Some? ==> o.ran && !a.row.dryRun && u.cfg.gitTrack)
    && (a.run.launch.Some? ==> a.run.launch.value == Tick.LaunchFor(a.row.dryRun))
    && (a.row.dryRun ==> a.run.atSpawn == a.found && a.run.after.commits == a.found.commits)
  }

  /** The commit an attempt recorded is still in the root's store, with the files the agent found. */
  predicate Undoable(disk: map<string, Git.Root>, a: Attempt) {
    a.row.memoryRoot in disk &&
    var now := disk[a.row.memoryRoot];
    && Git.Valid(now) && Git.Extends(now, a.run.atSpawn)
    && (a.row.outcome.preTickSha.Some? ==>
          var sha := a.row.outcome.preTickSha.value;
          && sha < |now.commits| && now.hasGit
          && Tick.Saves(now.commits[sha], a.found, a.ignored))
  }

  predicate AllUndoable(disk: map<string, Git.Root>, all: seq<Attempt>) {
    forall i :: 0 <= i < |all| ==> Undoable(disk, all[i])
  }

  predicate AllSound(u: Setup, all: seq<Attempt>) {
    forall i :: 0 <= i < |all| ==> Sound(u, all[i])
  }

  ghost predicate AllValid(disk: map<string, Git.Root>) {
    forall root :: root in disk ==> Git.Valid(disk[root])
  }

  /** A root whose store only grew still backs what it backed. */
  lemma GrowthKeepsUndoable(disk: map<string, Git.Root>, root: string, r: Git.Root, a: Attempt)
    requires Undoable(disk, a) && root in disk && Git.Valid(r) && Git.Extends(r, disk[root])
    ensures Undoable(disk[root := r], a)
  {
  }

  lemma FittingIsUndoable(u: Setup, s: State, a: Attempt)
    requires Proper(u, s, a) && Fits(u, a)
    ensures Undoable(s.disk[a.row.memoryRoot := a.run.after], a) && Sound(u, a)
    ensures Git.Valid(a.run.after) && Git.Extends(a.run.after, s.disk[a.row.memoryRoot])
  {
  }

  lemma StepDisk(u: Setup, s: State, e: Event)
    requires Step(u, s, e).Some?
    ensures Step(u, s, e).value.disk ==
            if e.Tend? then s.disk[e.attempt.row.memoryRoot := e.attempt.run.after]
            else if e.Outside? then s.disk[e.root := e.becomes]
            else s.disk
    ensures e.Outside? ==> e.root in s.disk && Git.Valid(e.becomes) && Git.Extends(e.becomes, s.disk[e.root])
    ensures e.Tend? ==> Proper(u, s, e.attempt)
  {
    match e
    case Tend(_) =>
    case EndRound =>
    case TakeRequest(_) =>
    case TakeTimer(_) =>
    case Request =>
    case _ =>
  }

  lemma DiskGrows(disk: map<string, Git.Root>, root: string, r: Git.Root, all: seq<Attempt>)
    requires AllValid(disk) && AllUndoable(disk, all)
    requires root in disk && Git.Valid(r) && Git.Extends(r, disk[root])
    ensures AllValid(disk[root := r]) && AllUndoable(disk[root := r], all)
  {
    forall i | 0 <= i < |all|
      ensures Undoable(disk[root := r], all[i])
    {
      GrowthKeepsUndoable(disk, root, r, all[i]);
    }
  }

  lemma {:induction false} UndoInvariant(u: Setup, s0: State, es: seq<Event>)
    requires Started(u, s0) && Genuine(u, es) && Run(u, s0, es).Some?
    ensures var s := Run(u, s0, es).value;
      AllValid(s.disk) && AllUndoable(s.disk, Attempts(s)) && AllSound(u, Attempts(s))
  {
    if es != [] {
      var before, e := es[..|es| - 1], es[|es| - 1];
      var s := Run(u, s0, before).value;
      assert Genuine(u, before);
      UndoInvariant(u, s0, before);
      StepDisk(u, s, e);
      StepAttempts(u, s, e);
      if e.Tend? {
        FittingIsUndoable(u, s, e.attempt);
        DiskGrows(s.disk, e.attempt.row.memoryRoot, e.attempt.run.after, Attempts(s));
      } else if e.Outside? {
        DiskGrows(s.disk, e.root, e.becomes, Attempts(s));
      }
    } else {
      assert Attempts(s0) == [];
    }
  }

  /** No root is ever forgotten. */
  lemma {:induction false} RootsStay(u: Setup, s0: State, es: seq<Event>)
    requires Started(u, s0) && Run(u, s0, es).Some?
    ensures forall root :: root in s0.disk ==> root in Run(u, s0, es).value.disk
  {
    if es != [] {
      var before := es[..|es| - 1];
      RootsStay(u, s0, before);
      StepDisk(u, Run(u, s0, before).value, es[|es| - 1]);
    }
  }

  /** Restoring the commit now gives back every file the attempt found that was tracked or is not ignored, as
      it was found; any other file there is then is one it found, as it was, or untracked now and left alone. */
  ghost predicate GivesBack(now: Git.Root, sha: nat, a: Attempt) {
    var (back, done) := Git.Restored(now, sha, true);
    && done.Ok?
    && (forall p :: p in a.found.worktree && (p in a.found.index || p !in a.ignored) ==>
          p in back.worktree && back.worktree[p] == a.found.worktree[p])
    && (forall p :: p in back.worktree ==>
          || (p in a.found.worktree && back.worktree[p] == a.found.worktree[p])
          || (p in now.worktree && p !in now.index && back.worktree[p] == now.worktree[p]))
  }

  lemma UndoableGivesBack(disk: map<string, Git.Root>, a: Attempt, sha: nat)
    requires Undoable(disk, a) && a.row.outcome.preTickSha == Some(sha)
    ensures GivesBack(disk[a.row.memoryRoot], sha, a)
  {
    Git.RestoreUndoes(disk[a.row.memoryRoot], sha);
  }

  /** Undo over whole runs: after any later ticks, edits and git operations that only add to the store,
      restoring the commit an attempt recorded brings back the files its tick found, as they were, and beside
      them only what is untracked at the moment of the restore. */
  lemma UndoWorks(u: Setup, s0: State, es: seq<Event>, i: nat, sha: nat)
    requires Started(u, s0) && Genuine(u, es) && Run(u, s0, es).Some?
    requires i < |Attempts(Run(u, s0, es).value)|
    requires Attempts(Run(u, s0, es).value)[i].row.outcome.preTickSha == Some(sha)
    ensures var s := Run(u, s0, es).value; var a := Attempts(s)[i];
      && a.row.memoryRoot in s.disk
      && var now := s.disk[a.row.memoryRoot]; var (back, done) := Git.Restored(now, sha, true);
      && done.Ok?
      && (forall p :: p in a.found.worktree && (p in a.found.index || p !in a.ignored) ==>
            p in back.worktree && back.worktree[p] == a.found.worktree[p])
      && (forall p :: p in back.worktree ==>
            || (p in a.found.worktree && back.worktree[p] == a.found.worktree[p])
            || (p in now.worktree && p !in now.index && back.worktree[p] == now.worktree[p]))
  {
    UndoInvariant(u, s0, es);
    var s := Run(u, s0, es).value;
    var a := Attempts(s)[i];
    assert Undoable(s.disk, a);
    UndoableGivesBack(s.disk, a, sha);
  }

  /** With a snapshot of the present files taken first, it brings back the files of the recorded commit and
      no other if and only if they include every present file that is ignored and was never tracked. */
  lemma UndoExact(u: Setup, s0: State, es: seq<Event>, i: nat, sha: nat, env: Git.Env)
    requires Started(u, s0) && Genuine(u, es) && Run(u, s0, es).Some?
    requires i < |Attempts(Run(u, s0, es).value)|
    requires Attempts(Run(u, s0, es).value)[i].row.outcome.preTickSha == Some(sha)
    ensures var s := Run(u, s0, es).value; var a := Attempts(s)[i];
      && a.row.memoryRoot in s.disk
      && var now := s.disk[a.row.memoryRoot];
      && Git.Valid(now) && sha < |now.commits| && Tick.Saves(now.commits[sha], a.found, a.ignored)
      && (Git.Snapshot(now, env).1.Ok? ==>
            (Git.Restored(Git.Snapshot(now, env).0, sha, true).0.worktree == now.commits[sha] <==>
               forall p :: p in now.worktree && p !in now.index && p in env.ignored ==> p in now.commits[sha]))
  {
    UndoInvariant(u, s0, es);
    var s := Run(u, s0, es).value;
    var a := Attempts(s)[i];
    assert Undoable(s.disk, a);
    if Git.Snapshot(s.disk[a.row.memoryRoot], env).1.Ok? {
      Git.SnapshotThenRestore(s.disk[a.row.memoryRoot], env, sha);
    }
  }

  // ----- Outcomes over whole runs -----

  lemma {:induction false} FailedRan(u: Setup, all: seq<Attempt>)
    requires AllSound(u, all)
    ensures Count(all, FAILED) <= Count(all, RAN)
  {
    if all != [] {
      FailedRan(u, all[..|all| - 1]);
      assert Sound(u, all[|all| - 1]);
    }
  }

  /** The i-th round, finished or in progress. */
  function RoundAt(s: State, i: nat): seq<Attempt> {
    if i < |s.finished| then s.finished[i] else if i == |s.finished| then s.current else []
  }

  lemma AttemptOfRound(s: State, i: nat, j: nat)
    requires j < |RoundAt(s, i)|
    ensures exists k :: 0 <= k < |Attempts(s)| && Attempts(s)[k] == RoundAt(s, i)[j]
  {
    if i < |s.finished| {
      var k := FlatPosition(s.finished, i, j);
      assert Attempts(s)[k] == s.finished[i][j];
    } else {
      assert Attempts(s)[|Flat(s.finished)| + j] == s.current[j];
    }
  }

  lemma {:induction false} FlatPosition(rounds: seq<seq<Attempt>>, i: nat, j: nat) returns (k: nat)
    requires i < |rounds| && j < |rounds[i]|
    ensures k < |Flat(rounds)| && Flat(rounds)[k] == rounds[i][j]
    decreases |rounds|
  {
    var n := |rounds| - 1;
    if i == n {
      k := |Flat(rounds[..n])| + j;
    } else {
      k := FlatPosition(rounds[..n], i, j);
    }
  }

  /** Over all genuine runs, in a round that found the flag set, finished or in progress, no tick adds a
      commit, no agent is launched with an editing tool or the permission bypass, and nothing is recorded
      to go back to. */
  lemma DryRoundsHarmless(u: Setup, s0: State, es: seq<Event>, i: nat, j: nat)
    requires Started(u, s0) && Genuine(u, es) && Run(u, s0, es).Some?
    requires j < |RoundAt(Run(u, s0, es).value, i)|
    ensures i < |FlagsSeen(es, s0.flag)|
    ensures var a := RoundAt(Run(u, s0, es).value, i)[j];
      && a.row.dryRun == FlagsSeen(es, s0.flag)[i]
      && (a.row.dryRun ==>
            && a.run.after.commits == a.found.commits && a.row.outcome.preTickSha.None?
            && (a.run.launch.Some? ==>
                  && !a.run.launch.value.skipPermissions
                  && "Write" !in a.run.launch.value.tools && "Edit" !in a.run.launch.value.tools))
  {
    var s := Run(u, s0, es).value;
    RoundsInvariant(u, s0, es);
    FlagsAreSeen(u, s0, es);
    UndoInvariant(u, s0, es);
    AttemptOfRound(s, i, j);
    var k :| 0 <= k < |Attempts(s)| && Attempts(s)[k] == RoundAt(s, i)[j];
    assert Sound(u, Attempts(s)[k]);
    Tick.DryLaunchIsHarmless(true);
  }

  lemma FailuresAtMostRuns(u: Setup, s0: State, es: seq<Event>)
    requires Started(u, s0) && Genuine(u, es) && Run(u, s0, es).Some?
    ensures var all := Attempts(Run(u, s0, es).value); Count(all, FAILED) <= Count(all, RAN)
  {
    UndoInvariant(u, s0, es);
    FailedRan(u, Attempts(Run(u, s0, es).value));
  }
}
