/** One tick of one memory root: the guards, the audit, the snapshot, the agent (src/tick.rs). */
module Tick {
  import opened Wrappers
  import opened Lists
  import opened Outcomes
  import opened Audit
  import opened AuditProperties
  import Duplicates
  import Frontmatter
  import Lsof
  import Git
  import AgentWait

  datatype Config = Config(gitTrack: bool, minIdleSec: nat, maxTick: nat)

  /** Everything a tick meets that it does not decide: what lsof printed or why it could not run,
      the live sessions, the age of the newest file, the directory listing, how each command goes,
      how the agent's process runs, and the files the agent leaves. */
  datatype Env = Env(
    me: nat, lsof: Result<string, string>, sessions: nat, idleSec: nat, entries: seq<Entry>,
    initOk: bool, initEnv: Git.Env, snapshotEnv: Git.Env, headEnv: Git.Env,
    spawn: Result<(), string>, agent: seq<AgentWait.Event>, edited: Git.Tree)

  /** The part of the agent's command line that grants it power. */
  datatype Launch = Launch(tools: seq<string>, skipPermissions: bool)

  datatype TickRun = TickRun(
    outcome: Result<TickOutcome, string>, launch: Option<Launch>, atSpawn: Git.Root, after: Git.Root)

  const READERS: seq<string> := ["Read", "Glob", "Grep", "Bash(find:*)", "Bash(ps:*)"]
  const EDITORS: seq<string> := ["Read", "Write", "Edit", "Glob", "Grep", "Bash(find:*)", "Bash(ps:*)"]

  // ----- A tick on values -----

  function PlainReport(entries: seq<Entry>): AuditReport {
    var files := Files(entries);
    var index := IndexLines(entries);
    var ls := if index.Some? then index.value else [];
    AuditReport(
      |files|, |ls|, |ls| > LINE_BUDGET,
      FlatMap(files, MissingFrontmatter), FlatMap(files, InvalidType),
      if index.Some? then FlatMap(ls, Dangling(Filenames(files))) else [],
      if index.Some? then FlatMap(files, Unindexed(Targets(ls))) else [],
      FlatMap(files, Broken(NamesOf(files))), FlatMap(files, MissingWhyOrHow),
      Duplicates.AllPairs(FlatMap(files, LongKey)))
  }

  /** The number of issues in the root, which every report on it agrees on. */
  function Issues(isDir: bool, entries: seq<Entry>): nat {
    if isDir then PlainReport(entries).TotalIssues() else 0
  }

  /** The outcome if the tick stops before anything is changed. */
  function Guard(root: Git.Root, cfg: Config, env: Env): Option<TickOutcome> {
    if env.lsof.Ok? && Lsof.Holders(env.lsof.value, env.me) != [] then
      Some(Skipped(FilesOpen(Lsof.Holders(env.lsof.value, env.me))))
    else if env.lsof.Err? && env.sessions > 0 then
      Some(Skipped(LiveSessions(env.sessions)))
    else if env.idleSec < cfg.minIdleSec then
      Some(Skipped(TooRecent(env.idleSec, cfg.minIdleSec)))
    else if Issues(root.isDir, env.entries) == 0 then
      Some(Skipped(AuditClean))
    else
      None
  }

  /** The root once the snapshot is taken, and the commit to go back to. */
  function Prepared(root: Git.Root, cfg: Config, dryRun: bool, env: Env): (Git.Root, Option<nat>)
    requires Git.Valid(root)
  {
    if dryRun || !cfg.gitTrack then (root, None)
    else
      Git.EnsureKeeps(root, env.initOk, env.initEnv);
      var (tracked, ensured) := Git.Ensured(root, env.initOk, env.initEnv);
      if ensured.Err? then (tracked, None)
      else
        var (saved, sha) := Git.Snapshot(tracked, env.snapshotEnv);
        if sha.Err? then (saved, None)
        else if sha.value.Some? then (saved, sha.value)
        else
          var head := Git.HeadSha(saved, env.headEnv);
          (saved, if head.Ok? then head.value else None)
  }

  function LaunchFor(dryRun: bool): Launch {
    Launch(if dryRun then READERS else EDITORS, !dryRun)
  }

  /** The agent's run is over: its process was answered for, or waiting for it failed. */
  predicate Over(env: Env, maxTick: nat) {
    var end := AgentWait.Run(env.agent, maxTick);
    end.Some? && (end.value.phase.Finished? || end.value.phase.Broken?)
  }

  /** How waiting for the agent ended. */
  function Waited(env: Env, maxTick: nat): Result<AgentWait.Status, string>
    requires Over(env, maxTick)
  {
    var end := AgentWait.Run(env.agent, maxTick).value;
    if end.phase.Finished? then Ok(end.phase.status) else Err("wait")
  }

  /** The launch and its end, for a root prepared as saved with commit sha to go back to. */
  function Spawned(saved: Git.Root, sha: Option<nat>, issues: nat, dryRun: bool, spawn: Result<(), string>,
                   status: Result<AgentWait.Status, string>, edited: Git.Tree): TickRun {
    if spawn.Err? then TickRun(Err(spawn.error), None, saved, saved)
    else
      var outcome := if status.Err? then Err(status.error)
                     else Ok(TickOutcome(true, None, status.value, issues, sha));
      TickRun(outcome, Some(LaunchFor(dryRun)), saved, saved.(worktree := edited))
  }

  function RunTick(root: Git.Root, cfg: Config, dryRun: bool, env: Env): TickRun
    requires Git.Valid(root) && Over(env, cfg.maxTick)
  {
    var guard := Guard(root, cfg, env);
    if guard.Some? then TickRun(Ok(guard.value), None, root, root)
    else
      var (saved, sha) := Prepared(root, cfg, dryRun, env);
      Spawned(saved, sha, Issues(root.isDir, env.entries), dryRun, env.spawn, Waited(env, cfg.maxTick), env.edited)
  }

  /** What the main loop records of a tick, errors included (src/main.rs). */
  function Published(outcome: Result<TickOutcome, string>): TickOutcome {
    match outcome
    case Ok(o) => o
    case Err(e) => Skipped(Failed(e))
  }

  // ----- The tick -----

  lemma ReportTotal(entries: seq<Entry>, r: AuditReport)
    requires IsReportFor(entries, r)
    ensures r.TotalIssues() == Issues(true, entries)
  {
    SameSize(r.duplicateCandidates, Duplicates.AllPairs(FlatMap(Files(entries), LongKey)));
  }

  method TakeSnapshot(repo: Git.Repository, env: Env) returns (sha: Option<nat>)
    requires Git.Valid(repo.View())
    modifies repo
    ensures (repo.View(), sha) == Prepared(old(repo.View()), Config(true, 0, 0), false, env)
  {
    sha := None;
    Git.EnsureKeeps(repo.View(), env.initOk, env.initEnv);
    var ensured := repo.EnsureGitRepo(env.initOk, env.initEnv);
    if ensured.Ok? {
      var committed := repo.CommitSnapshot(env.snapshotEnv);
      if committed.Ok? {
        sha := committed.value;
        if sha.None? {
          var head := repo.ReadHead(env.headEnv);
          sha := if head.Ok? then head.value else None;
        }
      }
    }
  }

  method CheckGuards(isDir: bool, cfg: Config, env: Env) returns (skip: Option<TickOutcome>, issues: nat)
    ensures forall root: Git.Root :: root.isDir == isDir ==> skip == Guard(root, cfg, env)
    ensures skip.None? ==> issues == Issues(isDir, env.entries)
  {
    issues := 0;
    if env.lsof.Ok? {
      var holders := Lsof.MemoryHolders(env.lsof.value, env.me);
      if holders != [] {
        return Some(Skipped(FilesOpen(holders))), 0;
      }
    } else if env.sessions > 0 {
      return Some(Skipped(LiveSessions(env.sessions))), 0;
    }
    if env.idleSec < cfg.minIdleSec {
      return Some(Skipped(TooRecent(env.idleSec, cfg.minIdleSec))), 0;
    }
    var audit := RunAudit(isDir, env.entries);
    if isDir {
      ReportTotal(env.entries, audit);
    }
    if audit.TotalIssues() == 0 {
      return Some(Skipped(AuditClean)), 0;
    }
    return None, audit.TotalIssues();
  }

  method Run(repo: Git.Repository, cfg: Config, dryRun: bool, env: Env)
    returns (outcome: Result<TickOutcome, string>, launch: Option<Launch>, ghost atSpawn: Git.Root)
    requires Git.Valid(repo.View()) && Over(env, cfg.maxTick)
    modifies repo
    ensures TickRun(outcome, launch, atSpawn, repo.View()) == RunTick(old(repo.View()), cfg, dryRun, env)
  {
    launch, atSpawn := None, repo.View();
    var skip, issues := CheckGuards(repo.isDir, cfg, env);
    if skip.Some? {
      return Ok(skip.value), launch, atSpawn;
    }
    var preTickSha := None;
    if !dryRun && cfg.gitTrack {
      preTickSha := TakeSnapshot(repo, env);
    }
    atSpawn := repo.View();
    if env.spawn.Err? {
      return Err(env.spawn.error), launch, atSpawn;
    }
    launch := Some(Launch(if dryRun then READERS else EDITORS, !dryRun));
    var status := Waited(env, cfg.maxTick);
    repo.worktree := env.edited;
    if status.Err? {
      return Err(status.error), launch, atSpawn;
    }
    outcome := Ok(TickOutcome(true, None, status.value, issues, preTickSha));
  }

  // ----- What a tick promises -----

  lemma GuardShape(root: Git.Root, cfg: Config, env: Env)
    ensures var g := Guard(root, cfg, env);
      && (g.Some? ==> g.value.reasonSkipped.Some? && g.value == Skipped(g.value.reasonSkipped.value))
      && (g.None? ==> Issues(root.isDir, env.entries) > 0 && root.isDir)
  {
  }

  /** Preparing changes no file and forgets no commit, does nothing at all unless asked to, and what
      it names holds exactly the visible files. */
  lemma PreparedCaptures(root: Git.Root, cfg: Config, dryRun: bool, env: Env)
    requires Git.Valid(root)
    ensures var (saved, sha) := Prepared(root, cfg, dryRun, env);
      && Git.Valid(saved) && Git.Extends(saved, root) && saved.worktree == root.worktree
      && (dryRun || !cfg.gitTrack ==> saved == root && sha == None)
      && (sha.Some? ==>
            && sha.value < |saved.commits| && saved.hasGit && saved.head == sha
            && saved.commits[sha.value] == Git.Visible(saved, env.snapshotEnv.ignored))
  {
    if !dryRun && cfg.gitTrack {
      Git.EnsureKeeps(root, env.initOk, env.initEnv);
      var tracked := Git.Ensured(root, env.initOk, env.initEnv).0;
      Git.SnapshotCaptures(tracked, env.snapshotEnv);
      var saved := Git.Snapshot(tracked, env.snapshotEnv).0;
      assert saved.index == Git.Visible(tracked, env.snapshotEnv.ignored) ==>
          Git.Visible(saved, env.snapshotEnv.ignored) == saved.index;
    }
  }

  /** No process holds the files, as far as can be told. */
  predicate Unheld(env: Env) {
    if env.lsof.Ok? then Lsof.Holders(env.lsof.value, env.me) == [] else env.sessions == 0
  }

  /** The number of issues is that of any report on the root. */
  lemma IssuesAre(isDir: bool, entries: seq<Entry>, r: AuditReport)
    requires if isDir then IsReportFor(entries, r) else r == EMPTY
    ensures Issues(isDir, entries) == r.TotalIssues()
  {
    if isDir {
      ReportTotal(entries, r);
    }
  }

  /** What is recorded of a tick that launches no agent: the first reason not to, and nothing else. */
  lemma SkippedBecause(root: Git.Root, cfg: Config, dryRun: bool, env: Env, r: AuditReport)
    requires Git.Valid(root) && Over(env, cfg.maxTick)
    requires if root.isDir then IsReportFor(env.entries, r) else r == EMPTY
    ensures var o := Published(RunTick(root, cfg, dryRun, env).outcome);
      var ready := Unheld(env) && env.idleSec >= cfg.minIdleSec;
      && (env.lsof.Ok? && !Unheld(env) ==>
            o == TickOutcome(false, Some(FilesOpen(Lsof.Holders(env.lsof.value, env.me))), None, 0, None))
      && (env.lsof.Err? && !Unheld(env) ==> o == TickOutcome(false, Some(LiveSessions(env.sessions)), None, 0, None))
      && (Unheld(env) && env.idleSec < cfg.minIdleSec ==>
            o == TickOutcome(false, Some(TooRecent(env.idleSec, cfg.minIdleSec)), None, 0, None))
      && (ready && r.TotalIssues() == 0 ==> o == TickOutcome(false, Some(AuditClean), None, 0, None))
      && (ready && r.TotalIssues() > 0 && env.spawn.Err? ==>
            o == TickOutcome(false, Some(Failed(env.spawn.error)), None, 0, None))
  {
    IssuesAre(root.isDir, env.entries, r);
  }

  /** What is recorded of one that launches it: the status its process ended with and the issues of any report on
      the root, or that waiting failed. */
  lemma LaunchedOutcome(root: Git.Root, cfg: Config, dryRun: bool, env: Env, r: AuditReport)
    requires Git.Valid(root) && Over(env, cfg.maxTick)
    requires if root.isDir then IsReportFor(env.entries, r) else r == EMPTY
    requires RunTick(root, cfg, dryRun, env).launch.Some?
    ensures var o := Published(RunTick(root, cfg, dryRun, env).outcome);
      var end := AgentWait.Run(env.agent, cfg.maxTick).value.phase;
      && o.ran == end.Finished?
      && (o.ran ==> o.exitCode == end.status && o.auditTotalIssues == r.TotalIssues() && o.reasonSkipped == None)
      && (!o.ran ==> o == TickOutcome(false, o.reasonSkipped, None, 0, None) && o.reasonSkipped.Some?)
  {
    GuardShape(root, cfg, env);
    IssuesAre(root.isDir, env.entries, r);
  }

  /** Over all outcomes: a reason is given exactly for the ticks that did not run, and an exit code, a
      commit to go back to and a positive number of issues only for those that did. */
  lemma OutcomeShape(root: Git.Root, cfg: Config, dryRun: bool, env: Env)
    requires Git.Valid(root) && Over(env, cfg.maxTick)
    ensures var o := Published(RunTick(root, cfg, dryRun, env).outcome);
      && (o.reasonSkipped.Some? <==> !o.ran)
      && (o.exitCode.Some? ==> o.ran)
      && (o.auditTotalIssues > 0 <==> o.ran)
      && (o.preTickSha.Some? ==> o.ran && !dryRun && cfg.gitTrack)
      && (o.ran ==> RunTick(root, cfg, dryRun, env).launch.Some?)
  {
    GuardShape(root, cfg, env);
    if Guard(root, cfg, env).None? {
      PreparedCaptures(root, cfg, dryRun, env);
    }
  }

  /** A launched agent's tick is recorded as run if and only if waiting for it did not fail, and only then
      with the commit that was prepared. */
  lemma LaunchedRanIff(root: Git.Root, cfg: Config, dryRun: bool, env: Env)
    requires Git.Valid(root) && Over(env, cfg.maxTick)
    ensures var t := RunTick(root, cfg, dryRun, env); var o := Published(t.outcome);
      && (t.launch.Some? ==> (o.ran <==> !AgentWait.Run(env.agent, cfg.maxTick).value.phase.Broken?))
      && o.preTickSha == (if o.ran then Prepared(root, cfg, dryRun, env).1 else None)
  {
    GuardShape(root, cfg, env);
  }

  lemma BareFileIsAnIssue(e: Entry)
    requires IsMemoryFile(e) && Frontmatter.SplitFrontmatter(e.content.value).None?
    ensures Issues(true, [e]) > 0
  {
    var f := Frontmatter.Parsed(e.name, e.content.value);
    assert [e][1..] == [] && [f][1..] == [];
    assert FlatMap([e], FileOf) == [f] + [];
    assert FlatMap([f], MissingFrontmatter) == MissingFrontmatter(f) + FlatMap([f][1..], MissingFrontmatter);
  }

  lemma FailedWaitIsOver(maxTick: nat)
    ensures AgentWait.Run([AgentWait.WaitFails], maxTick) == Some(AgentWait.SPAWNED.(phase := AgentWait.Broken))
  {
    var es := [AgentWait.WaitFails];
    assert es[..0] == [];
    assert AgentWait.Run(es, maxTick) == AgentWait.Step(AgentWait.SPAWNED, AgentWait.WaitFails, maxTick);
  }

  /** For any root under git that changed since its last commit, if nothing stops the tick before the
      spawn and then waiting for the agent fails: the snapshot is made, the agent is launched, and the tick
      is recorded as one that did not run, with nothing to go back to. */
  lemma FailedWaitForgetsCommit(root: Git.Root, cfg: Config, env: Env)
    requires Git.Valid(root) && root.hasGit && cfg.gitTrack && Guard(root, cfg, env).None? && env.spawn.Ok?
    requires Git.Snapshot(root, env.snapshotEnv).1 == Ok(Some(|root.commits|))
    requires env.agent == [AgentWait.WaitFails]
    ensures Over(env, cfg.maxTick)
    ensures var t := RunTick(root, cfg, false, env);
      && t.launch.Some? && |t.after.commits| == |root.commits| + 1
      && Saves(t.after.commits[|root.commits|], root, env.snapshotEnv.ignored)
      && t.atSpawn.head == Some(|root.commits|)
      && !Published(t.outcome).ran && Published(t.outcome).preTickSha == None
  {
    FailedWaitIsOver(cfg.maxTick);
    Git.EnsureKeeps(root, env.initOk, env.initEnv);
    Git.SnapshotTakes(root, env.snapshotEnv);
  }

  /** Such a tick exists. */
  lemma CommitIsForgotten(cfg: Config)
    requires cfg.gitTrack
    ensures exists root, env :: Git.Valid(root) && Over(env, cfg.maxTick)
              && RunTick(root, cfg, false, env).launch.Some?
              && Prepared(root, cfg, false, env).1.Some?
              && !Published(RunTick(root, cfg, false, env).outcome).ran
              && Published(RunTick(root, cfg, false, env).outcome).preTickSha == None
  {
    var name: string, content: string := "a.md", "";
    var e := Entry(name, true, Some(content));
    var allOk := Git.Env({}, true, true, true, true, true, true);
    var root := Git.Root(true, true, map[name := content], Git.NO_FILES, [], None);
    var env := Env(0, Ok(content), 0, cfg.minIdleSec, [e], true, allOk, allOk, allOk, Ok(()),
                   [AgentWait.WaitFails], Git.NO_FILES);
    assert name[1..] == ".md" && name[0] != INDEX[0];
    BareFileIsAnIssue(e);
    assert Lsof.Holders(content, 0) == [];
    assert Guard(root, cfg, env).None?;
    assert name in Git.Visible(root, {});
    FailedWaitForgetsCommit(root, cfg, env);
    LaunchedRanIff(root, cfg, false, env);
  }

  /** A tick that ran answers for a process that was reaped, with the status it exited with. */
  lemma RanMeansReaped(root: Git.Root, cfg: Config, dryRun: bool, env: Env)
    requires Git.Valid(root) && Over(env, cfg.maxTick) && Published(RunTick(root, cfg, dryRun, env).outcome).ran
    ensures var end := AgentWait.Run(env.agent, cfg.maxTick);
      && end.Some? && end.value.life.Gone?
      && end.value.phase == AgentWait.Finished(Published(RunTick(root, cfg, dryRun, env).outcome).exitCode)
      && AgentWait.Respectful(end.value.trace, cfg.maxTick)
  {
    AgentWait.EscalationRespected(env.agent, cfg.maxTick);
  }

  /** The tools of a launch: a dry run may read, search and list, and any other run may also write and edit. */
  lemma ToolsAre()
    ensures LaunchFor(true).tools == ["Read", "Glob", "Grep", "Bash(find:*)", "Bash(ps:*)"]
    ensures LaunchFor(false).tools == ["Read", "Write", "Edit"] + LaunchFor(true).tools[1..]
  {
  }

  /** The powers of a launch: no editing tool and no bypass in a dry run. */
  lemma DryLaunchIsHarmless(dryRun: bool)
    ensures var l := LaunchFor(dryRun);
      (l.skipPermissions <==> !dryRun) && ("Write" in l.tools <==> !dryRun) && ("Edit" in l.tools <==> !dryRun)
  {
    assert EDITORS[1] == "Write" && EDITORS[2] == "Edit";
    assert forall k :: 0 <= k < 5 ==> READERS[k] != "Write" && READERS[k] != "Edit" by {
      assert READERS[0][0] == 'R' && READERS[1][0] == 'G' && READERS[2][0] == 'G';
      assert READERS[3][0] == 'B' && READERS[4][0] == 'B';
    }
  }

  /** A dry run leaves the store untouched and grants no editing tool and no bypass; any other run
      that launches the agent grants both. */
  lemma DryRunHarmless(root: Git.Root, cfg: Config, dryRun: bool, env: Env)
    requires Git.Valid(root) && Over(env, cfg.maxTick)
    ensures var t := RunTick(root, cfg, dryRun, env);
      && (dryRun ==> t.atSpawn == root && t.after == root.(worktree := t.after.worktree))
      && (t.launch.Some? ==> (t.launch.value.skipPermissions <==> !dryRun)
                             && ("Write" in t.launch.value.tools <==> !dryRun)
                             && ("Edit" in t.launch.value.tools <==> !dryRun))
  {
    DryLaunchIsHarmless(dryRun);
  }

  /** Up to the spawn a tick changes no file and forgets no commit; if it launches nothing this is
      all it ever does. */
  lemma OnlyTheAgentEdits(root: Git.Root, cfg: Config, dryRun: bool, env: Env)
    requires Git.Valid(root) && Over(env, cfg.maxTick)
    ensures var t := RunTick(root, cfg, dryRun, env);
      && Git.Valid(t.after) && Git.Extends(t.after, root) && Git.Extends(t.after, t.atSpawn)
      && t.atSpawn.worktree == root.worktree
      && (t.launch.None? ==> t.after == t.atSpawn)
      && (t.launch.Some? ==> t.after == t.atSpawn.(worktree := env.edited))
  {
    GuardShape(root, cfg, env);
    PreparedCaptures(root, cfg, dryRun, env);
  }

  /** What the tree of a recorded commit is to the root as the tick found it: only its files, each as it
      was, and all of them that were tracked or are not ignored; where there was a store already, no other. */
  predicate Saves(tree: Git.Tree, found: Git.Root, ignored: set<string>) {
    && (forall p :: p in tree ==> p in found.worktree && tree[p] == found.worktree[p])
    && (forall p :: p in found.worktree && (p in found.index || p !in ignored) ==> p in tree)
    && (found.hasGit ==> forall p :: p in tree ==> p in found.index || p !in ignored)
  }

  lemma PreparedSaves(root: Git.Root, cfg: Config, dryRun: bool, env: Env)
    requires Git.Valid(root)
    ensures var (saved, sha) := Prepared(root, cfg, dryRun, env);
      sha.Some? ==> sha.value < |saved.commits| && Saves(saved.commits[sha.value], root, env.snapshotEnv.ignored)
  {
    if !dryRun && cfg.gitTrack {
      Git.EnsureKeeps(root, env.initOk, env.initEnv);
      var tracked := Git.Ensured(root, env.initOk, env.initEnv).0;
      Git.SnapshotCaptures(tracked, env.snapshotEnv);
      if Git.Snapshot(tracked, env.snapshotEnv).1.Ok? {
        Git.SnapshotTakes(tracked, env.snapshotEnv);
      }
    }
  }

  /** The recorded commit, HEAD when the agent is launched, holds the files the tick found, each as it was
      then: all that were tracked or are not ignored, and under an earlier store exactly those, whether the
      snapshot made it or HEAD already had them. */
  lemma SnapshotFaithful(root: Git.Root, cfg: Config, dryRun: bool, env: Env)
    requires Git.Valid(root) && Over(env, cfg.maxTick)
    ensures var t := RunTick(root, cfg, dryRun, env);
      var sha := Published(t.outcome).preTickSha;
      sha.Some? ==>
        && sha.value < |t.atSpawn.commits| && t.atSpawn.hasGit && t.atSpawn.head == sha
        && var tree := t.atSpawn.commits[sha.value];
        && (forall p :: p in tree ==> p in root.worktree && tree[p] == root.worktree[p])
        && (forall p :: p in root.worktree && (p in root.index || p !in env.snapshotEnv.ignored) ==> p in tree)
        && (root.hasGit ==> forall p :: p in tree ==> p in root.index || p !in env.snapshotEnv.ignored)
  {
    GuardShape(root, cfg, env);
    PreparedCaptures(root, cfg, dryRun, env);
    PreparedSaves(root, cfg, dryRun, env);
  }

  /** And there is one to record whenever git works and there is something to save: for a tick that ran, was
      no dry run and tracks, with every command succeeding and a file that is not ignored. */
  lemma CommitIsRecorded(root: Git.Root, cfg: Config, env: Env, path: string)
    requires Git.Valid(root) && Over(env, cfg.maxTick) && cfg.gitTrack
    requires Published(RunTick(root, cfg, false, env).outcome).ran
    requires path in root.worktree && path !in env.snapshotEnv.ignored && (root.hasGit || env.initOk)
    requires var e := env.snapshotEnv; e.addOk && e.diffRuns && e.diffOk && e.commitOk && e.headRuns && e.headOk
    requires env.headEnv.headRuns && env.headEnv.headOk
    ensures Published(RunTick(root, cfg, false, env).outcome).preTickSha.Some?
  {
    GuardShape(root, cfg, env);
    LaunchedRanIff(root, cfg, false, env);
    Git.EnsureKeeps(root, env.initOk, env.initEnv);
    var tracked := Git.Ensured(root, env.initOk, env.initEnv).0;
    Git.SnapshotGives(tracked, env.snapshotEnv);
    Git.SnapshotTakes(tracked, env.snapshotEnv);
    assert path in Git.HeadTree(Git.Snapshot(tracked, env.snapshotEnv).0);
  }

  /** The agent is launched exactly when no process holds the files, they have rested, the audit
      finds them unclean, and the spawn succeeds. */
  lemma LaunchedIff(root: Git.Root, cfg: Config, dryRun: bool, env: Env)
    requires Git.Valid(root) && Over(env, cfg.maxTick) && OneEntryPerName(env.entries)
    ensures RunTick(root, cfg, dryRun, env).launch.Some? <==>
      && Unheld(env) && env.idleSec >= cfg.minIdleSec && root.isDir && !Clean(env.entries)
      && env.spawn.Ok?
  {
    PlainReportIs(env.entries);
    CleanIff(env.entries, PlainReport(env.entries));
  }

  lemma PlainReportIs(entries: seq<Entry>)
    ensures IsReportFor(entries, PlainReport(entries))
  {
  }

  /** Everything above that outlives the tick, as a contract on what one tick may do to a root. */
  predicate Kept(root: Git.Root, cfg: Config, dryRun: bool, ignored: set<string>, t: TickRun) {
    var o := Published(t.outcome);
    && (o.reasonSkipped.Some? <==> !o.ran)
    && (o.exitCode.Some? ==> o.ran)
    && (o.ran ==> t.launch.Some?)
    && (o.preTickSha.Some? ==>
          && o.ran && !dryRun && cfg.gitTrack
          && o.preTickSha.value < |t.atSpawn.commits|
          && Saves(t.atSpawn.commits[o.preTickSha.value], root, ignored))
    && t.atSpawn.worktree == root.worktree
    && Git.Valid(t.after) && Git.Extends(t.after, root) && Git.Extends(t.after, t.atSpawn)
    && (dryRun ==> t.atSpawn == root && t.after.commits == root.commits)
    && (t.launch.Some? ==> t.launch.value == LaunchFor(dryRun))
  }

  lemma TickKeeps(root: Git.Root, cfg: Config, dryRun: bool, env: Env)
    requires Git.Valid(root) && Over(env, cfg.maxTick)
    ensures Kept(root, cfg, dryRun, env.snapshotEnv.ignored, RunTick(root, cfg, dryRun, env))
  {
    OutcomeShape(root, cfg, dryRun, env);
    SnapshotFaithful(root, cfg, dryRun, env);
    OnlyTheAgentEdits(root, cfg, dryRun, env);
    DryRunHarmless(root, cfg, dryRun, env);
  }
}
