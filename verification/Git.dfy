/** A memory root under git and the operations that make a tick reversible (src/history.rs). */
module Git {
  import opened Wrappers

  /** The files below a memory root, the store itself excluded, by path. */
  type Tree = map<string, string>

  /** A memory root on disk. A commit is named by its place in the store, which only ever grows. */
  datatype Root = Root(
    isDir: bool, hasGit: bool, worktree: Tree, index: Tree, commits: seq<Tree>, head: Option<nat>)

  const NO_FILES: Tree := map[]

  predicate Valid(r: Root) {
    && (r.head.Some? ==> r.head.value < |r.commits|)
    && (!r.hasGit ==> r.head.None? && r.commits == [] && r.index == NO_FILES)
    && (r.hasGit ==> r.isDir)
  }

  /** How each git command of one snapshot goes, and which paths the ignore rules cover. */
  datatype Env = Env(ignored: set<string>, addOk: bool, diffRuns: bool, diffOk: bool, commitOk: bool,
                     headRuns: bool, headOk: bool)

  /** The commit HEAD names, or no files while HEAD is unborn. */
  function HeadTree(r: Root): Tree
    requires Valid(r)
  {
    if r.head.Some? then r.commits[r.head.value] else NO_FILES
  }

  /** The files a snapshot can see: all that are tracked or not ignored. */
  function Visible(r: Root, ignored: set<string>): Tree {
    map p | p in r.worktree && (p in r.index || p !in ignored) :: r.worktree[p]
  }

  function Untracked(r: Root): Tree {
    map p | p in r.worktree && p !in r.index :: r.worktree[p]
  }

  // ----- The commands -----

  /** git add -A */
  function Staged(r: Root, ignored: set<string>): Root {
    r.(index := Visible(r, ignored))
  }

  /** git commit */
  function Committed(r: Root): Root {
    r.(commits := r.commits + [r.index], head := Some(|r.commits|))
  }

  /** git reset --hard: tracked files become those of the commit, untracked ones stay unless the
      commit has a file of that name. */
  function Reset(r: Root, sha: nat): Root
    requires sha < |r.commits|
  {
    r.(worktree := Untracked(r) + r.commits[sha], index := r.commits[sha], head := Some(sha))
  }

  // ----- The operations on values -----

  function HeadSha(r: Root, env: Env): Result<Option<nat>, string> {
    if !env.headRuns then Err("git rev-parse HEAD")
    else if !env.headOk then Ok(None)
    else Ok(r.head)
  }

  function Snapshot(r: Root, env: Env): (Root, Result<Option<nat>, string>)
    requires Valid(r)
  {
    if !r.hasGit || !env.addOk then (r, Err("git add failed"))
    else
      var staged := Staged(r, env.ignored);
      if !env.diffRuns then (staged, Err("git diff --cached"))
      else if env.diffOk && staged.index == HeadTree(r) then (staged, Ok(None))
      else if !env.commitOk || staged.index == HeadTree(r) then (staged, Err("git commit failed"))
      else (Committed(staged), HeadSha(Committed(staged), env))
  }

  function Ensured(r: Root, initOk: bool, env: Env): (Root, Result<(), string>)
    requires Valid(r)
  {
    if r.hasGit || !r.isDir then (r, Ok(()))
    else if !initOk then (r, Err("git init failed"))
    else (Snapshot(r.(hasGit := true), env).0, Ok(()))
  }

  function Restored(r: Root, sha: nat, resetOk: bool): (Root, Result<(), string>) {
    if !r.hasGit || !resetOk || sha >= |r.commits| then (r, Err("git reset --hard failed"))
    else (Reset(r, sha), Ok(()))
  }

  /** A memory root as the commands change it. */
  class Repository {
    var isDir: bool
    var hasGit: bool
    var worktree: Tree
    var index: Tree
    var commits: seq<Tree>
    var head: Option<nat>

    function View(): Root
      reads this
    {
      Root(isDir, hasGit, worktree, index, commits, head)
    }

    constructor (r: Root)
      ensures View() == r
    {
      isDir, hasGit, worktree, index, commits, head :=
        r.isDir, r.hasGit, r.worktree, r.index, r.commits, r.head;
    }

    method ReadHead(env: Env) returns (sha: Result<Option<nat>, string>)
      ensures sha == HeadSha(View(), env)
      ensures sha.Ok? <==> env.headRuns
      ensures sha.Ok? ==> sha.value == if env.headOk then head else None
    {
      if !env.headRuns {
        return Err("git rev-parse HEAD");
      }
      if !env.headOk {
        return Ok(None);
      }
      return Ok(head);
    }

    method CommitSnapshot(env: Env) returns (sha: Result<Option<nat>, string>)
      requires Valid(View())
      modifies this
      ensures (View(), sha) == Snapshot(old(View()), env)
      ensures worktree == old(worktree) && old(commits) <= commits
      ensures sha.Ok? ==> forall p :: p in index <==> p in worktree && (p in old(index) || p !in env.ignored)
      ensures sha.Ok? ==> forall p :: p in index ==> index[p] == worktree[p]
      ensures sha.Ok? && sha.value.Some? ==> sha.value == head
      ensures sha.Ok? ==> if head.Some? then head.value < |commits| && commits[head.value] == index else index == map[]
    {
      if !hasGit || !env.addOk {
        return Err("git add failed");
      }
      index := map p | p in worktree && (p in index || p !in env.ignored) :: worktree[p];
      if !env.diffRuns {
        return Err("git diff --cached");
      }
      var clean := index == HeadTree(View());
      if env.diffOk && clean {
        return Ok(None);
      }
      if !env.commitOk || clean {
        return Err("git commit failed");
      }
      head := Some(|commits|);
      commits := commits + [index];
      sha := ReadHead(env);
    }

    method EnsureGitRepo(initOk: bool, env: Env) returns (done: Result<(), string>)
      requires Valid(View())
      modifies this
      ensures (View(), done) == Ensured(old(View()), initOk, env)
    {
      if hasGit {
        return Ok(());
      }
      if !isDir {
        return Ok(());
      }
      if !initOk {
        return Err("git init failed");
      }
      hasGit := true;
      var _ := CommitSnapshot(env);
      return Ok(());
    }

    method Restore(sha: nat, resetOk: bool) returns (done: Result<(), string>)
      modifies this
      ensures (View(), done) == Restored(old(View()), sha, resetOk)
    {
      if !hasGit || !resetOk || sha >= |commits| {
        return Err("git reset --hard failed");
      }
      var untracked := map p | p in worktree && p !in index :: worktree[p];
      worktree := untracked + commits[sha];
      index := commits[sha];
      head := Some(sha);
      return Ok(());
    }
  }

  // ----- What the operations promise -----

  /** The store of r' continues that of r: what r could name, r' still names with the same files. */
  predicate Extends(r': Root, r: Root) {
    r.commits <= r'.commits && (r.hasGit ==> r'.hasGit)
  }

  /** A snapshot leaves the files alone, only adds to the store, and what it names has exactly the
      visible files, whether it made a commit or found HEAD already equal. */
  lemma SnapshotCaptures(r: Root, env: Env)
    requires Valid(r)
    ensures var (r', sha) := Snapshot(r, env);
      && Valid(r') && Extends(r', r) && r'.worktree == r.worktree && r'.isDir == r.isDir
      && r'.hasGit == r.hasGit
      && (sha.Ok? ==> HeadTree(r') == r'.index == Visible(r, env.ignored))
      && (if r.hasGit && env.addOk then r'.index == Visible(r, env.ignored) else r' == r)
      && (sha.Ok? && sha.value.Some? ==> sha.value == r'.head)
  {
  }

  /** In terms of the files: after a successful snapshot HEAD has exactly the present files that were tracked
      or are not ignored, each as it is on disk, changed ones included and removed ones left out. */
  lemma SnapshotTakes(r: Root, env: Env)
    requires Valid(r) && Snapshot(r, env).1.Ok?
    ensures var r' := Snapshot(r, env).0;
      && (forall p :: p in HeadTree(r') <==> p in r.worktree && (p in r.index || p !in env.ignored))
      && (forall p :: p in HeadTree(r') ==> HeadTree(r')[p] == r.worktree[p])
      && r'.index == HeadTree(r') && r'.worktree == r.worktree
      && (HeadTree(r) == HeadTree(r') ==> r'.commits == r.commits && r'.head == r.head)
      && (HeadTree(r) != HeadTree(r') ==>
            r'.commits == r.commits + [HeadTree(r')] && r'.head == Some(|r.commits|))
  {
  }

  /** What would change HEAD: a new file, a changed one, or one that is gone. */
  predicate Changed(r: Root, env: Env)
    requires Valid(r)
  {
    || (exists p :: p in r.worktree && (p in r.index || p !in env.ignored)
                    && (p !in HeadTree(r) || HeadTree(r)[p] != r.worktree[p]))
    || (exists p :: p in HeadTree(r) && !(p in r.worktree && (p in r.index || p !in env.ignored)))
  }

  /** When a snapshot succeeds and with what: with the new commit if something changed and every command
      works, and with none if nothing changed. */
  lemma SnapshotGives(r: Root, env: Env)
    requires Valid(r)
    ensures Changed(r, env) ==>
      (Snapshot(r, env).1.Ok? <==> r.hasGit && env.addOk && env.diffRuns && env.commitOk && env.headRuns)
    ensures !Changed(r, env) ==>
      (Snapshot(r, env).1.Ok? <==> r.hasGit && env.addOk && env.diffRuns && env.diffOk)
    ensures Snapshot(r, env).1.Ok? ==>
      Snapshot(r, env).1.value == if Changed(r, env) && env.headOk then Some(|r.commits|) else None
  {
    var now := Visible(r, env.ignored);
    if Changed(r, env) {
      assert now != HeadTree(r);
    } else {
      assert now == HeadTree(r);
    }
  }

  /** Making sure of a store: a directory without one gets one, and if the commands work its files, those
      not ignored, are committed at once. */
  lemma EnsureCommits(r: Root, initOk: bool, env: Env)
    requires Valid(r) && r.isDir && !r.hasGit && initOk
    ensures var (r', done) := Ensured(r, initOk, env);
      && done.Ok? && r'.hasGit
      && (env.addOk && env.diffRuns && env.commitOk && (exists p :: p in r.worktree && p !in env.ignored) ==>
            && |r'.commits| == 1 && r'.head == Some(0)
            && (forall p :: p in r'.commits[0] <==> p in r.worktree && p !in env.ignored)
            && (forall p :: p in r'.commits[0] ==> r'.commits[0][p] == r.worktree[p]))
  {
    var made := r.(hasGit := true);
    if p :| p in r.worktree && p !in env.ignored {
      assert p in Visible(made, env.ignored);
      assert Visible(made, env.ignored) != NO_FILES;
    }
  }

  /** A commit is made exactly when the visible files differ from HEAD and every command succeeds. */
  lemma SnapshotCommitsIff(r: Root, env: Env)
    requires Valid(r)
    ensures var (r', sha) := Snapshot(r, env);
      && (|r'.commits| > |r.commits| <==>
            r.hasGit && env.addOk && env.diffRuns && env.commitOk && Visible(r, env.ignored) != HeadTree(r))
      && (r'.commits == r.commits || r'.commits == r.commits + [Visible(r, env.ignored)])
  {
    assert |r.commits + [Visible(r, env.ignored)]| == |r.commits| + 1;
  }

  lemma EnsureKeeps(r: Root, initOk: bool, env: Env)
    requires Valid(r)
    ensures var (r', done) := Ensured(r, initOk, env);
      && Valid(r') && Extends(r', r) && r'.worktree == r.worktree && r'.isDir == r.isDir
      && (done.Ok? && r.isDir ==> r'.hasGit)
      && (done.Ok? <==> r.hasGit || !r.isDir || initOk)
      && (r.hasGit || !r.isDir || !initOk ==> r' == r)
  {
    if !r.hasGit && r.isDir {
      SnapshotCaptures(r.(hasGit := true), env);
    }
  }

  /** A restore gives back the commit's files, and beside them only files no snapshot or user had
      put under git at that moment. */
  lemma RestoreUndoes(r: Root, sha: nat)
    requires Valid(r) && r.hasGit && sha < |r.commits|
    ensures var (r', done) := Restored(r, sha, true);
      && done.Ok? && Valid(r') && Extends(r', r)
      && r'.commits == r.commits && r'.head == Some(sha) && r'.index == r.commits[sha]
      && (forall p :: p in r.commits[sha] ==> p in r'.worktree && r'.worktree[p] == r.commits[sha][p])
      && (forall p :: p in r'.worktree && p !in r.commits[sha] ==>
            p in r.worktree && p !in r.index && r'.worktree[p] == r.worktree[p])
      && (forall p :: p in r.worktree && p !in r.index ==> p in r'.worktree)
  {
  }

  /** A restore is done if there is a store with that commit and the command works, and else changes nothing. */
  lemma RestoreDone(r: Root, sha: nat, resetOk: bool)
    ensures Restored(r, sha, resetOk).1.Ok? <==> r.hasGit && resetOk && sha < |r.commits|
    ensures Restored(r, sha, resetOk).1.Err? ==> Restored(r, sha, resetOk).0 == r
  {
  }

  /** Exactly the commit's files come back if and only if no other file was untracked. */
  lemma RestoreExact(r: Root, sha: nat)
    requires Valid(r) && r.hasGit && sha < |r.commits|
    ensures Restored(r, sha, true).0.worktree == r.commits[sha] <==>
            forall p :: p in r.worktree && p !in r.index ==> p in r.commits[sha]
  {
    var w := Restored(r, sha, true).0.worktree;
    if forall p :: p in r.worktree && p !in r.index ==> p in r.commits[sha] {
      assert w == r.commits[sha];
    } else {
      var p :| p in r.worktree && p !in r.index && p !in r.commits[sha];
      assert p in w;
    }
  }

  /** With a snapshot saved first, whatever was edited before, a restore gives back exactly the commit's
      files if and only if it holds every present file that is ignored and was never tracked. */
  lemma SnapshotThenRestore(r: Root, env: Env, sha: nat)
    requires Valid(r) && Snapshot(r, env).1.Ok? && sha < |r.commits|
    ensures sha < |Snapshot(r, env).0.commits|
    ensures Restored(Snapshot(r, env).0, sha, true).1.Ok?
    ensures Restored(Snapshot(r, env).0, sha, true).0.worktree == r.commits[sha] <==>
            forall p :: p in r.worktree && p !in r.index && p in env.ignored ==> p in r.commits[sha]
  {
    SnapshotCaptures(r, env);
    var r' := Snapshot(r, env).0;
    assert forall p :: p in r.worktree ==> (p !in r'.index <==> p !in r.index && p in env.ignored);
    RestoreExact(r', sha);
  }

  /** It can fail to be: an ignored file that was never tracked, made after the commit, stays beside the
      files the snapshot and the restore give back. */
  lemma IgnoredFileStays(r: Root, env: Env, sha: nat, path: string)
    requires Valid(r) && Snapshot(r, env).1.Ok? && sha < |r.commits|
    requires path in r.worktree && path !in r.index && path in env.ignored && path !in r.commits[sha]
    ensures var back := Restored(Snapshot(r, env).0, sha, true).0;
      && back.worktree != r.commits[sha]
      && path in back.worktree && back.worktree[path] == r.worktree[path]
  {
    SnapshotThenRestore(r, env, sha);
    SnapshotCaptures(r, env);
  }

  /** Such a root, its one commit empty and its one file ignored. */
  lemma RestoreMayBeInexact(path: string, content: string)
    ensures exists r, env, sha: nat :: Valid(r) && Snapshot(r, env).1.Ok? && sha < |r.commits|
              && Restored(Snapshot(r, env).0, sha, true).0.worktree != r.commits[sha]
  {
    var r := Root(true, true, map[path := content], NO_FILES, [NO_FILES], Some(0));
    var env := Env({path}, true, true, true, true, true, true);
    assert Visible(r, env.ignored) == NO_FILES;
    assert Snapshot(r, env).1 == Ok(None);
    IgnoredFileStays(r, env, 0, path);
  }
}
