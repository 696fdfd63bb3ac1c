/** A daemon that is stopped at any step and started again on the roots and the history file left behind,
    any number of times (run_daemon in src/main.rs). */
module Lives {
  import opened Wrappers
  import opened Outcomes
  import opened Daemon
  import opened DaemonProperties
  import opened DaemonRecords
  import opened DaemonHistory
  import Git
  import Tick
  import History
  import SelfDelimiting
  import Text

  /** One life: when and with what flag it starts, the roots it finds, and its events up to the stop. */
  datatype Life = Life(startedAt: nat, flag: bool, disk: map<string, Git.Root>, events: seq<Event>)

  function Begin(l: Life, file: History.File): State {
    Init(l.startedAt, l.flag, file, l.disk)
  }

  function End(u: Setup, l: Life, file: History.File): State {
    var s := Run(u, Begin(l, file), l.events);
    if s.Some? then s.value else Begin(l, file)
  }

  /** The history file the lives leave behind, one after the other. */
  function FileAfter(u: Setup, file: History.File, lives: seq<Life>): History.File {
    if lives == [] then file
    else End(u, lives[|lives| - 1], FileAfter(u, file, lives[..|lives| - 1])).file
  }

  /** The roots as the last life leaves them. */
  function DiskAfter(u: Setup, file: History.File, disk: map<string, Git.Root>, lives: seq<Life>)
    : map<string, Git.Root>
  {
    if lives == [] then disk
    else End(u, lives[|lives| - 1], FileAfter(u, file, lives[..|lives| - 1])).disk
  }

  /** The attempts of all lives, oldest first. */
  function AllAttempts(u: Setup, file: History.File, lives: seq<Life>): seq<Attempt> {
    if lives == [] then []
    else
      var before := lives[..|lives| - 1];
      AllAttempts(u, file, before) + Attempts(End(u, lives[|lives| - 1], FileAfter(u, file, before)))
  }

  /** The same roots and more, each store only added to. */
  ghost predicate Grown(disk': map<string, Git.Root>, disk: map<string, Git.Root>) {
    forall root :: root in disk ==> root in disk' && Git.Extends(disk'[root], disk[root])
  }

  /** Every life is a genuine run, begun on the history file the one before it left and on its roots,
      edited or committed to in between but never stripped of their stores. */
  ghost predicate Chain(u: Setup, file: History.File, disk: map<string, Git.Root>, lives: seq<Life>) {
    lives == [] ||
    (var before, l := lives[..|lives| - 1], lives[|lives| - 1];
     var found := FileAfter(u, file, before);
     && Chain(u, file, disk, before)
     && Started(u, Begin(l, found)) && Run(u, Begin(l, found), l.events).Some? && Genuine(u, l.events)
     && Grown(l.disk, DiskAfter(u, file, disk, before)))
  }

  // ----- Stops -----

  /** A stop in the middle of a tick, after its snapshot and whatever its agent has edited by then, leaves
      the root as an outside change could have: it is an event like any other. */
  lemma StopInTick(u: Setup, s: State, root: string, env: Tick.Env, dryRun: bool, edited: Git.Tree)
    requires !s.phase.Down? && root in s.disk && Git.Valid(s.disk[root])
    ensures var saved := Tick.Prepared(s.disk[root], u.cfg, dryRun, env).0;
      Step(u, s, Outside(root, saved.(worktree := edited))).Some?
  {
    Tick.PreparedCaptures(s.disk[root], u.cfg, dryRun, env);
  }

  // ----- Undo across lives -----

  lemma GrownTrans(a: map<string, Git.Root>, b: map<string, Git.Root>, c: map<string, Git.Root>)
    requires Grown(a, b) && Grown(b, c)
    ensures Grown(a, c)
  {
  }

  lemma StepGrows(u: Setup, s: State, e: Event)
    requires Step(u, s, e).Some? && (e.Tend? ==> Fits(u, e.attempt))
    ensures Grown(Step(u, s, e).value.disk, s.disk)
  {
    StepDisk(u, s, e);
    if e.Tend? {
      FittingIsUndoable(u, s, e.attempt);
    }
  }

  lemma {:induction false} RunGrows(u: Setup, s0: State, es: seq<Event>)
    requires Genuine(u, es) && Run(u, s0, es).Some?
    ensures Grown(Run(u, s0, es).value.disk, s0.disk)
  {
    if es != [] {
      var before, e := es[..|es| - 1], es[|es| - 1];
      var s := Run(u, s0, before).value;
      assert Genuine(u, before) && es[|es| - 1] == e;
      RunGrows(u, s0, before);
      StepGrows(u, s, e);
      GrownTrans(Run(u, s0, es).value.disk, s.disk, s0.disk);
    }
  }

  lemma StaysUndoable(disk: map<string, Git.Root>, disk': map<string, Git.Root>, all: seq<Attempt>)
    requires AllUndoable(disk, all) && Grown(disk', disk) && AllValid(disk')
    ensures AllUndoable(disk', all)
  {
    forall i | 0 <= i < |all|
      ensures Undoable(disk', all[i])
    {
      var root := all[i].row.memoryRoot;
      assert Undoable(disk, all[i]);
      GrowthKeepsUndoable(disk, root, disk'[root], all[i]);
    }
  }

  lemma {:induction false} LivesUndoable(u: Setup, file: History.File, disk: map<string, Git.Root>, lives: seq<Life>)
    requires Chain(u, file, disk, lives)
    ensures AllUndoable(DiskAfter(u, file, disk, lives), AllAttempts(u, file, lives))
  {
    if lives != [] {
      var before, l := lives[..|lives| - 1], lives[|lives| - 1];
      var s0 := Begin(l, FileAfter(u, file, before));
      var now, past := DiskAfter(u, file, disk, lives), DiskAfter(u, file, disk, before);
      LivesUndoable(u, file, disk, before);
      UndoInvariant(u, s0, l.events);
      RunGrows(u, s0, l.events);
      GrownTrans(now, l.disk, past);
      StaysUndoable(past, now, AllAttempts(u, file, before));
    }
  }

  // ----- The history across lives -----

  lemma {:induction false} AfterAllAppend(c: History.Codec, f: History.File, ws: seq<History.Write>,
                                          vs: seq<History.Write>)
    ensures History.AfterAll(c, f, ws + vs) == History.AfterAll(c, History.AfterAll(c, f, ws), vs)
  {
    if vs == [] {
      assert ws + vs == ws;
    } else {
      var n := |vs| - 1;
      AfterAllAppend(c, f, ws, vs[..n]);
      assert (ws + vs)[..|ws + vs| - 1] == ws + vs[..n];
    }
  }

  lemma {:induction false} WritesAppend(a: seq<Attempt>, b: seq<Attempt>)
    ensures Writes(a + b) == Writes(a) + Writes(b)
  {
    if b == [] {
      assert a + b == a;
    } else {
      var n := |b| - 1;
      WritesAppend(a, b[..n]);
      assert (a + b)[..|a + b| - 1] == a + b[..n];
    }
  }

  /** What the lives leave is what all their appends make of the file first found. */
  lemma {:induction false} LivesFileIs(u: Setup, file: History.File, disk: map<string, Git.Root>, lives: seq<Life>)
    requires Chain(u, file, disk, lives)
    ensures FileAfter(u, file, lives) == History.AfterAll(u.codec, file, Writes(AllAttempts(u, file, lives)))
  {
    if lives != [] {
      var before, l := lives[..|lives| - 1], lives[|lives| - 1];
      var found := FileAfter(u, file, before);
      var all, own := AllAttempts(u, file, before), Attempts(End(u, l, found));
      LivesFileIs(u, file, disk, before);
      FileInvariant(u, Begin(l, found), l.events);
      WritesAppend(all, own);
      AfterAllAppend(u.codec, file, Writes(all), Writes(own));
    }
  }

  lemma {:induction false} RowsOfAttempts(all: seq<Attempt>, r: TickRecord) returns (k: nat)
    requires SelfDelimiting.RowOf(Writes(all), r)
    ensures k < |all| && all[k].row == r
  {
    var n := |all| - 1;
    if all[n].row == r {
      k := n;
    } else {
      var i :| 0 <= i < |all| && Writes(all)[i].row == r;
      assert Writes(all[..n])[i].row == r;
      k := RowsOfAttempts(all[..n], r);
    }
  }

  /** Every record the history lists that the first life did not find there, written by whichever life and
      whenever that was stopped, can be undone: restoring its commit brings back the files its tick found, as
      they were, and beside them only what is untracked at the moment of the restore. */
  lemma ListedIsUndoable(u: Setup, file: History.File, disk: map<string, Git.Root>, lives: seq<Life>,
                         r: TickRecord, sha: nat)
    returns (a: Attempt)
    requires Chain(u, file, disk, lives) && History.Valid(u.codec) && SelfDelimiting.Delimits(u.codec)
    requires Text.Terminated(History.BodyOf(file))
    requires r in History.Records(u.codec, FileAfter(u, file, lives)) && r !in History.Records(u.codec, file)
    requires r.outcome.preTickSha == Some(sha)
    ensures a in AllAttempts(u, file, lives) && a.row == r
    ensures r.memoryRoot in DiskAfter(u, file, disk, lives)
    ensures GivesBack(DiskAfter(u, file, disk, lives)[r.memoryRoot], sha, a)
  {
    var all := AllAttempts(u, file, lives);
    LivesFileIs(u, file, disk, lives);
    LivesUndoable(u, file, disk, lives);
    SelfDelimiting.ListedIsRow(u.codec, file, Writes(all), r);
    var k := RowsOfAttempts(all, r);
    a := all[k];
    UndoableGivesBack(DiskAfter(u, file, disk, lives), a, sha);
  }
}
