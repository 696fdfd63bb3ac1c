/** In every run the history file is what the appends made of it, and its listing is right exactly when
    none of them did harm. */
module DaemonHistory {
  import opened Wrappers
  import opened Outcomes
  import opened Daemon
  import opened DaemonProperties
  import opened DaemonRecords
  import Git
  import Tick
  import Metrics
  import History
  import Text

  /** The appends of the attempts, failed ones included. */
  function Writes(attempts: seq<Attempt>): (ws: seq<History.Write>)
    ensures |ws| == |attempts|
  {
    if attempts == [] then [] else Writes(attempts[..|attempts| - 1]) + [WriteOf(attempts[|attempts| - 1])]
  }

  predicate WrittenIsLanded(c: History.Codec, attempts: seq<Attempt>) {
    forall i :: 0 <= i < |attempts| ==> attempts[i].written == History.Landed(c, WriteOf(attempts[i]))
  }

  lemma {:induction false} RowsLanded(c: History.Codec, attempts: seq<Attempt>)
    requires WrittenIsLanded(c, attempts)
    ensures History.LandedRows(c, Writes(attempts)) == Rows(attempts)
  {
    if attempts != [] {
      var before := attempts[..|attempts| - 1];
      RowsLanded(c, before);
      assert Writes(attempts)[..|attempts| - 1] == Writes(before);
    }
  }

  lemma WritesGrow(attempts: seq<Attempt>, a: Attempt)
    ensures Writes(attempts + [a]) == Writes(attempts) + [WriteOf(a)]
  {
    assert (attempts + [a])[..|attempts|] == attempts;
  }

  lemma AfterOneMore(c: History.Codec, f: History.File, ws: seq<History.Write>, w: History.Write)
    ensures History.AfterAll(c, f, ws + [w]) == History.AfterOne(c, History.AfterAll(c, f, ws), w)
  {
    assert (ws + [w])[..|ws|] == ws;
  }

  lemma {:induction false} WrittenInvariant(u: Setup, s0: State, es: seq<Event>)
    requires Started(u, s0) && Run(u, s0, es).Some?
    ensures WrittenIsLanded(u.codec, Attempts(Run(u, s0, es).value))
  {
    if es != [] {
      var before, e := es[..|es| - 1], es[|es| - 1];
      var s := Run(u, s0, before).value;
      WrittenInvariant(u, s0, before);
      StepCounts(u, s, e);
      StepAttempts(u, s, e);
    } else {
      assert Attempts(s0) == [];
    }
  }

  lemma {:induction false} FileInvariant(u: Setup, s0: State, es: seq<Event>)
    requires Started(u, s0) && Run(u, s0, es).Some?
    ensures Run(u, s0, es).value.file ==
            History.AfterAll(u.codec, s0.file, Writes(Attempts(Run(u, s0, es).value)))
  {
    if es != [] {
      var before, e := es[..|es| - 1], es[|es| - 1];
      var s := Run(u, s0, before).value;
      FileInvariant(u, s0, before);
      StepCounts(u, s, e);
      StepAttempts(u, s, e);
      if e.Tend? {
        WritesGrow(Attempts(s), e.attempt);
        AfterOneMore(u.codec, s0.file, Writes(Attempts(s)), WriteOf(e.attempt));
      }
    } else {
      assert Attempts(s0) == [];
    }
  }

  /** In every run the history file is what the appends so far made of the one found, torn lines included,
      and the rows that landed are those reported as written. */
  lemma HistoryFileIs(u: Setup, s0: State, es: seq<Event>)
    requires Started(u, s0) && Run(u, s0, es).Some?
    ensures var s := Run(u, s0, es).value;
      && s.file == History.AfterAll(u.codec, s0.file, Writes(Attempts(s)))
      && History.LandedRows(u.codec, Writes(Attempts(s))) == Rows(Attempts(s))
  {
    FileInvariant(u, s0, es);
    WrittenInvariant(u, s0, es);
    RowsLanded(u.codec, Attempts(Run(u, s0, es).value));
  }

  /** The listing is the records found at the start and exactly the rows reported as written so far. */
  predicate ListedNow(u: Setup, s0: State, s: State) {
    History.Records(u.codec, s.file) == History.Records(u.codec, s0.file) + Rows(Attempts(s))
  }

  /** It is so at every moment of the run. */
  predicate ListedAlong(u: Setup, s0: State, es: seq<Event>)
    requires Run(u, s0, es).Some?
  {
    && ListedNow(u, s0, Run(u, s0, es).value)
    && (es != [] ==> Run(u, s0, es[..|es| - 1]).Some? && ListedAlong(u, s0, es[..|es| - 1]))
  }

  lemma ListedNowIff(u: Setup, s0: State, es: seq<Event>)
    requires Started(u, s0) && Run(u, s0, es).Some?
    ensures ListedNow(u, s0, Run(u, s0, es).value) <==>
            History.ListsAll(u.codec, s0.file, Writes(Attempts(Run(u, s0, es).value)))
  {
    HistoryFileIs(u, s0, es);
  }

  lemma ThroughoutStep(c: History.Codec, f: History.File, ws: seq<History.Write>, more: seq<History.Write>)
    requires more == ws || exists w :: more == ws + [w]
    ensures History.ListedThroughout(c, f, more) <==>
            History.ListsAll(c, f, more) && History.ListedThroughout(c, f, ws)
  {
    if more != ws {
      var w :| more == ws + [w];
      assert more[..|more| - 1] == ws;
    }
  }

  lemma {:induction false} AlongIsThroughout(u: Setup, s0: State, es: seq<Event>)
    requires Started(u, s0) && Run(u, s0, es).Some?
    ensures ListedAlong(u, s0, es) <==>
            History.ListedThroughout(u.codec, s0.file, Writes(Attempts(Run(u, s0, es).value)))
  {
    ListedNowIff(u, s0, es);
    if es == [] {
      assert Attempts(s0) == [] && Writes([]) == [];
    } else {
      var before, e := es[..|es| - 1], es[|es| - 1];
      var s, s' := Run(u, s0, before).value, Run(u, s0, es).value;
      AlongIsThroughout(u, s0, before);
      StepAttempts(u, s, e);
      if e.Tend? {
        WritesGrow(Attempts(s), e.attempt);
      }
      ThroughoutStep(u.codec, s0.file, Writes(Attempts(s)), Writes(Attempts(s')));
    }
  }

  /** At every moment of a run the file lists the records found and exactly the rows reported as written
      so far, if and only if none of the run's appends did harm, whatever file was found. */
  lemma HistoryIsListed(u: Setup, s0: State, es: seq<Event>)
    requires Started(u, s0) && Run(u, s0, es).Some? && History.Valid(u.codec)
    ensures ListedAlong(u, s0, es) <==>
            History.AllHarmless(u.codec, s0.file, Writes(Attempts(Run(u, s0, es).value)))
  {
    AlongIsThroughout(u, s0, es);
    History.ListedThroughoutIff(u.codec, s0.file, Writes(Attempts(Run(u, s0, es).value)));
  }

  /** And then the newest written rows are listed first. */
  lemma NewestAreListed(u: Setup, s0: State, es: seq<Event>, rows: seq<TickRecord>, n: nat)
    requires Started(u, s0) && Run(u, s0, es).Some? && rows == Rows(Attempts(Run(u, s0, es).value)) && n <= |rows|
    requires History.Valid(u.codec)
    requires History.AllHarmless(u.codec, s0.file, Writes(Attempts(Run(u, s0, es).value)))
    ensures History.Newest(History.Records(u.codec, Run(u, s0, es).value.file), n)
         == History.Reversed(rows[|rows| - n..])
  {
    var s := Run(u, s0, es).value;
    HistoryFileIs(u, s0, es);
    History.HarmlessTail(u.codec, s0.file, Writes(Attempts(s)), s.file, rows, n);
  }

  /** A tick that found nothing to do, its row's append getting as far as it did. */
  function CleanAttempt(u: Setup, row: TickRecord, took: nat, found: Git.Root): Attempt {
    Attempt(row, Some(took), History.Landed(u.codec, History.Write(row, Some(took))), 0, found,
            Tick.TickRun(Ok(Outcomes.Skipped(AuditClean)), None, found, found), {})
  }

  lemma CleanFits(u: Setup, row: TickRecord, took: nat, found: Git.Root)
    requires Git.Valid(found) && row.outcome == Outcomes.Skipped(AuditClean)
    ensures Fits(u, CleanAttempt(u, row, took, found))
  {
  }

  /** The row of such a tick of the next root. */
  predicate NextCleanRow(u: Setup, s: State, row: TickRecord) {
    && s.phase.Tending? && |s.current| < |u.roots| && u.roots[|s.current|] in s.disk
    && Git.Valid(s.disk[u.roots[|s.current|]])
    && row.startedAt == s.phase.startedAt && row.dryRun == s.phase.dryRun
    && row.memoryRoot == u.roots[|s.current|] && row.outcome == Outcomes.Skipped(AuditClean)
  }

  lemma CleanStep(u: Setup, s: State, row: TickRecord, took: nat) returns (s': State)
    requires NextCleanRow(u, s, row)
    ensures Step(u, s, Tend(CleanAttempt(u, row, took, s.disk[row.memoryRoot]))) == Some(s')
    ensures s'.phase == s.phase && s'.disk == s.disk && s'.finished == s.finished
    ensures s'.current == s.current + [CleanAttempt(u, row, took, s.disk[row.memoryRoot])]
  {
    var a := CleanAttempt(u, row, took, s.disk[row.memoryRoot]);
    assert Proper(u, s, a);
    s' := Tended(u, s, a);
    assert s.disk[row.memoryRoot := a.run.after] == s.disk;
  }

  lemma CleanRun(u: Setup, s0: State, es: seq<Event>, s: State, row: TickRecord, took: nat)
    returns (es': seq<Event>, s': State)
    requires Run(u, s0, es) == Some(s) && Genuine(u, es) && NextCleanRow(u, s, row)
    ensures es' == es + [Tend(CleanAttempt(u, row, took, s.disk[row.memoryRoot]))]
    ensures Run(u, s0, es') == Some(s') && Genuine(u, es')
    ensures s'.phase == s.phase && s'.disk == s.disk && s'.finished == s.finished
    ensures s'.current == s.current + [CleanAttempt(u, row, took, s.disk[row.memoryRoot])]
  {
    var a := CleanAttempt(u, row, took, s.disk[row.memoryRoot]);
    s' := CleanStep(u, s, row, took);
    CleanFits(u, row, took, s.disk[row.memoryRoot]);
    RunOneMore(u, s0, es, s, Tend(a));
    es' := es + [Tend(a)];
  }

  lemma ReadStep(u: Setup, s: State) returns (s1: State)
    requires s.phase.Starting?
    ensures Step(u, s, ReadFlag) == Some(s1)
    ensures s1.phase == Tending(s.phase.startedAt, s.flag)
    ensures s1.disk == s.disk && s1.current == s.current && s1.finished == s.finished
  {
    s1 := Step(u, s, ReadFlag).value;
  }

  lemma ReadRun(u: Setup, s0: State, es: seq<Event>, s: State) returns (es': seq<Event>, s': State)
    requires Run(u, s0, es) == Some(s) && Genuine(u, es) && s.phase.Starting?
    ensures es' == es + [ReadFlag] && Run(u, s0, es') == Some(s') && Genuine(u, es')
    ensures s'.phase == Tending(s.phase.startedAt, s.flag)
    ensures s'.disk == s.disk && s'.current == s.current && s'.finished == s.finished
  {
    s' := ReadStep(u, s);
    RunOneMore(u, s0, es, s, ReadFlag);
    es' := es + [ReadFlag];
  }

  /** Rows the first round would write about two clean roots. */
  predicate CleanRows(u: Setup, s0: State, first: TickRecord, second: TickRecord) {
    && |u.roots| >= 2 && s0.phase.Starting?
    && first.startedAt == second.startedAt == s0.phase.startedAt && first.dryRun == second.dryRun == s0.flag
    && first.memoryRoot == u.roots[0] && second.memoryRoot == u.roots[1]
    && first.outcome == second.outcome == Outcomes.Skipped(AuditClean)
  }

  lemma TwoCleanAttempts(u: Setup, s0: State, first: TickRecord, k: nat, second: TickRecord, took: nat)
    returns (es: seq<Event>, a1: Attempt, a2: Attempt)
    requires Started(u, s0) && CleanRows(u, s0, first, second)
    ensures Genuine(u, es) && Run(u, s0, es).Some? && Attempts(Run(u, s0, es).value) == [a1, a2]
    ensures a1 == CleanAttempt(u, first, k, a1.found) && a2 == CleanAttempt(u, second, took, a2.found)
  {
    var es1, s1 := ReadRun(u, s0, [], s0);
    var es2, s2 := CleanRun(u, s0, es1, s1, first, k);
    a1 := s2.current[0];
    var es3, s3 := CleanRun(u, s0, es2, s2, second, took);
    es, a2 := es3, s3.current[1];
    assert s3.current == [a1, a2] && Flat(s3.finished) == [];
    assert Attempts(s3) == [a1, a2];
  }

  /** A run that loses a row: the first root's append is cut short, the second root's succeeds and counts,
      and if the encodings glued together cannot be read, the file lists neither. */
  lemma TornRunLosesRow(u: Setup, s0: State, first: TickRecord, second: TickRecord, k: nat)
    requires Started(u, s0) && CleanRows(u, s0, first, second) && History.Valid(u.codec)
    requires !s0.file.Garbled? && Text.Terminated(History.BodyOf(s0.file))
    requires k <= |u.codec.enc(first)| && u.codec.dec(u.codec.enc(first)[..k] + u.codec.enc(second)) == None
    ensures exists es :: Genuine(u, es) && Run(u, s0, es).Some?
              && Rows(Attempts(Run(u, s0, es).value)) == [second]
              && Run(u, s0, es).value.counters.appends == 1
              && History.Records(u.codec, Run(u, s0, es).value.file) == History.Records(u.codec, s0.file)
  {
    var es, a1, a2 := TwoCleanAttempts(u, s0, first, k, second, |u.codec.enc(second)| + 1);
    var enc := u.codec.enc(first);
    assert enc[..|enc|] == enc;
    assert History.Piece(u.codec, WriteOf(a1)) == enc[..k];
    TornPair(u, s0, es, Attempts(Run(u, s0, es).value));
  }

  lemma RowsOfPair(all: seq<Attempt>)
    requires |all| == 2 && all[1].written && !all[0].written
    ensures Rows(all) == [all[1].row]
  {
    var one := all[..1];
    assert one[..0] == [] && all[..|all| - 1] == one && one[|one| - 1] == all[0];
    assert Rows(one) == [] + [] && Rows(all) == Rows(one) + [all[1].row];
  }

  lemma WritesOfPair(all: seq<Attempt>)
    requires |all| == 2
    ensures Writes(all) == [WriteOf(all[0]), WriteOf(all[1])]
  {
    var one := all[..1];
    assert one[..0] == [] && all[..|all| - 1] == one && one[|one| - 1] == all[0];
    assert Writes(one) == [] + [WriteOf(all[0])] && Writes(all) == Writes(one) + [WriteOf(all[1])];
  }

  lemma PairIsLost(c: History.Codec, f: History.File, file: History.File, all: seq<Attempt>)
    requires History.Valid(c) && !f.Garbled? && Text.Terminated(History.BodyOf(f)) && |all| == 2
    requires file == History.AfterAll(c, f, Writes(all)) && WrittenIsLanded(c, all)
    requires all[1].written && !all[0].written
    requires c.dec(History.Piece(c, WriteOf(all[0])) + c.enc(all[1].row)) == None
    ensures History.Records(c, file) == History.Records(c, f)
  {
    WritesOfPair(all);
    History.WrittenRowIsLost(c, f, WriteOf(all[0]), WriteOf(all[1]));
  }

  lemma TornPair(u: Setup, s0: State, es: seq<Event>, all: seq<Attempt>)
    requires Started(u, s0) && Run(u, s0, es).Some? && Attempts(Run(u, s0, es).value) == all && |all| == 2
    requires History.Valid(u.codec) && !s0.file.Garbled? && Text.Terminated(History.BodyOf(s0.file))
    requires all[1].written && !all[0].written
    requires u.codec.dec(History.Piece(u.codec, WriteOf(all[0])) + u.codec.enc(all[1].row)) == None
    ensures Rows(all) == [all[1].row] && Run(u, s0, es).value.counters.appends == 1
    ensures History.Records(u.codec, Run(u, s0, es).value.file) == History.Records(u.codec, s0.file)
  {
    RowsOfPair(all);
    AppendsCounted(u, s0, es);
    Metrics.Small(1);
    FileInvariant(u, s0, es);
    WrittenInvariant(u, s0, es);
    PairIsLost(u.codec, s0.file, Run(u, s0, es).value.file, all);
  }

  lemma OneCleanAttempt(u: Setup, s0: State, row: TickRecord, took: nat) returns (es: seq<Event>, all: seq<Attempt>)
    requires Started(u, s0) && row.startedAt == s0.phase.startedAt && row.dryRun == s0.flag
    requires row.memoryRoot == u.roots[0] && row.outcome == Outcomes.Skipped(AuditClean)
    ensures Genuine(u, es) && Run(u, s0, es).Some? && Attempts(Run(u, s0, es).value) == all && |all| == 1
    ensures all[0] == CleanAttempt(u, row, took, all[0].found)
  {
    var es1, s1 := ReadRun(u, s0, [], s0);
    var es2, s2 := CleanRun(u, s0, es1, s1, row, took);
    es, all := es2, s2.current;
    assert Flat(s2.finished) == [];
    assert Attempts(s2) == [] + s2.current;
  }

  lemma OneIsLost(c: History.Codec, f: History.File, file: History.File, all: seq<Attempt>)
    requires History.Valid(c) && !f.Garbled? && |all| == 1 && all[0].written
    requires file == History.AfterAll(c, f, Writes(all)) && WrittenIsLanded(c, all)
    requires var torn := Text.LastLine(History.BodyOf(f));
      c.dec(torn) == None && c.dec(torn + c.enc(all[0].row)) == None
    ensures Rows(all) == [all[0].row] && History.Records(c, file) == History.Records(c, f)
  {
    assert all[..0] == [] && all[..|all| - 1] == [];
    assert Writes(all) == [] + [WriteOf(all[0])] && Rows(all) == [] + [all[0].row];
    History.FirstRowIsLost(c, f, WriteOf(all[0]));
  }

  /** A run that loses a row although none of its own appends fails: the file found ends in what a stopped
      predecessor left, and the first row is glued to that. */
  lemma TornFileLosesRow(u: Setup, s0: State, row: TickRecord)
    requires Started(u, s0) && row.startedAt == s0.phase.startedAt && row.dryRun == s0.flag
    requires row.memoryRoot == u.roots[0] && row.outcome == Outcomes.Skipped(AuditClean)
    requires History.Valid(u.codec) && !s0.file.Garbled?
    requires var torn := Text.LastLine(History.BodyOf(s0.file));
      u.codec.dec(torn) == None && u.codec.dec(torn + u.codec.enc(row)) == None
    ensures exists es :: Genuine(u, es) && Run(u, s0, es).Some?
              && Rows(Attempts(Run(u, s0, es).value)) == [row]
              && History.Records(u.codec, Run(u, s0, es).value.file) == History.Records(u.codec, s0.file)
  {
    var es, all := OneCleanAttempt(u, s0, row, |u.codec.enc(row)| + 1);
    FileInvariant(u, s0, es);
    WrittenInvariant(u, s0, es);
    OneIsLost(u.codec, s0.file, Run(u, s0, es).value.file, all);
  }
}
