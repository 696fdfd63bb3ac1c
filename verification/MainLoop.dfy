/** The main loop itself (main_loop in src/main.rs) over the state it shares with the socket clients
    (src/ipc.rs). Each operation is proved to be steps of the step system, so whatever holds in every
    run of that system holds of this object. */
module MainLoop {
  import opened Wrappers
  import opened Outcomes
  import opened Daemon
  import opened DaemonProperties
  import opened DaemonRecords
  import Git
  import Tick
  import Metrics
  import History
  import StateFile

  /** What one root's tick meets, the clock readings after it, and how much of the row the history takes. */
  datatype RootEnv = RootEnv(tick: Tick.Env, tickId: string, finishedAt: nat, recordedAt: nat, took: Option<nat>)

  /** What clients and signals ask for while the loop is busy. */
  datatype Command = AskTick | AskDryRun(value: bool) | AskEnd

  /** Which branch of the select is taken. */
  datatype Wake = TimerFired(at: nat) | TickRequested(at: nat) | ShutdownSeen

  function Taken(w: Wake): Event {
    match w
    case TimerFired(at) => TakeTimer(at)
    case TickRequested(at) => TakeRequest(at)
    case ShutdownSeen => TakeShutdown
  }

  function EventOf(c: Command): Event {
    match c
    case AskTick => Request
    case AskDryRun(v) => Toggle(v)
    case AskEnd => Signal
  }

  function EventsOf(cs: seq<Command>): seq<Event> {
    if cs == [] then [] else EventsOf(cs[..|cs| - 1]) + [EventOf(cs[|cs| - 1])]
  }

  function RowOn(root: string, startedAt: nat, dryRun: bool, outcome: Result<TickOutcome, string>, env: RootEnv)
    : TickRecord
  {
    TickRecord(env.tickId, startedAt, env.finishedAt, dryRun, root, Tick.Published(outcome))
  }

  function AttemptOn(u: Setup, root: string, startedAt: nat, dryRun: bool, found: Git.Root, t: Tick.TickRun,
                     env: RootEnv): Attempt {
    var row := RowOn(root, startedAt, dryRun, t.outcome, env);
    Attempt(row, env.took, History.Landed(u.codec, History.Write(row, env.took)), env.recordedAt, found, t,
            env.tick.snapshotEnv.ignored)
  }

  predicate Follows(u: Setup, s: State, e: Event, s': State) {
    Step(u, s, e) == Some(s') && (e.Tend? ==> Fits(u, e.attempt))
  }

  /** The states passed on the way, the first and the last included. */
  ghost predicate Trail(u: Setup, s0: State, es: seq<Event>, passed: seq<State>) {
    && |passed| == |es| + 1 && passed[0] == s0
    && forall i :: 0 <= i < |es| ==> Follows(u, passed[i], es[i], passed[i + 1])
  }

  /** The state is where the events lead. */
  ghost predicate Reaches(u: Setup, s0: State, es: seq<Event>, s: State) {
    Started(u, s0) && exists passed :: Trail(u, s0, es, passed) && passed[|es|] == s
  }

  lemma OneMore(u: Setup, s0: State, es: seq<Event>, s: State, e: Event, s': State)
    requires Reaches(u, s0, es, s) && Follows(u, s, e, s')
    ensures Reaches(u, s0, es + [e], s')
  {
    var passed :| Trail(u, s0, es, passed) && passed[|es|] == s;
    var longer := passed + [s'];
    forall i | 0 <= i < |es| + 1
      ensures Follows(u, longer[i], (es + [e])[i], longer[i + 1])
    {
      if i < |es| {
        assert longer[i] == passed[i] && longer[i + 1] == passed[i + 1] && (es + [e])[i] == es[i];
      }
    }
    assert Trail(u, s0, es + [e], longer);
  }

  lemma {:induction false} TrailRuns(u: Setup, s0: State, es: seq<Event>, passed: seq<State>)
    requires Trail(u, s0, es, passed)
    ensures Run(u, s0, es) == Some(passed[|es|]) && Genuine(u, es)
  {
    if es != [] {
      var n := |es| - 1;
      TrailRuns(u, s0, es[..n], passed[..n + 1]);
      assert Follows(u, passed[n], es[n], passed[n + 1]);
    }
  }

  /** Everything proved of all runs holds of what is reached. */
  lemma ReachedIsRun(u: Setup, s0: State, es: seq<Event>, s: State)
    requires Reaches(u, s0, es, s)
    ensures Started(u, s0) && Genuine(u, es) && Run(u, s0, es) == Some(s)
  {
    var passed :| Trail(u, s0, es, passed) && passed[|es|] == s;
    TrailRuns(u, s0, es, passed);
  }

  /** In whatever is reached every root is on the disk and in order. */
  lemma ReachedIsReady(u: Setup, s0: State, es: seq<Event>, s: State)
    requires Reaches(u, s0, es, s)
    ensures forall i :: 0 <= i < |u.roots| ==> u.roots[i] in s.disk && Git.Valid(s.disk[u.roots[i]])
  {
    ReachedIsRun(u, s0, es, s);
    RootsStay(u, s0, es);
    UndoInvariant(u, s0, es);
  }

  /** Every tick's agent is over when the tick is. */
  predicate AllOver(u: Setup, envs: seq<RootEnv>) {
    forall i :: 0 <= i < |envs| ==> Tick.Over(envs[i].tick, u.cfg.maxTick)
  }

  /** The attempts are, root by root, what a tick makes of the root as the earlier ones left it;
      disks holds the roots between them. */
  predicate Made(u: Setup, startedAt: nat, dryRun: bool, envs: seq<RootEnv>, disks: seq<map<string, Git.Root>>,
                 made: seq<Attempt>)
  {
    && |made| <= |u.roots| && |made| <= |envs| && |disks| == |made| + 1
    && forall k :: 0 <= k < |made| ==>
         MadeOne(u, u.roots[k], startedAt, dryRun, envs[k], disks[k], disks[k + 1], made[k])
  }

  predicate MadeOne(u: Setup, root: string, startedAt: nat, dryRun: bool, env: RootEnv,
                    disk: map<string, Git.Root>, disk': map<string, Git.Root>, a: Attempt)
  {
    && root in disk && Git.Valid(disk[root]) && Tick.Over(env.tick, u.cfg.maxTick)
    && a == AttemptOn(u, root, startedAt, dryRun, disk[root], Tick.RunTick(disk[root], u.cfg, dryRun, env.tick), env)
    && disk' == disk[root := a.run.after]
  }

  lemma MadeGrows(u: Setup, startedAt: nat, dryRun: bool, envs: seq<RootEnv>, disks: seq<map<string, Git.Root>>,
                  made: seq<Attempt>, a: Attempt, disk': map<string, Git.Root>)
    requires Made(u, startedAt, dryRun, envs, disks, made) && |made| < |u.roots| && |made| < |envs|
    requires MadeOne(u, u.roots[|made|], startedAt, dryRun, envs[|made|], disks[|made|], disk', a)
    ensures Made(u, startedAt, dryRun, envs, disks + [disk'], made + [a])
  {
    var n := |made|;
    var disks', made' := disks + [disk'], made + [a];
    forall k | 0 <= k <= n
      ensures MadeOne(u, u.roots[k], startedAt, dryRun, envs[k], disks'[k], disks'[k + 1], made'[k])
    {
      if k < n {
        assert MadeOne(u, u.roots[k], startedAt, dryRun, envs[k], disks[k], disks[k + 1], made[k]);
      }
    }
  }

  /** What the rows of such attempts say. */
  lemma MadeRows(u: Setup, startedAt: nat, dryRun: bool, envs: seq<RootEnv>, disks: seq<map<string, Git.Root>>,
                 made: seq<Attempt>, k: nat)
    requires Made(u, startedAt, dryRun, envs, disks, made) && k < |made|
    ensures made[k].row == TickRecord(envs[k].tickId, startedAt, envs[k].finishedAt, dryRun, u.roots[k],
                                      Tick.Published(made[k].run.outcome))
    ensures u.roots[k] in disks[k] && made[k].found == disks[k][u.roots[k]]
    ensures disks[k + 1] == disks[k][u.roots[k] := made[k].run.after]
  {
    assert MadeOne(u, u.roots[k], startedAt, dryRun, envs[k], disks[k], disks[k + 1], made[k]);
  }

  lemma ReachedBetweenRounds(u: Setup, s0: State, es: seq<Event>, s: State)
    requires Reaches(u, s0, es, s) && !s.phase.Tending?
    ensures s.current == []
  {
    ReachedIsRun(u, s0, es, s);
    RoundsInvariant(u, s0, es);
  }

  lemma ReachedWaits(u: Setup, s0: State, es: seq<Event>, s: State)
    requires Reaches(u, s0, es, s) && At(s.phase, Waiting)
    ensures !s.permit
  {
    ReachedIsRun(u, s0, es, s);
    NotifyInvariant(u, s0, es);
  }

  /** The attempts of a round with the commands that arrive while each of them is made. */
  function RoundEvents(meanwhile: seq<seq<Command>>, made: seq<Attempt>): seq<Event>
    requires |made| <= |meanwhile|
  {
    if made == [] then []
    else
      var n := |made| - 1;
      RoundEvents(meanwhile, made[..n]) + EventsOf(meanwhile[n]) + [Tend(made[n])]
  }

  lemma Regroup(es: seq<Event>, a: seq<Event>, b: seq<Event>, c: seq<Event>)
    ensures es + (a + b + c) == es + a + b + c
  {
  }

  lemma RoundEventsGrow(es: seq<Event>, meanwhile: seq<seq<Command>>, made: seq<Attempt>, a: Attempt)
    requires |made| < |meanwhile|
    ensures es + RoundEvents(meanwhile, made + [a])
         == es + RoundEvents(meanwhile, made) + EventsOf(meanwhile[|made|]) + [Tend(a)]
  {
    assert (made + [a])[..|made|] == made;
    Regroup(es, RoundEvents(meanwhile, made), EventsOf(meanwhile[|made|]), [Tend(a)]);
  }

  lemma EventsOfGrow(es: seq<Event>, cs: seq<Command>, i: nat)
    requires i < |cs|
    ensures es + EventsOf(cs[..i + 1]) == es + EventsOf(cs[..i]) + [EventOf(cs[i])]
  {
    assert cs[..i + 1][..i] == cs[..i];
  }

  /** Such an attempt is a step of the loop. */
  lemma AttemptFollows(u: Setup, s: State, t: Tick.TickRun, env: RootEnv)
    requires s.phase.Tending? && |s.current| < |u.roots| && u.roots[|s.current|] in s.disk
    requires Tick.Kept(s.disk[u.roots[|s.current|]], u.cfg, s.phase.dryRun, env.tick.snapshotEnv.ignored, t)
    ensures var root := u.roots[|s.current|];
      var a := AttemptOn(u, root, s.phase.startedAt, s.phase.dryRun, s.disk[root], t, env);
      Follows(u, s, Tend(a), Tended(u, s, a))
  {
    var root := u.roots[|s.current|];
    var a := AttemptOn(u, root, s.phase.startedAt, s.phase.dryRun, s.disk[root], t, env);
    assert Proper(u, s, a);
  }

  /** What a row tells the status, where it is the first of its round, and the counters. */
  predicate Told(s: State, s': State, row: TickRecord, recordedAt: nat) {
    var o, elapsed := row.outcome, row.finishedAt - row.startedAt;
    && s'.lastTick == (if s.current != [] then s.lastTick
                       else Some(LastTick(row.startedAt, row.finishedAt, o.ran, o.reasonSkipped, o.exitCode)))
    && s'.counters.total == (s.counters.total + 1) % Metrics.U64
    && s'.counters.ran == (if o.ran then (s.counters.ran + 1) % Metrics.U64 else s.counters.ran)
    && s'.counters.skipped == (if o.ran then s.counters.skipped else (s.counters.skipped + 1) % Metrics.U64)
    && s'.counters.seconds == (s.counters.seconds + if elapsed < 0 then 0 else elapsed) % Metrics.U64
    && s'.counters.issuesLast == o.auditTotalIssues % Metrics.U64
    && s'.counters.lastTick == recordedAt % Metrics.U64
  }

  lemma TendedTells(u: Setup, s: State, a: Attempt)
    ensures Told(s, Tended(u, s, a), a.row, a.recordedAt)
  {
  }

  class Loop {
    const u: Setup
    const metrics: Metrics.Metrics
    const log: History.HistoryFile
    var phase: Phase
    var flag: bool
    var shownDry: bool
    var lastTick: Option<LastTick>
    var permit: bool
    var signalled: bool
    var disk: map<string, Git.Root>
    ghost var finished: seq<seq<Attempt>>
    ghost var current: seq<Attempt>
    ghost var flagsRead: seq<bool>
    ghost const start: State
    ghost var events: seq<Event>

    ghost function View(): State
      reads this, metrics, log
    {
      State(phase, flag, shownDry, lastTick, metrics.View(), log.file, permit, signalled, disk, finished, current,
            flagsRead)
    }

    /** The object is where the events so far lead. */
    ghost predicate Valid()
      reads this, metrics, log
    {
      Reaches(u, start, events, View())
    }

    constructor (u: Setup, startedAt: nat, flag: bool, log: History.HistoryFile, disk: map<string, Git.Root>)
      requires u.roots != [] && forall i :: 0 <= i < |u.roots| ==> u.roots[i] in disk
      requires forall root :: root in disk ==> Git.Valid(disk[root])
      ensures Valid() && events == [] && View() == Init(startedAt, flag, log.file, disk)
      ensures phase == Starting(startedAt) && this.flag == flag && shownDry == flag && lastTick == None
      ensures metrics.View() == Metrics.Counters(0, 0, 0, 0, 0, 0, 0, 0) && !permit && !signalled
      ensures this.disk == disk && finished == [] && current == []
      ensures fresh(metrics) && this.u == u && this.log == log
    {
      this.u, this.log := u, log;
      metrics := new Metrics.Metrics();
      phase, this.flag, shownDry, lastTick := Starting(startedAt), flag, flag, None;
      permit, signalled, this.disk := false, false, disk;
      finished, current, flagsRead := [], [], [];
      start := Init(startedAt, flag, log.file, disk);
      events := [];
      new;
      assert Trail(u, start, events, [start]);
    }

    /** Records that the change from s to the present state was a step. */
    ghost method Happens(s: State, e: Event)
      requires Reaches(u, start, events, s) && Follows(u, s, e, View())
      modifies this`events
      ensures Valid() && events == old(events) + [e]
    {
      OneMore(u, start, events, s, e, View());
      events := events + [e];
    }

    // ----- Socket clients and signals -----

    method TickCommand()
      requires Valid() && !phase.Down?
      modifies this
      ensures Valid() && events == old(events) + [Request] && View() == Notify(old(View()))
    {
      ghost var s := View();
      if phase.Selecting? && phase.waiter == Waiting {
        phase := Selecting(Woken);
      } else {
        permit := true;
      }
      Happens(s, Request);
    }

    method SetDryRun(value: bool)
      requires Valid() && !phase.Down?
      modifies this
      ensures Valid() && events == old(events) + [Toggle(value)] && View() == old(View()).(flag := value)
    {
      ghost var s := View();
      flag := value;
      Happens(s, Toggle(value));
    }

    /** A dry-run command: the flag first, then the state file, and the same answer however that went. */
    method DryRunCommand(fs: StateFile.FileSystem, c: StateFile.Codec, p: StateFile.Path, value: bool,
                         r: StateFile.Reach) returns (answer: StateFile.Answer)
      requires Valid() && !phase.Down?
      modifies this, fs
      ensures Valid() && events == old(events) + [Toggle(value)] && View() == old(View()).(flag := value)
      ensures fs.files == StateFile.Replaced(old(fs.files), p, c.enc(StateFile.PersistedState(Some(value))), r)
      ensures answer == StateFile.AnswerTo(value) && answer.ok && answer.dryRun == value && answer.persisted
    {
      SetDryRun(value);
      fs.PersistDryRun(c, p, Some(value), r);
      answer := StateFile.Answer(true, value, true);
    }

    method TerminateSignal()
      requires Valid() && !phase.Down?
      modifies this
      ensures Valid() && events == old(events) + [Signal] && View() == old(View()).(signalled := true)
    {
      ghost var s := View();
      signalled := true;
      Happens(s, Signal);
    }

    /** Whatever arrives while a root is tended. */
    method Serve(cs: seq<Command>)
      requires Valid() && phase.Tending?
      modifies this
      ensures Valid() && events == old(events) + EventsOf(cs)
      ensures phase == old(phase) && current == old(current) && finished == old(finished) && disk == old(disk)
    {
      for i := 0 to |cs|
        invariant Valid() && events == old(events) + EventsOf(cs[..i])
        invariant phase == old(phase) && current == old(current) && finished == old(finished) && disk == old(disk)
      {
        EventsOfGrow(old(events), cs, i);
        match cs[i] {
          case AskTick => TickCommand();
          case AskDryRun(v) => SetDryRun(v);
          case AskEnd => TerminateSignal();
        }
      }
      assert cs[..|cs|] == cs;
    }

    // ----- The loop's own steps -----

    method ReadDryRun() returns (dryRun: bool)
      requires Valid() && phase.Starting?
      modifies this
      ensures Valid() && events == old(events) + [ReadFlag]
      ensures dryRun == old(flag) && phase == Tending(old(phase).startedAt, dryRun) && shownDry == old(flag)
      ensures current == old(current) && finished == old(finished) && disk == old(disk)
    {
      ghost var s := View();
      dryRun := flag;
      flagsRead := flagsRead + [flag];
      shownDry := dryRun;
      phase := Tending(phase.startedAt, dryRun);
      Happens(s, ReadFlag);
    }

    /** Tells the counters of a row's append and of its tick. */
    method CountTick(row: TickRecord, appended: bool, recordedAt: nat, ghost a: Attempt)
      requires a.row == row && a.written == appended && a.recordedAt == recordedAt
      modifies metrics
      ensures metrics.View() == Counted(old(metrics.View()), a)
    {
      if appended {
        metrics.RecordHistoryAppend();
      }
      metrics.RecordTick(Metrics.Sample(
        row.outcome.ran, Since(row.startedAt, row.finishedAt), row.outcome.auditTotalIssues,
        row.outcome.exitCode, recordedAt));
    }

    /** Publishes a tick of the i-th root: the status, the history, the counters. */
    method Publish(i: nat, row: TickRecord, took: Option<nat>, recordedAt: nat, after: Git.Root, ghost a: Attempt)
      requires i == |current|
      requires a.row == row && a.took == took && a.recordedAt == recordedAt && a.run.after == after
      requires a.written == History.Landed(u.codec, WriteOf(a))
      modifies this, metrics, log
      ensures View() == Tended(u, old(View()), a) && events == old(events)
    {
      if i == 0 {
        lastTick := Some(Shown(row));
      }
      var appended := log.Append(u.codec, row, took);
      CountTick(row, appended, recordedAt, a);
      disk := disk[row.memoryRoot := after];
      current := current + [a];
    }

    /** One root, tended and recorded. */
    method TendRoot(i: nat, env: RootEnv) returns (ghost a: Attempt)
      requires Valid() && phase.Tending? && i == |current| < |u.roots| && Tick.Over(env.tick, u.cfg.maxTick)
      requires u.roots[i] in disk && Git.Valid(disk[u.roots[i]])
      modifies this, metrics, log
      ensures MadeOne(u, u.roots[i], old(phase).startedAt, old(phase).dryRun, env, old(disk), disk, a)
      ensures Valid() && events == old(events) + [Tend(a)] && View() == Tended(u, old(View()), a)
      ensures a.row == TickRecord(env.tickId, old(phase).startedAt, env.finishedAt, old(phase).dryRun, u.roots[i],
                                  Tick.Published(a.run.outcome))
      ensures a.took == env.took && a.recordedAt == env.recordedAt && a.found == old(disk)[u.roots[i]]
      ensures disk == old(disk)[u.roots[i] := a.run.after]
      ensures Told(old(View()), View(), a.row, env.recordedAt)
    {
      var root := u.roots[i];
      var outcome, after, t := TickOn(disk[root], u.cfg, phase.dryRun, env.tick);
      a := AttemptOn(u, root, phase.startedAt, phase.dryRun, disk[root], t, env);
      var row := RowOn(root, phase.startedAt, phase.dryRun, outcome, env);
      ghost var s := View();
      AttemptFollows(u, s, t, env);
      TendedTells(u, s, a);
      Publish(i, row, env.took, env.recordedAt, after, a);
      Happens(s, Tend(a));
    }

    method EndRound()
      requires Valid() && phase.Tending? && |current| == |u.roots|
      modifies this
      ensures Valid() && events == old(events) + [Event.EndRound]
      ensures phase == if u.once then Down else Selecting(Unpolled)
      ensures finished == old(finished) + [old(current)] && current == []
      ensures disk == old(disk)
    {
      ghost var s := View();
      finished, current := finished + [current], [];
      phase := if u.once then Down else Selecting(Unpolled);
      Happens(s, Event.EndRound);
    }

    /** Every root in order, with what arrives meanwhile. */
    method TendAll(envs: seq<RootEnv>, meanwhile: seq<seq<Command>>)
      returns (ghost disks: seq<map<string, Git.Root>>)
      requires Valid() && phase.Tending? && current == []
      requires |envs| == |meanwhile| == |u.roots| && AllOver(u, envs)
      modifies this, metrics, log
      ensures Valid() && phase == old(phase) && finished == old(finished) && |current| == |u.roots|
      ensures events == old(events) + RoundEvents(meanwhile, current)
      ensures Made(u, old(phase).startedAt, old(phase).dryRun, envs, disks, current)
      ensures disks[0] == old(disk) && disk == disks[|u.roots|]
    {
      ghost var startedAt, dryRun := phase.startedAt, phase.dryRun;
      disks := [disk];
      for i := 0 to |u.roots|
        invariant Valid() && phase == old(phase) && finished == old(finished)
        invariant |current| == i && |disks| == i + 1 && disks[0] == old(disk) && disks[i] == disk
        invariant events == old(events) + RoundEvents(meanwhile, current)
        invariant Made(u, startedAt, dryRun, envs, disks, current)
      {
        ghost var made := current;
        Serve(meanwhile[i]);
        ReachedIsReady(u, start, events, View());
        var a := TendRoot(i, envs[i]);
        MadeGrows(u, startedAt, dryRun, envs, disks, made, a, disk);
        RoundEventsGrow(old(events), meanwhile, made, a);
        disks := disks + [disk];
      }
    }

    /** A whole round: one look at the flag, then the roots, whatever clients and signals do meanwhile. */
    method Round(envs: seq<RootEnv>, meanwhile: seq<seq<Command>>)
      returns (ghost disks: seq<map<string, Git.Root>>)
      requires Valid() && phase.Starting? && |envs| == |meanwhile| == |u.roots| && AllOver(u, envs)
      modifies this, metrics, log
      ensures Valid() && phase == if u.once then Down else Selecting(Unpolled)
      ensures |finished| == |old(finished)| + 1 && finished[..|old(finished)|] == old(finished)
      ensures Made(u, old(phase).startedAt, old(flag), envs, disks, finished[|old(finished)|])
      ensures |finished[|old(finished)|]| == |u.roots|
      ensures forall k :: 0 <= k < |u.roots| ==>
                finished[|old(finished)|][k].row ==
                TickRecord(envs[k].tickId, old(phase).startedAt, envs[k].finishedAt, old(flag), u.roots[k],
                           Tick.Published(finished[|old(finished)|][k].run.outcome))
      ensures events == old(events) + [ReadFlag] + RoundEvents(meanwhile, finished[|old(finished)|]) + [Event.EndRound]
      ensures disks[0] == old(disk) && disk == disks[|u.roots|]
    {
      ReachedBetweenRounds(u, start, events, View());
      var _ := ReadDryRun();
      disks := TendAll(envs, meanwhile);
      forall k | 0 <= k < |u.roots|
        ensures current[k].row == TickRecord(envs[k].tickId, old(phase).startedAt, envs[k].finishedAt, old(flag),
                                             u.roots[k], Tick.Published(current[k].run.outcome))
      {
        MadeRows(u, old(phase).startedAt, old(flag), envs, disks, current, k);
      }
      EndRound();
    }

    /** The select: the branch takes effect if it is ready; a request not there yet is waited for. */
    method Select(w: Wake) returns (taken: bool)
      requires Valid() && phase.Selecting?
      modifies this
      ensures Valid() && finished == old(finished) && disk == old(disk)
      ensures taken ==> phase == (if w.ShutdownSeen? then Down else Starting(w.at))
      ensures !taken ==> phase.Selecting?
      ensures w.TimerFired? ==> taken
      ensures w.ShutdownSeen? ==> (taken <==> signalled)
      ensures w.TickRequested? ==> (taken <==> old(permit) || old(phase) == Selecting(Woken))
      ensures taken ==> events == old(events) + [Taken(w)]
      ensures !taken ==>
        events == old(events) + (if w.TickRequested? && old(phase) == Selecting(Unpolled) then [Poll] else [])
    {
      ghost var s := View();
      match w
      case TimerFired(at) =>
        DropWaiter();
        phase := Starting(at);
        Happens(s, TakeTimer(at));
        return true;
      case ShutdownSeen =>
        if !signalled {
          return false;
        }
        DropWaiter();
        phase := Down;
        Happens(s, TakeShutdown);
        return true;
      case TickRequested(at) =>
        taken := AwaitRequest(at);
    }

    /** A woken waiter that is dropped passes its wake-up on. */
    method DropWaiter()
      requires phase.Selecting?
      modifies this
      ensures View() == Drop(old(View())) && events == old(events)
    {
      if phase.waiter == Woken {
        permit := true;
      }
    }

    method AwaitRequest(at: nat) returns (taken: bool)
      requires Valid() && phase.Selecting?
      modifies this
      ensures Valid() && finished == old(finished) && disk == old(disk)
      ensures taken <==> old(permit) || old(phase) == Selecting(Woken)
      ensures phase == if taken then Starting(at) else Selecting(Waiting)
      ensures taken ==> events == old(events) + [TakeRequest(at)]
      ensures !taken ==> events == old(events) + (if old(phase) == Selecting(Unpolled) then [Poll] else [])
    {
      ghost var s := View();
      match phase.waiter
      case Woken =>
        phase := Starting(at);
        Happens(s, TakeRequest(at));
        return true;
      case Waiting =>
        ReachedWaits(u, start, events, s);
        return false;
      case Unpolled =>
        taken := permit;
        if taken {
          permit := false;
          phase := Starting(at);
          Happens(s, TakeRequest(at));
        } else {
          phase := Selecting(Waiting);
          Happens(s, Poll);
        }
    }
  }

  method TickOn(r: Git.Root, cfg: Tick.Config, dryRun: bool, env: Tick.Env)
    returns (outcome: Result<TickOutcome, string>, after: Git.Root, ghost t: Tick.TickRun)
    requires Git.Valid(r) && Tick.Over(env, cfg.maxTick)
    ensures t == Tick.RunTick(r, cfg, dryRun, env) && outcome == t.outcome && after == t.after
    ensures Tick.Kept(r, cfg, dryRun, env.snapshotEnv.ignored, t)
  {
    var repo := new Git.Repository(r);
    var launch;
    ghost var atSpawn;
    outcome, launch, atSpawn := Tick.Run(repo, cfg, dryRun, env);
    after := repo.View();
    t := Tick.TickRun(outcome, launch, atSpawn, after);
    Tick.TickKeeps(r, cfg, dryRun, env);
  }
}
