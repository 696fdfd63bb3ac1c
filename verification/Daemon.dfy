/** The daemon as a step system (main_loop in src/main.rs, the socket commands in src/ipc.rs). The
    loop's own steps interleave freely with clients, the timer, signals, and whatever else happens to
    the memory roots. */
module Daemon {
  import opened Wrappers
  import opened Outcomes
  import Git
  import Tick
  import Metrics
  import History

  /** The configuration, the primary root first, and how a row becomes a line. */
  datatype Setup = Setup(cfg: Tick.Config, roots: seq<string>, once: bool, codec: History.Codec)

  /** A pending wait for a tick request: not polled yet, registered, or notified. */
  datatype Waiter = Unpolled | Waiting | Woken

  datatype Phase =
    | Starting(startedAt: nat)
    | Tending(startedAt: nat, dryRun: bool)
    | Selecting(waiter: Waiter)
    | Down

  /** One root tended: the row about it, how much of it the history took and whether that was all, when
      the counters were told, the root as it was found, and what happened to it. */
  datatype Attempt = Attempt(
    row: TickRecord, took: Option<nat>, written: bool, recordedAt: nat, found: Git.Root, run: Tick.TickRun,
    ignored: set<string>)

  /** The shared state, then a record of what was done: the attempts of finished rounds and of the
      round in progress, and the flag each round read. */
  datatype State = State(
    phase: Phase,
    flag: bool,
    shownDry: bool,
    lastTick: Option<LastTick>,
    counters: Metrics.Counters,
    file: History.File,
    permit: bool,
    signalled: bool,
    disk: map<string, Git.Root>,
    finished: seq<seq<Attempt>>,
    current: seq<Attempt>,
    flagsRead: seq<bool>)

  datatype Event =
    | ReadFlag
    | Tend(attempt: Attempt)
    | EndRound
    | Poll
    | TakeRequest(at: nat)
    | TakeTimer(at: nat)
    | TakeShutdown
    | Request
    | Toggle(value: bool)
    | Signal
    | Outside(root: string, becomes: Git.Root)

  // ----- Steps -----

  function Init(startedAt: nat, flag: bool, file: History.File, disk: map<string, Git.Root>): State {
    State(Starting(startedAt), flag, flag, None, Metrics.ZERO, file, false, false, disk, [], [], [])
  }

  predicate At(p: Phase, w: Waiter) {
    p.Selecting? && p.waiter == w
  }

  /** Notifying wakes a registered waiter, or else leaves the one permit. */
  function Notify(s: State): State {
    if At(s.phase, Waiting) then s.(phase := Selecting(Woken)) else s.(permit := true)
  }

  /** Leaving the select drops its waiter; one already woken passes its wake-up on. */
  function Drop(s: State): State {
    if At(s.phase, Woken) then s.(permit := true) else s
  }

  function Restart(s: State, at: nat): State {
    s.(phase := Starting(at))
  }

  function Since(startedAt: nat, now: nat): nat {
    if now < startedAt then 0 else now - startedAt
  }

  function WriteOf(a: Attempt): History.Write {
    History.Write(a.row, a.took)
  }

  function SampleOf(a: Attempt): Metrics.Sample {
    var o := a.row.outcome;
    Metrics.Sample(o.ran, Since(a.row.startedAt, a.row.finishedAt), o.auditTotalIssues, o.exitCode, a.recordedAt)
  }

  /** The counters see the row's append, if it succeeded, and then the tick. */
  function Counted(c: Metrics.Counters, a: Attempt): Metrics.Counters {
    Metrics.Recorded(if a.written then Metrics.Appended(c) else c, SampleOf(a))
  }

  /** The attempt is what the loop makes in this state of the run it holds. */
  predicate Proper(u: Setup, s: State, a: Attempt) {
    && s.phase.Tending? && |s.current| < |u.roots|
    && a.row.memoryRoot == u.roots[|s.current|] && a.row.memoryRoot in s.disk
    && a.found == s.disk[a.row.memoryRoot]
    && a.row.startedAt == s.phase.startedAt && a.row.dryRun == s.phase.dryRun
    && a.row.outcome == Tick.Published(a.run.outcome)
    && a.written == History.Landed(u.codec, WriteOf(a))
  }

  function Tended(u: Setup, s: State, a: Attempt): State {
    s.(lastTick := if s.current == [] then Some(Shown(a.row)) else s.lastTick,
       file := History.AfterOne(u.codec, s.file, WriteOf(a)),
       counters := Counted(s.counters, a),
       disk := s.disk[a.row.memoryRoot := a.run.after],
       current := s.current + [a])
  }

  function Step(u: Setup, s: State, e: Event): Option<State> {
    if s.phase.Down? then None
    else
      match e
      case ReadFlag =>
        if s.phase.Starting? then
          Some(s.(phase := Tending(s.phase.startedAt, s.flag), shownDry := s.flag, flagsRead := s.flagsRead + [s.flag]))
        else None
      case Tend(a) => if Proper(u, s, a) then Some(Tended(u, s, a)) else None
      case EndRound =>
        if s.phase.Tending? && |s.current| == |u.roots| then
          Some(s.(phase := if u.once then Down else Selecting(Unpolled),
                  finished := s.finished + [s.current], current := []))
        else None
      case Poll =>
        if At(s.phase, Unpolled) && !s.permit then Some(s.(phase := Selecting(Waiting))) else None
      case TakeRequest(at) =>
        if At(s.phase, Unpolled) && s.permit then Some(Restart(s.(permit := false), at))
        else if At(s.phase, Woken) then Some(Restart(s, at))
        else None
      case TakeTimer(at) =>
        if s.phase.Selecting? then Some(Restart(Drop(s), at)) else None
      case TakeShutdown =>
        if s.phase.Selecting? && s.signalled then Some(Drop(s).(phase := Down)) else None
      case Request => Some(Notify(s))
      case Toggle(v) => Some(s.(flag := v))
      case Signal => Some(s.(signalled := true))
      case Outside(root, r) =>
        if root in s.disk && Git.Valid(r) && Git.Extends(r, s.disk[root]) then Some(s.(disk := s.disk[root := r]))
        else None
  }

  function Run(u: Setup, s0: State, es: seq<Event>): Option<State> {
    if es == [] then Some(s0)
    else
      var before := Run(u, s0, es[..|es| - 1]);
      if before.None? then None else Step(u, before.value, es[|es| - 1])
  }

  /** A daemon just started: every root is known and in order. */
  ghost predicate Started(u: Setup, s: State) {
    && u.roots != [] && (forall i :: 0 <= i < |u.roots| ==> u.roots[i] in s.disk)
    && (forall root :: root in s.disk ==> Git.Valid(s.disk[root]))
    && s.phase.Starting?
    && s == Init(s.phase.startedAt, s.flag, s.file, s.disk)
  }

  /** The run an attempt holds is what some tick could do to the root as it was found. */
  predicate Fits(u: Setup, a: Attempt) {
    Tick.Kept(a.found, u.cfg, a.row.dryRun, a.ignored, a.run)
  }

  /** Every attempt among the events holds a tick that fits. */
  predicate Genuine(u: Setup, es: seq<Event>) {
    forall i :: 0 <= i < |es| && es[i].Tend? ==> Fits(u, es[i].attempt)
  }
}
