/** Waiting for the agent process: the time limit, the polite signal, the grace period and the
    forced kill (the end of run in src/tick.rs). The process and the clock are the environment, free
    to interleave with the daemon's own steps in any way. Times are seconds since the spawn. */
module AgentWait {
  import opened Wrappers

  const GRACE: nat := 10

  datatype Signal = Term | Kill

  /** The exit code, None when a signal ended the process. */
  type Status = Option<int>

  /** A process that has exited stays in the process table until it is reaped. */
  datatype Life = Running | Zombie(status: Status) | Gone

  datatype Phase =
    | FirstWait
    | TermDue
    | GraceWait(since: nat)
    | KillDue(since: nat)
    | LastWait
    | Draining(status: Status)
    | Finished(status: Status)
    | Broken

  datatype Action =
    | Exited(at: nat, status: Status)
    | Reaped(at: nat, status: Status)
    | Sent(at: nat, signal: Signal)
    | Returned(at: nat, status: Status)

  datatype State = State(now: nat, life: Life, phase: Phase, trace: seq<Action>)

  const SPAWNED := State(0, Running, FirstWait, [])

  /** The first two are the environment's; the rest are the daemon's. */
  datatype Event =
    | Elapse(seconds: nat)
    | Exit(status: Status)
    | Poll
    | Timeout
    | Signal
    | WaitFails
    | StreamsEnd

  predicate Waiting(p: Phase) {
    p.FirstWait? || p.GraceWait? || p.LastWait?
  }

  /** The next state, or None where the event cannot happen. A timer only fires in a poll that found
      the process still running; a signal is sent only to a process not yet reaped. */
  function Step(s: State, e: Event, maxTick: nat): Option<State> {
    match e
    case Elapse(d) => Some(s.(now := s.now + d))
    case Exit(status) =>
      if s.life.Running? then
        Some(s.(life := Zombie(status), trace := s.trace + [Exited(s.now, status)]))
      else None
    case Poll =>
      if Waiting(s.phase) && s.life.Zombie? then
        Some(s.(life := Gone, phase := Draining(s.life.status),
                trace := s.trace + [Reaped(s.now, s.life.status)]))
      else None
    case Timeout =>
      if !s.life.Running? then None
      else if s.phase.FirstWait? && s.now >= maxTick then Some(s.(phase := TermDue))
      else if s.phase.GraceWait? && s.now >= s.phase.since + GRACE then
        Some(s.(phase := KillDue(s.phase.since)))
      else None
    case Signal =>
      if s.phase.TermDue? then
        var t := if s.life.Gone? then s.trace else s.trace + [Sent(s.now, Term)];
        Some(s.(phase := GraceWait(s.now), trace := t))
      else if s.phase.KillDue? then
        var t := if s.life.Gone? then s.trace else s.trace + [Sent(s.now, Kill)];
        Some(s.(phase := LastWait, trace := t))
      else None
    case WaitFails => if Waiting(s.phase) then Some(s.(phase := Broken)) else None
    case StreamsEnd =>
      if s.phase.Draining? then
        Some(s.(phase := Finished(s.phase.status), trace := s.trace + [Returned(s.now, s.phase.status)]))
      else None
  }

  function Run(es: seq<Event>, maxTick: nat): Option<State> {
    if es == [] then Some(SPAWNED)
    else
      var before := Run(es[..|es| - 1], maxTick);
      if before.None? then None else Step(before.value, es[|es| - 1], maxTick)
  }

  // ----- What a trace may contain -----

  predicate Before(t: seq<Action>, a: Action) {
    exists i :: 0 <= i < |t| && t[i] == a
  }

  predicate ExitKnown(t: seq<Action>, until: nat, status: Status) {
    exists e :: 0 <= e <= until && Before(t, Exited(e, status))
  }

  predicate ReapKnown(t: seq<Action>, until: nat, status: Status) {
    exists e :: 0 <= e <= until && Before(t, Reaped(e, status))
  }

  predicate NoneReaped(t: seq<Action>) {
    forall i :: 0 <= i < |t| ==> !t[i].Reaped?
  }

  predicate NoneSent(t: seq<Action>, signal: Signal) {
    forall i :: 0 <= i < |t| ==> t[i].Sent? ==> t[i].signal != signal
  }

  predicate NoExitBefore(t: seq<Action>, at: nat) {
    forall i :: 0 <= i < |t| ==> t[i].Exited? ==> t[i].at >= at
  }

  predicate NoneExited(t: seq<Action>) {
    forall i :: 0 <= i < |t| ==> !t[i].Exited?
  }

  predicate NoneReturned(t: seq<Action>) {
    forall i :: 0 <= i < |t| ==> !t[i].Returned?
  }

  /** Some polite signal went out at least a grace period earlier, and the process outlived it. */
  predicate GraceIgnored(t: seq<Action>, at: nat) {
    exists i :: 0 <= i < |t| && t[i].Sent? && t[i].signal == Term && t[i].at + 10 <= at
                && NoExitBefore(t, t[i].at + 10)
  }

  /** Whether the action may follow the earlier ones. */
  predicate Allowed(t: seq<Action>, a: Action, maxTick: nat) {
    match a
    case Exited(_, _) => NoneExited(t)
    case Reaped(at, status) => NoneReaped(t) && ExitKnown(t, at, status)
    case Sent(at, Term) =>
      at >= maxTick && NoExitBefore(t, maxTick) && NoneSent(t, Term) && NoneSent(t, Kill) && NoneReaped(t)
    case Sent(at, Kill) => GraceIgnored(t, at) && NoneSent(t, Kill) && NoneReaped(t)
    case Returned(at, status) => NoneReturned(t) && ReapKnown(t, at, status)
  }

  ghost predicate Respectful(t: seq<Action>, maxTick: nat) {
    forall i :: 0 <= i < |t| ==> Allowed(t[..i], t[i], maxTick)
  }

  lemma RespectfulGrows(t: seq<Action>, a: Action, maxTick: nat)
    requires Respectful(t, maxTick) && Allowed(t, a, maxTick)
    ensures Respectful(t + [a], maxTick)
  {
    var t' := t + [a];
    assert t'[..|t|] == t;
    forall i | 0 <= i < |t'|
      ensures Allowed(t'[..i], t'[i], maxTick)
    {
      if i < |t| {
        assert t'[..i] == t[..i];
      }
    }
  }

  // ----- The invariant -----

  ghost predicate LifeAgrees(s: State) {
    match s.life
    case Running => NoneExited(s.trace) && NoneReaped(s.trace)
    case Zombie(status) =>
      NoneReaped(s.trace) && ExitKnown(s.trace, s.now, status)
    case Gone => true
  }

  ghost predicate PhaseAgrees(s: State, maxTick: nat) {
    && (s.phase.FirstWait? ==> NoneSent(s.trace, Term))
    && (s.phase.TermDue? ==> s.now >= maxTick && NoExitBefore(s.trace, maxTick) && NoneSent(s.trace, Term))
    && (s.phase.GraceWait? ==> Before(s.trace, Sent(s.phase.since, Term)))
    && (s.phase.KillDue? ==>
          && Before(s.trace, Sent(s.phase.since, Term)) && s.now >= s.phase.since + GRACE
          && NoExitBefore(s.trace, s.phase.since + GRACE))
    && (s.phase.FirstWait? || s.phase.TermDue? || s.phase.GraceWait? || s.phase.KillDue? ==>
          NoneSent(s.trace, Kill))
  }

  ghost predicate EndAgrees(s: State) {
    && (Waiting(s.phase) || s.phase.TermDue? || s.phase.KillDue? ==> !s.life.Gone?)
    && (s.phase.Draining? ==> ReapKnown(s.trace, s.now, s.phase.status))
    && (!s.phase.Finished? ==> NoneReturned(s.trace))
    && (s.phase.Finished? ==> s.life.Gone?)
    && (s.phase.Draining? ==> s.life.Gone?)
  }

  ghost predicate Inv(s: State, maxTick: nat) {
    Respectful(s.trace, maxTick) && LifeAgrees(s) && PhaseAgrees(s, maxTick) && EndAgrees(s)
  }

  lemma BeforeGrows(t: seq<Action>, a: Action)
    ensures Before(t + [a], a)
    ensures forall b :: Before(t, b) ==> Before(t + [a], b)
  {
    assert (t + [a])[|t|] == a;
    forall b | Before(t, b)
      ensures Before(t + [a], b)
    {
      var i :| 0 <= i < |t| && t[i] == b;
      assert (t + [a])[i] == b;
    }
  }

  /** A step that acts does what its turn allows. */
  lemma ActsInTurn(s: State, e: Event, maxTick: nat)
    requires Inv(s, maxTick) && Step(s, e, maxTick).Some?
    ensures var s' := Step(s, e, maxTick).value;
      s'.trace == s.trace || exists a :: s'.trace == s.trace + [a] && Allowed(s.trace, a, maxTick)
  {
    var s' := Step(s, e, maxTick).value;
    if s'.trace != s.trace {
      var a := s'.trace[|s.trace|];
      assert s'.trace == s.trace + [a];
      if e.Signal? && s.phase.KillDue? {
        var i :| 0 <= i < |s.trace| && s.trace[i] == Sent(s.phase.since, Term);
        assert GraceIgnored(s.trace, s.now);
      }
    }
  }

  lemma TraceKeeps(s: State, e: Event, maxTick: nat)
    requires Inv(s, maxTick) && Step(s, e, maxTick).Some?
    ensures Respectful(Step(s, e, maxTick).value.trace, maxTick)
    ensures forall b :: Before(s.trace, b) ==> Before(Step(s, e, maxTick).value.trace, b)
  {
    var s' := Step(s, e, maxTick).value;
    ActsInTurn(s, e, maxTick);
    if s'.trace != s.trace {
      var a :| s'.trace == s.trace + [a] && Allowed(s.trace, a, maxTick);
      BeforeGrows(s.trace, a);
      RespectfulGrows(s.trace, a, maxTick);
    }
  }

  lemma KnownStays(t: seq<Action>, t': seq<Action>, now: nat, now': nat)
    requires now <= now' && forall b :: Before(t, b) ==> Before(t', b)
    ensures forall status :: ExitKnown(t, now, status) ==> ExitKnown(t', now', status)
    ensures forall status :: ReapKnown(t, now, status) ==> ReapKnown(t', now', status)
  {
  }

  lemma LifeKeeps(s: State, e: Event, maxTick: nat)
    requires Inv(s, maxTick) && Step(s, e, maxTick).Some?
    ensures LifeAgrees(Step(s, e, maxTick).value)
  {
    var s' := Step(s, e, maxTick).value;
    TraceKeeps(s, e, maxTick);
    KnownStays(s.trace, s'.trace, s.now, s'.now);
    if e.Exit? {
      BeforeGrows(s.trace, Exited(s.now, e.status));
    }
  }

  lemma SignalKeeps(s: State, maxTick: nat)
    requires Inv(s, maxTick) && Step(s, Signal, maxTick).Some?
    ensures PhaseAgrees(Step(s, Signal, maxTick).value, maxTick)
  {
    if s.phase.TermDue? {
      BeforeGrows(s.trace, Sent(s.now, Term));
    }
  }

  lemma PhaseKeeps(s: State, e: Event, maxTick: nat)
    requires Inv(s, maxTick) && Step(s, e, maxTick).Some? && !e.Signal?
    ensures PhaseAgrees(Step(s, e, maxTick).value, maxTick)
  {
    TraceKeeps(s, e, maxTick);
  }

  lemma EndKeeps(s: State, e: Event, maxTick: nat)
    requires Inv(s, maxTick) && Step(s, e, maxTick).Some?
    ensures EndAgrees(Step(s, e, maxTick).value)
  {
    var s' := Step(s, e, maxTick).value;
    TraceKeeps(s, e, maxTick);
    KnownStays(s.trace, s'.trace, s.now, s'.now);
    if e.Poll? {
      BeforeGrows(s.trace, Reaped(s.now, s.life.status));
    }
  }

  lemma StepKeeps(s: State, e: Event, maxTick: nat)
    requires Inv(s, maxTick) && Step(s, e, maxTick).Some?
    ensures Inv(Step(s, e, maxTick).value, maxTick)
  {
    TraceKeeps(s, e, maxTick);
    LifeKeeps(s, e, maxTick);
    EndKeeps(s, e, maxTick);
    if e.Signal? {
      SignalKeeps(s, maxTick);
    } else {
      PhaseKeeps(s, e, maxTick);
    }
  }

  lemma {:induction false} RunKeeps(es: seq<Event>, maxTick: nat)
    requires Run(es, maxTick).Some?
    ensures Inv(Run(es, maxTick).value, maxTick)
  {
    if es != [] {
      RunKeeps(es[..|es| - 1], maxTick);
      StepKeeps(Run(es[..|es| - 1], maxTick).value, es[|es| - 1], maxTick);
    }
  }

  /** In every run the escalation is respected: no SIGTERM before the limit or to a process that
      exited before it, no SIGKILL without a SIGTERM outlived by ten seconds, each at most once, none
      after reaping, and a result only for a reaped process, with the status it exited with. */
  lemma EscalationRespected(es: seq<Event>, maxTick: nat)
    requires Run(es, maxTick).Some?
    ensures Respectful(Run(es, maxTick).value.trace, maxTick)
    ensures Run(es, maxTick).value.phase.Finished? ==> Run(es, maxTick).value.life.Gone?
  {
    RunKeeps(es, maxTick);
  }

  /** A process that has exited can be reaped and answered for: from every state the invariant admits,
      short of an error, at most three of the daemon's own steps lead to the result carrying its status. */
  lemma ExitIsAnswered(s: State, maxTick: nat)
    requires Inv(s, maxTick) && s.life.Zombie? && !s.phase.Broken?
    ensures exists es: seq<Event> :: |es| <= 3 && Answered(s, es, maxTick)
  {
    var status := s.life.status;
    if Waiting(s.phase) {
      assert Answered(s, [Poll, StreamsEnd], maxTick) by {
        AfterPoll(s, maxTick);
      }
    } else if s.phase.TermDue? || s.phase.KillDue? {
      var s1 := Step(s, Signal, maxTick).value;
      AfterPoll(s1, maxTick);
      assert [Signal, Poll, StreamsEnd][1..] == [Poll, StreamsEnd];
      assert Answered(s, [Signal, Poll, StreamsEnd], maxTick);
    }
  }

  function Follow(s: State, es: seq<Event>, maxTick: nat): Option<State>
    decreases |es|
  {
    if es == [] then Some(s)
    else
      var next := Step(s, es[0], maxTick);
      if next.None? then None else Follow(next.value, es[1..], maxTick)
  }

  predicate DaemonStep(e: Event) {
    e.Poll? || e.Timeout? || e.Signal? || e.StreamsEnd?
  }

  predicate Answered(s: State, es: seq<Event>, maxTick: nat)
    requires s.life.Zombie?
  {
    && (forall i :: 0 <= i < |es| ==> DaemonStep(es[i]))
    && Follow(s, es, maxTick).Some?
    && Follow(s, es, maxTick).value.phase == Finished(s.life.status)
  }

  lemma AfterPoll(s: State, maxTick: nat)
    requires Waiting(s.phase) && s.life.Zombie?
    ensures Answered(s, [Poll, StreamsEnd], maxTick)
  {
    var s1 := Step(s, Poll, maxTick).value;
    var s2 := Step(s1, StreamsEnd, maxTick).value;
    assert [Poll, StreamsEnd][1..] == [StreamsEnd];
    assert [StreamsEnd][1..] == [];
    assert Follow(s2, [], maxTick) == Some(s2);
    assert Follow(s1, [StreamsEnd], maxTick) == Some(s2);
    assert Follow(s, [Poll, StreamsEnd], maxTick) == Some(s2);
  }

  // ----- A hung process is ended -----

  function Later(a: nat, b: nat): nat {
    if a < b then b else a
  }

  lemma RunOneMore(es: seq<Event>, s: State, e: Event, maxTick: nat)
    requires Run(es, maxTick) == Some(s)
    ensures Run(es + [e], maxTick) == Step(s, e, maxTick)
  {
    assert (es + [e])[..|es|] == es;
  }

  /** Time, and the daemon's own steps: what happens while the process does nothing and nothing breaks. */
  predicate Undisturbed(e: Event) {
    e.Elapse? || e.Timeout? || e.Signal?
  }

  /** es' continues es by nothing else. */
  predicate Continues(es': seq<Event>, es: seq<Event>) {
    es <= es' && forall i :: |es| <= i < |es'| ==> Undisturbed(es'[i])
  }

  lemma TimeoutThenSignal(es: seq<Event>, s: State, wait: nat, maxTick: nat) returns (es': seq<Event>, s': State)
    requires Run(es, maxTick) == Some(s) && s.life.Running?
    requires || (s.phase.FirstWait? && s.now + wait >= maxTick)
             || (s.phase.GraceWait? && s.now + wait >= s.phase.since + 10)
    ensures Run(es', maxTick) == Some(s') && Continues(es', es)
    ensures s'.now == s.now + wait && s'.life.Running?
    ensures s.phase.FirstWait? ==> s'.phase == GraceWait(s'.now) && s'.trace == s.trace + [Sent(s'.now, Term)]
    ensures s.phase.GraceWait? ==> s'.phase == LastWait && s'.trace == s.trace + [Sent(s'.now, Kill)]
  {
    var es1 := es + [Elapse(wait)];
    var es2 := es1 + [Timeout];
    es' := es2 + [Signal];
    RunOneMore(es, s, Elapse(wait), maxTick);
    var s1 := Step(s, Elapse(wait), maxTick).value;
    RunOneMore(es1, s1, Timeout, maxTick);
    var s2 := Step(s1, Timeout, maxTick).value;
    RunOneMore(es2, s2, Signal, maxTick);
    s' := Step(s2, Signal, maxTick).value;
  }

  /** Whatever has happened so far, a process still running once the limit is over gets SIGTERM with no other
      event needed than time: at the limit, or at once if that is past. */
  lemma TermFollows(es: seq<Event>, s: State, maxTick: nat) returns (es': seq<Event>, s': State)
    requires Run(es, maxTick) == Some(s) && s.life.Running? && s.phase.FirstWait?
    ensures Run(es', maxTick) == Some(s') && Continues(es', es) && s'.life.Running?
    ensures s'.phase == GraceWait(s'.now) && s'.now == Later(s.now, maxTick)
    ensures s'.trace == s.trace + [Sent(Later(s.now, maxTick), Term)]
  {
    es', s' := TimeoutThenSignal(es, s, Later(s.now, maxTick) - s.now, maxTick);
  }

  /** And one that outlives the ten seconds after it gets SIGKILL, at their end or at once if that is past. */
  lemma KillFollows(es: seq<Event>, s: State, maxTick: nat) returns (es': seq<Event>, s': State)
    requires Run(es, maxTick) == Some(s) && s.life.Running? && s.phase.GraceWait?
    ensures Run(es', maxTick) == Some(s') && Continues(es', es) && s'.life.Running? && s'.phase == LastWait
    ensures s'.trace == s.trace + [Sent(Later(s.now, s.phase.since + 10), Kill)]
    ensures s'.now == Later(s.now, s.phase.since + 10)
  {
    es', s' := TimeoutThenSignal(es, s, Later(s.now, s.phase.since + 10) - s.now, maxTick);
  }

  lemma SignalDue(es: seq<Event>, s: State, maxTick: nat) returns (es': seq<Event>, s': State)
    requires Run(es, maxTick) == Some(s) && s.life.Running? && (s.phase.TermDue? || s.phase.KillDue?)
    ensures Run(es', maxTick) == Some(s') && Continues(es', es) && s'.life.Running? && s'.now == s.now
    ensures s'.phase == (if s.phase.TermDue? then GraceWait(s.now) else LastWait)
    ensures s'.trace == s.trace + [Sent(s.now, if s.phase.TermDue? then Term else Kill)]
  {
    RunOneMore(es, s, Signal, maxTick);
    es', s' := es + [Signal], Step(s, Signal, maxTick).value;
  }

  predicate WasSent(t: seq<Action>, signal: Signal) {
    exists i :: 0 <= i < |t| && t[i].Sent? && t[i].signal == signal
  }

  lemma SentStays(t: seq<Action>, a: Action)
    ensures forall signal :: WasSent(t, signal) ==> WasSent(t + [a], signal)
    ensures a.Sent? ==> WasSent(t + [a], a.signal)
  {
    forall signal | WasSent(t, signal)
      ensures WasSent(t + [a], signal)
    {
      var i :| 0 <= i < |t| && t[i].Sent? && t[i].signal == signal;
      assert (t + [a])[i] == t[i];
    }
    assert (t + [a])[|t|] == a;
  }

  /** Which signals each phase has behind it. */
  lemma {:induction false} PhaseSent(es: seq<Event>, maxTick: nat)
    requires Run(es, maxTick).Some?
    ensures var s := Run(es, maxTick).value;
      && (s.phase.GraceWait? || s.phase.KillDue? || s.phase.LastWait? ==> WasSent(s.trace, Term))
      && (s.phase.LastWait? ==> WasSent(s.trace, Kill))
  {
    if es != [] {
      var before, e := es[..|es| - 1], es[|es| - 1];
      var s, s' := Run(before, maxTick).value, Run(es, maxTick).value;
      PhaseSent(before, maxTick);
      RunKeeps(before, maxTick);
      if s'.trace != s.trace {
        SentStays(s.trace, s'.trace[|s.trace|]);
        assert s'.trace == s.trace + [s'.trace[|s.trace|]];
      }
    }
  }

  /** In every run whose process hangs and whose wait has not failed, the passing of time alone brings both
      signals. */
  lemma HungIsSignalled(es: seq<Event>, maxTick: nat) returns (es': seq<Event>)
    requires Run(es, maxTick).Some? && Run(es, maxTick).value.life.Running?
    requires !Run(es, maxTick).value.phase.Broken?
    ensures Run(es', maxTick).Some? && Continues(es', es)
    ensures var s' := Run(es', maxTick).value;
      s'.phase == LastWait && WasSent(s'.trace, Term) && WasSent(s'.trace, Kill)
  {
    var s := Run(es, maxTick).value;
    RunKeeps(es, maxTick);
    es' := es;
    if s.phase.FirstWait? {
      es', s := TermFollows(es', s, maxTick);
    } else if s.phase.TermDue? {
      es', s := SignalDue(es', s, maxTick);
    }
    if s.phase.GraceWait? {
      es', s := KillFollows(es', s, maxTick);
    } else if s.phase.KillDue? {
      es', s := SignalDue(es', s, maxTick);
    }
    PhaseSent(es', maxTick);
  }

  // ----- Whole runs -----

  lemma RunExit(es: seq<Event>, s: State, after: nat, status: Status, maxTick: nat)
    returns (es': seq<Event>, s': State)
    requires Run(es, maxTick) == Some(s) && s.life.Running?
    ensures Run(es', maxTick) == Some(s') && s'.phase == s.phase && s'.life == Zombie(status)
    ensures s'.now == s.now + after && s'.trace == s.trace + [Exited(s.now + after, status)]
  {
    var es1 := es + [Elapse(after)];
    RunOneMore(es, s, Elapse(after), maxTick);
    var s1 := Step(s, Elapse(after), maxTick).value;
    RunOneMore(es1, s1, Exit(status), maxTick);
    es', s' := es1 + [Exit(status)], Step(s1, Exit(status), maxTick).value;
  }

  lemma RunReturn(es: seq<Event>, s: State, status: Status, maxTick: nat) returns (es': seq<Event>, s': State)
    requires Run(es, maxTick) == Some(s) && s.life == Zombie(status) && Waiting(s.phase)
    ensures Run(es', maxTick) == Some(s') && s'.phase == Finished(status)
    ensures s'.trace == s.trace + [Reaped(s.now, status)] + [Returned(s.now, status)]
  {
    var es1 := es + [Poll];
    RunOneMore(es, s, Poll, maxTick);
    var s1 := Step(s, Poll, maxTick).value;
    RunOneMore(es1, s1, StreamsEnd, maxTick);
    es', s' := es1 + [StreamsEnd], Step(s1, StreamsEnd, maxTick).value;
  }

  lemma ExitThenReturn(es: seq<Event>, s: State, after: nat, status: Status, maxTick: nat)
    returns (es': seq<Event>, s': State)
    requires Run(es, maxTick) == Some(s) && s.life.Running? && Waiting(s.phase)
    ensures Run(es', maxTick) == Some(s') && s'.phase == Finished(status)
    ensures s'.trace == s.trace + [Exited(s.now + after, status), Reaped(s.now + after, status),
                                   Returned(s.now + after, status)]
  {
    var es1, s1 := RunExit(es, s, after, status, maxTick);
    es', s' := RunReturn(es1, s1, status, maxTick);
  }

  lemma NotBegun(none: seq<Event>, maxTick: nat)
    requires none == []
    ensures Run(none, maxTick) == Some(SPAWNED)
  {
  }

  /** For every limit, a process that exits in time is never signalled. */
  lemma QuickRun(maxTick: nat, after: nat, status: Status) returns (es: seq<Event>)
    ensures Run(es, maxTick).Some?
    ensures Run(es, maxTick).value.trace == [Exited(after, status), Reaped(after, status), Returned(after, status)]
  {
    var s;
    NotBegun([], maxTick);
    es, s := ExitThenReturn([], SPAWNED, after, status, maxTick);
    assert SPAWNED.now + after == after;
  }

  /** One that heeds SIGTERM is only asked. */
  lemma AskedRun(maxTick: nat, after: nat, status: Status) returns (es: seq<Event>)
    ensures Run(es, maxTick).Some?
    ensures Run(es, maxTick).value.trace ==
            [Sent(maxTick, Term), Exited(maxTick + after, status), Reaped(maxTick + after, status),
             Returned(maxTick + after, status)]
  {
    var s;
    NotBegun([], maxTick);
    var termed, t := TermFollows([], SPAWNED, maxTick);
    es, s := ExitThenReturn(termed, t, after, status, maxTick);
  }

  /** And one that does not is killed ten seconds later. Each is answered for with its status. */
  lemma KilledRun(maxTick: nat, after: nat, status: Status) returns (es: seq<Event>)
    ensures Run(es, maxTick).Some? && Run(es, maxTick).value.phase == Finished(status)
    ensures Run(es, maxTick).value.trace ==
            [Sent(maxTick, Term), Sent(maxTick + 10, Kill), Exited(maxTick + 10 + after, status),
             Reaped(maxTick + 10 + after, status), Returned(maxTick + 10 + after, status)]
  {
    var s;
    NotBegun([], maxTick);
    var termed, t := TermFollows([], SPAWNED, maxTick);
    var killed, k := KillFollows(termed, t, maxTick);
    assert k.trace == [Sent(maxTick, Term), Sent(maxTick + 10, Kill)];
    es, s := ExitThenReturn(killed, k, after, status, maxTick);
  }
}
