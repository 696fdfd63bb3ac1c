/** What holds in every run of the daemon. */
module DaemonProperties {
  import opened Wrappers
  import opened Lists
  import opened Outcomes
  import opened Daemon

  // ----- Tick requests -----

  predicate Pending(s: State) {
    s.permit || At(s.phase, Woken)
  }

  function StartsRound(e: Event): bool {
    e.TakeRequest? || e.TakeTimer?
  }

  /** A request came after the latest round began. */
  function Owed(es: seq<Event>): bool {
    es != [] &&
    (es[|es| - 1].Request? || (!StartsRound(es[|es| - 1]) && Owed(es[..|es| - 1])))
  }

  function Tokens(s: State): nat {
    (if s.permit then 1 else 0) + (if At(s.phase, Woken) then 1 else 0)
  }

  predicate NotifyOk(s: State) {
    At(s.phase, Waiting) ==> !s.permit
  }

  lemma NotifyKept(u: Setup, s: State, e: Event)
    requires NotifyOk(s) && Step(u, s, e).Some?
    ensures NotifyOk(Step(u, s, e).value)
    ensures Tokens(Step(u, s, e).value) <= Tokens(s) + (if e.Request? then 1 else 0) - (if e.TakeRequest? then 1 else 0)
    ensures !StartsRound(e) && (Pending(s) || e.Request?) ==>
              Pending(Step(u, s, e).value) || Step(u, s, e).value.phase.Down?
  {
    match e
    case Tend(_) =>
    case EndRound =>
    case TakeRequest(_) =>
    case TakeTimer(_) =>
    case Request =>
    case _ =>
  }

  lemma {:induction false} NotifyInvariant(u: Setup, s0: State, es: seq<Event>)
    requires Started(u, s0) && Run(u, s0, es).Some?
    ensures NotifyOk(Run(u, s0, es).value)
    ensures Owed(es) ==> Pending(Run(u, s0, es).value) || Run(u, s0, es).value.phase.Down?
  {
    if es != [] {
      var before := es[..|es| - 1];
      NotifyInvariant(u, s0, before);
      NotifyKept(u, Run(u, s0, before).value, es[|es| - 1]);
    }
  }

  lemma {:induction false} OwedIff(es: seq<Event>)
    ensures Owed(es) <==>
      exists i :: 0 <= i < |es| && es[i].Request? && forall j :: i < j < |es| ==> !StartsRound(es[j])
  {
    if es != [] {
      var n := |es| - 1;
      OwedIff(es[..n]);
      if Owed(es) && !es[n].Request? {
        var i :| 0 <= i < n && es[..n][i].Request? && forall j :: i < j < n ==> !StartsRound(es[..n][j]);
        assert es[i].Request?;
        assert forall j :: i < j < |es| ==> !StartsRound(es[j]);
      }
      if i :| 0 <= i < |es| && es[i].Request? && forall j :: i < j < |es| ==> !StartsRound(es[j]) {
        if i < n {
          assert es[..n][i].Request? && forall j :: i < j < n ==> !StartsRound(es[..n][j]);
        }
      }
    }
  }

  /** No request is lost: until a later round starts or the daemon is down, one accepted in any
      interleaving leaves a permit or a woken waiter. */
  lemma {:induction false} NoRequestLost(u: Setup, s0: State, es: seq<Event>, i: nat)
    requires Started(u, s0) && Run(u, s0, es).Some?
    requires i < |es| && es[i].Request? && forall j :: i < j < |es| ==> !StartsRound(es[j])
    ensures Pending(Run(u, s0, es).value) || Run(u, s0, es).value.phase.Down?
  {
    OwedIff(es);
    NotifyInvariant(u, s0, es);
  }

  /** And what is pending is served: at the next select, a round can start at once. */
  lemma PendingIsServed(u: Setup, s: State, at: nat)
    requires Pending(s) && s.phase.Selecting? && NotifyOk(s)
    ensures Step(u, s, TakeRequest(at)).Some? && Step(u, s, TakeRequest(at)).value.phase == Starting(at)
    ensures Tokens(Step(u, s, TakeRequest(at)).value) == Tokens(s) - 1
  {
  }

  const IS_TIMER := (e: Event) => e.TakeTimer?
  const IS_REQUEST := (e: Event) => e.Request?
  const IS_START := (e: Event) => StartsRound(e)

  /** Requests coalesce: the rounds that follow the first one are never more than the timer expiries
      and the requests, those still pending included. */
  lemma {:induction false} RoundsBounded(u: Setup, s0: State, es: seq<Event>)
    requires Started(u, s0) && Run(u, s0, es).Some?
    ensures Count(es, IS_START) + Tokens(Run(u, s0, es).value) <= Count(es, IS_TIMER) + Count(es, IS_REQUEST)
  {
    if es != [] {
      var before := es[..|es| - 1];
      RoundsBounded(u, s0, before);
      NotifyInvariant(u, s0, before);
      NotifyKept(u, Run(u, s0, before).value, es[|es| - 1]);
    }
  }

  function Requests(n: nat): seq<Event> {
    if n == 0 then [] else Requests(n - 1) + [Request]
  }

  function Notified(s: State, n: nat): State {
    if n == 0 then s else Notify(Notified(s, n - 1))
  }

  /** The number of notifications that tell in the end. */
  function Telling(s: State, n: nat): nat {
    if n > 1 && At(s.phase, Waiting) then 2 else if n > 0 then 1 else 0
  }

  lemma NotifyAgain(s: State)
    ensures !At(s.phase, Waiting) ==> Notify(Notify(s)) == Notify(s)
    ensures !At(Notify(s).phase, Waiting) && (Notify(s).phase.Down? <==> s.phase.Down?)
  {
  }

  lemma {:induction false} NotifiedIs(s: State, n: nat)
    ensures Notified(s, n) ==
            if n == 0 then s else if n > 1 && At(s.phase, Waiting) then Notify(Notify(s)) else Notify(s)
    ensures Notified(s, n).phase.Down? <==> s.phase.Down?
  {
    if n > 0 {
      NotifiedIs(s, n - 1);
      NotifyAgain(s);
      NotifyAgain(Notify(s));
    }
  }

  lemma RunOneMore(u: Setup, s0: State, es: seq<Event>, s: State, e: Event)
    requires Run(u, s0, es) == Some(s)
    ensures Run(u, s0, es + [e]) == Step(u, s, e)
  {
    assert (es + [e])[..|es|] == es;
  }

  lemma StepRequest(u: Setup, s: State)
    requires !s.phase.Down?
    ensures Step(u, s, Request) == Some(Notify(s))
  {
  }

  lemma RunRequest(u: Setup, s0: State, es: seq<Event>, s: State)
    requires Run(u, s0, es) == Some(s) && !s.phase.Down?
    ensures Run(u, s0, es + [Request]) == Some(Notify(s))
  {
    RunOneMore(u, s0, es, s, Request);
    StepRequest(u, s);
  }

  lemma RequestsGrow(es: seq<Event>, n: nat)
    ensures es + Requests(n + 1) == es + Requests(n) + [Request]
  {
  }

  lemma {:induction false} RequestsNotify(u: Setup, s0: State, es: seq<Event>, s: State, n: nat)
    requires Run(u, s0, es) == Some(s) && !s.phase.Down?
    ensures Run(u, s0, es + Requests(n)) == Some(Notified(s, n))
  {
    if n == 0 {
      assert es + Requests(n) == es;
    } else {
      RequestsNotify(u, s0, es, s, n - 1);
      NotifiedIs(s, n - 1);
      RunRequest(u, s0, es + Requests(n - 1), Notified(s, n - 1));
      RequestsGrow(es, n - 1);
    }
  }

  /** However many requests arrive one after another, they do what one of them does, or two if the loop
      was registered to be woken; and in no run is more than one pending outside the select, or more than
      two in it. */
  lemma RequestsCoalesce(u: Setup, s0: State, es: seq<Event>, s: State, n: nat)
    requires Run(u, s0, es) == Some(s) && !s.phase.Down?
    ensures Run(u, s0, es + Requests(n)) == Run(u, s0, es + Requests(Telling(s, n)))
    ensures Tokens(s) <= (if s.phase.Selecting? then 2 else 1)
  {
    RequestsNotify(u, s0, es, s, n);
    RequestsNotify(u, s0, es, s, Telling(s, n));
    NotifiedIs(s, n);
    NotifiedIs(s, Telling(s, n));
  }

  // ----- Rounds -----

  predicate RowsMatch(attempts: seq<Attempt>, roots: seq<string>) {
    |attempts| <= |roots| && forall i :: 0 <= i < |attempts| ==> attempts[i].row.memoryRoot == roots[i]
  }

  predicate Uniform(attempts: seq<Attempt>, dryRun: bool) {
    forall i :: 0 <= i < |attempts| ==> attempts[i].row.dryRun == dryRun
  }

  predicate FinishedOk(roots: seq<string>, finished: seq<seq<Attempt>>, flags: seq<bool>) {
    && |finished| <= |flags|
    && forall i :: 0 <= i < |finished| ==>
         RowsMatch(finished[i], roots) && |finished[i]| == |roots| && Uniform(finished[i], flags[i])
  }

  /** The flag the round in progress has read, if it has. */
  function RoundFlag(s: State): seq<bool> {
    if s.phase.Tending? then [s.phase.dryRun] else []
  }

  predicate CurrentOk(roots: seq<string>, current: seq<Attempt>, flag: seq<bool>) {
    && RowsMatch(current, roots)
    && if |flag| == 1 then Uniform(current, flag[0]) else current == []
  }

  predicate RoundsOk(u: Setup, s: State) {
    && FinishedOk(u.roots, s.finished, s.flagsRead) && CurrentOk(u.roots, s.current, RoundFlag(s))
    && |s.flagsRead| == |s.finished| + |RoundFlag(s)|
    && RoundFlag(s) == s.flagsRead[|s.finished|..]
  }

  /** How a step changes the rounds. */
  lemma StepRounds(u: Setup, s: State, e: Event)
    requires Step(u, s, e).Some?
    ensures var s' := Step(u, s, e).value;
      && s'.finished == (if e.EndRound? then s.finished + [s.current] else s.finished)
      && s'.current == (if e.EndRound? then [] else if e.Tend? then s.current + [e.attempt] else s.current)
  {
    match e
    case Tend(_) =>
    case EndRound =>
    case TakeRequest(_) =>
    case TakeTimer(_) =>
    case Request =>
    case _ =>
  }

  lemma StepRoundFlag(u: Setup, s: State, e: Event)
    requires Step(u, s, e).Some?
    ensures RoundFlag(Step(u, s, e).value) ==
            if e.ReadFlag? then [s.flag] else if e.EndRound? then [] else RoundFlag(s)
    ensures e.ReadFlag? ==> RoundFlag(s) == []
    ensures e.EndRound? ==> |RoundFlag(s)| == 1 && |s.current| == |u.roots|
    ensures e.Tend? ==> |RoundFlag(s)| == 1 && e.attempt.row.dryRun == RoundFlag(s)[0]
    ensures e.Tend? ==> |s.current| < |u.roots| && e.attempt.row.memoryRoot == u.roots[|s.current|]
  {
    match e
    case Tend(_) =>
    case EndRound =>
    case TakeRequest(_) =>
    case TakeTimer(_) =>
    case Request =>
    case _ =>
  }

  lemma RoundsKept(u: Setup, s: State, e: Event)
    requires RoundsOk(u, s) && Step(u, s, e).Some?
    ensures RoundsOk(u, Step(u, s, e).value)
  {
    StepRounds(u, s, e);
    StepRoundFlag(u, s, e);
    StepFlags(u, s, e);
    RoundsFollow(u, s, Step(u, s, e).value, e);
  }

  lemma RoundsFollow(u: Setup, s: State, s': State, e: Event)
    requires RoundsOk(u, s)
    requires s'.finished == (if e.EndRound? then s.finished + [s.current] else s.finished)
    requires s'.current == (if e.EndRound? then [] else if e.Tend? then s.current + [e.attempt] else s.current)
    requires RoundFlag(s') == if e.ReadFlag? then [s.flag] else if e.EndRound? then [] else RoundFlag(s)
    requires s'.flagsRead == if e.ReadFlag? then s.flagsRead + [s.flag] else s.flagsRead
    requires e.ReadFlag? ==> RoundFlag(s) == []
    requires e.EndRound? ==> |RoundFlag(s)| == 1 && |s.current| == |u.roots|
    requires e.Tend? ==> |RoundFlag(s)| == 1 && e.attempt.row.dryRun == RoundFlag(s)[0]
    requires e.Tend? ==> |s.current| < |u.roots| && e.attempt.row.memoryRoot == u.roots[|s.current|]
    ensures RoundsOk(u, s')
  {
  }

  lemma {:induction false} RoundsInvariant(u: Setup, s0: State, es: seq<Event>)
    requires Started(u, s0) && Run(u, s0, es).Some?
    ensures RoundsOk(u, Run(u, s0, es).value)
  {
    if es != [] {
      var before := es[..|es| - 1];
      RoundsInvariant(u, s0, before);
      RoundsKept(u, Run(u, s0, before).value, es[|es| - 1]);
    }
  }

  /** The flag as the toggles alone make it. */
  function FlagAfter(es: seq<Event>, flag: bool): bool {
    if es == [] then flag
    else if es[|es| - 1].Toggle? then es[|es| - 1].value
    else FlagAfter(es[..|es| - 1], flag)
  }

  /** What each round's one look at the flag found. */
  function FlagsSeen(es: seq<Event>, flag: bool): seq<bool> {
    if es == [] then []
    else
      var before := es[..|es| - 1];
      FlagsSeen(before, flag) + (if es[|es| - 1].ReadFlag? then [FlagAfter(before, flag)] else [])
  }

  lemma StepFlags(u: Setup, s: State, e: Event)
    requires Step(u, s, e).Some?
    ensures Step(u, s, e).value.flag == if e.Toggle? then e.value else s.flag
    ensures Step(u, s, e).value.flagsRead == if e.ReadFlag? then s.flagsRead + [s.flag] else s.flagsRead
  {
    match e
    case Tend(_) =>
    case EndRound =>
    case TakeRequest(_) =>
    case TakeTimer(_) =>
    case Request =>
    case _ =>
  }

  lemma {:induction false} FlagsAreSeen(u: Setup, s0: State, es: seq<Event>)
    requires Started(u, s0) && Run(u, s0, es).Some?
    ensures Run(u, s0, es).value.flag == FlagAfter(es, s0.flag)
    ensures Run(u, s0, es).value.flagsRead == FlagsSeen(es, s0.flag)
  {
    if es != [] {
      var before := es[..|es| - 1];
      FlagsAreSeen(u, s0, before);
      StepFlags(u, Run(u, s0, before).value, es[|es| - 1]);
    }
  }

  /** However toggles interleave, a finished round has one attempt per root, in order, and all its rows
      carry the flag as it stood at the round's one look at it. */
  lemma RoundsComplete(u: Setup, s0: State, es: seq<Event>, i: nat, j: nat)
    requires Started(u, s0) && Run(u, s0, es).Some?
    requires i < |Run(u, s0, es).value.finished| && j < |u.roots|
    ensures var s := Run(u, s0, es).value;
      && |s.finished[i]| == |u.roots| && s.finished[i][j].row.memoryRoot == u.roots[j]
      && i < |FlagsSeen(es, s0.flag)| && s.finished[i][j].row.dryRun == FlagsSeen(es, s0.flag)[i]
  {
    RoundsInvariant(u, s0, es);
    FlagsAreSeen(u, s0, es);
  }

  /** The loop goes down only on a signal at the select or after its one round, never between the roots
      of a round. */
  lemma DownBetweenRounds(u: Setup, s0: State, es: seq<Event>)
    requires Started(u, s0) && Run(u, s0, es).Some? && Run(u, s0, es).value.phase.Down?
    ensures Run(u, s0, es).value.current == []
    ensures es != [] && (es[|es| - 1].TakeShutdown? || (es[|es| - 1].EndRound? && u.once))
    ensures Run(u, s0, es[..|es| - 1]).Some?
    ensures es[|es| - 1].TakeShutdown? ==> Run(u, s0, es[..|es| - 1]).value.signalled
  {
    RoundsInvariant(u, s0, es);
    StepDown(u, Run(u, s0, es[..|es| - 1]).value, es[|es| - 1]);
  }

  lemma StepDown(u: Setup, s: State, e: Event)
    requires Step(u, s, e).Some? && Step(u, s, e).value.phase.Down?
    ensures (e.TakeShutdown? && s.signalled) || (e.EndRound? && u.once)
  {
    match e
    case Tend(_) =>
    case EndRound =>
    case TakeRequest(_) =>
    case TakeTimer(_) =>
    case Request =>
    case _ =>
  }
}
