/** The waiting client (src/bin/mmctl.rs) beside a run of the daemon (src/main.rs): what it is shown, and
    whether the tick it is given began after it asked. */
module TickReplies {
  import opened Wrappers
  import opened Outcomes
  import opened Daemon
  import opened DaemonProperties
  import opened DaemonRecords
  import DaemonHistory
  import WaitForTick

  /** The tick a step puts into the status. */
  function ShownBy(s: State, e: Event): seq<LastTick> {
    if e.Tend? && s.current == [] then [Shown(e.attempt.row)] else []
  }

  /** The round a step begins. */
  function StartedBy(e: Event): seq<nat> {
    if e.TakeRequest? then [e.at] else if e.TakeTimer? then [e.at] else []
  }

  /** What the status has shown so far: the ticks of the primary root, one per round. */
  function Published(u: Setup, s0: State, es: seq<Event>): seq<LastTick> {
    if es == [] then []
    else
      var before := es[..|es| - 1];
      var s := Run(u, s0, before);
      Published(u, s0, before) + (if s.Some? then ShownBy(s.value, es[|es| - 1]) else [])
  }

  /** When each round began, the first one included. */
  function Starts(s0: State, es: seq<Event>): seq<nat>
    requires s0.phase.Starting?
  {
    if es == [] then [s0.phase.startedAt] else Starts(s0, es[..|es| - 1]) + StartedBy(es[|es| - 1])
  }

  /** A round is in progress whose primary root is still to be tended. */
  predicate Untended(s: State) {
    s.phase.Starting? || (s.phase.Tending? && s.current == [])
  }

  /** Rounds and shown ticks correspond: all rounds but one still untended have shown theirs, stamped with
      the round's start. */
  predicate Matched(s: State, published: seq<LastTick>, starts: seq<nat>) {
    && |starts| == |published| + (if Untended(s) then 1 else 0)
    && (forall i :: 0 <= i < |published| ==> published[i].startedAt == starts[i])
    && (s.phase.Starting? || s.phase.Tending? ==> starts != [] && s.phase.startedAt == starts[|starts| - 1])
    && s.lastTick == (if published == [] then None else Some(published[|published| - 1]))
  }

  lemma StepStarting(u: Setup, s: State, e: Event)
    requires Step(u, s, e).Some?
    ensures var s' := Step(u, s, e).value;
      && (e.ReadFlag? ==> s.phase.Starting? && s'.phase.Tending? && s'.phase.startedAt == s.phase.startedAt)
      && (e.Tend? ==> s.phase.Tending? && s'.phase == s.phase && e.attempt.row.startedAt == s.phase.startedAt)
      && (e.EndRound? ==> s.phase.Tending? && |s.current| == |u.roots| && !s'.phase.Starting? && !s'.phase.Tending?)
      && (StartsRound(e) ==> s.phase.Selecting? && s'.phase == Starting(e.at))
      && (!e.ReadFlag? && !e.Tend? && !e.EndRound? && !StartsRound(e) ==>
            && (s'.phase.Starting? <==> s.phase.Starting?) && (s'.phase.Tending? <==> s.phase.Tending?)
            && (s.phase.Starting? || s.phase.Tending? ==> s'.phase == s.phase))
  {
    match e
    case Tend(_) =>
    case EndRound =>
    case TakeRequest(_) =>
    case TakeTimer(_) =>
    case Request =>
    case _ =>
  }

  predicate Busy(p: Phase) {
    p.Starting? || p.Tending?
  }

  lemma MatchedShown(s: State, s': State, published: seq<LastTick>, starts: seq<nat>, t: LastTick)
    requires Matched(s, published, starts) && Untended(s) && !Untended(s')
    requires s.phase.Tending? && s'.phase == s.phase && t.startedAt == s.phase.startedAt && s'.lastTick == Some(t)
    ensures Matched(s', published + [t], starts)
  {
  }

  lemma MatchedStarted(s: State, s': State, published: seq<LastTick>, starts: seq<nat>, at: nat)
    requires Matched(s, published, starts) && !Untended(s) && s'.phase == Starting(at) && s'.lastTick == s.lastTick
    ensures Matched(s', published, starts + [at])
  {
  }

  lemma MatchedOtherwise(s: State, s': State, published: seq<LastTick>, starts: seq<nat>)
    requires Matched(s, published, starts) && s'.lastTick == s.lastTick && (Untended(s) <==> Untended(s'))
    requires Busy(s'.phase) ==> Busy(s.phase) && s'.phase.startedAt == s.phase.startedAt
    ensures Matched(s', published, starts)
  {
  }

  lemma MatchedKept(u: Setup, s: State, e: Event, published: seq<LastTick>, starts: seq<nat>)
    requires Step(u, s, e).Some? && Matched(s, published, starts) && u.roots != [] && RoundsOk(u, s)
    ensures Matched(Step(u, s, e).value, published + ShownBy(s, e), starts + StartedBy(e))
  {
    var s' := Step(u, s, e).value;
    StepStarting(u, s, e);
    StepRounds(u, s, e);
    StepLastTick(u, s, e);
    assert published + [] == published && starts + [] == starts;
    if e.Tend? && s.current == [] {
      MatchedShown(s, s', published, starts, Shown(e.attempt.row));
    } else if StartsRound(e) {
      MatchedStarted(s, s', published, starts, e.at);
    } else {
      MatchedOtherwise(s, s', published, starts);
    }
  }

  lemma {:induction false} RunMatched(u: Setup, s0: State, es: seq<Event>)
    requires Started(u, s0) && Run(u, s0, es).Some?
    ensures Matched(Run(u, s0, es).value, Published(u, s0, es), Starts(s0, es))
  {
    if es != [] {
      var before := es[..|es| - 1];
      RunMatched(u, s0, before);
      RoundsInvariant(u, s0, before);
      MatchedKept(u, Run(u, s0, before).value, es[|es| - 1], Published(u, s0, before), Starts(s0, before));
    }
  }

  // ----- The client's view -----

  lemma {:induction false} PublishedPrefix(u: Setup, s0: State, es: seq<Event>, n: nat)
    requires n <= |es|
    ensures Published(u, s0, es[..n]) <= Published(u, s0, es)
  {
    if n < |es| {
      var before := es[..|es| - 1];
      PublishedPrefix(u, s0, before, n);
      assert before[..n] == es[..n];
    } else {
      assert es[..n] == es;
    }
  }

  lemma {:induction false} RunPrefix(u: Setup, s0: State, es: seq<Event>, n: nat)
    requires n <= |es| && Run(u, s0, es).Some?
    ensures Run(u, s0, es[..n]).Some?
  {
    if n < |es| {
      var before := es[..|es| - 1];
      RunPrefix(u, s0, before, n);
      assert before[..n] == es[..n];
    } else {
      assert es[..n] == es;
    }
  }

  /** The daemon the client sees is this run, the k-th query being answered after at(k) of its events. */
  ghost predicate Watches(d: WaitForTick.Daemon, u: Setup, s0: State, es: seq<Event>, at: nat -> nat) {
    && d.published == Published(u, s0, es)
    && (forall k :: at(k) <= |es| && d.seen(k) == |Published(u, s0, es[..at(k)])|)
    && (forall j, k :: 0 <= j <= k ==> at(j) <= at(k))
  }

  lemma StatusIs(u: Setup, s0: State, es: seq<Event>)
    requires Started(u, s0) && Run(u, s0, es).Some?
    ensures var published := Published(u, s0, es);
      Run(u, s0, es).value.lastTick == (if published == [] then None else Some(published[|published| - 1]))
  {
    RunMatched(u, s0, es);
  }

  lemma LastSeen(d: WaitForTick.Daemon, k: nat, seen: seq<LastTick>)
    requires seen <= d.published && d.seen(k) == |seen|
    ensures WaitForTick.Last(d, k) == (if seen == [] then None else Some(seen[|seen| - 1]))
  {
  }

  /** What a query is told is the status at that moment. */
  lemma QueryShowsStatus(d: WaitForTick.Daemon, u: Setup, s0: State, es: seq<Event>, at: nat -> nat, k: nat)
    requires Started(u, s0) && Run(u, s0, es).Some? && Watches(d, u, s0, es, at)
    ensures Run(u, s0, es[..at(k)]).Some?
    ensures WaitForTick.Last(d, k) == Run(u, s0, es[..at(k)]).value.lastTick
  {
    RunPrefix(u, s0, es, at(k));
    PublishedPrefix(u, s0, es, at(k));
    LastSeen(d, k, Published(u, s0, es[..at(k)]));
    StatusIs(u, s0, es[..at(k)]);
  }

  // ----- Whose tick the reply is -----

  lemma {:induction false} StartsGrow(s0: State, es: seq<Event>, n: nat)
    requires s0.phase.Starting? && n <= |es|
    ensures Starts(s0, es[..n]) <= Starts(s0, es)
  {
    if n < |es| {
      var before := es[..|es| - 1];
      StartsGrow(s0, before, n);
      assert before[..n] == es[..n];
    } else {
      assert es[..n] == es;
    }
  }

  /** The i-th round, counted from zero, began after the first q events. */
  ghost predicate BeganAfter(s0: State, es: seq<Event>, q: nat, i: nat)
    requires s0.phase.Starting?
  {
    exists j :: q <= j < |es| && StartsRound(es[j]) && |Starts(s0, es[..j])| == i
  }

  lemma PrefixOfPrefix(es: seq<Event>, n: nat, q: nat)
    requires q <= n <= |es|
    ensures es[..n][..q] == es[..q]
  {
  }

  lemma StartsLast(s0: State, es: seq<Event>)
    requires s0.phase.Starting? && es != []
    ensures |Starts(s0, es)| == |Starts(s0, es[..|es| - 1])| + (if StartsRound(es[|es| - 1]) then 1 else 0)
  {
  }

  lemma {:induction false} StartFound(s0: State, es: seq<Event>, q: nat, i: nat) returns (j: nat)
    requires s0.phase.Starting? && q <= |es| && |Starts(s0, es[..q])| <= i < |Starts(s0, es)|
    ensures q <= j < |es| && StartsRound(es[j]) && |Starts(s0, es[..j])| == i
  {
    assert es[..|es|] == es;
    var n := |es| - 1;
    StartsLast(s0, es);
    PrefixOfPrefix(es, n, q);
    if i < |Starts(s0, es[..n])| {
      j := StartFound(s0, es[..n], q, i);
      PrefixOfPrefix(es, n, j);
    } else {
      j := n;
    }
  }

  lemma BeganAfterIff(s0: State, es: seq<Event>, q: nat, i: nat)
    requires s0.phase.Starting? && q <= |es| && i < |Starts(s0, es)|
    ensures BeganAfter(s0, es, q, i) <==> i >= |Starts(s0, es[..q])|
  {
    forall j | q <= j < |es|
      ensures |Starts(s0, es[..j])| >= |Starts(s0, es[..q])|
    {
      StartsGrow(s0, es[..j], q);
      assert es[..j][..q] == es[..q];
    }
    if i >= |Starts(s0, es[..q])| {
      var j := StartFound(s0, es, q, i);
    }
  }

  lemma StartsAtRequest(u: Setup, s0: State, es: seq<Event>, q: nat)
    requires Started(u, s0) && Run(u, s0, es).Some? && q <= |es|
    ensures Run(u, s0, es[..q]).Some?
    ensures |Starts(s0, es[..q])| ==
            |Published(u, s0, es[..q])| + (if Untended(Run(u, s0, es[..q]).value) then 1 else 0)
  {
    RunPrefix(u, s0, es, q);
    RunMatched(u, s0, es[..q]);
  }

  lemma StampOfRound(u: Setup, s0: State, es: seq<Event>, i: nat)
    requires Started(u, s0) && Run(u, s0, es).Some? && i < |Published(u, s0, es)|
    ensures i < |Starts(s0, es)| && Published(u, s0, es)[i].startedAt == Starts(s0, es)[i]
  {
    RunMatched(u, s0, es);
  }

  lemma WatchedSeen(d: WaitForTick.Daemon, u: Setup, s0: State, es: seq<Event>, at: nat -> nat, k: nat)
    requires Watches(d, u, s0, es, at)
    ensures d.published == Published(u, s0, es) && d.seen(k) <= |d.published|
  {
    PublishedPrefix(u, s0, es, at(k));
  }

  lemma LastIs(d: WaitForTick.Daemon, k: nat)
    requires 0 < d.seen(k) <= |d.published|
    ensures WaitForTick.Last(d, k) == Some(d.published[d.seen(k) - 1])
  {
  }

  lemma ReplyStart(d: WaitForTick.Daemon, u: Setup, s0: State, es: seq<Event>, k: nat)
    requires Started(u, s0) && Run(u, s0, es).Some?
    requires d.published == Published(u, s0, es) && 0 < d.seen(k) <= |d.published|
    ensures WaitForTick.Last(d, k).Some? && d.seen(k) - 1 < |Starts(s0, es)|
    ensures WaitForTick.Last(d, k).value.startedAt == Starts(s0, es)[d.seen(k) - 1]
  {
    LastIs(d, k);
    StampOfRound(u, s0, es, d.seen(k) - 1);
  }

  /** The tick shown at a query belongs to the round of its number, stamped with that round's start; that
      round began after the client's request, the q-th event, if and only if more ticks had been shown by
      then than at the request, not counting the one of a round still untended at the request. */
  lemma ReplyIsOwnIff(d: WaitForTick.Daemon, u: Setup, s0: State, es: seq<Event>, at: nat -> nat, q: nat, k: nat)
    requires Started(u, s0) && Run(u, s0, es).Some? && Watches(d, u, s0, es, at)
    requires q < |es| && es[q].Request? && d.seen(k) > 0
    ensures Run(u, s0, es[..q]).Some? && WaitForTick.Last(d, k).Some? && d.seen(k) - 1 < |Starts(s0, es)|
    ensures WaitForTick.Last(d, k).value.startedAt == Starts(s0, es)[d.seen(k) - 1]
    ensures BeganAfter(s0, es, q, d.seen(k) - 1) <==>
              d.seen(k) > |Published(u, s0, es[..q])| + (if Untended(Run(u, s0, es[..q]).value) then 1 else 0)
  {
    StartsAtRequest(u, s0, es, q);
    WatchedSeen(d, u, s0, es, at, k);
    ReplyStart(d, u, s0, es, k);
    BeganAfterIff(s0, es, q, d.seen(k) - 1);
  }

  /** If the round in progress at the request, if any, had shown its tick, and nothing had been shown since
      the opening snapshot, every fresh reply is of a round that began after the request. */
  lemma FreshReplyIsOwn(d: WaitForTick.Daemon, u: Setup, s0: State, es: seq<Event>, at: nat -> nat, q: nat, k: nat)
    requires Started(u, s0) && Run(u, s0, es).Some? && Watches(d, u, s0, es, at)
    requires q < |es| && es[q].Request? && WaitForTick.Sane(d) && WaitForTick.Fresh(d, k)
    requires Run(u, s0, es[..q]).Some? && !Untended(Run(u, s0, es[..q]).value)
    requires |Published(u, s0, es[..q])| == d.seen(0)
    ensures d.seen(k) > 0 && BeganAfter(s0, es, q, d.seen(k) - 1)
  {
    WaitForTick.FreshIff(d, k);
    ReplyIsOwnIff(d, u, s0, es, at, q, k);
  }

  lemma PublishedMore(u: Setup, s0: State, es: seq<Event>, s: State, e: Event)
    requires s0.phase.Starting? && Run(u, s0, es) == Some(s)
    ensures Published(u, s0, es + [e]) == Published(u, s0, es) + ShownBy(s, e)
    ensures Starts(s0, es + [e]) == Starts(s0, es) + StartedBy(e)
  {
    assert (es + [e])[..|es|] == es;
  }

  lemma AskRun(u: Setup, s0: State, es: seq<Event>, s: State) returns (es': seq<Event>, s': State)
    requires s0.phase.Starting? && Run(u, s0, es) == Some(s) && Genuine(u, es) && s.phase.Starting?
    ensures es' == es + [Request] && Run(u, s0, es') == Some(s') && Genuine(u, es')
    ensures s'.phase == s.phase && s'.flag == s.flag && s'.disk == s.disk
    ensures s'.current == s.current && s'.finished == s.finished
    ensures Published(u, s0, es') == Published(u, s0, es) && Starts(s0, es') == Starts(s0, es)
  {
    s' := Notify(s);
    StepRequest(u, s);
    RunOneMore(u, s0, es, s, Request);
    PublishedMore(u, s0, es, s, Request);
    es' := es + [Request];
  }

  lemma AskedAndRead(u: Setup, s0: State) returns (es: seq<Event>, s: State)
    requires s0.phase.Starting? && s0.current == []
    ensures |es| == 2 && es[0] == Request && Run(u, s0, es) == Some(s) && Genuine(u, es)
    ensures s.phase == Tending(s0.phase.startedAt, s0.flag) && s.disk == s0.disk
    ensures s.current == [] && Published(u, s0, es) == [] && Starts(s0, es) == [s0.phase.startedAt]
  {
    var asked, s1 := AskRun(u, s0, [], s0);
    es, s := DaemonHistory.ReadRun(u, s0, asked, s1);
    PublishedMore(u, s0, asked, s1, ReadFlag);
  }

  /** The row of a first round whose primary root is clean. */
  predicate FirstRow(u: Setup, s0: State, row: TickRecord) {
    && s0.phase.Starting? && u.roots != []
    && row.startedAt == s0.phase.startedAt && row.dryRun == s0.flag
    && row.memoryRoot == u.roots[0] && row.outcome == Skipped(AuditClean)
  }

  /** A request, and then the tick of the round already begun. */
  lemma RequestThenTick(u: Setup, s0: State, row: TickRecord) returns (es: seq<Event>)
    requires Started(u, s0) && FirstRow(u, s0, row)
    ensures Run(u, s0, es).Some? && Genuine(u, es) && |es| == 3 && es[0] == Request
    ensures Published(u, s0, es) == [Shown(row)] && Starts(s0, es) == [s0.phase.startedAt]
  {
    var read, s2 := AskedAndRead(u, s0);
    var s3;
    es, s3 := DaemonHistory.CleanRun(u, s0, read, s2, row, 0);
    PublishedMore(u, s0, read, s2, es[2]);
  }

  /** The client's two looks at it: at the start and at the end. */
  function TwoLooks(row: TickRecord, cost: nat -> nat): WaitForTick.Daemon {
    WaitForTick.Daemon([Shown(row)], k => if k == 0 then 0 else 1, k => true, cost)
  }

  lemma TwoLooksFresh(row: TickRecord, cost: nat -> nat)
    requires row.finishedAt > 0
    ensures WaitForTick.Sane(TwoLooks(row, cost)) && WaitForTick.Fresh(TwoLooks(row, cost), 1)
  {
  }

  lemma TwoLooksWatch(u: Setup, s0: State, es: seq<Event>, row: TickRecord, cost: nat -> nat) returns (at: nat -> nat)
    requires Published(u, s0, es) == [Shown(row)] && es != []
    ensures Watches(TwoLooks(row, cost), u, s0, es, at) && at(0) == 0 && at(1) == |es|
  {
    var n := |es|;
    at := k => if k == 0 then 0 else n;
    assert es[..n] == es && es[..0] == [];
  }

  /** A fresh reply from before: a client asks during a round whose primary root is untended, and the tick
      of that round answers it. */
  lemma ReplyMayBeOlder(u: Setup, s0: State, row: TickRecord, cost: nat -> nat)
    returns (es: seq<Event>, d: WaitForTick.Daemon, at: nat -> nat)
    requires Started(u, s0) && FirstRow(u, s0, row) && row.finishedAt > 0
    ensures Run(u, s0, es).Some? && Genuine(u, es) && Watches(d, u, s0, es, at) && WaitForTick.Sane(d)
    ensures |es| > 0 && es[0] == Request && at(0) == 0 && at(1) == |es|
    ensures WaitForTick.Fresh(d, 1) && d.seen(1) == 1 && !BeganAfter(s0, es, 0, 0)
  {
    es := RequestThenTick(u, s0, row);
    at := TwoLooksWatch(u, s0, es, row, cost);
    d := TwoLooks(row, cost);
    TwoLooksFresh(row, cost);
    assert es[..0] == [];
    BeganAfterIff(s0, es, 0, 0);
  }
}
