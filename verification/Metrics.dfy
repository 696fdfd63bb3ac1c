/** The exported counters (src/metrics.rs): one writer records ticks while scrapes read the fields one
    by one. */
module Metrics {
  import opened Wrappers
  import opened Lists

  const U64: nat := 0x1_0000_0000_0000_0000

  /** What one tick contributes. */
  datatype Sample = Sample(ran: bool, seconds: nat, issues: nat, exitCode: Option<int>, at: nat)

  datatype Counters = Counters(
    total: nat, ran: nat, skipped: nat, seconds: nat, failures: nat, issuesLast: nat, appends: nat, lastTick: nat)

  const ZERO := Counters(0, 0, 0, 0, 0, 0, 0, 0)

  predicate Failed(s: Sample) {
    s.exitCode.Some? && s.exitCode.value != 0
  }

  /** Atomic addition wraps around. */
  function Add(x: nat, y: nat): nat {
    (x + y) % U64
  }

  class Metrics {
    var ticksTotal: nat
    var ticksRan: nat
    var ticksSkipped: nat
    var durationSum: nat
    var failures: nat
    var issuesLast: nat
    var historyAppends: nat
    var lastTick: nat

    function View(): Counters
      reads this
    {
      Counters(ticksTotal, ticksRan, ticksSkipped, durationSum, failures, issuesLast, historyAppends, lastTick)
    }

    constructor ()
      ensures View() == ZERO
    {
      ticksTotal, ticksRan, ticksSkipped, durationSum := 0, 0, 0, 0;
      failures, issuesLast, historyAppends, lastTick := 0, 0, 0, 0;
    }

    method RecordTick(s: Sample)
      modifies this
      ensures View() == Recorded(old(View()), s)
      ensures var w := 0x1_0000_0000_0000_0000;
        && ticksTotal == (old(ticksTotal) + 1) % w
        && ticksRan == (if s.ran then (old(ticksRan) + 1) % w else old(ticksRan))
        && ticksSkipped == (if s.ran then old(ticksSkipped) else (old(ticksSkipped) + 1) % w)
        && durationSum == (old(durationSum) + s.seconds) % w
        && issuesLast == s.issues % w && lastTick == s.at % w && historyAppends == old(historyAppends)
        && failures == (if s.exitCode in {None, Some(0)} then old(failures) else (old(failures) + 1) % w)
    {
      ticksTotal := Add(ticksTotal, 1);
      if s.ran {
        ticksRan := Add(ticksRan, 1);
      } else {
        ticksSkipped := Add(ticksSkipped, 1);
      }
      durationSum := Add(durationSum, s.seconds);
      issuesLast := s.issues % U64;
      if s.exitCode.Some? && s.exitCode.value != 0 {
        failures := Add(failures, 1);
      }
      lastTick := s.at % U64;
    }

    method RecordHistoryAppend()
      modifies this
      ensures View() == old(View()).(appends := (old(historyAppends) + 1) % U64)
      ensures View() == Appended(old(View()))
    {
      historyAppends := Add(historyAppends, 1);
    }
  }

  function Recorded(c: Counters, s: Sample): Counters {
    Counters(
      Add(c.total, 1), if s.ran then Add(c.ran, 1) else c.ran, if s.ran then c.skipped else Add(c.skipped, 1),
      Add(c.seconds, s.seconds), if Failed(s) then Add(c.failures, 1) else c.failures, s.issues % U64,
      c.appends, s.at % U64)
  }

  function Appended(c: Counters): Counters {
    c.(appends := Add(c.appends, 1))
  }

  // ----- The counters and the ticks they count -----

  /** An entry of the daemon's log that the counters see. */
  datatype Entry = Ticked(sample: Sample) | Wrote

  function Replay(es: seq<Entry>): Counters {
    if es == [] then ZERO
    else
      var c := Replay(es[..|es| - 1]);
      match es[|es| - 1]
      case Ticked(s) => Recorded(c, s)
      case Wrote => Appended(c)
  }

  function Seconds(es: seq<Entry>): nat {
    if es == [] then 0
    else Seconds(es[..|es| - 1]) + (if es[|es| - 1].Ticked? then es[|es| - 1].sample.seconds else 0)
  }

  const IS_TICK := (e: Entry) => e.Ticked?
  const IS_RUN := (e: Entry) => e.Ticked? && e.sample.ran
  const IS_SKIP := (e: Entry) => e.Ticked? && !e.sample.ran
  const IS_FAILURE := (e: Entry) => e.Ticked? && e.sample.exitCode.Some? && e.sample.exitCode.value != 0
  const IS_WRITE := (e: Entry) => e.Wrote?

  lemma Small(x: nat)
    requires x < U64
    ensures x % U64 == x
  {
  }

  lemma AddWraps(x: nat, y: nat, k: nat)
    requires x == y % U64
    ensures Add(x, k) == (y + k) % U64
  {
  }

  /** Each counter is the number of log entries of its kind, modulo its width. */
  lemma {:induction false} CountersAreCounts(es: seq<Entry>)
    ensures var c := Replay(es);
      && c.total == Count(es, IS_TICK) % U64 && c.ran == Count(es, IS_RUN) % U64
      && c.skipped == Count(es, IS_SKIP) % U64 && c.failures == Count(es, IS_FAILURE) % U64
      && c.appends == Count(es, IS_WRITE) % U64 && c.seconds == Seconds(es) % U64
  {
    if es != [] {
      var before := es[..|es| - 1];
      var c := Replay(before);
      CountersAreCounts(before);
      var e := es[|es| - 1];
      AddWraps(c.total, Count(before, IS_TICK), 1);
      AddWraps(c.ran, Count(before, IS_RUN), 1);
      AddWraps(c.skipped, Count(before, IS_SKIP), 1);
      AddWraps(c.failures, Count(before, IS_FAILURE), 1);
      AddWraps(c.appends, Count(before, IS_WRITE), 1);
      AddWraps(c.seconds, Seconds(before), if e.Ticked? then e.sample.seconds else 0);
    }
  }

  ghost predicate CodesOnlyOfRuns(es: seq<Entry>) {
    forall i :: 0 <= i < |es| && es[i].Ticked? && es[i].sample.exitCode.Some? ==> es[i].sample.ran
  }

  /** Every tick ran or was skipped, and if only ticks that ran carry an exit code, no more of them
      failed than ran. */
  lemma {:induction false} TicksPartition(es: seq<Entry>)
    ensures Count(es, IS_TICK) == Count(es, IS_RUN) + Count(es, IS_SKIP)
    ensures CodesOnlyOfRuns(es) ==> Count(es, IS_FAILURE) <= Count(es, IS_RUN)
    ensures Count(es, IS_TICK) + Count(es, IS_WRITE) == |es|
  {
    if es != [] {
      TicksPartition(es[..|es| - 1]);
    }
  }

  // ----- Scraping while a tick is recorded -----

  /** The atomic writes of the recording side. */
  datatype Op = IncTotal | IncRan | IncSkipped | AddSeconds(n: nat) | SetIssues(n: nat) | IncFailures
              | SetLast(at: nat) | IncAppends

  function OpsOf(s: Sample): seq<Op> {
    [IncTotal, if s.ran then IncRan else IncSkipped, AddSeconds(s.seconds), SetIssues(s.issues)]
    + LastOps(Failed(s), s.at)
  }

  function LastOps(failed: bool, at: nat): seq<Op> {
    if failed then [IncFailures, SetLast(at)] else [SetLast(at)]
  }

  /** One write; the number of ticks stays below the width of the counters. */
  function Write(c: Counters, op: Op): Counters {
    match op
    case IncTotal => c.(total := c.total + 1)
    case IncRan => c.(ran := c.ran + 1)
    case IncSkipped => c.(skipped := c.skipped + 1)
    case AddSeconds(n) => c.(seconds := c.seconds + n)
    case SetIssues(n) => c.(issuesLast := n)
    case IncFailures => c.(failures := c.failures + 1)
    case SetLast(at) => c.(lastTick := at)
    case IncAppends => c.(appends := c.appends + 1)
  }

  /** The fields in the order a scrape loads them. */
  function Field(c: Counters, k: nat): nat {
    match k
    case 0 => c.lastTick
    case 1 => c.total
    case 2 => c.ran
    case 3 => c.skipped
    case 4 => c.seconds
    case 5 => c.failures
    case 6 => c.issuesLast
    case _ => c.appends
  }

  const FIELDS: nat := 8

  /** The counters, the writes the recorder has still to make, and what a scrape has loaded. */
  datatype State = State(counters: Counters, pending: seq<Op>, loaded: seq<nat>)

  datatype Event = Begin(sample: Sample) | BeginAppend | Next | Load | NewScrape

  const FRESH := State(ZERO, [], [])

  function Step(s: State, e: Event): Option<State> {
    match e
    case Begin(sample) => if s.pending == [] then Some(s.(pending := OpsOf(sample))) else None
    case BeginAppend => if s.pending == [] then Some(s.(pending := [IncAppends])) else None
    case Next =>
      if s.pending != [] then
        Some(s.(counters := Write(s.counters, s.pending[0]), pending := s.pending[1..]))
      else None
    case Load =>
      if |s.loaded| < FIELDS then Some(s.(loaded := s.loaded + [Field(s.counters, |s.loaded|)])) else None
    case NewScrape => Some(s.(loaded := []))
  }

  function Run(es: seq<Event>): Option<State> {
    if es == [] then Some(FRESH)
    else
      var before := Run(es[..|es| - 1]);
      if before.None? then None else Step(before.value, es[|es| - 1])
  }

  predicate Tallies(op: Op) {
    op.IncTotal? || op.IncRan? || op.IncSkipped?
  }

  predicate NoTally(ops: seq<Op>) {
    forall i :: 0 <= i < |ops| ==> !Tallies(ops[i])
  }

  /** The tick is counted but not yet as run or skipped. */
  predicate Owing(ops: seq<Op>) {
    ops != [] && (ops[0].IncRan? || ops[0].IncSkipped?)
  }

  ghost predicate Ordered(ops: seq<Op>) {
    || NoTally(ops)
    || (Owing(ops) && NoTally(ops[1..]))
    || (|ops| >= 2 && ops[0].IncTotal? && Owing(ops[1..]) && NoTally(ops[2..]))
  }

  ghost predicate Inv(s: State) {
    && Ordered(s.pending)
    && s.counters.total == s.counters.ran + s.counters.skipped + (if Owing(s.pending) then 1 else 0)
    && (|s.loaded| == 2 ==> s.loaded[1] <= s.counters.ran + s.counters.skipped + 1)
    && (|s.loaded| == 3 ==> s.loaded[1] <= s.loaded[2] + s.counters.skipped + 1)
    && (|s.loaded| > 3 ==> s.loaded[1] <= s.loaded[2] + s.loaded[3] + 1)
  }

  lemma OpsOrdered(s: Sample)
    ensures Ordered(OpsOf(s))
  {
    var ops := OpsOf(s);
    assert forall i :: 2 <= i < |ops| ==> !Tallies(ops[i]);
    assert NoTally(ops[2..]);
  }

  lemma NextOrdered(ops: seq<Op>)
    requires Ordered(ops) && ops != []
    ensures Ordered(ops[1..])
    ensures Owing(ops[1..]) <==> ops[0].IncTotal?
    ensures Owing(ops) <==> ops[0].IncRan? || ops[0].IncSkipped?
  {
    if ops[0].IncTotal? {
      assert ops[1..][1..] == ops[2..];
    } else if Owing(ops) {
      assert NoTally(ops[1..]);
    } else {
      assert forall i :: 0 <= i < |ops| - 1 ==> ops[1..][i] == ops[i + 1];
      assert NoTally(ops[1..]);
    }
  }

  lemma StepKeeps(s: State, e: Event)
    requires Inv(s) && Step(s, e).Some?
    ensures Inv(Step(s, e).value)
  {
    match e
    case Begin(sample) => OpsOrdered(sample);
    case Next => NextOrdered(s.pending);
    case _ =>
  }

  lemma {:induction false} RunKeeps(es: seq<Event>)
    requires Run(es).Some?
    ensures Inv(Run(es).value)
  {
    if es != [] {
      RunKeeps(es[..|es| - 1]);
      StepKeeps(Run(es[..|es| - 1]).value, es[|es| - 1]);
    }
  }

  /** However the loads of a scrape interleave with the writes, the total it shows exceeds the runs
      and skips it shows by at most the one tick being recorded. */
  lemma ScrapeBounded(es: seq<Event>)
    requires Run(es).Some? && |Run(es).value.loaded| == FIELDS
    ensures var shown := Run(es).value.loaded; shown[1] <= shown[2] + shown[3] + 1
  {
    RunKeeps(es);
  }

  function AllFields(c: Counters): seq<nat> {
    [c.lastTick, c.total, c.ran, c.skipped, c.seconds, c.failures, c.issuesLast, c.appends]
  }

  lemma RunOneMore(es: seq<Event>, e: Event)
    requires Run(es).Some?
    ensures Run(es + [e]) == Step(Run(es).value, e)
  {
    assert (es + [e])[..|es|] == es;
  }

  /** A scrape no write interrupts shows the counters as they stand. */
  lemma {:induction false} ScrapeAlone(es: seq<Event>, n: nat) returns (es': seq<Event>)
    requires n <= FIELDS && Run(es).Some? && Run(es).value.loaded == []
    ensures Run(es') == Some(Run(es).value.(loaded := AllFields(Run(es).value.counters)[..n]))
  {
    var c := Run(es).value.counters;
    if n == 0 {
      es' := es;
      assert AllFields(c)[..0] == [];
    } else {
      var shorter := ScrapeAlone(es, n - 1);
      RunOneMore(shorter, Load);
      es' := shorter + [Load];
      assert AllFields(c)[..n] == AllFields(c)[..n - 1] + [Field(c, n - 1)];
    }
  }

  /** The one tick of slack is needed: a scrape can show a tick that neither ran nor was skipped. */
  lemma SlackIsReached(s: Sample)
    ensures exists es :: Run(es).Some? && |Run(es).value.loaded| == FIELDS
              && Run(es).value.loaded[1] == Run(es).value.loaded[2] + Run(es).value.loaded[3] + 1
  {
    RunOneMore([], Begin(s));
    RunOneMore([] + [Begin(s)], Next);
    var es := ScrapeAlone([] + [Begin(s)] + [Next], FIELDS);
    var c := Write(ZERO, IncTotal);
    assert AllFields(c)[..FIELDS] == AllFields(c);
    assert Run(es).value.loaded == AllFields(c);
  }

  function WriteAll(c: Counters, ops: seq<Op>): Counters
    decreases |ops|
  {
    if ops == [] then c else WriteAll(Write(c, ops[0]), ops[1..])
  }

  lemma WriteFirst(c: Counters, op: Op, rest: seq<Op>)
    ensures WriteAll(c, [op] + rest) == WriteAll(Write(c, op), rest)
  {
    assert ([op] + rest)[1..] == rest;
  }

  lemma WriteLast(c: Counters, failed: bool, at: nat)
    ensures WriteAll(c, LastOps(failed, at)) ==
            c.(failures := c.failures + (if failed then 1 else 0), lastTick := at)
  {
    assert [SetLast(at)] == [SetLast(at)] + [];
    if failed {
      assert LastOps(failed, at) == [IncFailures] + [SetLast(at)];
      WriteFirst(c, IncFailures, [SetLast(at)]);
      WriteFirst(Write(c, IncFailures), SetLast(at), []);
    } else {
      WriteFirst(c, SetLast(at), []);
    }
  }

  /** The fields at their width. */
  function Wrapped(c: Counters): Counters {
    Counters(c.total % U64, c.ran % U64, c.skipped % U64, c.seconds % U64, c.failures % U64, c.issuesLast % U64,
             c.appends % U64, c.lastTick % U64)
  }

  lemma WriteFour(c: Counters, a: Op, b: Op, d: Op, e: Op, rest: seq<Op>)
    ensures WriteAll(c, [a, b, d, e] + rest) == WriteAll(Write(Write(Write(Write(c, a), b), d), e), rest)
  {
    assert [a, b, d, e] + rest == [a] + ([b] + ([d] + ([e] + rest)));
    WriteFirst(c, a, [b] + ([d] + ([e] + rest)));
    WriteFirst(Write(c, a), b, [d] + ([e] + rest));
    WriteFirst(Write(Write(c, a), b), d, [e] + rest);
    WriteFirst(Write(Write(Write(c, a), b), d), e, rest);
  }

  /** The writes of one tick, all made, are what recording it means, at whatever counts. */
  lemma WritesRecord(c: Counters, s: Sample)
    ensures Wrapped(WriteAll(c, OpsOf(s))) == Recorded(Wrapped(c), s)
  {
    var second := if s.ran then IncRan else IncSkipped;
    WriteFour(c, IncTotal, second, AddSeconds(s.seconds), SetIssues(s.issues), LastOps(Failed(s), s.at));
    WriteLast(AfterFour(c, s), Failed(s), s.at);
    AddWraps(c.total % U64, c.total, 1);
    AddWraps(c.ran % U64, c.ran, 1);
    AddWraps(c.skipped % U64, c.skipped, 1);
    AddWraps(c.failures % U64, c.failures, 1);
    AddWraps(c.seconds % U64, c.seconds, s.seconds);
  }

  function AfterFour(c: Counters, s: Sample): Counters {
    Write(Write(Write(Write(c, IncTotal), if s.ran then IncRan else IncSkipped), AddSeconds(s.seconds)),
          SetIssues(s.issues))
  }
}
