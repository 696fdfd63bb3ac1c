/** mmctl tick --wait: asking for a tick and polling for its result (src/bin/mmctl.rs). Times are in
    milliseconds, the daemon's stamps in seconds. */
module WaitForTick {
  import opened Wrappers
  import opened Outcomes

  /** The daemon as the client sees it: the records it publishes in order, how many it has published
      at the k-th status query, whether that query succeeds and how long it takes. Query 0 is the
      opening snapshot. */
  datatype Daemon = Daemon(published: seq<LastTick>, seen: nat -> nat, up: nat -> bool, cost: nat -> nat)

  ghost predicate Sane(d: Daemon) {
    && (forall k :: d.seen(k) <= |d.published|)
    && (forall j, k :: 0 <= j <= k ==> d.seen(j) <= d.seen(k))
    && (forall i, j :: 0 <= i <= j < |d.published| ==> d.published[i].finishedAt <= d.published[j].finishedAt)
  }

  function Last(d: Daemon, k: nat): Option<LastTick> {
    if 0 < d.seen(k) <= |d.published| then Some(d.published[d.seen(k) - 1]) else None
  }

  function Stamp(d: Daemon, k: nat): nat {
    match Last(d, k)
    case Some(t) => t.finishedAt
    case None => 0
  }

  predicate Fresh(d: Daemon, k: nat) {
    d.up(k) && Stamp(d, k) > Stamp(d, 0)
  }

  const FIRST_DELAY: nat := 250
  const LONGEST_DELAY: nat := 2000

  function Longer(delay: nat): nat {
    if delay * 2 < LONGEST_DELAY then delay * 2 else LONGEST_DELAY
  }

  /** The sleep before the k-th poll. */
  function Delay(k: nat): nat
    requires k > 0
  {
    if k == 1 then FIRST_DELAY else Longer(Delay(k - 1))
  }

  /** When the k-th poll has been answered, counted from the start of the wait. */
  function Answered(d: Daemon, k: nat): nat {
    if k == 0 then 0 else Answered(d, k - 1) + Delay(k) + d.cost(k)
  }

  datatype Reply = Unreachable | Sent | Arrived(tick: LastTick) | TimedOut

  predicate NoneFresh(d: Daemon, upTo: nat) {
    forall j :: 0 < j <= upTo ==> !Fresh(d, j)
  }

  predicate InTime(d: Daemon, polls: nat, timeout: nat) {
    polls > 0 ==> Answered(d, polls - 1) < timeout
  }

  /** How a wait may end: on the first fresh answer, or after the deadline with none. */
  predicate Ends(d: Daemon, timeout: nat, reply: Reply, polls: nat, elapsed: nat) {
    && elapsed == Answered(d, polls) && InTime(d, polls, timeout)
    && match reply
       case Arrived(tick) => polls > 0 && Fresh(d, polls) && Last(d, polls) == Some(tick) && NoneFresh(d, polls - 1)
       case TimedOut => elapsed >= timeout && NoneFresh(d, polls)
       case _ => false
  }

  predicate FreshOver(now: Option<LastTick>, before: nat) {
    now.Some? && now.value.finishedAt > before
  }

  lemma FreshNow(d: Daemon, k: nat)
    ensures Fresh(d, k) <==> d.up(k) && FreshOver(Last(d, k), Stamp(d, 0))
  {
  }

  lemma NoneFreshStep(d: Daemon, k: nat)
    requires NoneFresh(d, k) && !Fresh(d, k + 1)
    ensures NoneFresh(d, k + 1)
  {
  }

  method Wait(d: Daemon, timeout: nat) returns (reply: Reply, polls: nat, elapsed: nat)
    ensures Ends(d, timeout, reply, polls, elapsed)
  {
    polls, elapsed := 0, 0;
    var before := Stamp(d, 0);
    var poll := FIRST_DELAY;
    while elapsed < timeout
      invariant elapsed == Answered(d, polls) && poll == Delay(polls + 1)
      invariant NoneFresh(d, polls) && InTime(d, polls, timeout)
      decreases timeout - elapsed
    {
      DelayPositive(polls + 1);
      FreshNow(d, polls + 1);
      var now := Last(d, polls + 1);
      var shown := d.up(polls + 1) && FreshOver(now, before);
      polls, elapsed, poll := polls + 1, elapsed + poll + d.cost(polls + 1), Longer(poll);
      if shown {
        return Arrived(now.value), polls, elapsed;
      }
      NoneFreshStep(d, polls - 1);
    }
    return TimedOut, polls, elapsed;
  }

  method CmdTick(d: Daemon, accepted: bool, wait: bool, timeoutSec: nat)
    returns (reply: Reply, polls: nat, elapsed: nat)
    ensures reply.Unreachable? <==> !d.up(0) || !accepted
    ensures reply.Sent? <==> d.up(0) && accepted && !wait
    ensures reply.Arrived? || reply.TimedOut? ==> Ends(d, timeoutSec * 1000, reply, polls, elapsed)
    ensures reply.Unreachable? || reply.Sent? ==> polls == 0 && elapsed == 0
  {
    if !d.up(0) || !accepted {
      return Unreachable, 0, 0;
    }
    if !wait {
      return Sent, 0, 0;
    }
    reply, polls, elapsed := Wait(d, timeoutSec * 1000);
  }

  /** Doubling from a quarter of a second up to two seconds. */
  lemma DelaysAre(k: nat)
    requires k > 0
    ensures Delay(k) == if k == 1 then 250 else if k == 2 then 500 else if k == 3 then 1000 else 2000
  {
    DelayPositive(k);
    if k == 2 || k == 3 {
      assert Delay(2) == Longer(Delay(1));
    }
  }

  lemma {:induction false} DelayPositive(k: nat)
    requires k > 0
    ensures FIRST_DELAY <= Delay(k) <= LONGEST_DELAY
    ensures k >= 4 ==> Delay(k) == LONGEST_DELAY
  {
    if k > 1 {
      DelayPositive(k - 1);
      if k == 4 {
        assert Delay(2) == 500 && Delay(3) == 1000;
      }
    }
  }

  /** What the queries themselves have taken. */
  function Queried(d: Daemon, k: nat): nat {
    if k == 0 then 0 else Queried(d, k - 1) + d.cost(k)
  }

  /** A poll is answered after all the sleeps and all the queries up to it. */
  lemma {:induction false} AnsweredIs(d: Daemon, k: nat)
    ensures Answered(d, k) == Queried(d, k) +
              if k == 0 then 0 else if k == 1 then 250 else if k == 2 then 750 else 1750 + 2000 * (k - 3)
  {
    if k > 0 {
      AnsweredIs(d, k - 1);
      DelaysAre(k);
    }
  }

  lemma AnsweredLate(d: Daemon, k: nat)
    ensures k >= 3 ==> Answered(d, k) >= 1750 + 2000 * (k - 3)
  {
    AnsweredIs(d, k);
  }

  lemma AnsweredNext(d: Daemon, k: nat)
    requires k > 0
    ensures Answered(d, k) <= Answered(d, k - 1) + 2000 + d.cost(k)
  {
    DelayPositive(k);
  }

  lemma {:induction false} QueriedAtOnce(d: Daemon, k: nat)
    requires forall j :: d.cost(j) == 0
    ensures Queried(d, k) == 0
  {
    if k > 0 {
      QueriedAtOnce(d, k - 1);
    }
  }

  /** A wait that started its last poll in time made at most half as many polls as seconds, and
      three, and ends at most one longest sleep and one query after its deadline. */
  lemma WaitIsShort(d: Daemon, timeoutSec: nat, polls: nat)
    requires polls > 0 && InTime(d, polls, timeoutSec * 1000)
    ensures polls <= timeoutSec / 2 + 3
    ensures Answered(d, polls) < timeoutSec * 1000 + 2000 + d.cost(polls)
  {
    AnsweredLate(d, polls - 1);
    AnsweredNext(d, polls);
  }

  /** The bound on polls is met for every positive timeout: a daemon that answers at once is polled that
      often. */
  lemma PollsReached(d: Daemon, timeoutSec: nat)
    requires timeoutSec > 0 && forall k :: d.cost(k) == 0
    ensures InTime(d, timeoutSec / 2 + 3, timeoutSec * 1000)
  {
    AnsweredIs(d, timeoutSec / 2 + 2);
    QueriedAtOnce(d, timeoutSec / 2 + 2);
  }

  /** While the daemon's clock does not go back, the wait ends exactly on the answers that show a
      record published after the opening snapshot and in a later second: one published within the
      same second is passed over. */
  lemma FreshIff(d: Daemon, k: nat)
    requires Sane(d) && d.up(k)
    ensures Fresh(d, k) <==> d.seen(k) > d.seen(0) && Last(d, k).value.finishedAt != Stamp(d, 0)
  {
    assert d.seen(0) <= d.seen(k);
  }

  /** A daemon that publishes a second tick in the second of the first, right after the snapshot. */
  function SameSecond(first: LastTick, second: LastTick, cost: nat -> nat): Daemon {
    Daemon([first, second], k => if k == 0 then 1 else 2, k => true, cost)
  }

  /** Every wait on it times out, although the tick it waits for is there at every poll. */
  lemma SameSecondMissed(first: LastTick, second: LastTick, cost: nat -> nat, timeout: nat, reply: Reply,
                         polls: nat, elapsed: nat)
    requires first.finishedAt == second.finishedAt
    ensures var d := SameSecond(first, second, cost);
      && Sane(d) && (forall k: nat :: k > 0 ==> d.up(k) && d.seen(k) > d.seen(0) && Last(d, k) == Some(second))
      && (Ends(d, timeout, reply, polls, elapsed) ==> reply.TimedOut?)
  {
    var d := SameSecond(first, second, cost);
    forall k: nat
      ensures !Fresh(d, k)
    {
      if k > 0 {
        assert d.published[d.seen(k) - 1] == second;
      }
    }
  }
}
