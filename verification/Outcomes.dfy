/** What one tick of one memory root ends with (src/tick.rs) and the row written about it
    (src/history.rs). */
module Outcomes {
  import opened Wrappers
  import opened Lsof

  /** Why no agent ran; the source formats each of these into a sentence. */
  datatype Reason =
    | FilesOpen(holders: seq<Holder>)
    | LiveSessions(count: nat)
    | TooRecent(idleSec: nat, minIdleSec: nat)
    | AuditClean
    | Failed(error: string)

  /** exitCode is None when no agent ran and also when a signal ended it. */
  datatype TickOutcome = TickOutcome(
    ran: bool, reasonSkipped: Option<Reason>, exitCode: Option<int>, auditTotalIssues: nat,
    preTickSha: Option<nat>)

  function Skipped(reason: Reason): TickOutcome {
    TickOutcome(false, Some(reason), None, 0, None)
  }

  datatype TickRecord = TickRecord(
    tickId: string, startedAt: nat, finishedAt: nat, dryRun: bool, memoryRoot: string, outcome: TickOutcome)

  /** What the status socket shows of the latest tick of the primary root (src/ipc.rs). */
  datatype LastTick = LastTick(
    startedAt: nat, finishedAt: nat, ran: bool, reasonSkipped: Option<Reason>, exitCode: Option<int>)

  function Shown(r: TickRecord): LastTick {
    LastTick(r.startedAt, r.finishedAt, r.outcome.ran, r.outcome.reasonSkipped, r.outcome.exitCode)
  }
}
