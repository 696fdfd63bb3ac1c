/** The janitor that ends stale command-line sessions (src/janitor.rs). */
module Janitor {
  import opened Wrappers
  import opened Lists
  import Descriptions
  import Terminal

  const ALLOWLIST: set<string> := {"claude", "claude-cli", "kiro-cli", "kiro-cli-chat", "codex", "codex-cli"}
  const MAX_KILLS_HARD: nat := 20
  const GRACE_PROBES: nat := 10
  const U64_MAX: nat := 0xFFFF_FFFF_FFFF_FFFF

  /** One row of the process table; stat is the kernel's line about the process, if it can be read. */
  datatype Process = Process(
    pid: nat, name: string, uid: Option<nat>, parent: Option<nat>, startTime: nat, cpu: real,
    stat: Option<string>)

  datatype StaleProc = StaleProc(pid: nat, parent: Option<nat>, name: string, ageSec: nat, cpu: real)

  /** The daemon that is asking: its pid, its user, and the time. */
  datatype Asker = Asker(pid: nat, uid: nat, now: nat)

  datatype Opts = Opts(minAgeSec: nat, maxCpu: real, maxKills: nat, dryRun: bool, requireNoTty: bool)

  /** A conversion to 64 bits drops the fraction and saturates. */
  function Truncated(x: real): nat {
    if x < 0.0 then 0 else if x.Floor > U64_MAX then U64_MAX else x.Floor
  }

  function NewOpts(minAgeHours: real, maxCpu: real, maxKills: nat, dryRun: bool, requireNoTty: bool): Opts {
    Opts(Truncated(minAgeHours * 3600.0), maxCpu, if maxKills < MAX_KILLS_HARD then maxKills else MAX_KILLS_HARD,
         dryRun, requireNoTty)
  }

  // ----- Candidates -----

  function Age(p: Process, now: nat): nat {
    if now < p.startTime then 0 else now - p.startTime
  }

  /** The full filter: every rule must hold for a process to be signalled. */
  predicate Stale(p: Process, opts: Opts, me: Asker) {
    && p.pid > 1 && p.pid != me.pid && p.parent != Some(me.pid)
    && Descriptions.ToLowercase(p.name) in ALLOWLIST
    && p.uid == Some(me.uid)
    && Age(p, me.now) >= opts.minAgeSec && p.cpu <= opts.maxCpu
    && (opts.requireNoTty ==> Terminal.HasNoTty(p.stat))
  }

  function Described(p: Process, me: Asker): StaleProc {
    StaleProc(p.pid, p.parent, Descriptions.ToLowercase(p.name), Age(p, me.now), p.cpu)
  }

  function Candidate(opts: Opts, me: Asker): Process -> seq<StaleProc> {
    (p: Process) => if Stale(p, opts, me) then [Described(p, me)] else []
  }

  /** Oldest first; equals keep their order. */
  function Insert(c: StaleProc, cs: seq<StaleProc>): seq<StaleProc> {
    if cs == [] || c.ageSec >= cs[0].ageSec then [c] + cs else [cs[0]] + Insert(c, cs[1..])
  }

  function OldestFirst(cs: seq<StaleProc>): seq<StaleProc> {
    if cs == [] then [] else Insert(cs[0], OldestFirst(cs[1..]))
  }

  method ListStale(table: seq<Process>, opts: Opts, me: Asker) returns (out: seq<StaleProc>)
    ensures out == OldestFirst(FlatMap(table, Candidate(opts, me)))
  {
    out := [];
    for i := 0 to |table|
      invariant out == FlatMap(table[..i], Candidate(opts, me))
    {
      FlatMapStep(table, i, Candidate(opts, me));
      var p := table[i];
      if p.pid <= 1 || p.pid == me.pid {
        continue;
      }
      var name := Descriptions.ToLowercase(p.name);
      if name !in ALLOWLIST {
        continue;
      }
      if p.uid.None? || p.uid.value != me.uid {
        continue;
      }
      if p.parent == Some(me.pid) {
        continue;
      }
      var age := Age(p, me.now);
      if age < opts.minAgeSec || p.cpu > opts.maxCpu {
        continue;
      }
      if opts.requireNoTty && !Terminal.HasNoTty(p.stat) {
        continue;
      }
      out := out + [StaleProc(p.pid, p.parent, name, age, p.cpu)];
    }
    assert table[..|table|] == table;
    out := OldestFirst(out);
  }

  // ----- Ending them -----

  datatype Call = Term | Probe | Kill

  /** One call of the janitor on a process and whether it succeeded; a probe succeeds on a process
      that is alive. */
  datatype Effect = Effect(pid: nat, call: Call, ok: bool)

  datatype KillRecord = KillRecord(
    pid: nat, name: string, ageSec: nat, sigtermOk: bool, stillAliveAfterGrace: bool, sigkillOk: Option<bool>)

  /** How the system answers a call, after any earlier effects. */
  datatype World = World(answer: (seq<Effect>, nat, Call) -> bool)

  ghost predicate Answers(w: World, trace: seq<Effect>) {
    forall i :: 0 <= i < |trace| ==> trace[i].ok == w.answer(trace[..i], trace[i].pid, trace[i].call)
  }

  /** What is done to one process: the polite signal, one to ten probes of which only the last may
      find it gone, and the forced kill exactly when all ten found it alive. */
  predicate Escalation(b: seq<Effect>, r: KillRecord) {
    var probes := |b| - 1 - (if r.sigkillOk.Some? then 1 else 0);
    && 1 <= probes <= 10
    && b[0] == Effect(r.pid, Term, r.sigtermOk)
    && (forall k :: 1 <= k <= probes ==> b[k] == Effect(r.pid, Probe, k < probes || r.stillAliveAfterGrace))
    && (r.sigkillOk.Some? <==> r.stillAliveAfterGrace)
    && (r.stillAliveAfterGrace ==>
          probes == 10 && b[|b| - 1] == Effect(r.pid, Kill, r.sigkillOk.value))
  }

  predicate Escalations(blocks: seq<seq<Effect>>, records: seq<KillRecord>) {
    |blocks| == |records| && forall i :: 0 <= i < |blocks| ==> Escalation(blocks[i], records[i])
  }

  predicate About(r: KillRecord, c: StaleProc) {
    r.pid == c.pid && r.name == c.name && r.ageSec == c.ageSec
  }

  function Whole(blocks: seq<seq<Effect>>): seq<Effect> {
    if blocks == [] then [] else Whole(blocks[..|blocks| - 1]) + blocks[|blocks| - 1]
  }

  function Ask(w: World, trace: seq<Effect>, pid: nat, call: Call): (e: Effect)
    ensures Answers(w, trace) ==> Answers(w, trace + [e])
  {
    var e := Effect(pid, call, w.answer(trace, pid, call));
    assert forall i :: 0 <= i < |trace| ==> (trace + [e])[..i] == trace[..i];
    assert (trace + [e])[..|trace|] == trace;
    e
  }

  method Terminate(c: StaleProc, w: World, before: seq<Effect>) returns (r: KillRecord, b: seq<Effect>)
    requires Answers(w, before)
    ensures About(r, c) && Escalation(b, r) && Answers(w, before + b)
  {
    b := [Ask(w, before, c.pid, Term)];
    var sigtermOk := b[0].ok;
    var alive := true;
    for k := 0 to GRACE_PROBES
      invariant |b| == k + 1 && b[0] == Effect(c.pid, Term, sigtermOk)
      invariant alive && forall j :: 1 <= j <= k ==> b[j] == Effect(c.pid, Probe, true)
      invariant Answers(w, before + b)
    {
      var e := Ask(w, before + b, c.pid, Probe);
      assert before + (b + [e]) == before + b + [e];
      b := b + [e];
      if !e.ok {
        alive := false;
        break;
      }
    }
    var sigkillOk := None;
    if alive {
      var e := Ask(w, before + b, c.pid, Kill);
      assert before + (b + [e]) == before + b + [e];
      b := b + [e];
      sigkillOk := Some(e.ok);
    }
    r := KillRecord(c.pid, c.name, c.ageSec, sigtermOk, alive, sigkillOk);
  }

  function Spared(c: StaleProc): KillRecord {
    KillRecord(c.pid, c.name, c.ageSec, false, false, None)
  }

  function Chosen(table: seq<Process>, opts: Opts, me: Asker): seq<StaleProc> {
    var all := OldestFirst(FlatMap(table, Candidate(opts, me)));
    if opts.maxKills < |all| then all[..opts.maxKills] else all
  }

  predicate AllAbout(records: seq<KillRecord>, cs: seq<StaleProc>) {
    |records| == |cs| && forall i :: 0 <= i < |cs| ==> About(records[i], cs[i])
  }

  lemma WholeGrows(blocks: seq<seq<Effect>>, b: seq<Effect>)
    ensures Whole(blocks + [b]) == Whole(blocks) + b
  {
    assert (blocks + [b])[..|blocks|] == blocks;
  }

  lemma EscalationsGrow(blocks: seq<seq<Effect>>, records: seq<KillRecord>, b: seq<Effect>, r: KillRecord)
    requires Escalations(blocks, records) && Escalation(b, r)
    ensures Escalations(blocks + [b], records + [r])
  {
  }

  method TerminateAll(candidates: seq<StaleProc>, w: World)
    returns (records: seq<KillRecord>, trace: seq<Effect>, blocks: seq<seq<Effect>>)
    ensures AllAbout(records, candidates) && Escalations(blocks, records)
    ensures Answers(w, trace) && trace == Whole(blocks)
  {
    records, trace, blocks := [], [], [];
    for i := 0 to |candidates|
      invariant |records| == i && forall k :: 0 <= k < i ==> About(records[k], candidates[k])
      invariant Answers(w, trace) && trace == Whole(blocks)
      invariant Escalations(blocks, records)
    {
      var r, b := Terminate(candidates[i], w, trace);
      WholeGrows(blocks, b);
      EscalationsGrow(blocks, records, b, r);
      records, trace, blocks := records + [r], trace + b, blocks + [b];
    }
  }

  method SpareAll(candidates: seq<StaleProc>) returns (records: seq<KillRecord>)
    ensures |records| == |candidates| && forall i :: 0 <= i < |records| ==> records[i] == Spared(candidates[i])
  {
    records := [];
    for i := 0 to |candidates|
      invariant |records| == i && forall k :: 0 <= k < i ==> records[k] == Spared(candidates[k])
    {
      records := records + [Spared(candidates[i])];
    }
  }

  method Apply(table: seq<Process>, opts: Opts, me: Asker, w: World)
    returns (considered: nat, records: seq<KillRecord>, trace: seq<Effect>, blocks: seq<seq<Effect>>)
    ensures considered == |FlatMap(table, Candidate(opts, me))|
    ensures AllAbout(records, Chosen(table, opts, me))
    ensures Answers(w, trace) && trace == Whole(blocks)
    ensures opts.dryRun ==> trace == []
    ensures opts.dryRun ==>
              forall i :: 0 <= i < |records| ==>
                var c := Chosen(table, opts, me)[i];
                records[i] == KillRecord(c.pid, c.name, c.ageSec, false, false, None)
    ensures !opts.dryRun ==> Escalations(blocks, records)
  {
    var candidates := ListStale(table, opts, me);
    OldestFirstSorts(FlatMap(table, Candidate(opts, me)));
    considered := |candidates|;
    if opts.maxKills < |candidates| {
      candidates := candidates[..opts.maxKills];
    }
    if opts.dryRun {
      records := SpareAll(candidates);
      trace, blocks := [], [];
    } else {
      records, trace, blocks := TerminateAll(candidates, w);
    }
  }

  // ----- What the janitor promises -----

  predicate Allowed(name: string) {
    || name == "claude" || name == "claude-cli" || name == "kiro-cli" || name == "kiro-cli-chat"
    || name == "codex" || name == "codex-cli"
  }

  /** How long the process has run; none at all if it started later than the clock says. */
  predicate RunsFor(p: Process, now: nat, age: nat) {
    age == now - p.startTime || (now < p.startTime && age == 0)
  }

  /** The options as they were asked for. */
  lemma OptsAre(hours: real, maxCpu: real, maxKills: nat, dryRun: bool, requireNoTty: bool, age: nat)
    requires age < 0xFFFF_FFFF_FFFF_FFFF
    ensures var opts := NewOpts(hours, maxCpu, maxKills, dryRun, requireNoTty);
      && (age >= opts.minAgeSec <==> hours * 3600.0 < (age + 1) as real)
      && opts.maxCpu == maxCpu && opts.maxKills == Least(maxKills, 20)
      && opts.dryRun == dryRun && opts.requireNoTty == requireNoTty
  {
  }

  /** Exactly who may be signalled: a process of the daemon's own user under one of the six names, neither
      the daemon nor its child nor the first process, that has run for the hours asked for in whole seconds, is
      idle, and has no terminal where that is asked for. */
  lemma StaleIff(p: Process, hours: real, maxCpu: real, maxKills: nat, dryRun: bool, requireNoTty: bool, me: Asker,
                 age: nat)
    requires RunsFor(p, me.now, age) && age < 0xFFFF_FFFF_FFFF_FFFF
    ensures Stale(p, NewOpts(hours, maxCpu, maxKills, dryRun, requireNoTty), me) <==>
      && p.pid > 1 && p.pid != me.pid && p.parent != Some(me.pid) && p.uid == Some(me.uid)
      && Allowed(Descriptions.ToLowercase(p.name))
      && hours * 3600.0 < (age + 1) as real && p.cpu <= maxCpu
      && (requireNoTty ==> Terminal.HasNoTty(p.stat))
    ensures Described(p, me) == StaleProc(p.pid, p.parent, Descriptions.ToLowercase(p.name), age, p.cpu)
  {
    OptsAre(hours, maxCpu, maxKills, dryRun, requireNoTty, age);
  }

  predicate Descending(cs: seq<StaleProc>) {
    forall i, j :: 0 <= i < j < |cs| ==> cs[i].ageSec >= cs[j].ageSec
  }

  function OfAge(cs: seq<StaleProc>, age: nat): seq<StaleProc> {
    if cs == [] then [] else (if cs[0].ageSec == age then [cs[0]] else []) + OfAge(cs[1..], age)
  }

  predicate NoneOver(age: nat, cs: seq<StaleProc>) {
    forall i :: 0 <= i < |cs| ==> cs[i].ageSec <= age
  }

  lemma {:induction false} InsertDescends(c: StaleProc, cs: seq<StaleProc>)
    requires Descending(cs)
    ensures Descending(Insert(c, cs))
    ensures forall age :: NoneOver(age, cs) && c.ageSec <= age ==> NoneOver(age, Insert(c, cs))
  {
    if cs != [] && c.ageSec < cs[0].ageSec {
      InsertDescends(c, cs[1..]);
      assert NoneOver(cs[0].ageSec, cs[1..]);
      assert forall age :: NoneOver(age, cs) ==> NoneOver(age, cs[1..]) && cs[0].ageSec <= age;
    }
  }

  lemma {:induction false} InsertPermutes(c: StaleProc, cs: seq<StaleProc>)
    ensures multiset(Insert(c, cs)) == multiset{c} + multiset(cs)
  {
    if cs != [] && c.ageSec < cs[0].ageSec {
      InsertPermutes(c, cs[1..]);
      assert cs == [cs[0]] + cs[1..];
    }
  }

  lemma {:induction false} OldestFirstSorts(cs: seq<StaleProc>)
    ensures Descending(OldestFirst(cs)) && multiset(OldestFirst(cs)) == multiset(cs)
    ensures |OldestFirst(cs)| == |cs|
  {
    if cs != [] {
      OldestFirstSorts(cs[1..]);
      InsertDescends(cs[0], OldestFirst(cs[1..]));
      InsertPermutes(cs[0], OldestFirst(cs[1..]));
      assert cs == [cs[0]] + cs[1..];
      SameMembers(OldestFirst(cs), cs);
    }
  }

  lemma {:induction false} InsertIsStable(c: StaleProc, cs: seq<StaleProc>, age: nat)
    ensures OfAge(Insert(c, cs), age) == OfAge([c] + cs, age)
  {
    assert ([c] + cs)[1..] == cs;
    if cs != [] && c.ageSec < cs[0].ageSec {
      InsertIsStable(c, cs[1..], age);
      assert ([c] + cs[1..])[1..] == cs[1..];
      assert ([cs[0]] + Insert(c, cs[1..]))[1..] == Insert(c, cs[1..]);
    }
  }

  /** Processes of the same age stay in the order of the process table. */
  lemma {:induction false} SortIsStable(cs: seq<StaleProc>, age: nat)
    ensures OfAge(OldestFirst(cs), age) == OfAge(cs, age)
  {
    if cs != [] {
      SortIsStable(cs[1..], age);
      InsertIsStable(cs[0], OldestFirst(cs[1..]), age);
      assert ([cs[0]] + OldestFirst(cs[1..]))[1..] == OldestFirst(cs[1..]);
    }
  }

  predicate DistinctProcesses(table: seq<Process>) {
    forall i, j :: 0 <= i < j < |table| ==> table[i].pid != table[j].pid
  }

  predicate DistinctPids(cs: seq<StaleProc>) {
    forall i, j :: 0 <= i < j < |cs| ==> cs[i].pid != cs[j].pid
  }

  ghost predicate From(c: StaleProc, table: seq<Process>, opts: Opts, me: Asker) {
    exists p :: p in table && Stale(p, opts, me) && c == Described(p, me)
  }

  lemma {:induction false} CandidatesAre(table: seq<Process>, opts: Opts, me: Asker, c: StaleProc)
    ensures c in FlatMap(table, Candidate(opts, me)) <==> From(c, table, opts, me)
  {
    if table != [] {
      CandidatesAre(table[1..], opts, me, c);
      assert table == [table[0]] + table[1..];
    }
  }

  lemma {:induction false} CandidatesDistinct(table: seq<Process>, opts: Opts, me: Asker)
    requires DistinctProcesses(table)
    ensures DistinctPids(FlatMap(table, Candidate(opts, me)))
  {
    if table != [] {
      var rest := FlatMap(table[1..], Candidate(opts, me));
      CandidatesDistinct(table[1..], opts, me);
      forall i | 0 <= i < |rest|
        ensures rest[i].pid != table[0].pid
      {
        CandidatesAre(table[1..], opts, me, rest[i]);
        assert rest[i] in rest;
      }
    }
  }

  predicate Absent(pid: nat, cs: seq<StaleProc>) {
    forall i :: 0 <= i < |cs| ==> cs[i].pid != pid
  }

  lemma {:induction false} InsertDistinct(c: StaleProc, cs: seq<StaleProc>)
    requires DistinctPids(cs) && Absent(c.pid, cs)
    ensures DistinctPids(Insert(c, cs))
    ensures forall pid :: pid != c.pid && Absent(pid, cs) ==> Absent(pid, Insert(c, cs))
  {
    if cs != [] && c.ageSec < cs[0].ageSec {
      InsertDistinct(c, cs[1..]);
      assert Absent(cs[0].pid, cs[1..]);
      assert forall pid :: Absent(pid, cs) ==> Absent(pid, cs[1..]) && cs[0].pid != pid;
    }
  }

  lemma {:induction false} SortDistinct(cs: seq<StaleProc>)
    requires DistinctPids(cs)
    ensures DistinctPids(OldestFirst(cs))
    ensures forall pid :: Absent(pid, cs) ==> Absent(pid, OldestFirst(cs))
  {
    if cs != [] {
      SortDistinct(cs[1..]);
      assert Absent(cs[0].pid, cs[1..]);
      InsertDistinct(cs[0], OldestFirst(cs[1..]));
      assert forall pid :: Absent(pid, cs) ==> Absent(pid, cs[1..]) && cs[0].pid != pid;
    }
  }

  /** For every process table: those chosen are distinct, each passes the full filter, there are as
      many as the limit and the hard ceiling permit, and whoever passes the filter but is left out is
      no older than any of them. */
  lemma ChosenAreOldest(table: seq<Process>, hours: real, maxCpu: real, maxKills: nat, dryRun: bool,
                        requireNoTty: bool, me: Asker)
    requires DistinctProcesses(table)
    ensures var opts := NewOpts(hours, maxCpu, maxKills, dryRun, requireNoTty);
      var all := FlatMap(table, Candidate(opts, me));
      var chosen := Chosen(table, opts, me);
      && |chosen| == Least(|all|, Least(maxKills, 20))
      && DistinctPids(chosen)
      && (forall c :: c in chosen ==> From(c, table, opts, me))
      && (forall p, c :: p in table && Stale(p, opts, me) && Described(p, me) !in chosen && c in chosen ==>
            c.ageSec >= Age(p, me.now))
  {
    var opts := NewOpts(hours, maxCpu, maxKills, dryRun, requireNoTty);
    var all := FlatMap(table, Candidate(opts, me));
    var sorted := OldestFirst(all);
    var chosen := Chosen(table, opts, me);
    CandidatesDistinct(table, opts, me);
    SortDistinct(all);
    OldestFirstSorts(all);
    SameMembers(sorted, all);
    forall c | c in chosen
      ensures From(c, table, opts, me)
    {
      assert c in sorted;
      CandidatesAre(table, opts, me, c);
    }
    forall p, c | p in table && Stale(p, opts, me) && Described(p, me) !in chosen && c in chosen
      ensures c.ageSec >= Age(p, me.now)
    {
      var d := Described(p, me);
      CandidatesAre(table, opts, me, d);
      assert d in sorted;
      LeftOut(sorted, |chosen|, c, d);
    }
  }

  lemma LeftOut(sorted: seq<StaleProc>, n: nat, c: StaleProc, d: StaleProc)
    requires Descending(sorted) && n <= |sorted| && c in sorted[..n] && d in sorted && d !in sorted[..n]
    ensures c.ageSec >= d.ageSec
  {
    var i :| 0 <= i < n && sorted[i] == c;
    var j :| 0 <= j < |sorted| && sorted[j] == d;
    if j < n {
      assert sorted[..n][j] == d;
    }
  }

  function Least(a: nat, b: nat): nat {
    if a < b then a else b
  }

  // ----- Per process -----

  function On(pid: nat, trace: seq<Effect>): seq<Effect> {
    if trace == [] then []
    else On(pid, trace[..|trace| - 1]) + (if trace[|trace| - 1].pid == pid then [trace[|trace| - 1]] else [])
  }

  lemma {:induction false} OnAppend(pid: nat, a: seq<Effect>, b: seq<Effect>)
    ensures On(pid, a + b) == On(pid, a) + On(pid, b)
  {
    if b == [] {
      assert a + b == a;
    } else {
      OnAppend(pid, a, b[..|b| - 1]);
      assert (a + b)[..|a + b| - 1] == a + b[..|b| - 1];
    }
  }

  predicate Only(pid: nat, b: seq<Effect>) {
    forall i :: 0 <= i < |b| ==> b[i].pid == pid
  }

  lemma {:induction false} OnAll(pid: nat, own: nat, b: seq<Effect>)
    requires Only(own, b)
    ensures On(pid, b) == if pid == own then b else []
  {
    if b != [] {
      OnAll(pid, own, b[..|b| - 1]);
      assert b == b[..|b| - 1] + [b[|b| - 1]];
    }
  }

  lemma EscalationOn(b: seq<Effect>, r: KillRecord)
    requires Escalation(b, r)
    ensures Only(r.pid, b)
  {
  }

  predicate DistinctRecords(records: seq<KillRecord>) {
    forall i, j :: 0 <= i < j < |records| ==> records[i].pid != records[j].pid
  }

  predicate OwnedBy(blocks: seq<seq<Effect>>, owners: seq<nat>) {
    |blocks| == |owners| && forall i :: 0 <= i < |blocks| ==> Only(owners[i], blocks[i])
  }

  lemma {:induction false} OnForeign(blocks: seq<seq<Effect>>, owners: seq<nat>, pid: nat)
    requires OwnedBy(blocks, owners) && pid !in owners
    ensures On(pid, Whole(blocks)) == []
  {
    if blocks != [] {
      var n := |blocks| - 1;
      OnForeign(blocks[..n], owners[..n], pid);
      OnAppend(pid, Whole(blocks[..n]), blocks[n]);
      OnAll(pid, owners[n], blocks[n]);
    }
  }

  lemma OnLastBlock(blocks: seq<seq<Effect>>, owner: nat, pid: nat)
    requires blocks != [] && Only(owner, blocks[|blocks| - 1])
    ensures On(pid, Whole(blocks)) ==
            On(pid, Whole(blocks[..|blocks| - 1])) + (if pid == owner then blocks[|blocks| - 1] else [])
  {
    var n := |blocks| - 1;
    OnAppend(pid, Whole(blocks[..n]), blocks[n]);
    OnAll(pid, owner, blocks[n]);
  }

  lemma {:induction false} OnOwned(blocks: seq<seq<Effect>>, owners: seq<nat>, i: nat)
    requires OwnedBy(blocks, owners) && i < |owners|
    requires forall k :: 0 <= k < |owners| && k != i ==> owners[k] != owners[i]
    ensures On(owners[i], Whole(blocks)) == blocks[i]
  {
    var n := |blocks| - 1;
    OnLastBlock(blocks, owners[n], owners[i]);
    if i == n {
      OnForeign(blocks[..n], owners[..n], owners[i]);
    } else {
      OnOwned(blocks[..n], owners[..n], i);
    }
  }

  function Owners(records: seq<KillRecord>): (r: seq<nat>)
    ensures |r| == |records| && forall i :: 0 <= i < |r| ==> r[i] == records[i].pid
  {
    if records == [] then [] else [records[0].pid] + Owners(records[1..])
  }

  /** What the whole run does to one process is exactly its own escalation; to any other, nothing. */
  lemma PerProcess(blocks: seq<seq<Effect>>, records: seq<KillRecord>, pid: nat)
    requires Escalations(blocks, records) && DistinctRecords(records)
    ensures forall i :: 0 <= i < |records| && records[i].pid == pid ==> On(pid, Whole(blocks)) == blocks[i]
    ensures (forall i :: 0 <= i < |records| ==> records[i].pid != pid) ==> On(pid, Whole(blocks)) == []
  {
    var owners := Owners(records);
    forall i | 0 <= i < |blocks|
      ensures Only(owners[i], blocks[i])
    {
      EscalationOn(blocks[i], records[i]);
    }
    if i :| 0 <= i < |records| && records[i].pid == pid {
      OnOwned(blocks, owners, i);
    } else {
      OnForeign(blocks, owners, pid);
    }
  }

  ghost predicate Escalated(pid: nat, trace: seq<Effect>, records: seq<KillRecord>) {
    exists r :: r in records && r.pid == pid && Escalation(On(pid, trace), r)
  }

  /** A whole run signals the chosen processes, each by one full escalation, and no other. */
  lemma OnlyTheChosen(table: seq<Process>, opts: Opts, me: Asker, records: seq<KillRecord>,
                      blocks: seq<seq<Effect>>, pid: nat)
    requires DistinctProcesses(table)
    requires AllAbout(records, Chosen(table, opts, me)) && Escalations(blocks, records)
    ensures if Absent(pid, Chosen(table, opts, me)) then On(pid, Whole(blocks)) == []
            else Escalated(pid, Whole(blocks), records)
  {
    var chosen := Chosen(table, opts, me);
    var all := FlatMap(table, Candidate(opts, me));
    CandidatesDistinct(table, opts, me);
    SortDistinct(all);
    assert DistinctPids(chosen);
    assert DistinctRecords(records);
    PerProcess(blocks, records, pid);
    if !Absent(pid, chosen) {
      var i :| 0 <= i < |chosen| && chosen[i].pid == pid;
      assert records[i] in records && Escalation(blocks[i], records[i]);
    }
  }
}
