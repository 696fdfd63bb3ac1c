/** The machine-readable field output of lsof and the guard that reads it (src/process.rs). */
module Lsof {
  import opened Wrappers
  import opened Text
  import opened Numbers

  const U32_MAX: nat := 0xFFFF_FFFF

  datatype Holder = Holder(pid: nat, name: string)

  /** The parser's state between lines. */
  datatype Cursor = Cursor(pid: Option<nat>, name: Option<string>, holders: seq<Holder>)

  const START := Cursor(None, None, [])

  predicate Listed(holders: seq<Holder>, pid: nat) {
    exists i :: 0 <= i < |holders| && holders[i].pid == pid
  }

  function Add(holders: seq<Holder>, pid: nat, name: string, me: nat): seq<Holder> {
    if pid != me && !Listed(holders, pid) then holders + [Holder(pid, name)] else holders
  }

  function ReadLine(c: Cursor, line: string, me: nat): Cursor {
    if line == "" then c
    else if line[0] == 'p' then c.(pid := ParseUnsigned(line[1..], U32_MAX), name := None)
    else if line[0] == 'c' then c.(name := Some(line[1..]))
    else if line[0] == 'n' && c.pid.Some? && c.name.Some? then
      c.(holders := Add(c.holders, c.pid.value, c.name.value, me))
    else c
  }

  function ReadLines(c: Cursor, ls: seq<string>, me: nat): Cursor {
    if ls == [] then c else ReadLine(ReadLines(c, ls[..|ls| - 1], me), ls[|ls| - 1], me)
  }

  function Holders(output: string, me: nat): seq<Holder> {
    ReadLines(START, Lines(output), me).holders
  }

  method MemoryHolders(output: string, me: nat) returns (holders: seq<Holder>)
    ensures holders == Holders(output, me)
  {
    holders := [];
    var curPid: Option<nat> := None;
    var curName: Option<string> := None;
    var ls := Lines(output);
    for i := 0 to |ls|
      invariant Cursor(curPid, curName, holders) == ReadLines(START, ls[..i], me)
    {
      assert ls[..i + 1][..i] == ls[..i];
      var line := ls[i];
      if line == "" {
        continue;
      }
      if line[0] == 'p' {
        curPid := ParseUnsigned(line[1..], U32_MAX);
        curName := None;
      } else if line[0] == 'c' {
        curName := Some(line[1..]);
      } else if line[0] == 'n' {
        if curPid.Some? && curName.Some? {
          if curPid.value != me && !Listed(holders, curPid.value) {
            holders := holders + [Holder(curPid.value, curName.value)];
          }
        }
      }
    }
    assert ls[..|ls|] == ls;
  }

  // ----- Printed records -----

  /** One process: its pid line, field lines before the command line, the command line, and field
      lines after it, among which are the names of its open files. */
  datatype Record = Record(pid: nat, early: seq<string>, command: string, fields: seq<string>)

  predicate FieldLine(l: string) {
    PlainLine(l) && (l != "" ==> l[0] != 'p' && l[0] != 'c')
  }

  predicate NameLine(l: string) {
    l != "" && l[0] == 'n'
  }

  predicate GoodRecord(r: Record) {
    && r.pid <= 0xFFFF_FFFF && PlainLine("c" + r.command)
    && (forall i :: 0 <= i < |r.early| ==> FieldLine(r.early[i]))
    && (forall i :: 0 <= i < |r.fields| ==> FieldLine(r.fields[i]))
  }

  predicate SomeName(ls: seq<string>) {
    exists i :: 0 <= i < |ls| && NameLine(ls[i])
  }

  predicate HasName(r: Record) {
    SomeName(r.fields)
  }

  function ShowRecord(r: Record): seq<string> {
    ["p" + Show(r.pid, Ten)] + r.early + ["c" + r.command] + r.fields
  }

  function ShowRecords(rs: seq<Record>): seq<string> {
    if rs == [] then [] else ShowRecords(rs[..|rs| - 1]) + ShowRecord(rs[|rs| - 1])
  }

  /** The records that count: those of other processes with an open file, first ones only. */
  function FirstHolders(rs: seq<Record>, me: nat): seq<Holder> {
    if rs == [] then []
    else
      var r := rs[|rs| - 1];
      var before := FirstHolders(rs[..|rs| - 1], me);
      if HasName(r) then Add(before, r.pid, r.command, me) else before
  }

  lemma {:induction false} ReadLinesAppend(c: Cursor, ls: seq<string>, more: seq<string>, me: nat)
    ensures ReadLines(c, ls + more, me) == ReadLines(ReadLines(c, ls, me), more, me)
    decreases |more|
  {
    if more == [] {
      assert ls + more == ls;
    } else {
      var n := |more| - 1;
      assert (ls + more)[..|ls| + n] == ls + more[..n];
      ReadLinesAppend(c, ls, more[..n], me);
    }
  }

  lemma ReadOne(c: Cursor, l: string, me: nat)
    ensures ReadLines(c, [l], me) == ReadLine(c, l, me)
  {
    assert [l][..0] == [];
  }

  lemma {:induction false} EarlyLines(c: Cursor, ls: seq<string>, me: nat)
    requires c.name.None?
    requires forall i :: 0 <= i < |ls| ==> FieldLine(ls[i])
    ensures ReadLines(c, ls, me) == c
    decreases |ls|
  {
    if ls != [] {
      EarlyLines(c, ls[..|ls| - 1], me);
      assert FieldLine(ls[|ls| - 1]);
    }
  }

  lemma SomeNameSnoc(ls: seq<string>, n: nat)
    requires |ls| == n + 1
    ensures SomeName(ls) <==> SomeName(ls[..n]) || NameLine(ls[n])
  {
    assert forall i :: 0 <= i < n ==> ls[..n][i] == ls[i];
  }

  lemma {:induction false} FieldLines(c: Cursor, ls: seq<string>, me: nat)
    requires c.pid.Some? && c.name.Some?
    requires forall i :: 0 <= i < |ls| ==> FieldLine(ls[i])
    ensures ReadLines(c, ls, me) ==
              if SomeName(ls) then c.(holders := Add(c.holders, c.pid.value, c.name.value, me)) else c
    decreases |ls|
  {
    if ls != [] {
      var n := |ls| - 1;
      FieldLines(c, ls[..n], me);
      assert FieldLine(ls[n]);
      AddTwice(c.holders, c.pid.value, c.name.value, me);
      SomeNameSnoc(ls, n);
    }
  }

  lemma AddTwice(holders: seq<Holder>, pid: nat, name: string, me: nat)
    ensures Add(Add(holders, pid, name, me), pid, name, me) == Add(holders, pid, name, me)
  {
    var more := holders + [Holder(pid, name)];
    assert more[|holders|].pid == pid;
  }

  lemma PidLine(c: Cursor, pid: nat, me: nat)
    requires pid <= U32_MAX
    ensures ReadLine(c, "p" + Show(pid, Ten), me) == Cursor(Some(pid), None, c.holders)
  {
    var l := "p" + Show(pid, Ten);
    assert l[0] == 'p' && l[1..] == Show(pid, Ten);
    ParseOfShow(pid, U32_MAX);
  }

  lemma CommandLine(c: Cursor, command: string, me: nat)
    ensures ReadLine(c, "c" + command, me) == c.(name := Some(command))
  {
    var l := "c" + command;
    assert l[0] == 'c' && l[1..] == command;
  }

  lemma RecordRead(c: Cursor, r: Record, me: nat)
    requires GoodRecord(r)
    ensures ReadLines(c, ShowRecord(r), me) ==
              Cursor(Some(r.pid), Some(r.command),
                     if HasName(r) then Add(c.holders, r.pid, r.command, me) else c.holders)
  {
    var a, b, d := ["p" + Show(r.pid, Ten)], r.early, ["c" + r.command];
    var named := Cursor(Some(r.pid), None, c.holders);
    ReadLinesAppend(c, a + b + d, r.fields, me);
    ReadLinesAppend(c, a + b, d, me);
    ReadLinesAppend(c, a, b, me);
    ReadOne(c, a[0], me);
    PidLine(c, r.pid, me);
    EarlyLines(named, b, me);
    ReadOne(named, d[0], me);
    CommandLine(named, r.command, me);
    FieldLines(named.(name := Some(r.command)), r.fields, me);
  }

  lemma {:induction false} RecordsRead(rs: seq<Record>, me: nat)
    requires forall i :: 0 <= i < |rs| ==> GoodRecord(rs[i])
    ensures ReadLines(START, ShowRecords(rs), me).holders == FirstHolders(rs, me)
    decreases |rs|
  {
    if rs != [] {
      var n := |rs| - 1;
      RecordsRead(rs[..n], me);
      ReadLinesAppend(START, ShowRecords(rs[..n]), ShowRecord(rs[n]), me);
      RecordRead(ReadLines(START, ShowRecords(rs[..n]), me), rs[n], me);
    }
  }

  lemma PidIsPlain(pid: nat)
    ensures PlainLine("p" + Show(pid, Ten))
  {
    var s, l := Show(pid, Ten), "p" + Show(pid, Ten);
    assert forall i :: 0 <= i < |s| ==> IsDigit(s[i]);
    assert forall i :: 0 < i < |l| ==> l[i] == s[i - 1];
  }

  lemma RecordIsPlain(r: Record)
    requires GoodRecord(r)
    ensures forall i :: 0 <= i < |ShowRecord(r)| ==> PlainLine(ShowRecord(r)[i])
  {
    var a, b, d := ["p" + Show(r.pid, Ten)], r.early, ["c" + r.command];
    PidIsPlain(r.pid);
    forall i | 0 <= i < |ShowRecord(r)|
      ensures PlainLine(ShowRecord(r)[i])
    {
      if 1 <= i <= |b| {
        assert FieldLine(b[i - 1]);
      } else if |b| + 2 <= i {
        assert FieldLine(r.fields[i - |b| - 2]);
      }
    }
  }

  lemma {:induction false} RecordsArePlain(rs: seq<Record>)
    requires forall i :: 0 <= i < |rs| ==> GoodRecord(rs[i])
    ensures forall i :: 0 <= i < |ShowRecords(rs)| ==> PlainLine(ShowRecords(rs)[i])
    decreases |rs|
  {
    if rs != [] {
      RecordsArePlain(rs[..|rs| - 1]);
      RecordIsPlain(rs[|rs| - 1]);
    }
  }

  /** Reading the printing of any record list yields its first holders. */
  lemma HoldersRecovered(rs: seq<Record>, me: nat)
    requires forall i :: 0 <= i < |rs| ==> GoodRecord(rs[i])
    ensures Holders(Unlines(ShowRecords(rs)), me) == FirstHolders(rs, me)
  {
    RecordsArePlain(rs);
    LinesOfUnlines(ShowRecords(rs));
    RecordsRead(rs, me);
  }

  // ----- What is not a record -----

  /** Blank lines and lines of other fields are skipped. */
  lemma OtherLine(c: Cursor, l: string, me: nat)
    requires l == "" || (l[0] != 'p' && l[0] != 'c' && l[0] != 'n')
    ensures ReadLine(c, l, me) == c
  {
  }

  lemma {:induction false} NoPidNoHolder(c: Cursor, ls: seq<string>, me: nat)
    requires c.pid.None? && forall i :: 0 <= i < |ls| ==> ls[i] == "" || ls[i][0] != 'p'
    ensures ReadLines(c, ls, me).pid.None? && ReadLines(c, ls, me).holders == c.holders
    decreases |ls|
  {
    if ls != [] {
      NoPidNoHolder(c, ls[..|ls| - 1], me);
    }
  }

  lemma {:induction false} FromPidLine(c: Cursor, c': Cursor, ls: seq<string>, me: nat)
    requires ls != [] && ls[0] != "" && ls[0][0] == 'p' && c.holders == c'.holders
    ensures ReadLines(c, ls, me) == ReadLines(c', ls, me)
    decreases |ls|
  {
    var n := |ls| - 1;
    if n == 0 {
      assert ls[..0] == [];
    } else {
      FromPidLine(c, c', ls[..n], me);
    }
  }

  /** A record whose process number cannot be read changes nothing, whatever its other lines are. */
  lemma MalformedIgnored(before: seq<string>, bad: string, fields: seq<string>, after: seq<string>, me: nat)
    requires bad != "" && bad[0] == 'p' && ParseUnsigned(bad[1..], 0xFFFF_FFFF).None?
    requires forall i :: 0 <= i < |fields| ==> fields[i] == "" || fields[i][0] != 'p'
    requires after == [] || (after[0] != "" && after[0][0] == 'p')
    ensures ReadLines(START, before + [bad] + fields + after, me).holders
         == ReadLines(START, before + after, me).holders
  {
    var c := ReadLines(START, before, me);
    ReadLinesAppend(START, before + [bad] + fields, after, me);
    ReadLinesAppend(START, before + [bad], fields, me);
    ReadLinesAppend(START, before, [bad], me);
    ReadLinesAppend(START, before, after, me);
    ReadOne(c, bad, me);
    NoPidNoHolder(ReadLine(c, bad, me), fields, me);
    if after != [] {
      FromPidLine(ReadLines(ReadLine(c, bad, me), fields, me), c, after, me);
    }
  }

  // ----- What the first holders are -----

  predicate Counts(r: Record, me: nat) {
    HasName(r) && r.pid != me
  }

  /** Record i is the first counting record of its process. */
  ghost predicate FirstCounting(rs: seq<Record>, me: nat, i: nat) {
    && i < |rs| && Counts(rs[i], me)
    && forall j :: 0 <= j < i ==> !(Counts(rs[j], me) && rs[j].pid == rs[i].pid)
  }

  lemma {:induction false} ListedIff(rs: seq<Record>, me: nat, pid: nat)
    ensures Listed(FirstHolders(rs, me), pid) <==>
              exists i :: 0 <= i < |rs| && Counts(rs[i], me) && rs[i].pid == pid
    decreases |rs|
  {
    if rs != [] {
      var n := |rs| - 1;
      var before, after := FirstHolders(rs[..n], me), FirstHolders(rs, me);
      ListedIff(rs[..n], me, pid);
      assert forall i :: 0 <= i < n ==> rs[..n][i] == rs[i];
      assert forall i :: 0 <= i < |before| ==> after[i] == before[i];
      if after != before {
        assert after[|before|].pid == rs[n].pid;
      }
      ListedIff(rs[..n], me, rs[n].pid);
      if Counts(rs[n], me) && rs[n].pid == pid && after == before {
        assert Listed(before, pid);
      }
    }
  }

  /** The holders are exactly the first counting records, in order: each listed process comes
      from its first counting record, under the name given there, and every process with a
      counting record is listed once. */
  lemma {:induction false} HoldersExact(rs: seq<Record>, me: nat) returns (at: seq<nat>)
    ensures |at| == |FirstHolders(rs, me)|
    ensures forall k :: 0 <= k < |at| ==>
              FirstCounting(rs, me, at[k]) &&
              FirstHolders(rs, me)[k] == Holder(rs[at[k]].pid, rs[at[k]].command)
    ensures forall k, l :: 0 <= k < l < |at| ==> at[k] < at[l]
    ensures forall i :: FirstCounting(rs, me, i) ==> i in at
    decreases |rs|
  {
    at := [];
    if rs != [] {
      var n := |rs| - 1;
      var p := rs[..n];
      at := HoldersExact(p, me);
      assert forall i :: 0 <= i < n ==> p[i] == rs[i];
      forall i: nat | i < n
        ensures FirstCounting(p, me, i) <==> FirstCounting(rs, me, i)
      {
      }
      ListedIff(p, me, rs[n].pid);
      assert FirstCounting(rs, me, n) <==> Counts(rs[n], me) && !Listed(FirstHolders(p, me), rs[n].pid);
      if FirstCounting(rs, me, n) {
        at := at + [n];
      }
    }
  }

  /** No process is listed twice, and the daemon itself never is. */
  lemma {:induction false} HoldersDistinct(rs: seq<Record>, me: nat)
    ensures var hs := FirstHolders(rs, me);
            forall k, l :: 0 <= k < l < |hs| ==> hs[k].pid != hs[l].pid
    ensures !Listed(FirstHolders(rs, me), me)
  {
    var hs := FirstHolders(rs, me);
    var at := HoldersExact(rs, me);
    ListedIff(rs, me, me);
    forall k, l | 0 <= k < l < |hs|
      ensures hs[k].pid != hs[l].pid
    {
      assert FirstCounting(rs, me, at[l]) && FirstCounting(rs, me, at[k]);
    }
  }
}
